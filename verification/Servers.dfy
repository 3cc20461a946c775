/** The server in place: a linked list of streams, edited through the link that leads to
    the current one. Each node carries its stream's value. */
module Servers {
  import opened StreamModel
  import opened ServerModel

  class Conn {
    const id: nat
    var v: StreamValue
    var next: Conn?

    constructor (id: nat, v: StreamValue, next: Conn?)
      ensures this.id == id && this.v == v && this.next == next
    {
      this.id, this.v, this.next := id, v, next;
    }
  }

  function NodeAt(nodes: seq<Conn>, i: nat): Conn? {
    if i < |nodes| then nodes[i] else null
  }

  /** The nodes of a list that starts at `head`, in order. */
  ghost predicate Linked(head: Conn?, nodes: seq<Conn>)
    reads set c | c in nodes
  {
    && (forall i, j :: 0 <= i < j < |nodes| ==> nodes[i] != nodes[j])
    && head == NodeAt(nodes, 0)
    && forall i :: 0 <= i < |nodes| ==> nodes[i].next == NodeAt(nodes, i + 1)
  }

  ghost function Entries(nodes: seq<Conn>): (es: seq<Entry>)
    reads set c | c in nodes
    ensures |es| == |nodes|
    ensures forall i :: 0 <= i < |es| ==> es[i] == Entry(nodes[i].id, nodes[i].v)
  {
    seq(|nodes|, i requires 0 <= i < |nodes| reads set c | c in nodes => Entry(nodes[i].id, nodes[i].v))
  }

  class Server {
    var streams: Conn?
    var log: seq<Event>
    var nextId: nat
    const options: Options
    ghost var nodes: seq<Conn>

    ghost predicate Valid()
      reads this, nodes
    {
      Linked(streams, nodes) && AllValid(Entries(nodes))
    }

    ghost function Value(hung: bool): (s: ServerValue)
      reads this, nodes
      requires Valid()
      ensures s.Valid()
    {
      ServerValue(Entries(nodes), log, nextId, hung)
    }

    constructor (o: Options)
      ensures Valid() && options == o && Value(false) == EMPTY_SERVER
    {
      streams, log, nextId, options, nodes := null, [], 0, o, [];
    }

    /** One stream's turn: receive or send, limits, and the close event of one that goes. */
    method Serve(st: Conn, p: Poll) returns (leaves: bool, code: int, hung: bool)
      requires st.v.Valid()
      modifies `log, st`v
      ensures match TakeTurn(Entry(st.id, old(st.v)), old(log), options, p)
              case Stays(v, log1) => !leaves && !hung && code == ESUCCESS && st.v == v && log == log1
              case Leaves(log1) => leaves && !hung && code == ESUCCESS && log == log1
              case Fails(v, log1, c) => !leaves && !hung && code == c && code != ESUCCESS && st.v == v && log == log1
              case Hangs(v, log1) => !leaves && hung && code == ESUCCESS && st.v == v && log == log1
    {
      hide AfterRecv, AfterSend;
      leaves, code, hung := false, ESUCCESS, false;
      if p.ready(st.id) {
        if Rank(st.v.state) < Rank(SendingStatus) {
          var before := log;
          var r := AfterRecv(st.v, p.input(st.id), r => options.handler(before + [Requested(st.id, r)]), p.now);
          st.v := r.v;
          if r.NoReturn? { return false, ESUCCESS, true; }
          if r.request.Some? { log := log + [Requested(st.id, r.request.value)]; }
          code := r.code;
        } else {
          var r := AfterSend(st.v, p.output(st.id), p.now);
          st.v, code := r.0, r.1;
        }
        if code != ESUCCESS { return; }
      }
      if OverLimit(st.v, options, p.now) {
        st.v := st.v.(state := Closing);
      }
      if st.v.state == Closing {
        log := log + [Close(st.id)];
        leaves := true;
      }
    }

    /** *st_next = st->next, with the link that leads to `st` in `prev` or the server. */
    method Unlink(prev: Conn?, st: Conn, ghost k: nat)
      requires Linked(streams, nodes) && k < |nodes| && st == nodes[k]
      requires prev == if k == 0 then null else nodes[k - 1]
      modifies `streams, `nodes, nodes`next
      ensures nodes == old(nodes[..k] + nodes[k + 1..])
      ensures Linked(streams, nodes)
    {
      ghost var was := nodes;
      assert was[k].next == NodeAt(was, k + 1);
      if prev == null { streams := st.next; } else { prev.next := st.next; }
      nodes := was[..k] + was[k + 1..];
      assert forall i :: 0 <= i <= |nodes| ==> NodeAt(nodes, i) == if i < k then was[i] else NodeAt(was, i + 1);
      forall i | 0 <= i < |nodes|
        ensures nodes[i].next == NodeAt(nodes, i + 1)
      {
        assert nodes[i] == was[if i < k then i else i + 1];
      }
    }

    lemma DescribedWithout(es: seq<Entry>, was: seq<Conn>, k: nat)
      requires |es| == |was| && k < |es|
      requires forall i :: 0 <= i < |es| && i != k ==> es[i] == Entry(was[i].id, was[i].v)
      ensures Describes(es[..k] + es[k + 1..], was[..k] + was[k + 1..])
    {
    }

    /** A pass has handled the first `k` nodes and stands at `st`, behind `prev`. */
    ghost predicate InPass(es: seq<Entry>, k: nat, prev: Conn?, st: Conn?)
      reads this, nodes
    {
      && k <= |nodes| && Linked(streams, nodes)
      && prev == (if k == 0 then null else nodes[k - 1]) && st == NodeAt(nodes, k)
      && Describes(es, nodes) && AllValid(es)
    }

    /** One round of the pass; `st1` is where it goes on, if it does. */
    method ServeNext(prev: Conn?, st: Conn, p: Poll, ghost es: seq<Entry>, ghost k: nat, ghost all: set<Conn>)
      returns (prev1: Conn?, st1: Conn?, code: int, hung: bool, ghost es1: seq<Entry>, ghost k1: nat)
      requires InPass(es, k, prev, st) && forall c :: c in nodes ==> c in all
      modifies this, all
      ensures (forall c :: c in nodes ==> c in all) && nextId == old(nextId)
      ensures InPass(es1, k1, prev1, st1)
      ensures |nodes| - k1 < old(|nodes|) - k
      ensures Prepended(es[..k], Pass(es[k..], old(log), options, p)) ==
              if code == ESUCCESS && !hung then Prepended(es1[..k1], Pass(es1[k1..], log, options, p))
              else Passed(es1, log, code, hung)
    {
      hide TakeTurn, OverLimit, Pass, Prepended, StreamValue.Valid;
      ghost var log0, was := log, nodes;
      assert es[k] == Entry(st.id, st.v) && es[k].Valid();
      var leaves, next := false, st.next;
      leaves, code, hung := Serve(st, p);
      assert Linked(streams, nodes);
      assert forall i :: 0 <= i < |es| && i != k ==> es[i] == Entry(was[i].id, was[i].v);
      if leaves {
        LeavingTurn(es, k, log0, options, p);
        prev1, st1, k1, es1 := prev, next, k, es[..k] + es[k + 1..];
        Unlink(prev, st, k);
        DescribedWithout(es, was, k);
      } else {
        prev1, st1, k1, es1 := st, next, k + 1, es[k := Entry(st.id, st.v)];
        assert Describes(es1, nodes);
        StayingTurn(es, es1, k, log0, options, p);
      }
    }

    /** The pass over the existing streams, unlinking those that close. */
    method ServeAll(p: Poll) returns (code: int, hung: bool)
      requires Valid()
      modifies this, nodes
      ensures Valid() && forall c :: c in nodes ==> c in old(nodes)
      ensures Passed(Entries(nodes), log, code, hung) == Pass(old(Entries(nodes)), old(log), options, p)
      ensures nextId == old(nextId)
    {
      hide Pass, Prepended, StreamValue.Valid, Linked;
      ghost var all := set c | c in nodes;
      ghost var es := Entries(nodes);
      ghost var es0, k: nat := es, 0;
      var prev: Conn?, st := null, streams;
      code, hung := ESUCCESS, false;
      WholePass(es, log, options, p);
      StartOfPass();
      while st != null
        invariant InPass(es, k, prev, st)
        invariant forall c :: c in nodes ==> c in all
        invariant Pass(es0, old(log), options, p) == Prepended(es[..k], Pass(es[k..], log, options, p))
        invariant nextId == old(nextId) && code == ESUCCESS && !hung
        decreases |nodes| - k
      {
        prev, st, code, hung, es, k := ServeNext(prev, st, p, es, k, all);
        if code != ESUCCESS || hung {
          assert Entries(nodes) == es;
          return;
        }
      }
      assert Entries(nodes) == es && es[..k] == es && es[k..] == [];
      EmptyPass(es, log, options, p);
    }

    lemma StartOfPass()
      requires Valid()
      ensures InPass(Entries(nodes), 0, null, streams)
    {
    }

    /** One new connection: its stream at the front of the list, and its connect event. */
    method Connected(now: int) returns (code: int)
      requires Valid()
      modifies this
      ensures Valid() && |nodes| > 0 && fresh(nodes[0]) && nodes[1..] == old(nodes)
      ensures var log1 := old(log) + [Connect(old(nextId))];
              var (v, c) := AfterReply(NewStream(now), options.handler(log1));
              code == c && Value(false) ==
                        ServerValue([Entry(old(nextId), v)] + old(Entries(nodes)), log1, old(nextId) + 1, false)
    {
      hide AfterReply, Linked, Entries, StreamValue.Valid;
      ghost var es := Entries(nodes);
      var st := new Conn(nextId, NewStream(now), streams);
      LinkedInFront(st, nodes);
      streams := st;
      log := log + [Connect(nextId)];
      var r := AfterReply(st.v, options.handler(log));
      st.v, code := r.0, r.1;
      LinkedInFront(st, nodes);
      nodes, nextId := [st] + nodes, nextId + 1;
      assert Entries(nodes) == [Entry(st.id, st.v)] + es;
    }

    /** The new connections, until accept() hands out no more. */
    method AcceptAll(accepted: seq<Accepted>, now: int) returns (code: int)
      requires Valid()
      modifies this
      ensures Valid() && forall c :: c in nodes ==> c in old(nodes) || fresh(c)
      ensures (Value(false), code) == AfterAccepts(old(Value(false)), accepted, options, now)
    {
      hide AfterReply, Linked, Entries, AllValid, AfterAccepts;
      ghost var s0 := Value(false);
      var i := 0;
      assert accepted[0..] == accepted;
      while i < |accepted|
        invariant i <= |accepted| && Valid()
        invariant forall c :: c in nodes ==> c in old(nodes) || fresh(c)
        invariant AfterAccepts(s0, accepted, options, now) == AfterAccepts(Value(false), accepted[i..], options, now)
      {
        ghost var s := Value(false);
        AcceptStep(s, accepted, i, options, now);
        if accepted[i].tooBig { return EFDTOOBIG; }
        if !accepted[i].haveMemory { return EOUTOFMEM; }
        code := Connected(now);
        assert forall c :: c in nodes ==> c == nodes[0] || c in nodes[1..];
        if code != ESUCCESS { return; }
        i := i + 1;
      }
      AcceptStep(Value(false), accepted, i, options, now);
      return ESUCCESS;
    }

    /** sb_poll_server. */
    method PollServer(p: Poll) returns (code: int, hung: bool)
      requires Valid()
      modifies this, nodes
      ensures Valid() && (Value(hung), code) == AfterPoll(old(Value(false)), options, p)
    {
      hide Pass, AfterAccepts;
      code, hung := ServeAll(p);
      if code != ESUCCESS || hung || !p.listening { return; }
      code := AcceptAll(p.accepted, p.now);
    }

    /** sb_close_server: each stream leaves the list and is told. */
    method CloseServer()
      requires Valid()
      modifies this
      ensures Valid() && Value(false) == AfterClose(old(Value(false)))
    {
      hide Linked, AllValid, Entries;
      ghost var all := Entries(nodes);
      while streams != null
        invariant Valid()
        invariant log + CloseEvents(Entries(nodes)) == old(log) + CloseEvents(all) && nextId == old(nextId)
        decreases |nodes|
      {
        var st := streams;
        ghost var es := Entries(nodes);
        WithoutFirst(st, nodes);
        streams, nodes := st.next, nodes[1..];
        assert Entries(nodes) == es[1..];
        log := log + [Close(st.id)];
      }
      WithoutFirst(streams, nodes);
      assert Entries(nodes) == [];
    }
  }

  lemma LinkedInFront(st: Conn, nodes: seq<Conn>)
    requires Linked(st.next, nodes) && st !in nodes
    ensures Linked(st, [st] + nodes)
  {
    forall i | 0 <= i < |nodes| + 1
      ensures ([st] + nodes)[i].next == NodeAt([st] + nodes, i + 1)
    {
      if i > 0 { assert nodes[i - 1].next == NodeAt(nodes, i); }
    }
  }

  lemma WithoutFirst(head: Conn?, nodes: seq<Conn>)
    requires Linked(head, nodes) && AllValid(Entries(nodes))
    ensures head == null <==> nodes == []
    ensures head != null ==> head == nodes[0] && Linked(head.next, nodes[1..]) && AllValid(Entries(nodes[1..]))
  {
    if nodes != [] {
      assert nodes[0].next == NodeAt(nodes, 1);
      forall i | 0 <= i < |nodes| - 1
        ensures nodes[1..][i].next == NodeAt(nodes[1..], i + 1) && Entries(nodes[1..])[i].Valid()
      {
        assert nodes[i + 1].next == NodeAt(nodes, i + 2) && Entries(nodes)[i + 1].Valid();
      }
    }
  }

  lemma AcceptStep(s: ServerValue, accepted: seq<Accepted>, i: nat, o: Options, now: int)
    requires s.Valid() && i <= |accepted|
    ensures AfterAccepts(s, accepted[i..], o, now) ==
            if i == |accepted| then (s, ESUCCESS)
            else if accepted[i].tooBig then (s, EFDTOOBIG)
            else if !accepted[i].haveMemory then (s, EOUTOFMEM)
            else
              var log1 := s.log + [Connect(s.nextId)];
              var (v, code) := AfterReply(NewStream(now), o.handler(log1));
              var s1 := ServerValue([Entry(s.nextId, v)] + s.entries, log1, s.nextId + 1, s.hung);
              if code != ESUCCESS then (s1, code) else AfterAccepts(s1, accepted[i + 1..], o, now)
  {
    if i < |accepted| {
      assert accepted[i..][0] == accepted[i] && accepted[i..][1..] == accepted[i + 1..];
    }
  }

  lemma WholePass(es: seq<Entry>, log: seq<Event>, o: Options, p: Poll)
    requires AllValid(es)
    ensures Pass(es, log, o, p) == Prepended(es[..0], Pass(es[0..], log, o, p))
  {
    assert es[0..] == es && es[..0] == [];
  }

  lemma EmptyPass(es: seq<Entry>, log: seq<Event>, o: Options, p: Poll)
    ensures Prepended(es, Pass([], log, o, p)) == Passed(es, log, ESUCCESS, false)
  {
  }

  ghost predicate Describes(es: seq<Entry>, nodes: seq<Conn>)
    reads set c | c in nodes
  {
    |es| == |nodes| && forall i :: 0 <= i < |es| ==> es[i] == Entry(nodes[i].id, nodes[i].v)
  }

  /** The entries already passed, in front of what the rest of the pass yields. */
  ghost function Prepended(done: seq<Entry>, r: Passed): Passed {
    r.(entries := done + r.entries)
  }

  lemma LeavingTurn(es: seq<Entry>, k: nat, log: seq<Event>, o: Options, p: Poll)
    requires AllValid(es) && k < |es|
    requires TakeTurn(es[k], log, o, p).Leaves?
    ensures var t := TakeTurn(es[k], log, o, p); var es1 := es[..k] + es[k + 1..];
            AllValid(es1) &&
            Prepended(es[..k], Pass(es[k..], log, o, p)) == Prepended(es1[..k], Pass(es1[k..], t.log, o, p))
  {
    var es1 := es[..k] + es[k + 1..];
    assert es1[..k] == es[..k] && es1[k..] == es[k..][1..] && es[k..][0] == es[k];
  }

  lemma StayingTurn(es: seq<Entry>, es1: seq<Entry>, k: nat, log: seq<Event>, o: Options, p: Poll)
    requires AllValid(es) && k < |es|
    requires var t := TakeTurn(es[k], log, o, p); !t.Leaves? && es1 == es[k := Entry(es[k].id, t.v)]
    ensures AllValid(es1)
    ensures Prepended(es[..k], Pass(es[k..], log, o, p)) ==
            match TakeTurn(es[k], log, o, p)
            case Stays(v, log1) => Prepended(es1[..k + 1], Pass(es1[k + 1..], log1, o, p))
            case Fails(v, log1, code) => Passed(es1, log1, code, false)
            case Hangs(v, log1) => Passed(es1, log1, ESUCCESS, true)
            case _ => Prepended(es[..k], Pass(es[k..], log, o, p))
  {
    var rest := es[k..][1..];
    assert es[k..][0] == es[k] && rest == es1[k + 1..];
    assert es1[..k + 1] == es[..k] + [es1[k]];
    assert es1 == es[..k] + ([es1[k]] + rest);
  }
}
