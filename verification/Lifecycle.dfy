/** The life of every connection over whole runs of a server: one connect, at most one
    request, one close; and the order of the list. */
module Lifecycle {
  import opened Basics
  import opened StreamModel
  import opened Reception
  import opened ServerModel

  // ---- one connection's events ----

  datatype Life = Unborn | Connected | Asked | Gone | Broken

  function Id(e: Event): nat {
    match e case Connect(i) => i case Requested(i, _) => i case Close(i) => i
  }

  function AfterEvent(l: Life, e: Event): Life {
    match (l, e)
    case (Unborn, Connect(_)) => Connected
    case (Connected, Requested(_, _)) => Asked
    case (Connected, Close(_)) => Gone
    case (Asked, Close(_)) => Gone
    case _ => Broken
  }

  /** Where the events of connection `id` have brought it. */
  function LifeOf(log: seq<Event>, id: nat): Life {
    if log == [] then Unborn
    else
      var before := LifeOf(log[..|log| - 1], id);
      var e := log[|log| - 1];
      if Id(e) == id then AfterEvent(before, e) else before
  }

  /** The events of one connection, in order. */
  function Of(log: seq<Event>, id: nat): seq<Event> {
    if log == [] then []
    else
      var before := Of(log[..|log| - 1], id);
      var e := log[|log| - 1];
      if Id(e) == id then before + [e] else before
  }

  /** What the states of a life say about the events. */
  lemma {:induction false} LifeMeans(log: seq<Event>, id: nat)
    ensures LifeOf(log, id) == Unborn <==> Of(log, id) == []
    ensures LifeOf(log, id) == Connected <==> |Of(log, id)| == 1 && Of(log, id)[0] == Connect(id)
    ensures LifeOf(log, id) == Asked <==>
            |Of(log, id)| == 2 && Of(log, id)[0] == Connect(id) && Of(log, id)[1].Requested?
    ensures LifeOf(log, id) == Gone <==>
            var es := Of(log, id);
            2 <= |es| <= 3 && es[0] == Connect(id) && (|es| == 3 ==> es[1].Requested?) && es[|es| - 1] == Close(id)
  {
    if log != [] {
      LifeMeans(log[..|log| - 1], id);
    }
  }

  lemma LifeGoesOn(log: seq<Event>, e: Event, id: nat)
    ensures LifeOf(log + [e], id) == if Id(e) == id then AfterEvent(LifeOf(log, id), e) else LifeOf(log, id)
  {
    assert (log + [e])[..|log|] == log;
  }

  // ---- a turn ----

  /** The life a listed connection may have in the state its stream is in. */
  ghost predicate Fits(v: StreamValue, l: Life) {
    l == Connected || (l == Asked && Rank(v.state) >= Rank(SendingStatus))
  }

  lemma ReceivingGoesForward(v: StreamValue, input: Input, handler: Request -> Reply, now: int)
    requires v.Valid() && Rank(v.state) < Rank(SendingStatus)
    ensures var r := AfterRecv(v, input, handler, now);
            && Rank(v.state) <= Rank(r.v.state)
            && (r.Returned? && r.request.Some? ==> Rank(r.v.state) >= Rank(SendingStatus))
  {
    hide AfterChunks, AfterRequest;
    ChunksGoForward(v, input.chunks, input.grant, now);
    var fed := AfterChunks(v, input.chunks, input.grant, now);
    if fed.Ready? { RequestGoesForward(fed.v, input.grant, handler); }
  }

  /** A turn tells only its own connection anything. */
  lemma TurnIsPrivate(e: Entry, log: seq<Event>, o: Options, p: Poll, id: nat)
    requires e.Valid() && id != e.id
    ensures LifeOf(TakeTurn(e, log, o, p).log, id) == LifeOf(log, id)
  {
    hide AfterRecv, AfterSend, LifeOf, OverLimit;
    var log1 := log;
    if p.ready(e.id) && Rank(e.v.state) < Rank(SendingStatus) {
      var r := AfterRecv(e.v, p.input(e.id), r => o.handler(log + [Requested(e.id, r)]), p.now);
      if r.Returned? && r.request.Some? {
        log1 := log + [Requested(e.id, r.request.value)];
        LifeGoesOn(log, Requested(e.id, r.request.value), id);
      }
    }
    LifeGoesOn(log1, Close(e.id), id);
  }

  /** A turn keeps its connection's life in order and its state going forward. */
  lemma TurnInOrder(e: Entry, log: seq<Event>, o: Options, p: Poll)
    requires e.Valid() && Fits(e.v, LifeOf(log, e.id))
    ensures var t := TakeTurn(e, log, o, p);
            && (t.Leaves? ==> LifeOf(t.log, e.id) == Gone)
            && (!t.Leaves? ==> Fits(t.v, LifeOf(t.log, e.id)) && Rank(e.v.state) <= Rank(t.v.state))
            && (t.Stays? ==> t.v.state != Closing)
  {
    hide AfterRecv, AfterSend, LifeOf, OverLimit;
    var log1 := log;
    if p.ready(e.id) && Rank(e.v.state) < Rank(SendingStatus) {
      var handler := r => o.handler(log + [Requested(e.id, r)]);
      ReceivingGoesForward(e.v, p.input(e.id), handler, p.now);
      var r := AfterRecv(e.v, p.input(e.id), handler, p.now);
      if r.Returned? && r.request.Some? {
        log1 := log + [Requested(e.id, r.request.value)];
        LifeGoesOn(log, Requested(e.id, r.request.value), e.id);
      }
    } else if p.ready(e.id) {
      SendingGoesForward(e.v, p.output(e.id), p.now);
    }
    LifeGoesOn(log1, Close(e.id), e.id);
  }

  lemma SendingGoesForward(v: StreamValue, out: Output, now: int)
    requires v.Valid()
    ensures Rank(v.state) <= Rank(AfterSend(v, out, now).0.state)
  {
  }

  // ---- a pass ----

  function Find(entries: seq<Entry>, id: nat): (r: Option<StreamValue>)
    ensures r.Some? && AllValid(entries) ==> r.value.Valid()
  {
    if entries == [] then None
    else if entries[0].id == id then Some(entries[0].v)
    else Find(entries[1..], id)
  }

  predicate Distinct(entries: seq<Entry>) {
    entries == [] || (Find(entries[1..], entries[0].id) == None && Distinct(entries[1..]))
  }

  /** Every listed connection has a life that fits its stream's state. */
  ghost predicate AllFit(entries: seq<Entry>, log: seq<Event>) {
    forall id: nat :: Find(entries, id).Some? ==> Fits(Find(entries, id).value, LifeOf(log, id))
  }

  /** After a turn the others still fit. */
  lemma OthersFit(todo: seq<Entry>, log: seq<Event>, o: Options, p: Poll)
    requires todo != [] && AllValid(todo) && Distinct(todo) && AllFit(todo, log)
    ensures Fits(todo[0].v, LifeOf(log, todo[0].id))
    ensures AllFit(todo[1..], TakeTurn(todo[0], log, o, p).log)
  {
    var e := todo[0];
    assert Find(todo, e.id) == Some(e.v);
    forall id: nat | Find(todo[1..], id).Some?
      ensures Fits(Find(todo[1..], id).value, LifeOf(TakeTurn(e, log, o, p).log, id))
    {
      assert Find(todo, id) == Find(todo[1..], id);
      TurnIsPrivate(e, log, o, p, id);
    }
  }

  /** What a pass does to one connection: it leaves one that is not listed alone; a
      listed one stays with a fitting life and no earlier state, or is gone. */
  ghost predicate Passes(before: Option<StreamValue>, l: Life, after: Option<StreamValue>, l1: Life, ok: bool) {
    match before
    case None => after.None? && l1 == l
    case Some(v) =>
      match after
      case None => l1 == Gone
      case Some(u) => Fits(u, l1) && Rank(v.state) <= Rank(u.state) && (ok ==> u.state != Closing)
  }

  lemma {:induction false} PassForOne(todo: seq<Entry>, log: seq<Event>, o: Options, p: Poll, id: nat)
    requires AllValid(todo) && Distinct(todo) && AllFit(todo, log)
    ensures var r := Pass(todo, log, o, p);
            Passes(Find(todo, id), LifeOf(log, id), Find(r.entries, id), LifeOf(r.log, id), r.Ok())
    decreases |todo|
  {
    hide TakeTurn, LifeOf, AllFit, StreamValue.Valid;
    if todo != [] {
      var e, rest := todo[0], todo[1..];
      OthersFit(todo, log, o, p);
      TurnInOrder(e, log, o, p);
      var t := TakeTurn(e, log, o, p);
      if id != e.id { TurnIsPrivate(e, log, o, p, id); }
      PassForOne(rest, t.log, o, p, id);
      if t.Fails? || t.Hangs? {
        assert ([Entry(e.id, t.v)] + rest)[1..] == rest;
        if id != e.id && Find(rest, id).Some? { FitsThere(todo, log, id); }
      } else if t.Stays? {
        var r := Pass(rest, t.log, o, p);
        assert ([Entry(e.id, t.v)] + r.entries)[1..] == r.entries;
      }
    }
  }

  lemma FitsThere(entries: seq<Entry>, log: seq<Event>, id: nat)
    requires AllFit(entries, log) && Find(entries, id).Some?
    ensures Fits(Find(entries, id).value, LifeOf(log, id))
  {
  }

  lemma PassKeepsDistinct(todo: seq<Entry>, log: seq<Event>, o: Options, p: Poll)
    requires AllValid(todo) && Distinct(todo) && AllFit(todo, log)
    ensures Distinct(Pass(todo, log, o, p).entries)
    decreases |todo|
  {
    hide TakeTurn, LifeOf, AllFit, StreamValue.Valid;
    if todo != [] {
      var e, rest := todo[0], todo[1..];
      OthersFit(todo, log, o, p);
      var t := TakeTurn(e, log, o, p);
      PassKeepsDistinct(rest, t.log, o, p);
      PassForOne(rest, t.log, o, p, e.id);
      if t.Fails? || t.Hangs? {
        assert ([Entry(e.id, t.v)] + rest)[1..] == rest;
      } else if t.Stays? {
        var r := Pass(rest, t.log, o, p);
        assert ([Entry(e.id, t.v)] + r.entries)[1..] == r.entries;
      }
    }
  }

  /** A pass ends early only on a turn that fails or does not return, with that turn's code. */
  lemma {:induction false} PassEndsWithCause(todo: seq<Entry>, log: seq<Event>, o: Options, p: Poll)
    returns (k: nat, at: seq<Event>)
    requires AllValid(todo) && !Pass(todo, log, o, p).Ok()
    ensures k < |todo|
    ensures var r := Pass(todo, log, o, p);
            var t := TakeTurn(todo[k], at, o, p);
            if r.hung then t.Hangs? else t.Fails? && r.code == t.code
    decreases |todo|
  {
    hide TakeTurn, StreamValue.Valid;
    var t := TakeTurn(todo[0], log, o, p);
    k, at := 0, log;
    if t.Stays? || t.Leaves? {
      var j;
      j, at := PassEndsWithCause(todo[1..], t.log, o, p);
      k := j + 1;
    }
  }

  /** The numbers of the listed connections, in list order. */
  function Ids(entries: seq<Entry>): seq<nat> {
    if entries == [] then [] else [entries[0].id] + Ids(entries[1..])
  }

  /** Of these connections, in this order, the ones a log has no close event for. */
  function NotGone(ids: seq<nat>, log: seq<Event>): seq<nat> {
    if ids == [] then []
    else (if LifeOf(log, ids[0]) == Gone then [] else [ids[0]]) + NotGone(ids[1..], log)
  }

  /** A pass that runs to the end leaves precisely the connections it did not close, in
      their old order. */
  lemma {:induction false} PassKeepsOrder(todo: seq<Entry>, log: seq<Event>, o: Options, p: Poll)
    requires AllValid(todo) && Distinct(todo) && AllFit(todo, log)
    requires Pass(todo, log, o, p).Ok()
    ensures var r := Pass(todo, log, o, p); Ids(r.entries) == NotGone(Ids(todo), r.log)
    decreases |todo|
  {
    hide TakeTurn, LifeOf, AllFit, StreamValue.Valid;
    if todo != [] {
      var e, rest := todo[0], todo[1..];
      OthersFit(todo, log, o, p);
      TurnInOrder(e, log, o, p);
      var t := TakeTurn(e, log, o, p);
      PassForOne(rest, t.log, o, p, e.id);
      PassKeepsOrder(rest, t.log, o, p);
      assert Ids(todo)[1..] == Ids(rest);
      if t.Stays? {
        var r := Pass(rest, t.log, o, p);
        assert ([Entry(e.id, t.v)] + r.entries)[1..] == r.entries;
      }
    }
  }

  /** What the options allow a listed stream at a time. */
  ghost predicate WithinLimits(v: StreamValue, o: Options, now: int) {
    && (o.timeout > 0 ==> now <= v.lastActivity + o.timeout / 1000)
    && (o.maxLifetime > 0 ==> now <= v.initTime + o.maxLifetime / 1000)
    && (o.maxRequestSize > 0 ==> |v.recv.bytes| < o.maxRequestSize)
  }

  /** After a pass that runs to the end every stream left in the list is open, idle and
      alive no longer than allowed, and holds less than the largest request. */
  lemma {:induction false} PassWithinLimits(todo: seq<Entry>, log: seq<Event>, o: Options, p: Poll)
    requires AllValid(todo) && Pass(todo, log, o, p).Ok()
    ensures var es := Pass(todo, log, o, p).entries;
            forall k :: 0 <= k < |es| ==> es[k].v.state != Closing && WithinLimits(es[k].v, o, p.now)
    decreases |todo|
  {
    hide AfterRecv, AfterSend;
    if todo != [] {
      var t := TakeTurn(todo[0], log, o, p);
      if t.Leaves? || t.Stays? { PassWithinLimits(todo[1..], t.log, o, p); }
    }
  }

  /** A stream that select() does not report leaves with cause only, and is otherwise left
      as it is. */
  lemma IdleTurn(e: Entry, log: seq<Event>, o: Options, p: Poll)
    requires e.Valid() && !p.ready(e.id)
    ensures TakeTurn(e, log, o, p) ==
            if e.v.state == Closing || !WithinLimits(e.v, o, p.now) then Leaves(log + [Close(e.id)])
            else Turn.Stays(e.v, log)
  {
  }

  /** A stream that it does report: what its receive or send leaves goes with cause only. An
      error and a call that does not return leave it in the list. */
  lemma ReadyTurn(e: Entry, log: seq<Event>, o: Options, p: Poll)
    requires e.Valid() && p.ready(e.id)
    ensures var receives := Rank(e.v.state) < Rank(SendingStatus);
            var r := if receives
              then AfterRecv(e.v, p.input(e.id), q => o.handler(log + [Requested(e.id, q)]), p.now)
              else var (u, code) := AfterSend(e.v, p.output(e.id), p.now); Returned(u, code, None);
            var t := TakeTurn(e, log, o, p);
            match r
            case NoReturn(u) => t == Hangs(u, log)
            case Returned(u, code, request) =>
              var log1 := log + if request.Some? then [Requested(e.id, request.value)] else [];
              if code != ESUCCESS then t == Fails(u, log1, code)
              else if u.state == Closing || !WithinLimits(u, o, p.now) then t == Leaves(log1 + [Close(e.id)])
              else t == Turn.Stays(u, log1)
  {
    hide AfterRecv, AfterSend;
    assert log + [] == log;
  }

  // ---- the server ----

  /** Where connection `id` may stand: not accepted, listed with a fitting life, or gone. */
  ghost predicate Placed(s: ServerValue, id: nat) {
    match Find(s.entries, id)
    case Some(v) => id < s.nextId && Fits(v, LifeOf(s.log, id))
    case None => LifeOf(s.log, id) == if id < s.nextId then Gone else Unborn
  }

  ghost predicate InOrder(s: ServerValue) {
    s.Valid() && Distinct(s.entries) && forall id: nat :: Placed(s, id)
  }

  /** From one state of the server to a later one, a connection's stream goes forward and
      a connection that has left the list does not come back. */
  ghost predicate Forward(s: ServerValue, u: ServerValue, id: nat) {
    && s.nextId <= u.nextId
    && match Find(s.entries, id)
       case Some(v) =>
         && id < u.nextId
         && (Find(u.entries, id).None? || Rank(v.state) <= Rank(Find(u.entries, id).value.state))
       case None => id < s.nextId ==> Find(u.entries, id).None?
  }

  ghost predicate AllForward(s: ServerValue, u: ServerValue) {
    forall id: nat :: Forward(s, u, id)
  }

  lemma ListedFit(s: ServerValue)
    requires InOrder(s)
    ensures AllFit(s.entries, s.log)
  {
    forall id: nat | Find(s.entries, id).Some?
      ensures Fits(Find(s.entries, id).value, LifeOf(s.log, id))
    {
      assert Placed(s, id);
    }
  }

  lemma ConnectInOrder(s: ServerValue, v: StreamValue)
    requires InOrder(s) && v.Valid()
    ensures var u := s.(entries := [Entry(s.nextId, v)] + s.entries, log := s.log + [Connect(s.nextId)],
                      nextId := s.nextId + 1);
            InOrder(u) && AllForward(s, u)
  {
    hide LifeOf, StreamValue.Valid;
    var e := Connect(s.nextId);
    var u := s.(entries := [Entry(s.nextId, v)] + s.entries, log := s.log + [e], nextId := s.nextId + 1);
    assert u.entries[1..] == s.entries;
    assert Placed(s, s.nextId);
    forall id: nat ensures Placed(u, id) && Forward(s, u, id) {
      LifeGoesOn(s.log, e, id);
      assert Placed(s, id);
    }
  }

  lemma ForwardTwice(s: ServerValue, t: ServerValue, u: ServerValue)
    requires AllForward(s, t) && AllForward(t, u)
    ensures AllForward(s, u)
  {
    forall id: nat ensures Forward(s, u, id) {
      assert Forward(s, t, id) && Forward(t, u, id);
    }
  }

  lemma {:induction false} AcceptsInOrder(s: ServerValue, accepted: seq<Accepted>, o: Options, now: int)
    requires InOrder(s)
    ensures var u := AfterAccepts(s, accepted, o, now).0; InOrder(u) && AllForward(s, u)
    decreases |accepted|
  {
    hide InOrder, AllForward, AfterReply;
    StaysInOrder(s);
    if accepted != [] && !accepted[0].tooBig && accepted[0].haveMemory {
      var (v, code) := AfterReply(NewStream(now), o.handler(s.log + [Connect(s.nextId)]));
      assert s.Valid() by { StaysInOrder(s); }
      ConnectInOrder(s, v);
      if code == ESUCCESS {
        var u := s.(entries := [Entry(s.nextId, v)] + s.entries, log := s.log + [Connect(s.nextId)],
                      nextId := s.nextId + 1);
        AcceptsInOrder(u, accepted[1..], o, now);
        ForwardTwice(s, u, AfterAccepts(u, accepted[1..], o, now).0);
      }
    }
  }

  lemma StaysInOrder(s: ServerValue)
    requires InOrder(s)
    ensures s.Valid() && AllForward(s, s)
  {
    forall id: nat ensures Forward(s, s, id) {
      assert Placed(s, id);
    }
  }

  lemma PassedInOrder(s: ServerValue, o: Options, p: Poll)
    requires InOrder(s)
    ensures var r := Pass(s.entries, s.log, o, p);
            var u := s.(entries := r.entries, log := r.log, hung := r.hung);
            InOrder(u) && AllForward(s, u)
  {
    hide Pass, LifeOf, StreamValue.Valid;
    var r := Pass(s.entries, s.log, o, p);
    var u := s.(entries := r.entries, log := r.log, hung := r.hung);
    ListedFit(s);
    PassKeepsDistinct(s.entries, s.log, o, p);
    forall id: nat ensures Placed(u, id) && Forward(s, u, id) {
      PassForOne(s.entries, s.log, o, p, id);
      assert Placed(s, id);
    }
  }

  /** Every poll keeps all lives in order, whatever error or hang ends it. */
  lemma PollInOrder(s: ServerValue, o: Options, p: Poll)
    requires InOrder(s)
    ensures var u := AfterPoll(s, o, p).0; InOrder(u) && AllForward(s, u)
  {
    hide InOrder, AllForward, Pass, AfterAccepts;
    StaysInOrder(s);
    var r := Pass(s.entries, s.log, o, p);
    var t := s.(entries := r.entries, log := r.log, hung := r.hung);
    PassedInOrder(s, o, p);
    if r.Ok() && p.listening {
      AcceptsInOrder(t, p.accepted, o, p.now);
      ForwardTwice(s, t, AfterAccepts(t, p.accepted, o, p.now).0);
    }
  }

  // ---- whole runs ----

  /** A run is polls, with response calls of the program between them. */
  datatype Step = PollStep(p: Poll) | CallStep(id: nat, call: Call)

  function Updated(entries: seq<Entry>, id: nat, call: Call): (r: seq<Entry>)
    requires AllValid(entries)
    ensures AllValid(r)
  {
    if entries == [] then []
    else if entries[0].id == id then [Entry(id, AfterCall(entries[0].v, call).0)] + entries[1..]
    else [entries[0]] + Updated(entries[1..], id, call)
  }

  function AfterStep(s: ServerValue, o: Options, step: Step): (u: ServerValue)
    requires s.Valid()
    ensures u.Valid()
  {
    if s.hung then s
    else match step
      case PollStep(p) => AfterPoll(s, o, p).0
      case CallStep(id, call) => s.(entries := Updated(s.entries, id, call))
  }

  function Run(s: ServerValue, o: Options, steps: seq<Step>): (u: ServerValue)
    requires s.Valid()
    ensures u.Valid()
    decreases |steps|
  {
    if steps == [] then s else Run(AfterStep(s, o, steps[0]), o, steps[1..])
  }

  lemma {:induction false} CallKeepsPlaces(entries: seq<Entry>, id: nat, call: Call, other: nat)
    requires AllValid(entries)
    ensures var r := Updated(entries, id, call);
            && (Distinct(entries) ==> Distinct(r))
            && match Find(entries, other)
               case None => Find(r, other).None?
               case Some(v) => Find(r, other).Some? && Rank(v.state) <= Rank(Find(r, other).value.state)
    decreases |entries|
  {
    hide AfterCall, StreamValue.Valid;
    if entries != [] {
      var r := Updated(entries, id, call);
      CallKeepsPlaces(entries[1..], id, call, other);
      CallKeepsPlaces(entries[1..], id, call, entries[0].id);
      assert r[1..] == if entries[0].id == id then entries[1..] else Updated(entries[1..], id, call);
    }
  }

  lemma CallInOrder(s: ServerValue, id: nat, call: Call)
    requires InOrder(s)
    ensures var u := s.(entries := Updated(s.entries, id, call)); InOrder(u) && AllForward(s, u)
  {
    hide LifeOf, StreamValue.Valid, Updated;
    var u := s.(entries := Updated(s.entries, id, call));
    CallKeepsPlaces(s.entries, id, call, 0);
    forall other: nat ensures Placed(u, other) && Forward(s, u, other) {
      CallKeepsPlaces(s.entries, id, call, other);
      assert Placed(s, other);
    }
  }

  lemma {:induction false} RunInOrder(s: ServerValue, o: Options, steps: seq<Step>)
    requires InOrder(s)
    ensures InOrder(Run(s, o, steps)) && AllForward(s, Run(s, o, steps))
    decreases |steps|
  {
    hide InOrder, AllForward, AfterPoll, Updated;
    StaysInOrder(s);
    if steps != [] {
      var u := AfterStep(s, o, steps[0]);
      if !s.hung {
        match steps[0]
        case PollStep(p) => PollInOrder(s, o, p);
        case CallStep(id, call) => CallInOrder(s, id, call);
      }
      RunInOrder(u, o, steps[1..]);
      ForwardTwice(s, u, Run(u, o, steps[1..]));
    }
  }

  lemma {:induction false} ClosingAll(entries: seq<Entry>, log: seq<Event>, id: nat)
    requires Distinct(entries)
    ensures LifeOf(log + CloseEvents(entries), id) ==
            if Find(entries, id).Some? then AfterEvent(LifeOf(log, id), Close(id)) else LifeOf(log, id)
    decreases |entries|
  {
    hide LifeOf;
    if entries == [] {
      assert log + CloseEvents(entries) == log;
    } else {
      var e := Close(entries[0].id);
      assert log + CloseEvents(entries) == log + [e] + CloseEvents(entries[1..]);
      LifeGoesOn(log, e, id);
      ClosingAll(entries[1..], log + [e], id);
    }
  }

  /** In any run from an empty server that is ended by sb_close_server, the events of
      every accepted connection are one connect, at most one request and one close, in
      this order, and no other connection has any. */
  lemma EveryLife(o: Options, steps: seq<Step>, id: nat)
    requires !Run(EMPTY_SERVER, o, steps).hung
    ensures var s := Run(EMPTY_SERVER, o, steps);
            var es := Of(AfterClose(s).log, id);
            if id >= s.nextId then es == []
            else 2 <= |es| <= 3 && es[0] == Connect(id) && (|es| == 3 ==> es[1].Requested?) && es[|es| - 1] == Close(id)
  {
    hide LifeOf, Of, Run;
    EmptyInOrder();
    RunInOrder(EMPTY_SERVER, o, steps);
    var s := Run(EMPTY_SERVER, o, steps);
    assert Placed(s, id);
    ClosingAll(s.entries, s.log, id);
    LifeMeans(AfterClose(s).log, id);
  }

  lemma EmptyInOrder()
    ensures InOrder(EMPTY_SERVER)
  {
  }
}
