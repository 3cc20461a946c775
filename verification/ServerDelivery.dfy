/** A connection of a polled server from its request to its last byte: it is closed over a
    limit or when its peer has the whole response, and for no other cause. */
module ServerDelivery {
  import opened Basics
  import opened HeaderFields
  import opened Numbers
  import opened Buffers
  import opened StreamModel
  import opened Framing
  import opened Responses
  import opened CallResults
  import opened ServerModel
  import opened Lifecycle
  import RequestLines
  import WrittenRequests
  import Delivery
  import ServerRuns

  // ---- one connection in a poll ----

  /** A pass gives a listed connection its turn and leaves what that leaves, or it ends on
      another connection's error before it comes to this one. */
  lemma {:induction false} PassGivesTurn(todo: seq<Entry>, log: seq<Event>, o: Options, p: Poll, id: nat,
                                         v: StreamValue)
    returns (reached: bool, at: seq<Event>)
    requires AllValid(todo) && Distinct(todo) && AllFit(todo, log) && Find(todo, id) == Some(v)
    ensures var r := Pass(todo, log, o, p);
            if reached then
              var t := TakeTurn(Entry(id, v), at, o, p);
              Find(r.entries, id) == if t.Leaves? then None else Some(t.v)
            else Find(r.entries, id) == Some(v) && !r.Ok()
    decreases |todo|
  {
    hide TakeTurn, LifeOf, AllFit, StreamValue.Valid;
    var e, rest := todo[0], todo[1..];
    OthersFit(todo, log, o, p);
    var t := TakeTurn(e, log, o, p);
    if t.Stays? {
      var r := Pass(rest, t.log, o, p);
      assert ([Entry(e.id, t.v)] + r.entries)[1..] == r.entries;
    } else if !t.Leaves? {
      assert ([Entry(e.id, t.v)] + rest)[1..] == rest;
    }
    if e.id == id {
      reached, at := true, log;
      PassForOne(rest, t.log, o, p, id);
    } else if t.Stays? || t.Leaves? {
      reached, at := PassGivesTurn(rest, t.log, o, p, id, v);
    } else {
      reached, at := false, log;
    }
  }

  /** New connections leave the listed ones as they are. */
  lemma {:induction false} AcceptsAddOthers(s: ServerValue, accepted: seq<Accepted>, o: Options, now: int, id: nat)
    requires s.Valid() && id < s.nextId
    ensures Find(AfterAccepts(s, accepted, o, now).0.entries, id) == Find(s.entries, id)
    decreases |accepted|
  {
    hide AfterReply, StreamValue.Valid;
    if accepted != [] && !accepted[0].tooBig && accepted[0].haveMemory {
      var (v, code) := AfterReply(NewStream(now), o.handler(s.log + [Connect(s.nextId)]));
      var u := s.(entries := [Entry(s.nextId, v)] + s.entries, log := s.log + [Connect(s.nextId)],
                  nextId := s.nextId + 1);
      assert u.entries[1..] == s.entries;
      if code == ESUCCESS { AcceptsAddOthers(u, accepted[1..], o, now, id); }
    }
  }

  lemma PollGivesTurn(s: ServerValue, o: Options, p: Poll, id: nat, v: StreamValue)
    returns (reached: bool, at: seq<Event>)
    requires InOrder(s) && Find(s.entries, id) == Some(v)
    ensures v.Valid() && id < s.nextId
    ensures var after := Find(AfterPoll(s, o, p).0.entries, id);
            if reached then
              var t := TakeTurn(Entry(id, v), at, o, p);
              after == if t.Leaves? then None else Some(t.v)
            else after == Some(v)
  {
    hide Pass, AfterAccepts, TakeTurn, LifeOf;
    ListedFit(s);
    assert Placed(s, id);
    reached, at := PassGivesTurn(s.entries, s.log, o, p, id, v);
    var r := Pass(s.entries, s.log, o, p);
    if r.Ok() && p.listening {
      AcceptsAddOthers(s.(entries := r.entries, log := r.log, hung := r.hung), p.accepted, o, p.now, id);
    }
  }

  // ---- the connection that is followed ----

  /** What is fixed about it: the request it sends, its whole input, of which that is the
      front, and the answer of the program. */
  datatype Talk = Talk(w: WrittenRequests.Written, input: string, reply: Reply) {
    ghost predicate Valid() {
      && w.Valid() && WrittenRequests.Framed(w) && WrittenRequests.Text(w) <= input
      && reply.res == RES_OK && InSequence(SendingStatus, reply.calls) && AllMemory(reply.calls)
    }

    /** What the handler is told. */
    function Asked(): Request {
      Request(w.verb, w.path[..Min(|w.path|, 511)])
    }

    /** All that the peer is to get. */
    function Response(): string {
      Text(SendingStatus, reply.calls) + FileOf(reply.calls)
    }
  }

  /** The program answers that request, whenever it comes, with that reply. */
  ghost predicate Replies(o: Options, id: nat, talk: Talk) {
    forall log :: o.handler(log + [Requested(id, talk.Asked())]) == talk.reply
  }

  /** The stream as it was before it heard anything. */
  function Base(v: StreamValue): StreamValue {
    v.(state := ReceivingHeader, recv := EMPTY, expected := 0, dataIdx := 0)
  }

  /** It holds what the frame of a part of a request says. */
  ghost predicate HoldsPart(v: StreamValue) {
    More(v) == FedBy(Base(v), v.recv.bytes, v.recv.cap)
  }

  ghost predicate Silent(v: StreamValue) {
    v.wire == "" && v.send.bytes == "" && v.file.None?
  }

  /** It has received a part of the request, and holds what that part's frame says. */
  ghost predicate Hearing(v: StreamValue, talk: Talk) {
    v.Valid() && Rank(v.state) < Rank(SendingStatus) && Silent(v) && v.recv.bytes <= talk.input && HoldsPart(v)
  }

  /** Or it has been answered, and everything sent, waiting and unread makes the response. */
  ghost predicate Answering(v: StreamValue, talk: Talk) {
    v.Valid() && Rank(SendingStatus) <= Rank(v.state) < Rank(Closing) && Total(v) == talk.Response()
  }

  ghost predicate Served(v: StreamValue, talk: Talk) {
    Hearing(v, talk) || Answering(v, talk)
  }

  /** The peer sends the next bytes of its input and stays; later it takes some bytes or
      would block, and the file can be read. */
  ghost predicate Attends(v: StreamValue, talk: Talk, p: Poll, id: nat) {
    if Rank(v.state) < Rank(SendingStatus) then
      var i := p.input(id);
      v.recv.bytes + Flat(i.chunks) <= talk.input && !i.disconnected && AllGranted(i.grant)
    else Delivery.Undisturbed(p.output(id))
  }

  function Always(reply: Reply): Request -> Reply {
    _ => reply
  }

  /** What its turn in a poll makes of the stream. */
  function Left(v: StreamValue, talk: Talk, p: Poll, id: nat): StreamValue
    requires v.Valid()
  {
    if !p.ready(id) then v
    else if Rank(v.state) < Rank(SendingStatus) then AfterRecv(v, p.input(id), Always(talk.reply), p.now).v
    else AfterSend(v, p.output(id), p.now).0
  }

  // ---- receiving ----

  lemma LongerFrame(s: string, t: string)
    requires FrameOf(s).Whole? && s <= t
    ensures FrameOf(t) == FrameOf(s)
  {
    hide HeaderLookup, StrToUint;
    HeaderEndOfPrefix(t, |s|);
    assert t[..|s|] == s;
    var n := HeaderEnd(s).value;
    assert t[..n] == s[..n];
  }

  /** A part of a whole request is none, and has a header that the scan gets through. */
  lemma ShorterFrame(s: string, t: string)
    requires FrameOf(s).Whole? && FrameOf(s).len == |s| && t < s
    ensures FrameOf(t).InHeader? || FrameOf(t).InBody?
  {
    hide HeaderLookup, StrToUint;
    assert s[..|t|] == t;
    WholeAtOneLength(s, |t|);
    HeaderEndOfPrefix(s, |t|);
    var n := HeaderEnd(s).value;
    if n <= |t| { assert t[..n] == s[..n]; }
  }

  lemma BaseWaits(v: StreamValue)
    requires v.Valid()
    ensures Waiting(Base(v))
  {
  }

  lemma {:induction false} OnwardIsFramed(v: StreamValue, s: string, grant: Grant)
    requires v.Valid() && AllGranted(grant) && HoldsPart(v)
    ensures var r := AfterBytes(v, s, grant); r == FedBy(Base(v), v.recv.bytes + s, r.v.recv.cap)
    decreases |s|
  {
    hide FedBy, AfterByte, Waiting, Base;
    if s == "" {
      assert v.recv.bytes + s == v.recv.bytes;
    } else {
      var p, c := s[..|s| - 1], s[|s| - 1];
      OnwardIsFramed(v, p, grant);
      assert s == p + [c] && v.recv.bytes + s == v.recv.bytes + p + [c];
      ByteInTurn(v, p, c, grant);
      BaseWaits(v);
      OneMoreByte(Base(v), v.recv.bytes + p, c, grant, AfterBytes(v, p, grant));
    }
  }

  lemma FedCommutes(v: StreamValue, s: string, cap: nat, now: int)
    ensures FedBy(v.(lastActivity := now), s, cap).v == FedBy(v, s, cap).v.(lastActivity := now)
    ensures FedBy(v.(lastActivity := now), s, cap).More? <==> FedBy(v, s, cap).More?
  {
    hide FrameOf;
  }

  /** What chunks leave, by the frame of all that has come. */
  lemma ChunksAreFramed(v: StreamValue, chunks: seq<string>, grant: Grant, now: int)
    requires v.Valid() && AllGranted(grant) && HoldsPart(v)
    ensures var r := AfterChunks(v, chunks, grant, now);
            Timeless(r) == FedBy(Base(v.(lastActivity := 0)), v.recv.bytes + Flat(chunks), r.v.recv.cap)
  {
    hide FedBy, AfterBytes, AfterChunks;
    var u := v.(lastActivity := 0);
    FedCommutes(Base(v), v.recv.bytes, v.recv.cap, 0);
    ChunksAreBytes(v, chunks, grant, now);
    OnwardIsFramed(u, Flat(chunks), grant);
  }

  /** When the peer is gone, a stream without a whole request closes; one with it is handled
      all the same. */
  lemma DisconnectCloses(v: StreamValue, input: Input, handler: Request -> Reply, now: int)
    requires v.Valid() && HoldsPart(v) && AllGranted(input.grant)
    ensures var s := v.recv.bytes + Flat(input.chunks);
            var r := AfterRecv(v, input, handler, now);
            match FrameOf(s)
            case InHeader | InBody(_, _) =>
              r.Returned? && r.code == ESUCCESS && r.request == None && r.v.recv.bytes == s
              && (r.v.state == Closing <==> input.disconnected)
            case _ => r == AfterRecv(v, input.(disconnected := false), handler, now)
  {
    hide AfterChunks, AfterBytes, AfterRequest, ParseRequest, FrameOf, HoldsPart;
    ChunksAreFramed(v, input.chunks, input.grant, now);
  }

  /** Short of the whole text the stream waits for more; with it the request is there. */
  lemma Heard(v: StreamValue, talk: Talk, chunks: seq<string>, grant: Grant, now: int)
    requires talk.Valid() && Hearing(v, talk) && AllGranted(grant) && v.recv.bytes + Flat(chunks) <= talk.input
    ensures var r := AfterChunks(v, chunks, grant, now);
            if |v.recv.bytes + Flat(chunks)| < |WrittenRequests.Text(talk.w)|
            then r.More? && Hearing(r.v, talk) && r.v.recv.bytes == v.recv.bytes + Flat(chunks)
            else r.Ready? && Silent(r.v) && r.v.recv.bytes == WrittenRequests.Text(talk.w)
  {
    var text, s := WrittenRequests.Text(talk.w), v.recv.bytes + Flat(chunks);
    var r := AfterChunks(v, chunks, grant, now);
    assert talk.w.Valid() && WrittenRequests.Framed(talk.w) && text <= talk.input;
    hide WrittenRequests.Text, WrittenRequests.Framed, AfterChunks, FrameOf;
    WrittenRequests.TextIsFramed(talk.w);
    ChunksAreFramed(v, chunks, grant, now);
    ServerRuns.ChunksTellNothing(v, chunks, grant, now);
    if |s| < |text| {
      ShorterFrame(text, s);
      FedCommutes(Base(v.(lastActivity := 0)), s, r.v.recv.cap, r.v.lastActivity);
    } else {
      LongerFrame(text, s);
      assert s[..|text|] == text;
    }
  }

  lemma ReplyAnswers(v: StreamValue, talk: Talk)
    requires v.Valid() && v.state == SendingStatus && Silent(v) && talk.Valid()
    ensures var (u, code) := AfterReply(v, talk.reply); code == ESUCCESS && Answering(u, talk)
  {
    hide AfterCalls, Text, FileOf, AllMemory, InSequence;
    CallsSucceed(v, talk.reply.calls);
    assert Total(v) == "";
    var u := AfterCalls(v, talk.reply.calls);
    assert "" + Text(SendingStatus, talk.reply.calls) == Text(SendingStatus, talk.reply.calls);
  }

  lemma TextParses(talk: Talk)
    requires talk.Valid()
    ensures ParseRequest(WrittenRequests.Text(talk.w)) == Some(talk.Asked())
  {
    hide WrittenRequests.Text, WrittenRequests.Framed, ParseRequest, InSequence, AllMemory;
    var w := talk.w;
    var rest := WrittenRequests.TextStartsWithLine(w);
    WrittenRequests.TargetIs(w);
    RequestLines.RequestRoundTrip(w.verb, w.path, w.query, rest, w.style);
  }

  /** The request is handled once and answered with the whole reply. */
  lemma RequestIsAnswered(v: StreamValue, talk: Talk, grant: Grant, handler: Request -> Reply)
    requires v.Valid() && Silent(v) && talk.Valid() && AllGranted(grant)
    requires v.recv.bytes == WrittenRequests.Text(talk.w) && handler(talk.Asked()) == talk.reply
    ensures var r := AfterRequest(v, grant, handler);
            && r.Returned? && r.code == ESUCCESS && r.request == Some(talk.Asked()) && Answering(r.v, talk)
  {
    hide WrittenRequests.Text, ParseRequest, AfterReply, Answering, Talk.Valid;
    TextParses(talk);
    var (b, ok) := Terminated(v.recv, grant);
    ReplyAnswers(v.(recv := b, state := SendingStatus), talk);
  }

  lemma SameAnswer(v: StreamValue, request: Request, grant: Grant, a: Request -> Reply, b: Request -> Reply)
    requires v.Valid() && ParseRequest(v.recv.bytes) == Some(request) && a(request) == b(request)
    ensures AfterRequest(v, grant, a) == AfterRequest(v, grant, b)
  {
    hide ParseRequest, AfterReply;
  }

  lemma HearingIsValid(v: StreamValue, talk: Talk)
    requires Hearing(v, talk)
    ensures v.Valid() && Rank(v.state) < Rank(SendingStatus)
  {
  }

  lemma RecvServes(v: StreamValue, talk: Talk, input: Input, handler: Request -> Reply, now: int)
    requires talk.Valid() && Hearing(v, talk) && handler(talk.Asked()) == talk.reply
    requires v.recv.bytes + Flat(input.chunks) <= talk.input && !input.disconnected && AllGranted(input.grant)
    ensures var r := AfterRecv(v, input, handler, now);
            && r.Returned? && r.code == ESUCCESS && Served(r.v, talk)
            && r == AfterRecv(v, input, Always(talk.reply), now)
  {
    hide AfterChunks, AfterRequest, WrittenRequests.Text, Talk.Valid, Hearing, Answering;
    assert v.Valid() by { HearingIsValid(v, talk); }
    Heard(v, talk, input.chunks, input.grant, now);
    var r := AfterChunks(v, input.chunks, input.grant, now);
    if r.Ready? {
      RequestIsAnswered(r.v, talk, input.grant, handler);
      RequestIsAnswered(r.v, talk, input.grant, Always(talk.reply));
      TextParses(talk);
      SameAnswer(r.v, talk.Asked(), input.grant, handler, Always(talk.reply));
    }
  }

  // ---- sending ----

  lemma SendServes(v: StreamValue, talk: Talk, out: Output, now: int)
    requires Answering(v, talk) && Delivery.Undisturbed(out)
    ensures var u := AfterSend(v, out, now).0;
            if u.state == Closing then u.wire == talk.Response() else Answering(u, talk)
  {
    hide Text, FileOf;
    SendConserves(v, out, now);
    SendingGoesForward(v, out, now);
    var u := AfterSend(v, out, now).0;
    if u.state == Closing { assert |u.wire| >= |v.wire|; }
  }

  // ---- turns, polls and runs ----

  /** What closes it: a limit, or the whole response at the peer. */
  ghost predicate MayClose(u: StreamValue, talk: Talk, o: Options, now: int) {
    !WithinLimits(u, o, now) || (u.state == Closing && u.wire == talk.Response())
  }

  lemma TurnServes(id: nat, v: StreamValue, log: seq<Event>, o: Options, p: Poll, talk: Talk)
    requires v.Valid() && talk.Valid() && Replies(o, id, talk) && Served(v, talk) && Attends(v, talk, p, id)
    ensures var t := TakeTurn(Entry(id, v), log, o, p);
            if t.Leaves? then MayClose(Left(v, talk, p, id), talk, o, p.now) else Served(t.v, talk)
  {
    hide AfterRecv, AfterSend, Talk.Valid, TakeTurn, WithinLimits;
    var e := Entry(id, v);
    if !p.ready(id) {
      IdleTurn(e, log, o, p);
    } else {
      ReadyTurn(e, log, o, p);
      if Rank(v.state) < Rank(SendingStatus) {
        var handler := q => o.handler(log + [Requested(id, q)]);
        RecvServes(v, talk, p.input(id), handler, p.now);
      } else {
        SendServes(v, talk, p.output(id), p.now);
        SendFailsAsItWas(v, p.output(id), p.now);
      }
    }
  }

  lemma SendFailsAsItWas(v: StreamValue, out: Output, now: int)
    requires v.Valid()
    ensures var (u, code) := AfterSend(v, out, now); code != ESUCCESS ==> u == v
  {
  }

  lemma PollServes(s: ServerValue, o: Options, p: Poll, id: nat, v: StreamValue, talk: Talk)
    requires InOrder(s) && Find(s.entries, id) == Some(v)
    requires talk.Valid() && Replies(o, id, talk) && Served(v, talk) && Attends(v, talk, p, id)
    ensures v.Valid()
    ensures match Find(AfterPoll(s, o, p).0.entries, id)
            case Some(u) => Served(u, talk)
            case None => MayClose(Left(v, talk, p, id), talk, o, p.now)
  {
    hide InOrder, AfterPoll, TakeTurn, Served, Attends, MayClose, Left, Talk.Valid, Replies;
    var reached, at := PollGivesTurn(s, o, p, id, v);
    TurnServes(id, v, at, o, p, talk);
  }

  lemma {:induction false} OthersAreLeft(entries: seq<Entry>, other: nat, call: Call, id: nat)
    requires AllValid(entries) && other != id
    ensures Find(Updated(entries, other, call), id) == Find(entries, id)
    decreases |entries|
  {
    hide AfterCall, StreamValue.Valid;
    if entries != [] {
      OthersAreLeft(entries[1..], other, call, id);
      var r := Updated(entries, other, call);
      assert r[1..] == if entries[0].id == other then entries[1..] else Updated(entries[1..], other, call);
    }
  }

  /** In every poll of a run the peer attends to the connection, and the program makes no
      further calls on it. */
  ghost predicate Attended(s: ServerValue, o: Options, steps: seq<Step>, id: nat, talk: Talk)
    requires s.Valid()
    decreases |steps|
  {
    steps == [] ||
    (match steps[0]
     case CallStep(other, _) => other != id && Attended(AfterStep(s, o, steps[0]), o, steps[1..], id, talk)
     case PollStep(p) =>
       && (Find(s.entries, id).Some? ==> Attends(Find(s.entries, id).value, talk, p, id))
       && Attended(AfterStep(s, o, steps[0]), o, steps[1..], id, talk))
  }

  /** While it is listed it is being served. */
  ghost predicate ServedIn(s: ServerValue, id: nat, talk: Talk) {
    id < s.nextId && (Find(s.entries, id).Some? ==> Served(Find(s.entries, id).value, talk))
  }

  lemma StepServes(s: ServerValue, o: Options, step: Step, id: nat, talk: Talk)
    requires InOrder(s) && ServedIn(s, id, talk) && talk.Valid() && Replies(o, id, talk)
    requires Attended(s, o, [step], id, talk)
    ensures var u := AfterStep(s, o, step); InOrder(u) && ServedIn(u, id, talk)
  {
    hide InOrder, AfterPoll, Served, Attends, Left, MayClose, Updated, Talk.Valid, Replies;
    StaysInOrder(s);
    assert Forward(s, s, id);
    if !s.hung {
      match step
      case CallStep(other, call) =>
        CallInOrder(s, other, call);
        OthersAreLeft(s.entries, other, call, id);
      case PollStep(p) =>
        PollInOrder(s, o, p);
        assert Forward(s, AfterPoll(s, o, p).0, id);
        if Find(s.entries, id).Some? { PollServes(s, o, p, id, Find(s.entries, id).value, talk); }
    }
  }

  lemma {:induction false} RunServes(s: ServerValue, o: Options, steps: seq<Step>, rest: seq<Step>, id: nat, talk: Talk)
    requires InOrder(s) && ServedIn(s, id, talk) && talk.Valid() && Replies(o, id, talk)
    requires Attended(s, o, steps + rest, id, talk)
    ensures var u := Run(s, o, steps); InOrder(u) && ServedIn(u, id, talk) && Attended(u, o, rest, id, talk)
    decreases |steps|
  {
    hide InOrder, AfterStep, ServedIn, Attends, Talk.Valid, Replies;
    if steps == [] {
      assert steps + rest == rest;
    } else {
      var all := steps + rest;
      assert all[0] == steps[0] && all[1..] == steps[1..] + rest && [steps[0]][1..] == [];
      StaysInOrder(s);
      StepServes(s, o, steps[0], id, talk);
      RunServes(AfterStep(s, o, steps[0]), o, steps[1..], rest, id, talk);
    }
  }

  lemma FreshIsHearing(v: StreamValue, talk: Talk)
    requires IsFresh(v) && Silent(v)
    ensures Hearing(v, talk)
  {
  }

  /** A connection that the program leaves alone or answers with calls at its connect event
      is listed with a fresh stream: every call is refused. */
  lemma {:induction false} CallsRefused(v: StreamValue, calls: seq<Call>)
    requires v.Valid() && v.state == ReceivingHeader
    ensures AfterCalls(v, calls) == v
    decreases |calls|
  {
    hide AfterCall;
    if calls != [] {
      CallResult(v, calls[0]);
      CallsRefused(v, calls[1..]);
    }
  }

  lemma ConnectedIsFresh(now: int, reply: Reply)
    requires reply.res == RES_OK
    ensures AfterReply(NewStream(now), reply) == (NewStream(now), ESUCCESS)
    ensures IsFresh(NewStream(now)) && Silent(NewStream(now))
  {
    hide AfterCalls;
    CallsRefused(NewStream(now), reply.calls);
    ServerRuns.NoHeaderYet();
  }

  /** The streams of `n` new connections, the last of them in front, and their events. */
  function Newcomers(first: nat, n: nat, now: int): seq<Entry> {
    seq(n, k requires 0 <= k < n => Entry(first + n - 1 - k, NewStream(now)))
  }

  function Connects(first: nat, n: nat): seq<Event> {
    seq(n, k requires 0 <= k < n => Connect(first + k))
  }

  /** All waiting connections are accepted, if there is memory, none has too large a number
      and the program agrees: fresh streams in front of the list, numbered in order. */
  lemma {:induction false} AllAreAccepted(s: ServerValue, accepted: seq<Accepted>, o: Options, now: int)
    requires s.Valid() && forall k :: 0 <= k < |accepted| ==> !accepted[k].tooBig && accepted[k].haveMemory
    requires forall log, id :: o.handler(log + [Connect(id)]).res == RES_OK
    ensures var n := |accepted|;
            AfterAccepts(s, accepted, o, now) ==
            (s.(entries := Newcomers(s.nextId, n, now) + s.entries, log := s.log + Connects(s.nextId, n),
                nextId := s.nextId + n), ESUCCESS)
    decreases |accepted|
  {
    hide AfterReply, NewStream;
    var n, id := |accepted|, s.nextId;
    if accepted == [] {
      assert Newcomers(id, 0, now) + s.entries == s.entries && s.log + Connects(id, 0) == s.log;
    } else {
      ConnectedIsFresh(now, o.handler(s.log + [Connect(id)]));
      var one := Entry(id, NewStream(now));
      var u := s.(entries := [one] + s.entries, log := s.log + [Connect(id)], nextId := id + 1);
      AllAreAccepted(u, accepted[1..], o, now);
      assert Newcomers(id, n, now) == Newcomers(id + 1, n - 1, now) + [one];
      assert Newcomers(id, n, now) + s.entries == Newcomers(id + 1, n - 1, now) + ([one] + s.entries);
      assert Connects(id, n) == [Connect(id)] + Connects(id + 1, n - 1);
      assert s.log + Connects(id, n) == s.log + [Connect(id)] + Connects(id + 1, n - 1);
    }
  }

  /** In a poll that gets through its list and finds the server's socket ready. */
  lemma PollAccepts(s: ServerValue, o: Options, p: Poll)
    requires s.Valid() && Pass(s.entries, s.log, o, p).Ok()
    requires forall k :: 0 <= k < |p.accepted| ==> !p.accepted[k].tooBig && p.accepted[k].haveMemory
    requires forall log, id :: o.handler(log + [Connect(id)]).res == RES_OK
    ensures var r := Pass(s.entries, s.log, o, p);
            var n := if p.listening then |p.accepted| else 0;
            AfterPoll(s, o, p) ==
            (ServerValue(Newcomers(s.nextId, n, p.now) + r.entries, r.log + Connects(s.nextId, n), s.nextId + n, false),
             ESUCCESS)
  {
    hide Pass, AfterAccepts;
    var r := Pass(s.entries, s.log, o, p);
    assert Newcomers(s.nextId, 0, p.now) + r.entries == r.entries && r.log + Connects(s.nextId, 0) == r.log;
    if p.listening {
      AllAreAccepted(s.(entries := r.entries, log := r.log, hung := r.hung), p.accepted, o, p.now);
    }
  }

  /** A client writes a request and stays, and the program answers it with calls that find
      their memory: in any polls and with anything going on at other connections, its
      connection is closed only over a limit or in the poll in which the last byte of the
      whole response leaves. */
  lemma ClosedWithCause(s: ServerValue, o: Options, steps: seq<Step>, p: Poll, id: nat, talk: Talk)
    requires InOrder(s) && talk.Valid() && Replies(o, id, talk)
    requires Find(s.entries, id).Some? && IsFresh(Find(s.entries, id).value) && Silent(Find(s.entries, id).value)
    requires Attended(s, o, steps + [PollStep(p)], id, talk)
    ensures var a := Run(s, o, steps);
            var v := Find(a.entries, id);
            && (v.Some? ==> Served(v.value, talk))
            && (LifeOf(a.log, id) != Gone && LifeOf(AfterStep(a, o, PollStep(p)).log, id) == Gone ==>
                  v.Some? && MayClose(Left(v.value, talk, p, id), talk, o, p.now))
  {
    assert Placed(s, id);
    FreshIsHearing(Find(s.entries, id).value, talk);
    hide Run, Served, Attends, Left, MayClose, Talk.Valid, Replies, LifeOf, AfterPoll, StreamValue.Valid;
    assert Served(Find(s.entries, id).value, talk) by { HearingIsServed(Find(s.entries, id).value, talk); }
    RunServes(s, o, steps, [PollStep(p)], id, talk);
    var a := Run(s, o, steps);
    assert Placed(a, id);
    if Find(a.entries, id).Some? && !a.hung {
      PollServes(a, o, p, id, Find(a.entries, id).value, talk);
      PollInOrder(a, o, p);
      assert Placed(AfterPoll(a, o, p).0, id);
    }
  }

  lemma HearingIsServed(v: StreamValue, talk: Talk)
    requires Hearing(v, talk)
    ensures Served(v, talk)
  {
  }

  // ---- and it is closed ----

  /** select() reports it, no limit is reached, and its peer sends or takes at least a byte. */
  ghost predicate Brisk(v: StreamValue, talk: Talk, o: Options, p: Poll, id: nat)
    requires v.Valid()
  {
    && p.ready(id) && WithinLimits(Left(v, talk, p, id), o, p.now)
    && (if Rank(v.state) < Rank(SendingStatus) then Flat(p.input(id).chunks) != ""
        else Delivery.Productive(p.output(id)))
  }

  /** Polls that its exchange still needs. */
  function Needs(v: StreamValue, talk: Talk): int
    requires v.Valid() && talk.w.Valid()
  {
    if Rank(v.state) < Rank(SendingStatus)
    then |WrittenRequests.Text(talk.w)| - |v.recv.bytes| + |talk.Response()| + 3
    else Delivery.Effort(v)
  }

  lemma NeedsSome(v: StreamValue, talk: Talk)
    requires v.Valid() && talk.Valid() && Served(v, talk)
    ensures Needs(v, talk) > if Rank(v.state) < Rank(SendingStatus) then |talk.Response()| + 3 else 0
  {
    hide WrittenRequests.Text, WrittenRequests.Framed, Text, FileOf, FrameOf;
    if Hearing(v, talk) && |v.recv.bytes| >= |WrittenRequests.Text(talk.w)| {
      WrittenRequests.TextIsFramed(talk.w);
      LongerFrame(WrittenRequests.Text(talk.w), v.recv.bytes);
    }
  }

  lemma AnsweringNeeds(v: StreamValue, talk: Talk)
    requires v.Valid() && talk.w.Valid() && Answering(v, talk)
    ensures Needs(v, talk) <= |talk.Response()| + 2
  {
    hide Text, FileOf, WrittenRequests.Text;
  }

  lemma TurnIsProgress(id: nat, v: StreamValue, log: seq<Event>, o: Options, p: Poll, talk: Talk)
    requires v.Valid() && talk.Valid() && Replies(o, id, talk) && Served(v, talk) && Attends(v, talk, p, id)
    requires Brisk(v, talk, o, p, id)
    ensures var t := TakeTurn(Entry(id, v), log, o, p);
            !t.Leaves? ==> t.v.Valid() && Needs(t.v, talk) < Needs(v, talk)
  {
    NeedsSome(v, talk);
    assert talk.w.Valid();
    hide AfterRecv, AfterSend, Talk.Valid, TakeTurn, WithinLimits, Delivery.Effort, Talk.Response, WrittenRequests.Text;
    ReadyTurn(Entry(id, v), log, o, p);
    if Rank(v.state) < Rank(SendingStatus) {
      var handler := q => o.handler(log + [Requested(id, q)]);
      RecvServes(v, talk, p.input(id), handler, p.now);
      RecvIsProgress(v, talk, p.input(id), handler, p.now);
    } else {
      Delivery.PumpIsProgress(v, p.output(id), p.now);
      SendGoesOn(v, p.output(id), p.now);
    }
  }

  lemma SendGoesOn(v: StreamValue, out: Output, now: int)
    requires v.Valid() && Rank(SendingStatus) <= Rank(v.state) && Delivery.Productive(out)
    ensures var (u, code) := AfterSend(v, out, now); code == ESUCCESS && Rank(v.state) <= Rank(u.state)
  {
  }

  lemma RecvIsProgress(v: StreamValue, talk: Talk, input: Input, handler: Request -> Reply, now: int)
    requires v.Valid() && talk.Valid() && Hearing(v, talk) && handler(talk.Asked()) == talk.reply
    requires v.recv.bytes + Flat(input.chunks) <= talk.input && !input.disconnected && AllGranted(input.grant)
    requires Flat(input.chunks) != ""
    ensures var r := AfterRecv(v, input, handler, now); Needs(r.v, talk) < Needs(v, talk)
  {
    NeedsSome(v, talk);
    HearingIsValid(v, talk);
    Heard(v, talk, input.chunks, input.grant, now);
    var r := AfterChunks(v, input.chunks, input.grant, now);
    assert talk.w.Valid();
    hide AfterChunks, AfterRequest, WrittenRequests.Text, Talk.Valid, Talk.Response, Talk.Asked;
    hide Hearing, Answering, Delivery.Effort, StreamValue.Valid, Flat, FrameOf;
    if r.More? {
      HearingIsValid(r.v, talk);
    } else {
      RequestIsAnswered(r.v, talk, input.grant, handler);
      AnsweringNeeds(AfterRequest(r.v, input.grant, handler).v, talk);
    }
  }

  /** While it is listed, the next step is a poll that gets through the list, with a peer that
      attends to it and is brisk. */
  ghost predicate BriskRun(s: ServerValue, o: Options, steps: seq<Step>, id: nat, talk: Talk)
    requires s.Valid()
    decreases |steps|
  {
    steps == [] || Find(s.entries, id) == None ||
    (var v := Find(s.entries, id).value;
     && steps[0].PollStep?
     && Attends(v, talk, steps[0].p, id) && Brisk(v, talk, o, steps[0].p, id)
     && Pass(s.entries, s.log, o, steps[0].p).Ok()
     && BriskRun(AfterStep(s, o, steps[0]), o, steps[1..], id, talk))
  }

  /** Such a poll closes it, with the response delivered, or brings it nearer to that. */
  lemma PollIsProgress(s: ServerValue, o: Options, p: Poll, id: nat, v: StreamValue, talk: Talk)
    requires InOrder(s) && Find(s.entries, id) == Some(v) && v.Valid()
    requires talk.Valid() && Replies(o, id, talk) && Served(v, talk) && Attends(v, talk, p, id)
    requires Brisk(v, talk, o, p, id) && Pass(s.entries, s.log, o, p).Ok()
    ensures !AfterPoll(s, o, p).0.hung
    ensures match Find(AfterPoll(s, o, p).0.entries, id)
            case Some(u) => u.Valid() && Served(u, talk) && Needs(u, talk) < Needs(v, talk)
            case None => Left(v, talk, p, id).wire == talk.Response()
  {
    hide Pass, AfterAccepts, TakeTurn, LifeOf, Served, Attends, Talk.Valid, Talk.Response, Replies, Needs, Left;
    hide StreamValue.Valid, WithinLimits;
    ListedFit(s);
    assert Placed(s, id);
    var reached, at := PassGivesTurn(s.entries, s.log, o, p, id, v);
    TurnServes(id, v, at, o, p, talk);
    TurnIsProgress(id, v, at, o, p, talk);
    var r := Pass(s.entries, s.log, o, p);
    if p.listening {
      AcceptsAddOthers(s.(entries := r.entries, log := r.log, hung := r.hung), p.accepted, o, p.now, id);
    }
  }

  /** Before the `k`-th step it is listed, after it no more, and by then its peer has the whole
      response. */
  ghost predicate ClosesAt(s: ServerValue, o: Options, steps: seq<Step>, k: nat, id: nat, talk: Talk)
    requires s.Valid()
  {
    && k < |steps| && steps[k].PollStep?
    && Find(Run(s, o, steps[..k + 1]).entries, id).None?
    && var v := Find(Run(s, o, steps[..k]).entries, id);
       v.Some? && v.value.Valid() && Left(v.value, talk, steps[k].p, id).wire == talk.Response()
  }

  lemma ClosesNow(s: ServerValue, o: Options, steps: seq<Step>, id: nat, v: StreamValue, talk: Talk)
    requires s.Valid() && Find(s.entries, id) == Some(v) && v.Valid() && steps != [] && steps[0].PollStep?
    requires Left(v, talk, steps[0].p, id).wire == talk.Response()
    requires Find(AfterStep(s, o, steps[0]).entries, id).None?
    ensures ClosesAt(s, o, steps, 0, id, talk)
  {
    hide AfterStep, Left, Talk.Response, StreamValue.Valid, Find;
    FirstStep(s, o, steps, 0);
  }

  lemma ClosesLater(s: ServerValue, o: Options, steps: seq<Step>, j: nat, id: nat, talk: Talk)
    requires s.Valid() && steps != [] && ClosesAt(AfterStep(s, o, steps[0]), o, steps[1..], j, id, talk)
    ensures ClosesAt(s, o, steps, j + 1, id, talk)
  {
    hide AfterStep, Left, Talk.Response, StreamValue.Valid, Run, Find;
    FirstStep(s, o, steps, j);
    FirstStep(s, o, steps, j + 1);
  }

  /** It is listed and being served, and the run has the polls it still needs. */
  ghost predicate UnderWay(s: ServerValue, o: Options, steps: seq<Step>, id: nat, v: StreamValue, talk: Talk) {
    && InOrder(s) && s.Valid() && !s.hung && Find(s.entries, id) == Some(v) && v.Valid() && Served(v, talk)
    && talk.Valid() && talk.w.Valid() && Replies(o, id, talk)
    && BriskRun(s, o, steps, id, talk) && |steps| >= Needs(v, talk)
  }

  lemma FirstPoll(s: ServerValue, o: Options, steps: seq<Step>, id: nat, v: StreamValue, talk: Talk)
    returns (w: Option<StreamValue>)
    requires s.Valid() && UnderWay(s, o, steps, id, v, talk)
    ensures steps != []
    ensures match w
            case None => ClosesAt(s, o, steps, 0, id, talk)
            case Some(u) => UnderWay(AfterStep(s, o, steps[0]), o, steps[1..], id, u, talk)
  {
    NeedsSome(v, talk);
    assert UnderWay(s, o, steps, id, v, talk);
    hide InOrder, AfterPoll, Served, Attends, Brisk, Talk.Valid, Talk.Response, Replies, Needs, Left, Pass, ClosesAt;
    hide StreamValue.Valid, WrittenRequests.Written.Valid, Find;
    PollIsProgress(s, o, steps[0].p, id, v, talk);
    PollInOrder(s, o, steps[0].p);
    w := Find(AfterPoll(s, o, steps[0].p).0.entries, id);
    if w.None? { ClosesNow(s, o, steps, id, v, talk); }
  }

  lemma {:induction false} ServedToTheEnd(s: ServerValue, o: Options, steps: seq<Step>, id: nat, v: StreamValue,
                                          talk: Talk) returns (k: nat)
    requires s.Valid() && UnderWay(s, o, steps, id, v, talk)
    ensures ClosesAt(s, o, steps, k, id, talk)
    decreases |steps|
  {
    hide UnderWay, ClosesAt, AfterStep, StreamValue.Valid;
    var w := FirstPoll(s, o, steps, id, v, talk);
    if w.None? {
      k := 0;
    } else {
      var j := ServedToTheEnd(AfterStep(s, o, steps[0]), o, steps[1..], id, w.value, talk);
      k := j + 1;
      ClosesLater(s, o, steps, j, id, talk);
    }
  }

  lemma FirstStep(s: ServerValue, o: Options, steps: seq<Step>, j: nat)
    requires s.Valid() && j < |steps|
    ensures Run(s, o, steps[..0]) == s
    ensures Run(s, o, steps[..j + 1]) == Run(AfterStep(s, o, steps[0]), o, steps[1..][..j])
  {
    hide AfterStep;
    assert steps[..j + 1][0] == steps[0] && steps[..j + 1][1..] == steps[1..][..j];
  }

  /** A brisk client has the whole response, and its connection is closed, after no more polls
      than there are bytes in the request and the response, and three. */
  lemma WholeResponseArrives(s: ServerValue, o: Options, steps: seq<Step>, id: nat, talk: Talk) returns (k: nat)
    requires InOrder(s) && !s.hung && talk.Valid() && Replies(o, id, talk)
    requires Find(s.entries, id).Some? && IsFresh(Find(s.entries, id).value) && Silent(Find(s.entries, id).value)
    requires BriskRun(s, o, steps, id, talk)
    requires |steps| >= |WrittenRequests.Text(talk.w)| + |talk.Response()| + 3
    ensures ClosesAt(s, o, steps, k, id, talk)
  {
    var v := Find(s.entries, id).value;
    FreshIsHearing(v, talk);
    FreshNeeds(v, talk);
    assert talk.w.Valid();
    hide InOrder, Hearing, Answering, Talk.Valid, Talk.Response, Replies, Needs, ClosesAt, BriskRun;
    k := ServedToTheEnd(s, o, steps, id, v, talk);
  }

  lemma FreshNeeds(v: StreamValue, talk: Talk)
    requires IsFresh(v) && talk.w.Valid()
    ensures Needs(v, talk) == |WrittenRequests.Text(talk.w)| + |talk.Response()| + 3
  {
  }
}
