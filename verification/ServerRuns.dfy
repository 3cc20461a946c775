/** What a server run keeps of every listed stream: what its peer is told is a response, and
    when a poll does not return, a header with a carriage return of its own is the cause. */
module ServerRuns {
  import opened Basics
  import opened HeaderFields
  import opened Numbers
  import opened Buffers
  import opened StreamModel
  import opened Framing
  import opened Reception
  import opened Responses
  import opened ServerModel
  import opened Lifecycle
  import Delivery

  // ---- responses ----

  /** The calls that the program makes, or any others; clean ones, for example. */
  type Calls = Call -> bool

  ghost predicate AllOf(deeds: seq<Deed>, made: Calls) {
    forall k :: 0 <= k < |deeds| ==> deeds[k].Called? ==> made(deeds[k].call)
  }

  /** What the peer is told is, as far as the state says, the response that some of the calls
      make, in some order, with what their results add. */
  ghost predicate TellsOf(v: StreamValue, r: Response, deeds: seq<Deed>, made: Calls) {
    Tells(v, r) && Tale(deeds, NOTHING, r) && AllOf(deeds, made)
  }

  ghost predicate Telling(v: StreamValue, made: Calls) {
    exists r, deeds :: TellsOf(v, r, deeds, made)
  }

  ghost predicate Within(calls: seq<Call>, made: Calls) {
    forall k :: 0 <= k < |calls| ==> made(calls[k])
  }

  /** A stream that has been told nothing yet. */
  lemma SilentTells(v: StreamValue)
    requires v.Valid() && Rank(v.state) <= Rank(SendingStatus)
    requires v.wire == "" && v.send.bytes == "" && v.file.None?
    ensures Tells(v, NOTHING)
  {
  }

  /** And only such streams tell nothing before their status line. */
  lemma TellingIsSilent(v: StreamValue, made: Calls)
    requires Telling(v, made) && Rank(v.state) <= Rank(SendingStatus)
    ensures v.wire == "" && v.send.bytes == "" && v.file.None?
  {
    hide StatusLine, RenderHeaders;
    var r, deeds :| TellsOf(v, r, deeds, made);
    assert Render(NOTHING) == "";
  }

  lemma MoreTold(v: StreamValue, r: Response, deeds: seq<Deed>, made: Calls, u: StreamValue, d: Deed, t: Response)
    requires TellsOf(v, r, deeds, made) && Tells(u, t) && Adds(d, r, t) && (d.Called? ==> made(d.call))
    ensures Telling(u, made)
  {
    hide Tells, Adds;
    TaleGoesOn(deeds, d, NOTHING, r, t);
    assert TellsOf(u, t, deeds + [d], made);
  }

  lemma {:induction false} BytesTellNothing(v: StreamValue, bytes: string, grant: Grant)
    requires v.Valid()
    ensures var u := AfterBytes(v, bytes, grant).v; u.wire == v.wire && u.send == v.send && u.file == v.file
    decreases |bytes|
  {
    if bytes != "" {
      var next := AfterByte(v, bytes[0], grant);
      if next.More? { BytesTellNothing(next.v, bytes[1..], grant); }
    }
  }

  lemma {:induction false} ChunksTellNothing(v: StreamValue, chunks: seq<string>, grant: Grant, now: int)
    requires v.Valid()
    ensures var u := AfterChunks(v, chunks, grant, now).v; u.wire == v.wire && u.send == v.send && u.file == v.file
    decreases |chunks|
  {
    if chunks != [] {
      var u := v.(lastActivity := now);
      BytesTellNothing(u, chunks[0], grant);
      var next := AfterBytes(u, chunks[0], grant);
      if next.More? { ChunksTellNothing(next.v, chunks[1..], grant, now); }
    }
  }

  lemma CallTells(v: StreamValue, call: Call, made: Calls)
    requires v.Valid() && Telling(v, made) && made(call)
    ensures Telling(AfterCall(v, call).0, made)
  {
    var r, deeds :| TellsOf(v, r, deeds, made);
    assert TellsOf(v, r, deeds, made) && Tells(v, r);
    hide Tells, Tale, Adds, AfterCall, TellsOf, Telling;
    var t := CallAdds(v, call, r);
    MoreTold(v, r, deeds, made, AfterCall(v, call).0, Called(call, AfterCall(v, call).1), t);
  }

  lemma {:induction false} CallsTell(v: StreamValue, calls: seq<Call>, made: Calls)
    requires v.Valid() && Telling(v, made) && Within(calls, made)
    ensures Telling(AfterCalls(v, calls), made)
    decreases |calls|
  {
    hide Telling, AfterCall;
    if calls != [] {
      CallTells(v, calls[0], made);
      CallsTell(AfterCall(v, calls[0]).0, calls[1..], made);
    }
  }

  lemma ClosingTells(v: StreamValue, made: Calls)
    requires Telling(v, made)
    ensures Telling(v.(state := Closing), made)
  {
    hide Render, Tale;
    var r, deeds :| TellsOf(v, r, deeds, made);
    assert TellsOf(v.(state := Closing), r, deeds, made);
  }

  lemma ReplyTells(v: StreamValue, reply: Reply, made: Calls)
    requires v.Valid() && Telling(v, made) && Within(reply.calls, made)
    ensures Telling(AfterReply(v, reply).0, made)
  {
    hide Telling, AfterCalls;
    CallsTell(v, reply.calls, made);
    ClosingTells(AfterCalls(v, reply.calls), made);
  }

  lemma RequestTells(v: StreamValue, grant: Grant, handler: Request -> Reply, made: Calls)
    requires v.Valid() && Telling(v, made) && Rank(v.state) < Rank(SendingStatus)
    requires forall request :: Within(handler(request).calls, made)
    ensures Telling(AfterRequest(v, grant, handler).v, made)
  {
    hide Telling, AfterReply, ParseRequest;
    var (b, ok) := Terminated(v.recv, grant);
    var v1 := v.(recv := b, state := SendingStatus);
    TellingIsSilent(v, made);
    SilentIsTelling(v1, made);
    ClosingTells(v1, made);
    var request := ParseRequest(b.bytes);
    if request.Some? { ReplyTells(v1, handler(request.value), made); }
  }

  lemma SilentIsTelling(v: StreamValue, made: Calls)
    requires v.Valid() && Rank(v.state) <= Rank(SendingStatus)
    requires v.wire == "" && v.send.bytes == "" && v.file.None?
    ensures Telling(v, made)
  {
    hide Tells;
    SilentTells(v);
    assert TellsOf(v, NOTHING, [], made);
  }

  lemma RecvTells(v: StreamValue, input: Input, handler: Request -> Reply, now: int, made: Calls)
    requires v.Valid() && Telling(v, made) && Rank(v.state) < Rank(SendingStatus)
    requires forall request :: Within(handler(request).calls, made)
    ensures Telling(AfterRecv(v, input, handler, now).v, made)
  {
    hide Telling, AfterChunks, AfterRequest;
    TellingIsSilent(v, made);
    ChunksTellNothing(v, input.chunks, input.grant, now);
    ChunksGoForward(v, input.chunks, input.grant, now);
    var fed := AfterChunks(v, input.chunks, input.grant, now);
    SilentIsTelling(fed.v, made);
    ClosingTells(fed.v, made);
    if fed.Ready? { RequestTells(fed.v, input.grant, handler, made); }
  }

  lemma SendTells(v: StreamValue, out: Output, now: int, made: Calls)
    requires v.Valid() && Telling(v, made)
    ensures Telling(AfterSend(v, out, now).0, made)
  {
    var r, deeds :| TellsOf(v, r, deeds, made);
    assert TellsOf(v, r, deeds, made) && Tells(v, r);
    var t := r.(body := r.body + PieceOf(v, out));
    assert Adds(Piece(PieceOf(v, out)), r, t);
    hide Tells, Tale, Adds, AfterSend, TellsOf, Telling, PieceOf;
    SendTold(v, out, now, r);
    MoreTold(v, r, deeds, made, AfterSend(v, out, now).0, Piece(PieceOf(v, out)), t);
  }

  // ---- headers ----

  /** A stream in the header still waits for its end. */
  ghost predicate Scanning(v: StreamValue) {
    v.state == ReceivingHeader ==> Waiting(v)
  }

  /** What a server run keeps of a stream. */
  ghost predicate Kept(v: StreamValue, made: Calls) {
    v.Valid() && Telling(v, made) && Scanning(v)
  }

  /** The handler's answers consist of these calls. */
  ghost predicate Answers(o: Options, made: Calls) {
    forall log :: Within(o.handler(log).calls, made)
  }

  lemma {:induction false} BytesScan(v: StreamValue, bytes: string, grant: Grant)
    requires v.Valid() && Scanning(v) && Rank(v.state) < Rank(SendingStatus)
    ensures var r := AfterBytes(v, bytes, grant); Scanning(r.v)
    decreases |bytes|
  {
    hide HeaderEnd, HeaderLookup, StrToUint;
    if bytes != "" {
      ByteScans(v, bytes[0], grant);
      BytesGoForward(v, bytes[..1], grant);
      var next := AfterByte(v, bytes[0], grant);
      assert bytes[..1][1..] == "" && AfterBytes(v, bytes[..1], grant) == AfterByte(v, bytes[0], grant);
      if next.More? { BytesScan(next.v, bytes[1..], grant); }
    }
  }

  lemma ByteScans(v: StreamValue, c: char, grant: Grant)
    requires v.Valid() && Scanning(v)
    ensures Scanning(AfterByte(v, c, grant).v)
  {
    hide HeaderLookup, StrToUint;
    if v.state == ReceivingHeader {
      var t := v.recv.bytes + [c];
      assert t[..|t| - 1] == v.recv.bytes;
    }
  }

  lemma {:induction false} ChunksScan(v: StreamValue, chunks: seq<string>, grant: Grant, now: int)
    requires v.Valid() && Scanning(v) && Rank(v.state) < Rank(SendingStatus)
    ensures Scanning(AfterChunks(v, chunks, grant, now).v)
    decreases |chunks|
  {
    hide HeaderEnd;
    if chunks != [] {
      var u := v.(lastActivity := now);
      BytesScan(u, chunks[0], grant);
      BytesGoForward(u, chunks[0], grant);
      var next := AfterBytes(u, chunks[0], grant);
      if next.More? { ChunksScan(next.v, chunks[1..], grant, now); }
    }
  }

  lemma RecvScans(v: StreamValue, input: Input, handler: Request -> Reply, now: int)
    requires v.Valid() && Scanning(v) && Rank(v.state) < Rank(SendingStatus)
    ensures Scanning(AfterRecv(v, input, handler, now).v)
  {
    hide AfterChunks, AfterRequest, Waiting;
    ChunksScan(v, input.chunks, input.grant, now);
    var fed := AfterChunks(v, input.chunks, input.grant, now);
    if fed.Ready? { RequestGoesForward(fed.v, input.grant, handler); }
  }

  // ---- when a call does not return ----

  lemma {:induction false} DataNeverHangs(v: StreamValue, bytes: string, grant: Grant)
    requires v.Valid() && v.state == ReceivingRequest
    ensures !AfterBytes(v, bytes, grant).Hung?
    decreases |bytes|
  {
    if bytes != "" {
      var next := AfterByte(v, bytes[0], grant);
      if next.More? { DataNeverHangs(next.v, bytes[1..], grant); }
    }
  }

  /** What the bytes would do with all memory granted, unless memory runs out. */
  lemma {:induction false} MemoryAside(v: StreamValue, bytes: string, grant: Grant, all: Grant)
    requires v.Valid() && AllGranted(all)
    ensures AfterBytes(v, bytes, grant).NoMemory? || AfterBytes(v, bytes, grant) == AfterBytes(v, bytes, all)
    decreases |bytes|
  {
    hide HeaderLookup, StrToUint;
    if bytes != "" {
      var next := AfterByte(v, bytes[0], grant);
      assert next.NoMemory? || next == AfterByte(v, bytes[0], all);
      if next.More? { MemoryAside(next.v, bytes[1..], grant, all); }
    }
  }

  /** The header that a stream has begun, with what arrives, is one the scan stays in. */
  ghost predicate FedEndless(v: StreamValue, chunks: seq<string>) {
    v.state == ReceivingHeader && FrameOf(v.recv.bytes + Flat(chunks)).Endless?
  }

  lemma RequestReturns(v: StreamValue, grant: Grant, handler: Request -> Reply)
    requires v.Valid()
    ensures AfterRequest(v, grant, handler).Returned?
  {
    hide ParseRequest, AfterReply;
  }

  /** A receiving call does not return only when the frame is endless, and always then if
      memory does not run out first. */
  lemma HangsIff(v: StreamValue, input: Input, handler: Request -> Reply, now: int)
    requires v.Valid() && Scanning(v) && Rank(v.state) < Rank(SendingStatus)
    ensures AfterRecv(v, input, handler, now).NoReturn? ==> FedEndless(v, input.chunks)
    ensures AllGranted(input.grant) ==>
              (AfterRecv(v, input, handler, now).NoReturn? <==> FedEndless(v, input.chunks))
  {
    hide AfterBytes, AfterChunks, AfterRequest, HeaderEnd, FrameOf;
    var all: Grant := _ => true;
    var u := v.(lastActivity := 0);
    ChunksAreBytes(v, input.chunks, input.grant, now);
    MemoryAside(u, Flat(input.chunks), input.grant, all);
    var fed := AfterChunks(v, input.chunks, input.grant, now);
    if fed.Ready? { RequestReturns(fed.v, input.grant, handler); }
    assert fed.Hung? ==> AfterBytes(u, Flat(input.chunks), all).Hung?;
    if v.state == ReceivingHeader {
      WaitingIsFramed(u, Flat(input.chunks), all);
      if AllGranted(input.grant) { WaitingIsFramed(u, Flat(input.chunks), input.grant); }
    } else {
      DataNeverHangs(u, Flat(input.chunks), input.grant);
    }
  }

  // ---- the server ----

  ghost predicate AllKept(entries: seq<Entry>, made: Calls) {
    forall k :: 0 <= k < |entries| ==> Kept(entries[k].v, made)
  }

  lemma TurnKeeps(e: Entry, log: seq<Event>, o: Options, p: Poll, made: Calls)
    requires Answers(o, made)
    requires Kept(e.v, made)
    ensures var t := TakeTurn(e, log, o, p); !t.Leaves? ==> Kept(t.v, made)
  {
    hide Telling, Waiting, AfterRecv, AfterSend, OverLimit;
    if p.ready(e.id) {
      if Rank(e.v.state) < Rank(SendingStatus) {
        var handler := r => o.handler(log + [Requested(e.id, r)]);
        RecvTells(e.v, p.input(e.id), handler, p.now, made);
        RecvScans(e.v, p.input(e.id), handler, p.now);
      } else {
        SendTells(e.v, p.output(e.id), p.now, made);
        SendingGoesForward(e.v, p.output(e.id), p.now);
      }
    }
  }

  lemma {:induction false} PassKeeps(todo: seq<Entry>, log: seq<Event>, o: Options, p: Poll, made: Calls)
    requires Answers(o, made)
    requires AllValid(todo) && AllKept(todo, made)
    ensures AllKept(Pass(todo, log, o, p).entries, made)
    decreases |todo|
  {
    hide Kept, TakeTurn, StreamValue.Valid;
    if todo != [] {
      assert todo[0].Valid() && Kept(todo[0].v, made);
      TurnKeeps(todo[0], log, o, p, made);
      var t := TakeTurn(todo[0], log, o, p);
      PassKeeps(todo[1..], t.log, o, p, made);
    }
  }

  lemma ConnectKeeps(reply: Reply, now: int, made: Calls)
    requires Within(reply.calls, made)
    ensures Kept(AfterReply(NewStream(now), reply).0, made)
  {
    hide Telling, HeaderEnd;
    var v := NewStream(now);
    SilentIsTelling(v, made);
    ReplyTells(v, reply, made);
    NoHeaderYet();
    assert Waiting(v);
    assert Onward(v, AfterCalls(v, reply.calls));
  }

  lemma NoHeaderYet()
    ensures HeaderEnd("") == None
  {
  }

  lemma {:induction false} AcceptsKeep(s: ServerValue, accepted: seq<Accepted>, o: Options, now: int, made: Calls)
    requires Answers(o, made)
    requires s.Valid() && AllKept(s.entries, made)
    ensures AllKept(AfterAccepts(s, accepted, o, now).0.entries, made)
    decreases |accepted|
  {
    hide Kept, AfterReply, StreamValue.Valid;
    if accepted != [] && !accepted[0].tooBig && accepted[0].haveMemory {
      var reply := o.handler(s.log + [Connect(s.nextId)]);
      var (v, code) := AfterReply(NewStream(now), reply);
      ConnectKeeps(reply, now, made);
      if code == ESUCCESS {
        var u := s.(entries := [Entry(s.nextId, v)] + s.entries, log := s.log + [Connect(s.nextId)],
                    nextId := s.nextId + 1);
        AcceptsKeep(u, accepted[1..], o, now, made);
      }
    }
  }

  lemma PollKeeps(s: ServerValue, o: Options, p: Poll, made: Calls)
    requires Answers(o, made)
    requires s.Valid() && AllKept(s.entries, made)
    ensures AllKept(AfterPoll(s, o, p).0.entries, made)
  {
    hide Kept, Pass, AfterAccepts;
    PassKeeps(s.entries, s.log, o, p, made);
    var r := Pass(s.entries, s.log, o, p);
    if r.Ok() && p.listening {
      AcceptsKeep(s.(entries := r.entries, log := r.log, hung := r.hung), p.accepted, o, p.now, made);
    }
  }

  lemma CallKeeps(v: StreamValue, call: Call, made: Calls)
    requires Kept(v, made) && made(call)
    ensures Kept(AfterCall(v, call).0, made)
  {
    hide Telling, AfterCall, HeaderEnd;
    CallTells(v, call, made);
    assert Onward(v, AfterCall(v, call).0);
  }

  lemma {:induction false} UpdateKeeps(entries: seq<Entry>, id: nat, call: Call, made: Calls)
    requires made(call)
    requires AllValid(entries) && AllKept(entries, made)
    ensures AllKept(Updated(entries, id, call), made)
    decreases |entries|
  {
    hide Kept, AfterCall, StreamValue.Valid;
    if entries != [] {
      assert Kept(entries[0].v, made);
      CallKeeps(entries[0].v, call, made);
      UpdateKeeps(entries[1..], id, call, made);
    }
  }

  /** The calls between the polls are these. */
  ghost predicate CallsAre(steps: seq<Step>, made: Calls) {
    forall k :: 0 <= k < |steps| ==> steps[k].CallStep? ==> made(steps[k].call)
  }

  lemma {:induction false} RunKeeps(s: ServerValue, o: Options, steps: seq<Step>, made: Calls)
    requires s.Valid() && AllKept(s.entries, made) && Answers(o, made) && CallsAre(steps, made)
    ensures AllKept(Run(s, o, steps).entries, made)
    decreases |steps|
  {
    hide AllKept, AfterPoll, Updated, Answers;
    if steps != [] {
      if !s.hung {
        match steps[0]
        case PollStep(p) => PollKeeps(s, o, p, made);
        case CallStep(id, call) => UpdateKeeps(s.entries, id, call, made);
      }
      RunKeeps(AfterStep(s, o, steps[0]), o, steps[1..], made);
    }
  }

  /** In any sequence of polls and calls from an empty server, what any listed stream has
      sent and has waiting is a response up to the part its state names, made by calls of the
      program and pieces of files only. */
  lemma EveryResponse(o: Options, steps: seq<Step>, made: Calls, k: nat)
    requires Answers(o, made) && CallsAre(steps, made) && k < |Run(EMPTY_SERVER, o, steps).entries|
    ensures Telling(Run(EMPTY_SERVER, o, steps).entries[k].v, made)
  {
    hide Run, Telling, Scanning, Answers, CallsAre;
    RunKeeps(EMPTY_SERVER, o, steps, made);
  }

  /** And when no text of the program's calls has a line end of its own, no text of a response
      has one. */
  lemma EveryResponseIsClean(o: Options, steps: seq<Step>, made: Calls, k: nat) returns (r: Response)
    requires Answers(o, made) && CallsAre(steps, made) && k < |Run(EMPTY_SERVER, o, steps).entries|
    requires forall call :: made(call) ==> Delivery.CleanCall(call)
    ensures Tells(Run(EMPTY_SERVER, o, steps).entries[k].v, r) && Delivery.CleanTexts(r)
  {
    hide Run, Tells, Answers, CallsAre, Delivery.CleanCall, Delivery.CleanTexts;
    EveryResponse(o, steps, made, k);
    var v := Run(EMPTY_SERVER, o, steps).entries[k].v;
    var deeds: seq<Deed>;
    r, deeds :| TellsOf(v, r, deeds, made);
    NothingIsClean();
    Delivery.TaleIsClean(deeds, NOTHING, r);
  }

  lemma NothingIsClean()
    ensures Delivery.CleanTexts(NOTHING)
  {
  }

  // ---- polls that do not return ----

  ghost predicate AllScanning(entries: seq<Entry>) {
    forall k :: 0 <= k < |entries| ==> Scanning(entries[k].v)
  }

  predicate AnyCall(call: Call) {
    true
  }

  lemma KeptScan(entries: seq<Entry>, made: Calls)
    requires AllKept(entries, made)
    ensures AllScanning(entries)
  {
  }

  /** Is this stream's turn one that does not return? */
  ghost predicate Caught(e: Entry, p: Poll) {
    p.ready(e.id) && FedEndless(e.v, p.input(e.id).chunks)
  }

  ghost predicate MemoryEnough(p: Poll) {
    forall id: nat :: AllGranted(p.input(id).grant)
  }

  lemma TurnHangsIff(e: Entry, log: seq<Event>, o: Options, p: Poll)
    requires e.v.Valid() && Scanning(e.v)
    ensures TakeTurn(e, log, o, p).Hangs? ==> Caught(e, p)
    ensures MemoryEnough(p) ==> (TakeTurn(e, log, o, p).Hangs? <==> Caught(e, p))
  {
    hide Telling, Waiting, AfterRecv, AfterSend, OverLimit, FrameOf;
    if p.ready(e.id) && Rank(e.v.state) < Rank(SendingStatus) {
      HangsIff(e.v, p.input(e.id), r => o.handler(log + [Requested(e.id, r)]), p.now);
    }
  }

  /** A pass that does not return has come to a stream whose header is endless; and with
      memory enough it does not return exactly when it comes to one. */
  lemma {:induction false} PassHangsIff(todo: seq<Entry>, log: seq<Event>, o: Options, p: Poll)
    requires AllValid(todo) && AllScanning(todo)
    ensures Pass(todo, log, o, p).hung ==> exists k :: PassReaches(todo, log, o, p, k) && Caught(todo[k], p)
    ensures MemoryEnough(p) ==>
              (Pass(todo, log, o, p).hung <==> exists k :: PassReaches(todo, log, o, p, k) && Caught(todo[k], p))
    decreases |todo|
  {
    hide Scanning, TakeTurn, StreamValue.Valid, Caught, MemoryEnough;
    if todo != [] {
      assert todo[0].Valid() && Scanning(todo[0].v);
      TurnHangsIff(todo[0], log, o, p);
      var t := TakeTurn(todo[0], log, o, p);
      var rest := todo[1..];
      PassHangsIff(rest, t.log, o, p);
      assert todo[..0] == [];
      assert PassReaches(todo, log, o, p, 0);
      forall k: nat | k < |rest|
        ensures PassReaches(todo, log, o, p, k + 1) <==> (t.Leaves? || t.Stays?) && PassReaches(rest, t.log, o, p, k)
      {
        assert todo[..k + 1][0] == todo[0] && todo[..k + 1][1..] == rest[..k];
      }
      if k :| PassReaches(rest, t.log, o, p, k) && Caught(rest[k], p) && (t.Leaves? || t.Stays?) {
        assert PassReaches(todo, log, o, p, k + 1) && Caught(todo[k + 1], p);
      }
      forall k | PassReaches(todo, log, o, p, k) && Caught(todo[k], p)
        ensures k == 0 || ((t.Leaves? || t.Stays?) && PassReaches(rest, t.log, o, p, k - 1) && Caught(rest[k - 1], p))
      {
        if k > 0 { assert PassReaches(todo, log, o, p, k - 1 + 1); }
      }
    }
  }

  /** Does the pass come to the stream at `k`? */
  ghost predicate PassReaches(todo: seq<Entry>, log: seq<Event>, o: Options, p: Poll, k: int)
    requires AllValid(todo)
  {
    0 <= k < |todo| && Pass(todo[..k], log, o, p).Ok()
  }

  /** No poll of the run brings a stream to an endless header. */
  ghost predicate NeverEndless(s: ServerValue, o: Options, steps: seq<Step>)
    requires s.Valid()
    decreases |steps|
  {
    steps == [] ||
    ((steps[0].PollStep? ==> forall k :: 0 <= k < |s.entries| ==> !Caught(s.entries[k], steps[0].p))
     && NeverEndless(AfterStep(s, o, steps[0]), o, steps[1..]))
  }

  lemma {:induction false} RunReturns(s: ServerValue, o: Options, steps: seq<Step>)
    requires s.Valid() && AllKept(s.entries, AnyCall) && !s.hung && NeverEndless(s, o, steps)
    ensures !Run(s, o, steps).hung
    decreases |steps|
  {
    hide AllKept, AllScanning, Updated, Pass, Caught;
    if steps != [] {
      KeptScan(s.entries, AnyCall);
      RunKeeps(s, o, steps[..1], AnyCall);
      assert steps[..1][1..] == [] && Run(s, o, steps[..1]) == AfterStep(s, o, steps[0]);
      if steps[0].PollStep? { PassHangsIff(s.entries, s.log, o, steps[0].p); }
      RunReturns(AfterStep(s, o, steps[0]), o, steps[1..]);
    }
  }

  /** The life of every connection of a run in which no header is endless. */
  lemma EveryLifeReturns(o: Options, steps: seq<Step>, id: nat)
    requires NeverEndless(EMPTY_SERVER, o, steps)
    ensures var s := Run(EMPTY_SERVER, o, steps);
            var es := Of(AfterClose(s).log, id);
            && !s.hung
            && if id >= s.nextId then es == []
               else 2 <= |es| <= 3 && es[0] == Connect(id) && (|es| == 3 ==> es[1].Requested?)
                    && es[|es| - 1] == Close(id)
  {
    hide Run, NeverEndless, Of;
    RunReturns(EMPTY_SERVER, o, steps);
    EveryLife(o, steps, id);
  }
}
