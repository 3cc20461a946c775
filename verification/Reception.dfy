/** Requests that arrive over several calls: what is emitted depends on the bytes alone, and
    a stream's state only goes forward. */
module Reception {
  import opened Basics
  import opened Buffers
  import opened StreamModel
  import opened Framing

  lemma RequestGoesForward(v: StreamValue, grant: Grant, handler: Request -> Reply)
    requires v.Valid()
    ensures var r := AfterRequest(v, grant, handler); Rank(r.v.state) >= Rank(SendingStatus)
  {
    hide ParseRequest, AfterCalls;
  }

  lemma {:induction false} BytesGoForward(v: StreamValue, bytes: string, grant: Grant)
    requires v.Valid() && Rank(v.state) < Rank(SendingStatus)
    ensures var r := AfterBytes(v, bytes, grant);
            Rank(v.state) <= Rank(r.v.state) < Rank(SendingStatus)
    decreases |bytes|
  {
    if bytes != "" {
      var next := AfterByte(v, bytes[0], grant);
      if next.More? { BytesGoForward(next.v, bytes[1..], grant); }
    }
  }

  lemma {:induction false} ChunksGoForward(v: StreamValue, chunks: seq<string>, grant: Grant, now: int)
    requires v.Valid() && Rank(v.state) < Rank(SendingStatus)
    ensures var r := AfterChunks(v, chunks, grant, now);
            Rank(v.state) <= Rank(r.v.state) < Rank(SendingStatus)
    decreases |chunks|
  {
    if chunks != [] {
      var u := v.(lastActivity := now);
      BytesGoForward(u, chunks[0], grant);
      var next := AfterBytes(u, chunks[0], grant);
      if next.More? { ChunksGoForward(next.v, chunks[1..], grant, now); }
    }
  }

  /** sb_stream_recv in one poll after another, until a call leaves the receiving states,
      fails or does not return. */
  function Receive(v: StreamValue, calls: seq<Read>, grant: Grant, handler: Handler): (r: Received)
    requires v.Valid()
    ensures r.v.Valid()
    decreases |calls|
  {
    if calls == [] then Returned(v, ESUCCESS, None)
    else
      var r := AfterRecv(v, Input(calls[0].chunks, false, grant), handler, calls[0].now);
      if r.Returned? && r.code == ESUCCESS && Rank(r.v.state) < Rank(SendingStatus)
      then Receive(r.v, calls[1..], grant, handler)
      else r
  }

  /** What the calls come to: the request that the bytes complete is handled once. */
  function Handled(r: Fed, grant: Grant, handler: Handler): (u: Received)
    requires r.v.Valid()
    ensures u.v.Valid()
  {
    match r
    case More(v) => Returned(v, ESUCCESS, None)
    case NoMemory(v) => Returned(v, EOUTOFMEM, None)
    case Hung(v) => NoReturn(v)
    case Ready(v) => AfterRequest(v, grant, handler)
  }

  lemma {:induction false} ReceiveHandlesArrival(v: StreamValue, calls: seq<Read>, grant: Grant, handler: Handler)
    requires v.Valid() && Rank(v.state) < Rank(SendingStatus)
    ensures Receive(v, calls, grant, handler) == Handled(Arrive(v, calls, grant), grant, handler)
    decreases |calls|
  {
    hide AfterChunks, AfterRequest;
    if calls != [] {
      ChunksGoForward(v, calls[0].chunks, grant, calls[0].now);
      var next := AfterChunks(v, calls[0].chunks, grant, calls[0].now);
      if next.More? { ReceiveHandlesArrival(next.v, calls[1..], grant, handler); }
      if next.Ready? { RequestGoesForward(next.v, grant, handler); }
    }
  }

  /** A call's result, but for the time of the last activity. */
  function TimelessCall(r: (StreamValue, int)): (StreamValue, int) {
    (r.0.(lastActivity := 0), r.1)
  }

  lemma TimeDoesNotMatterForStatus(v: StreamValue, code: int, msg: string, grant: Grant)
    requires v.Valid()
    ensures AfterSendStatus(v.(lastActivity := 0), code, msg, grant)
            == TimelessCall(AfterSendStatus(v, code, msg, grant))
  {
    hide PushedStr, StatusLine;
  }

  lemma TimeDoesNotMatterForHeader(v: StreamValue, field: string, val: string, grant: Grant)
    requires v.Valid()
    ensures AfterSendHeader(v.(lastActivity := 0), field, val, grant)
            == TimelessCall(AfterSendHeader(v, field, val, grant))
  {
    hide PushedStr, HeaderLine, AfterSendStatus;
    TimeDoesNotMatterForStatus(v, 200, "OK", grant);
  }

  lemma TimeDoesNotMatterForEnd(v: StreamValue, grant: Grant)
    requires v.Valid() && Rank(v.state) < Rank(SendingData)
    ensures AfterFinalizeHeader(v.(lastActivity := 0), grant) == TimelessCall(AfterFinalizeHeader(v, grant))
  {
    hide PushedStr, AfterSendStatus;
    TimeDoesNotMatterForStatus(v, 200, "OK", grant);
  }

  lemma TimeDoesNotMatterForFile(v: StreamValue, content: Option<string>, grant: Grant)
    requires v.Valid()
    ensures AfterSendFile(v.(lastActivity := 0), content, grant) == TimelessCall(AfterSendFile(v, content, grant))
  {
    hide AfterSendHeader, AfterFinalizeHeader, SizeText;
    if Rank(v.state) <= Rank(SendingHeader) && content.Some? {
      var size := SizeText(content.value);
      TimeDoesNotMatterForHeader(v, "Content-Length", size, grant);
      var (v1, err) := AfterSendHeader(v, "Content-Length", size, grant);
      if err == ESUCCESS { TimeDoesNotMatterForEnd(v1, grant); }
    }
  }

  lemma TimeDoesNotMatterForWrite(v: StreamValue, data: string, grant: Grant)
    requires v.Valid()
    ensures AfterWrite(v.(lastActivity := 0), data, grant) == TimelessCall(AfterWrite(v, data, grant))
  {
    hide AfterFinalizeHeader, PushedPart;
    if Rank(v.state) < Rank(SendingData) { TimeDoesNotMatterForEnd(v, grant); }
  }

  lemma TimeDoesNotMatterForCall(v: StreamValue, call: Call)
    requires v.Valid()
    ensures AfterCall(v.(lastActivity := 0), call) == TimelessCall(AfterCall(v, call))
  {
    hide AfterSendStatus, AfterSendHeader, AfterSendFile, AfterWrite;
    match call
    case SendStatus(code, msg, grant) => TimeDoesNotMatterForStatus(v, code, msg, grant);
    case SendHeader(field, val, grant) => TimeDoesNotMatterForHeader(v, field, val, grant);
    case SendFile(content, grant) => TimeDoesNotMatterForFile(v, content, grant);
    case Write(data, grant) => TimeDoesNotMatterForWrite(v, data, grant);
  }

  lemma {:induction false} TimeDoesNotMatterForCalls(v: StreamValue, calls: seq<Call>)
    requires v.Valid()
    ensures AfterCalls(v.(lastActivity := 0), calls) == AfterCalls(v, calls).(lastActivity := 0)
    decreases |calls|
  {
    hide AfterCall;
    if calls != [] {
      TimeDoesNotMatterForCall(v, calls[0]);
      TimeDoesNotMatterForCalls(AfterCall(v, calls[0]).0, calls[1..]);
    }
  }

  /** Everything but the time of the last activity. */
  function TimelessReturn(r: Received): Received {
    match r
    case Returned(v, code, request) => Returned(v.(lastActivity := 0), code, request)
    case NoReturn(v) => NoReturn(v.(lastActivity := 0))
  }

  lemma TimeDoesNotMatterForRequest(v: StreamValue, grant: Grant, handler: Handler)
    requires v.Valid()
    ensures TimelessReturn(AfterRequest(v, grant, handler)) == AfterRequest(v.(lastActivity := 0), grant, handler)
  {
    hide ParseRequest, AfterCalls;
    var (b, ok) := Terminated(v.recv, grant);
    var v1 := v.(recv := b, state := SendingStatus);
    var request := ParseRequest(b.bytes);
    if ok && request.Some? { TimeDoesNotMatterForCalls(v1, handler(request.value).calls); }
  }

  lemma HandledTimeless(r: Fed, grant: Grant, handler: Handler)
    requires r.v.Valid()
    ensures TimelessReturn(Handled(r, grant, handler)) == Handled(Timeless(r), grant, handler)
  {
    hide AfterRequest;
    if r.Ready? { TimeDoesNotMatterForRequest(r.v, grant, handler); }
  }

  /** Two ways of cutting the same bytes into chunks and calls emit the same request, give
      the same result and leave the stream the same in all but its time of activity. */
  lemma CuttingEmitsTheSame(v: StreamValue, a: seq<Read>, b: seq<Read>, grant: Grant, handler: Handler)
    requires v.Valid() && Rank(v.state) < Rank(SendingStatus) && Stream(a) == Stream(b)
    ensures TimelessReturn(Receive(v, a, grant, handler)) == TimelessReturn(Receive(v, b, grant, handler))
  {
    hide Receive, Arrive, Handled;
    ReceiveHandlesArrival(v, a, grant, handler);
    ReceiveHandlesArrival(v, b, grant, handler);
    HandledTimeless(Arrive(v, a, grant), grant, handler);
    HandledTimeless(Arrive(v, b, grant), grant, handler);
    CuttingDoesNotMatter(v, a, b, grant);
  }

  /** Handling a request leaves what was received in place. */
  lemma RequestIsKept(v: StreamValue, grant: Grant, handler: Handler)
    requires v.Valid() && AllGranted(grant)
    ensures var r := AfterRequest(v, grant, handler);
            && r.Returned? && r.request == ParseRequest(v.recv.bytes)
            && r.v.recv.bytes == v.recv.bytes && r.v.dataIdx == v.dataIdx
            && (r.request == None ==> r.v.state == Closing && r.code == ESUCCESS)
  {
    hide ParseRequest, AfterCalls;
  }

  /** Over any number of polls a fresh stream emits a request exactly when the bytes that
      arrive frame one with a valid request line, and then the one that stands in the framed
      bytes, which it keeps; an invalid line closes it; without a frame it keeps all bytes
      and waits. */
  lemma FramedRequestIsEmitted(v: StreamValue, calls: seq<Read>, grant: Grant, handler: Handler)
    requires IsFresh(v) && AllGranted(grant)
    ensures var s := Stream(calls); var r := Receive(v, calls, grant, handler);
            match FrameOf(s)
            case Whole(len, n, _) =>
              && r.Returned? && r.request == ParseRequest(s[..len]) && r.v.recv.bytes == s[..len] && r.v.dataIdx == n
              && (r.request == None ==> r.v.state == Closing && r.code == ESUCCESS)
            case Endless(_) => r.NoReturn?
            case _ => r.Returned? && r.code == ESUCCESS && r.request == None && r.v.recv.bytes == s
  {
    hide Receive, Arrive, AfterRequest, ParseRequest, FrameOf;
    ReceiveHandlesArrival(v, calls, grant, handler);
    ArrivalIsFramed(v, calls, grant);
    var r := Arrive(v, calls, grant);
    if r.Ready? { RequestIsKept(r.v, grant, handler); }
  }

  // ---- activity ----

  lemma {:induction false} BytesTakeNoTime(v: StreamValue, bytes: string, grant: Grant)
    requires v.Valid()
    ensures var u := AfterBytes(v, bytes, grant).v; u.lastActivity == v.lastActivity && u.initTime == v.initTime
    decreases |bytes|
  {
    if bytes != "" {
      var next := AfterByte(v, bytes[0], grant);
      if next.More? { BytesTakeNoTime(next.v, bytes[1..], grant); }
    }
  }

  lemma {:induction false} ChunksAreActivity(v: StreamValue, chunks: seq<string>, grant: Grant, now: int)
    requires v.Valid()
    ensures var u := AfterChunks(v, chunks, grant, now).v;
            u.lastActivity == (if chunks == [] then v.lastActivity else now) && u.initTime == v.initTime
    decreases |chunks|
  {
    if chunks != [] {
      var u := v.(lastActivity := now);
      BytesTakeNoTime(u, chunks[0], grant);
      var next := AfterBytes(u, chunks[0], grant);
      if next.More? { ChunksAreActivity(next.v, chunks[1..], grant, now); }
    }
  }

  /** A stream is active when something arrives, whatever becomes of it, and when bytes
      leave; its first time never changes. */
  lemma ActivityIsTraffic(v: StreamValue, input: Input, handler: Handler, out: Output, now: int)
    requires v.Valid()
    ensures var u := AfterRecv(v, input, handler, now).v;
            u.lastActivity == (if input.chunks == [] then v.lastActivity else now) && u.initTime == v.initTime
    ensures var u := AfterSend(v, out, now).0;
            u.lastActivity == (if |u.wire| == |v.wire| then v.lastActivity else now) && u.initTime == v.initTime
  {
    ChunksAreActivity(v, input.chunks, input.grant, now);
    RequestTakesNoTime(AfterChunks(v, input.chunks, input.grant, now).v, input.grant, handler);
  }

  lemma RequestTakesNoTime(v: StreamValue, grant: Grant, handler: Handler)
    requires v.Valid()
    ensures var u := AfterRequest(v, grant, handler).v; u.lastActivity == v.lastActivity && u.initTime == v.initTime
  {
    hide ParseRequest;
  }
}
