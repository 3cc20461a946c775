/** One sandbird stream as a value, and what each call does to it. The methods of
    `Stream` are proved to do exactly this in place. */
module StreamModel {
  import opened Basics
  import opened CText
  import opened Buffers
  import opened HeaderFields
  import opened Numbers
  import QueryVars

  datatype State =
    | ReceivingHeader
    | ReceivingRequest
    | SendingStatus
    | SendingHeader
    | SendingData
    | SendingFile
    | Closing

  /** The enumeration value of a state. */
  function Rank(s: State): nat {
    match s
    case ReceivingHeader => 0
    case ReceivingRequest => 1
    case SendingStatus => 2
    case SendingHeader => 3
    case SendingData => 4
    case SendingFile => 5
    case Closing => 6
  }

  /** Result codes; a handler may return other negative numbers. */
  const ESUCCESS: int := 0
  const EOUTOFMEM: int := -2
  const EBADSTATE: int := -4
  const EBADRESULT: int := -5
  const ECANTOPEN: int := -6
  const EFDTOOBIG: int := -8

  const RES_OK: int := 0
  const RES_CLOSE: int := 1

  /** An open file: its bytes and the read position. */
  datatype File = File(data: string, pos: nat) {
    ghost predicate Valid() { pos <= |data| }
  }

  /** `wire` is what send() has taken so far, in order. */
  datatype StreamValue = StreamValue(
    state: State,
    recv: Buf, expected: nat, dataIdx: nat,
    send: Buf, file: Option<File>, wire: string,
    initTime: int, lastActivity: int)
  {
    ghost predicate Valid() {
      recv.Valid() && send.Valid() && (file.Some? ==> file.value.Valid()) && dataIdx <= |recv.bytes|
    }
  }

  function NewStream(now: int): (v: StreamValue)
    ensures v.Valid()
  {
    StreamValue(ReceivingHeader, EMPTY, 0, 0, EMPTY, None, "", now, now)
  }

  // ---- the response calls ----

  /** A call of the response interface. `Write` is sb_write and, with the formatted text,
      sb_writef; `content` is what fopen finds under the file name. */
  datatype Call =
    | SendStatus(code: int, msg: string, grant: Grant)
    | SendHeader(field: string, val: string, grant: Grant)
    | SendFile(content: Option<string>, grant: Grant)
    | Write(data: string, grant: Grant)

  function StatusLine(code: int, msg: string): string {
    "HTTP/1.1 " + SignedDecimal(code) + " " + msg + "\r\n"
  }

  function HeaderLine(field: string, val: string): string {
    field + ": " + val + "\r\n"
  }

  /** What no response call takes back. */
  ghost predicate Onward(v: StreamValue, u: StreamValue) {
    && Rank(v.state) <= Rank(u.state)
    && v.send.bytes <= u.send.bytes && v.wire == u.wire
    && v.recv == u.recv && v.expected == u.expected && v.dataIdx == u.dataIdx
    && v.initTime == u.initTime && v.lastActivity == u.lastActivity
  }

  function AfterSendStatus(v: StreamValue, code: int, msg: string, grant: Grant): (r: (StreamValue, int))
    requires v.Valid()
    ensures r.0.Valid() && Onward(v, r.0)
    ensures r.1 == ESUCCESS ==> r.0.state == SendingHeader
  {
    if v.state != SendingStatus then (v, EBADSTATE)
    else
      var (b, ok) := PushedStr(v.send, StatusLine(code, msg), grant);
      if ok then (v.(send := b, state := SendingHeader), ESUCCESS) else (v.(send := b), EOUTOFMEM)
  }

  function AfterSendHeader(v: StreamValue, field: string, val: string, grant: Grant): (r: (StreamValue, int))
    requires v.Valid()
    ensures r.0.Valid() && Onward(v, r.0)
    ensures r.1 == ESUCCESS ==> r.0.state == SendingHeader
  {
    if Rank(v.state) > Rank(SendingHeader) then (v, EBADSTATE)
    else
      var (v1, err) := if v.state != SendingHeader then AfterSendStatus(v, 200, "OK", grant) else (v, ESUCCESS);
      if err != ESUCCESS then (v1, err)
      else
        var (b, ok) := PushedStr(v1.send, HeaderLine(field, val), grant);
        (v1.(send := b), if ok then ESUCCESS else EOUTOFMEM)
  }

  function AfterFinalizeHeader(v: StreamValue, grant: Grant): (r: (StreamValue, int))
    requires v.Valid() && Rank(v.state) < Rank(SendingData)
    ensures r.0.Valid() && Onward(v, r.0)
  {
    var (v1, err) := if Rank(v.state) < Rank(SendingHeader) then AfterSendStatus(v, 200, "OK", grant)
                     else (v, ESUCCESS);
    if err != ESUCCESS then (v1, err)
    else
      var (b, ok) := PushedStr(v1.send, "\r\n", grant);
      if ok then (v1.(send := b, state := SendingData), ESUCCESS) else (v1.(send := b), EOUTOFMEM)
  }

  /** The headers of a file response, and the file at its start. */
  function AfterFileHeaders(v: StreamValue, size: string, data: string, grant: Grant): (r: (StreamValue, int))
    requires v.Valid() && Rank(v.state) <= Rank(SendingHeader)
    ensures r.0.Valid() && Onward(v, r.0)
  {
    var (v1, err1) := AfterSendHeader(v, "Content-Length", size, grant);
    if err1 != ESUCCESS then (v1, err1)
    else
      var (v2, err2) := AfterFinalizeHeader(v1, grant);
      if err2 != ESUCCESS then (v2, err2)
      else (v2.(file := Some(File(data, 0)), state := SendingFile), ESUCCESS)
  }

  /** "%u" of the file size, cut to an unsigned int. */
  function SizeText(data: string): string {
    Decimal(|data| % UINT_RANGE)
  }

  function AfterSendFile(v: StreamValue, content: Option<string>, grant: Grant): (r: (StreamValue, int))
    requires v.Valid()
    ensures r.0.Valid() && Onward(v, r.0)
  {
    if Rank(v.state) > Rank(SendingHeader) then (v, EBADSTATE)
    else if content.None? then (v, ECANTOPEN)
    else AfterFileHeaders(v, SizeText(content.value), content.value, grant)
  }

  function AfterWrite(v: StreamValue, data: string, grant: Grant): (r: (StreamValue, int))
    requires v.Valid()
    ensures r.0.Valid() && Onward(v, r.0)
  {
    var (v1, err) := if Rank(v.state) < Rank(SendingData) then AfterFinalizeHeader(v, grant) else (v, ESUCCESS);
    if err != ESUCCESS then (v1, err)
    else if v1.state != SendingData then (v1, EBADSTATE)
    else
      var (b, ok) := PushedStr(v1.send, data, grant);
      (v1.(send := b), if ok then ESUCCESS else EOUTOFMEM)
  }

  function AfterCall(v: StreamValue, call: Call): (r: (StreamValue, int))
    requires v.Valid()
    ensures r.0.Valid() && Onward(v, r.0)
  {
    match call
    case SendStatus(code, msg, grant) => AfterSendStatus(v, code, msg, grant)
    case SendHeader(field, val, grant) => AfterSendHeader(v, field, val, grant)
    case SendFile(content, grant) => AfterSendFile(v, content, grant)
    case Write(data, grant) => AfterWrite(v, data, grant)
  }

  function AfterCalls(v: StreamValue, calls: seq<Call>): (r: StreamValue)
    requires v.Valid()
    ensures r.Valid() && Onward(v, r)
    decreases |calls|
  {
    if calls == [] then v else AfterCalls(AfterCall(v, calls[0]).0, calls[1..])
  }

  // ---- sending ----

  /** What the system does for one sb_stream_send: how many bytes fread delivers at most,
      how many send() takes at most, and its error when it takes none. */
  datatype Output = Output(read: nat, taken: nat, wouldBlock: bool, grant: Grant)

  function AfterTransmit(v: StreamValue, out: Output, now: int): (r: StreamValue)
    requires v.Valid()
    ensures r.Valid()
  {
    var n := Min(out.taken, |v.send.bytes|);
    if n == 0 then (if out.wouldBlock then v else v.(state := Closing))
    else v.(send := v.send.(bytes := v.send.bytes[n..]), wire := v.wire + v.send.bytes[..n], lastActivity := now)
  }

  const CHUNK: nat := 8192

  /** The stream with the next `n` bytes of its file in the empty buffer. */
  function Loaded(v: StreamValue, room: Buf, n: nat): (u: StreamValue)
    requires v.Valid() && v.file.Some?
    requires v.file.value.pos + n <= |v.file.value.data| && n <= room.cap
    ensures u.Valid()
  {
    var f := v.file.value;
    v.(send := Buf(f.data[f.pos..f.pos + n], room.cap), file := Some(f.(pos := f.pos + n)))
  }

  function AfterSend(v: StreamValue, out: Output, now: int): (r: (StreamValue, int))
    requires v.Valid()
    ensures r.0.Valid()
  {
    if |v.send.bytes| > 0 then (AfterTransmit(v, out, now), ESUCCESS)
    else if v.file.None? then (v.(state := Closing), ESUCCESS)
    else
      var (room, ok) := Reserved(v.send, CHUNK, out.grant);
      if !ok then (v, EOUTOFMEM)
      else
        var n := Min(out.read, Min(room.cap, |v.file.value.data| - v.file.value.pos));
        if n > 0 then (AfterTransmit(Loaded(v, room, n), out, now), ESUCCESS)
        else (v.(send := Buf("", room.cap), file := None), ESUCCESS)
  }

  // ---- the request line ----

  /** The characters "%s" matches, at most `max` of them. */
  function Word(s: string, max: nat): (w: string)
    ensures w <= s && |w| <= max
    decreases max
  {
    if max == 0 || At(s, 0) == '\0' || IsSpace(s[0]) then "" else [s[0]] + Word(s[1..], max - 1)
  }

  datatype Request = Request(verb: string, path: string)

  /** sscanf with "%15s %n%*s %15s", the version test, and the decoded path, which holds
      at most 511 characters. */
  function ParseRequest(s: string): Option<Request> {
    var verb := Word(SkipSpace(s), 15);
    var target := SkipSpace(SkipSpace(s)[|verb|..]);
    var word := Word(target, |target|);
    var version := Word(SkipSpace(target[|word|..]), 15);
    if verb == "" || word == "" || version == "" || !("HTTP" <= version) then None
    else
      var path := QueryVars.Decode(target);
      Some(Request(verb, path[..Min(|path|, 511)]))
  }

  // ---- receiving ----

  /** The event handler's answer: the response calls it makes and its result code. */
  datatype Reply = Reply(calls: seq<Call>, res: int)

  function AfterReply(v: StreamValue, reply: Reply): (r: (StreamValue, int))
    requires v.Valid()
    ensures r.0.Valid()
  {
    var v1 := AfterCalls(v, reply.calls);
    if reply.res < 0 then (v1, reply.res)
    else if reply.res == RES_CLOSE then (v1.(state := Closing), ESUCCESS)
    else if reply.res == RES_OK then (v1, ESUCCESS)
    else (v1, EBADRESULT)
  }

  /** Where a received byte leaves the stream: waiting for more, with a complete request,
      out of memory, or in a header scan that does not return. */
  datatype Fed =
    | More(v: StreamValue)
    | Ready(v: StreamValue)
    | NoMemory(v: StreamValue)
    | Hung(v: StreamValue)

  /** Do two line ends stand in front of position `k`? */
  predicate EndsAt(s: string, k: nat)
    requires k <= |s|
  {
    k >= 4 && s[k - 4] == '\r' && s[k - 3] == '\n' && s[k - 2] == '\r' && s[k - 1] == '\n'
  }

  predicate EndsHeader(s: string) {
    EndsAt(s, |s|)
  }

  function CheckLength(v: StreamValue): Fed {
    if v.expected == |v.recv.bytes| then Ready(v) else More(v)
  }

  /** The header is complete: the text is terminated and searched for its length field;
      without one the request is complete, too. */
  function AfterHeader(v: StreamValue, grant: Grant): (r: Fed)
    requires v.Valid()
    ensures r.v.Valid()
  {
    var (b, ok) := Terminated(v.recv, grant);
    var v1 := v.(recv := b, state := ReceivingRequest);
    if !ok then NoMemory(v1)
    else match HeaderLookup(b.bytes, "Content-Length")
      case Hangs => Hung(v1)
      case Missing => Ready(v1)
      case Found(s) => CheckLength(v1.(expected := |b.bytes| + StrToUint(s), dataIdx := |b.bytes|))
  }

  function AfterByte(v: StreamValue, c: char, grant: Grant): (r: Fed)
    requires v.Valid()
    ensures r.v.Valid()
  {
    var (b, ok) := PushedChar(v.recv, c, grant);
    var v1 := v.(recv := b);
    if !ok then NoMemory(v1)
    else if v1.state == ReceivingHeader && EndsHeader(b.bytes) then AfterHeader(v1, grant)
    else CheckLength(v1)
  }

  /** A chunk, byte by byte; what follows a complete request or a failure is dropped. */
  function AfterBytes(v: StreamValue, bytes: string, grant: Grant): (r: Fed)
    requires v.Valid()
    ensures r.v.Valid()
    decreases |bytes|
  {
    if bytes == "" then More(v)
    else
      var next := AfterByte(v, bytes[0], grant);
      if next.More? then AfterBytes(next.v, bytes[1..], grant) else next
  }

  /** What recv() yields during one sb_stream_recv: chunks, and then nothing for now or
      the end of the connection. */
  datatype Input = Input(chunks: seq<string>, disconnected: bool, grant: Grant)

  function AfterChunks(v: StreamValue, chunks: seq<string>, grant: Grant, now: int): (r: Fed)
    requires v.Valid()
    ensures r.v.Valid()
    decreases |chunks|
  {
    if chunks == [] then More(v)
    else
      var next := AfterBytes(v.(lastActivity := now), chunks[0], grant);
      if next.More? then AfterChunks(next.v, chunks[1..], grant, now) else next
  }

  /** A returned call, with the request it emitted, or one that does not return. */
  datatype Received =
    | Returned(v: StreamValue, code: int, request: Option<Request>)
    | NoReturn(v: StreamValue)

  type Handler = Request -> Reply

  function AfterRequest(v: StreamValue, grant: Grant, handler: Handler): (r: Received)
    requires v.Valid()
    ensures r.v.Valid()
  {
    var (b, ok) := Terminated(v.recv, grant);
    var v1 := v.(recv := b, state := SendingStatus);
    if !ok then Returned(v1, EOUTOFMEM, None)
    else match ParseRequest(b.bytes)
      case None => Returned(v1.(state := Closing), ESUCCESS, None)
      case Some(request) =>
        var (v2, code) := AfterReply(v1, handler(request));
        Returned(v2, code, Some(request))
  }

  function AfterRecv(v: StreamValue, input: Input, handler: Handler, now: int): (r: Received)
    requires v.Valid()
    ensures r.v.Valid()
  {
    match AfterChunks(v, input.chunks, input.grant, now)
    case More(v1) => Returned(if input.disconnected then v1.(state := Closing) else v1, ESUCCESS, None)
    case NoMemory(v1) => Returned(v1, EOUTOFMEM, None)
    case Hung(v1) => NoReturn(v1)
    case Ready(v1) => AfterRequest(v1, input.grant, handler)
  }
}
