/** sb_Stream in place: every method leaves exactly the value `StreamModel` says. */
module Streams {
  import opened Basics
  import opened Buffers
  import opened HeaderFields
  import opened Numbers
  import opened StreamModel
  import QueryVars

  /** How the receive loop goes on after a byte. */
  datatype Next = GoOn | Handle | Fail | Hang

  ghost function Tagged(next: Next, v: StreamValue): Fed {
    match next
    case GoOn => More(v)
    case Handle => Ready(v)
    case Fail => NoMemory(v)
    case Hang => Hung(v)
  }

  datatype Outcome = Done(code: int, request: Option<Request>) | NeverReturns

  class Stream {
    var state: State
    var expected: nat
    var dataIdx: nat
    const recvBuf: Buffer
    const sendBuf: Buffer
    var file: Option<File>
    ghost var wire: string
    var initTime: int
    var lastActivity: int

    ghost predicate Valid()
      reads this, recvBuf, sendBuf
    {
      && recvBuf != sendBuf && recvBuf.s != sendBuf.s
      && recvBuf.Valid() && sendBuf.Valid()
      && (file.Some? ==> file.value.Valid())
      && dataIdx <= recvBuf.len
    }

    ghost function Value(): (v: StreamValue)
      reads this, recvBuf, sendBuf, recvBuf.s, sendBuf.s
      requires Valid()
      ensures v.Valid()
    {
      StreamValue(state, recvBuf.Value(), expected, dataIdx, sendBuf.Value(), file, wire, initTime, lastActivity)
    }

    constructor (now: int)
      ensures Valid() && fresh(recvBuf) && fresh(sendBuf) && fresh(recvBuf.s) && fresh(sendBuf.s)
      ensures Value() == NewStream(now) && !HasText()
    {
      state, expected, dataIdx, file, wire, initTime, lastActivity := ReceivingHeader, 0, 0, None, "", now, now;
      var r := new Buffer();
      var s := new Buffer();
      recvBuf, sendBuf := r, s;
    }

    // ---- lookups ----

    /** Is there a terminated text to look into? A new stream has none, not even a block. */
    predicate HasText()
      reads this, recvBuf, recvBuf.s
    {
      recvBuf.len < recvBuf.s.Length && recvBuf.s[recvBuf.len] == '\0'
    }

    /** sb_get_header on the stream; without a text it reads through a null pointer, or past
        what was received. */
    method GetHeader(field: string, dst: array<char>, len: nat) returns (r: Option<Fetched>)
      requires Valid() && '\0' !in field && 1 <= len <= dst.Length && dst != recvBuf.s
      modifies dst
      ensures r == if HasText() then Some(HeaderText(Value().recv.bytes, field, len)) else None
    {
      if !HasText() { return None; }
      var fetched := HeaderFields.GetHeader(recvBuf.s[..recvBuf.len], field, dst, len);
      return Some(fetched);
    }

    /** sb_get_var on the stream. */
    method GetVar(name: string, dst: array<char>, len: nat) returns (r: Option<QueryVars.VarResult>)
      requires Valid() && 1 <= len <= dst.Length && dst != recvBuf.s
      modifies dst
      ensures r.Some? <==> HasText()
      ensures r.Some? ==>
                match QueryVars.VarText(Value().recv.bytes, dataIdx, name)
                case None => r.value == QueryVars.NotFound && dst[0] == '\0'
                case Some(v) =>
                  var text := QueryVars.Decode(v);
                  var n := Min(|text|, len - 1);
                  && (r.value == if |text| < len - 1 then QueryVars.Success else QueryVars.Truncated)
                  && dst[..n + 1] == text[..n] + "\0" && dst[n + 1..] == old(dst[n + 1..])
    {
      if !HasText() { return None; }
      var found := QueryVars.GetVar(recvBuf.s[..recvBuf.len], dataIdx, name, dst, len);
      return Some(found);
    }

    // ---- response calls ----

    method SendStatus(code: int, msg: string, grant: Grant) returns (err: int)
      requires Valid()
      modifies `state, sendBuf, sendBuf.s
      ensures Valid() && (sendBuf.s == old(sendBuf.s) || fresh(sendBuf.s))
      ensures (Value(), err) == AfterSendStatus(old(Value()), code, msg, grant)
    {
      if state != SendingStatus { return EBADSTATE; }
      var ok := sendBuf.PushStr(StatusLine(code, msg), grant);
      if !ok { return EOUTOFMEM; }
      state := SendingHeader;
      return ESUCCESS;
    }

    method SendHeader(field: string, val: string, grant: Grant) returns (err: int)
      requires Valid()
      modifies `state, sendBuf, sendBuf.s
      ensures Valid() && (sendBuf.s == old(sendBuf.s) || fresh(sendBuf.s))
      ensures (Value(), err) == AfterSendHeader(old(Value()), field, val, grant)
    {
      hide Decimal, PushedPart;
      if Rank(state) > Rank(SendingHeader) { return EBADSTATE; }
      if Rank(state) < Rank(SendingHeader) {
        err := SendStatus(200, "OK", grant);
        if err != ESUCCESS { return; }
      }
      var ok := sendBuf.PushStr(HeaderLine(field, val), grant);
      return if ok then ESUCCESS else EOUTOFMEM;
    }

    method FinalizeHeader(grant: Grant) returns (err: int)
      requires Valid() && Rank(state) < Rank(SendingData)
      modifies `state, sendBuf, sendBuf.s
      ensures Valid() && (sendBuf.s == old(sendBuf.s) || fresh(sendBuf.s))
      ensures (Value(), err) == AfterFinalizeHeader(old(Value()), grant)
    {
      hide Decimal, PushedPart;
      if Rank(state) < Rank(SendingHeader) {
        err := SendStatus(200, "OK", grant);
        if err != ESUCCESS { return; }
      }
      var ok := sendBuf.PushStr("\r\n", grant);
      if !ok { return EOUTOFMEM; }
      state := SendingData;
      return ESUCCESS;
    }

    method SendFile(content: Option<string>, grant: Grant) returns (err: int)
      requires Valid()
      modifies `state, `file, sendBuf, sendBuf.s
      ensures Valid() && (sendBuf.s == old(sendBuf.s) || fresh(sendBuf.s))
      ensures (Value(), err) == AfterSendFile(old(Value()), content, grant)
    {
      hide Decimal, PushedPart, AfterSendHeader, AfterFinalizeHeader;
      if Rank(state) > Rank(SendingHeader) { return EBADSTATE; }
      if content.None? { return ECANTOPEN; }
      err := SendHeader("Content-Length", SizeText(content.value), grant);
      if err != ESUCCESS { return; }
      err := FinalizeHeader(grant);
      if err != ESUCCESS { return; }
      file := Some(File(content.value, 0));
      state := SendingFile;
      return ESUCCESS;
    }

    method Write(data: string, grant: Grant) returns (err: int)
      requires Valid()
      modifies `state, sendBuf, sendBuf.s
      ensures Valid() && (sendBuf.s == old(sendBuf.s) || fresh(sendBuf.s))
      ensures (Value(), err) == AfterWrite(old(Value()), data, grant)
    {
      hide PushedPart, AfterFinalizeHeader;
      if Rank(state) < Rank(SendingData) {
        err := FinalizeHeader(grant);
        if err != ESUCCESS { return; }
      }
      if state != SendingData { return EBADSTATE; }
      var ok := sendBuf.PushStr(data, grant);
      return if ok then ESUCCESS else EOUTOFMEM;
    }

    method Make(call: Call) returns (err: int)
      requires Valid()
      modifies `state, `file, sendBuf, sendBuf.s
      ensures Valid() && (sendBuf.s == old(sendBuf.s) || fresh(sendBuf.s))
      ensures (Value(), err) == AfterCall(old(Value()), call)
    {
      hide AfterSendStatus, AfterSendHeader, AfterSendFile, AfterWrite;
      match call
      case SendStatus(code, msg, grant) => err := SendStatus(code, msg, grant);
      case SendHeader(field, val, grant) => err := SendHeader(field, val, grant);
      case SendFile(content, grant) => err := SendFile(content, grant);
      case Write(data, grant) => err := Write(data, grant);
    }

    // ---- sending ----

    method Send(out: Output, now: int) returns (err: int)
      requires Valid()
      modifies this, sendBuf, sendBuf.s
      ensures Valid() && (sendBuf.s == old(sendBuf.s) || fresh(sendBuf.s))
      ensures (Value(), err) == AfterSend(old(Value()), out, now)
    {
      hide AfterTransmit;
      err := ESUCCESS;
      if sendBuf.len > 0 {
        Transmit(out, now);
      } else if file.Some? {
        var ok := sendBuf.Reserve(CHUNK, out.grant);
        if !ok { return EOUTOFMEM; }
        var f := file.value;
        var n := Min(out.read, Min(sendBuf.s.Length, |f.data| - f.pos));
        sendBuf.Fill(f.data[f.pos..f.pos + n]);
        file := Some(f.(pos := f.pos + n));
        if sendBuf.len > 0 {
          Transmit(out, now);
        } else {
          file := None;
        }
      } else {
        state := Closing;
      }
    }

    method Transmit(out: Output, now: int)
      requires Valid() && sendBuf.len > 0
      modifies this, sendBuf, sendBuf.s
      ensures Valid() && sendBuf.s == old(sendBuf.s)
      ensures Value() == AfterTransmit(old(Value()), out, now)
    {
      var n := Min(out.taken, sendBuf.len);
      if n == 0 {
        if !out.wouldBlock { state := Closing; }
        return;
      }
      wire := wire + sendBuf.s[..n];
      assert sendBuf.s[..n] == sendBuf.Value().bytes[..n];
      sendBuf.Shift(n);
      lastActivity := now;
    }

    // ---- receiving ----

    /** The handler's calls, and what its result code does. */
    method Answer(reply: Reply) returns (code: int)
      requires Valid()
      modifies this, sendBuf, sendBuf.s
      ensures Valid() && (sendBuf.s == old(sendBuf.s) || fresh(sendBuf.s))
      ensures (Value(), code) == AfterReply(old(Value()), reply)
    {
      hide AfterCall;
      ghost var before := Value();
      var i := 0;
      while i < |reply.calls|
        invariant i <= |reply.calls| && Valid() && (sendBuf.s == old(sendBuf.s) || fresh(sendBuf.s))
        invariant AfterCalls(before, reply.calls) == AfterCalls(Value(), reply.calls[i..])
      {
        ghost var v := Value();
        assert AfterCalls(v, reply.calls[i..]) ==
               AfterCalls(AfterCall(v, reply.calls[i..][0]).0, reply.calls[i..][1..]);
        assert reply.calls[i..][1..] == reply.calls[i + 1..];
        var _ := Make(reply.calls[i]);
        i := i + 1;
      }
      assert reply.calls[i..] == [];
      if reply.res < 0 { return reply.res; }
      if reply.res == RES_CLOSE {
        state := Closing;
        return ESUCCESS;
      }
      return if reply.res == RES_OK then ESUCCESS else EBADRESULT;
    }

    method HandleRequest(grant: Grant, handler: Handler) returns (code: int, request: Option<Request>)
      requires Valid()
      modifies this, recvBuf, recvBuf.s, sendBuf, sendBuf.s
      ensures Valid() && (sendBuf.s == old(sendBuf.s) || fresh(sendBuf.s))
      ensures (recvBuf.s == old(recvBuf.s) || fresh(recvBuf.s))
      ensures Returned(Value(), code, request) == AfterRequest(old(Value()), grant, handler)
      ensures request.Some? ==> HasText()
    {
      hide ParseRequest, AfterReply;
      state := SendingStatus;
      var ok := recvBuf.NullTerminate(grant);
      if !ok { return EOUTOFMEM, None; }
      request := ParseRequest(recvBuf.s[..recvBuf.len]);
      if request.None? {
        state := Closing;
        return ESUCCESS, None;
      }
      code := Answer(handler(request.value));
    }

    /** One received byte, and what the caller goes on with. */
    method Take(c: char, grant: Grant) returns (next: Next)
      requires Valid()
      modifies this, recvBuf, recvBuf.s
      ensures Valid() && (recvBuf.s == old(recvBuf.s) || fresh(recvBuf.s))
      ensures Tagged(next, Value()) == AfterByte(old(Value()), c, grant)
    {
      hide AfterHeader;
      var ok := recvBuf.PushChar(c, grant);
      if !ok { return Fail; }
      if state == ReceivingHeader && EndsHeader(recvBuf.s[..recvBuf.len]) {
        next := EndHeader(grant);
      } else {
        next := if expected == recvBuf.len then Handle else GoOn;
      }
    }

    method EndHeader(grant: Grant) returns (next: Next)
      requires Valid()
      modifies this, recvBuf, recvBuf.s
      ensures Valid() && (recvBuf.s == old(recvBuf.s) || fresh(recvBuf.s))
      ensures Tagged(next, Value()) == AfterHeader(old(Value()), grant)
    {
      hide HeaderLookup, StrToUint, Terminated;
      state := ReceivingRequest;
      var ok := recvBuf.NullTerminate(grant);
      if !ok { return Fail; }
      var r := FindHeaderValue(recvBuf.s[..recvBuf.len], "Content-Length");
      match r
      case Hangs => return Hang;
      case Missing => return Handle;
      case Found(s) =>
        expected := recvBuf.len + StrToUint(s);
        dataIdx := recvBuf.len;
        return if expected == recvBuf.len then Handle else GoOn;
    }

    method TakeChunk(buf: string, grant: Grant) returns (next: Next)
      requires Valid()
      modifies this, recvBuf, recvBuf.s
      ensures Valid() && (recvBuf.s == old(recvBuf.s) || fresh(recvBuf.s))
      ensures Tagged(next, Value()) == AfterBytes(old(Value()), buf, grant)
    {
      hide AfterByte;
      ghost var before := Value();
      var i := 0;
      while i < |buf|
        invariant i <= |buf| && Valid() && (recvBuf.s == old(recvBuf.s) || fresh(recvBuf.s))
        invariant AfterBytes(before, buf, grant) == AfterBytes(Value(), buf[i..], grant)
      {
        ghost var v := Value();
        assert buf[i..][1..] == buf[i + 1..];
        next := Take(buf[i], grant);
        if next != GoOn { return; }
        i := i + 1;
      }
      return GoOn;
    }

    /** The whole sb_stream_recv. */
    method Recv(input: Input, handler: Handler, now: int) returns (r: Outcome)
      requires Valid()
      modifies this, recvBuf, recvBuf.s, sendBuf, sendBuf.s
      ensures Valid() && (sendBuf.s == old(sendBuf.s) || fresh(sendBuf.s))
      ensures (recvBuf.s == old(recvBuf.s) || fresh(recvBuf.s))
      ensures AfterRecv(old(Value()), input, handler, now) ==
              match r case Done(code, request) => Returned(Value(), code, request)
                      case NeverReturns => NoReturn(Value())
    {
      hide AfterBytes, AfterRequest;
      ghost var before := Value();
      var k := 0;
      while k < |input.chunks|
        invariant k <= |input.chunks| && Valid() && (recvBuf.s == old(recvBuf.s) || fresh(recvBuf.s))
        invariant sendBuf.s == old(sendBuf.s)
        invariant AfterChunks(before, input.chunks, input.grant, now) ==
                  AfterChunks(Value(), input.chunks[k..], input.grant, now)
      {
        assert input.chunks[k..][1..] == input.chunks[k + 1..];
        lastActivity := now;
        var next := TakeChunk(input.chunks[k], input.grant);
        match next {
          case Fail => return Done(EOUTOFMEM, None);
          case Hang => return NeverReturns;
          case Handle =>
            var code, request := HandleRequest(input.grant, handler);
            return Done(code, request);
          case GoOn => k := k + 1;
        }
      }
      if input.disconnected { state := Closing; }
      return Done(ESUCCESS, None);
    }
  }
}
