/** When a response call succeeds, and what it appends: exactly its text, with the status line
    and the end of the header in front of it where they are still missing. */
module CallResults {
  import opened Basics
  import opened Buffers
  import opened StreamModel
  import opened Responses

  /** The status line that goes in front where none was sent. */
  function Lead(s: State): string {
    if s == SendingStatus then StatusLine(200, "OK") else ""
  }

  /** The text that an accepted call appends in a state. */
  function Part(s: State, call: Call): string {
    match call
    case SendStatus(code, msg, _) => StatusLine(code, msg)
    case SendHeader(field, val, _) => Lead(s) + HeaderLine(field, val)
    case SendFile(content, _) =>
      if content.None? then "" else Lead(s) + HeaderLine("Content-Length", SizeText(content.value)) + "\r\n"
    case Write(data, _) => if s in {SendingStatus, SendingHeader} then Lead(s) + "\r\n" + data else data
  }

  /** The state it leads to. */
  function NextState(call: Call): State {
    match call
    case SendStatus(_, _, _) => SendingHeader
    case SendHeader(_, _, _) => SendingHeader
    case SendFile(_, _) => SendingFile
    case Write(_, _) => SendingData
  }

  /** The stream with a text behind its buffer. */
  function Appended(v: StreamValue, text: string, s: State): StreamValue {
    v.(send := Buf(v.send.bytes + text, CapFor(v.send.cap, |v.send.bytes| + |text|)), state := s)
  }

  /** The stream after a call that succeeds: its text at the end, and its file at the start. */
  function Done(v: StreamValue, call: Call): StreamValue
    requires Accepted(v.state, call)
  {
    var u := Appended(v, Part(v.state, call), NextState(call));
    if call.SendFile? then u.(file := Some(File(call.content.value, 0))) else u
  }

  /** Is there memory for a text behind the buffer? */
  ghost predicate Room(v: StreamValue, text: string, grant: Grant) {
    Grants(grant, Doublings(v.send.cap, |v.send.bytes| + |text|))
  }

  /** Two texts appended one after the other are one text. */
  lemma AppendedTwice(v: StreamValue, a: string, b: string, s: State, t: State, grant: Grant)
    requires v.Valid()
    ensures Appended(Appended(v, a, s), b, t) == Appended(v, a + b, t)
    ensures Room(v, a + b, grant) <==> Room(v, a, grant) && Room(Appended(v, a, s), b, grant)
  {
    hide Grants;
    var n := |v.send.bytes|;
    assert v.send.bytes + a + b == v.send.bytes + (a + b);
    DoublingsInSteps(v.send.cap, n + |a|, n + |a + b|, grant);
  }

  lemma Push(v: StreamValue, text: string, grant: Grant)
    requires v.Valid()
    ensures var (b, ok) := PushedStr(v.send, text, grant);
            (ok <==> Room(v, text, grant)) && (ok ==> v.(send := b) == Appended(v, text, v.state))
  {
    hide PushedStr, Grants, Doublings, CapFor;
    PushedStrIs(v.send, text, grant);
  }

  lemma StatusResult(v: StreamValue, code: int, msg: string, grant: Grant)
    requires v.Valid() && v.state == SendingStatus
    ensures var (u, err) := AfterSendStatus(v, code, msg, grant);
            var text := StatusLine(code, msg);
            && err == (if Room(v, text, grant) then ESUCCESS else EOUTOFMEM)
            && (err == ESUCCESS ==> u == Appended(v, text, SendingHeader))
  {
    hide PushedStr, StatusLine, CapFor, Grants, Doublings;
    Push(v, StatusLine(code, msg), grant);
  }

  lemma HeaderResult(v: StreamValue, field: string, val: string, grant: Grant)
    requires v.Valid() && v.state in {SendingStatus, SendingHeader}
    ensures var (u, err) := AfterSendHeader(v, field, val, grant);
            var text := Lead(v.state) + HeaderLine(field, val);
            && err == (if Room(v, text, grant) then ESUCCESS else EOUTOFMEM)
            && (err == ESUCCESS ==> u == Appended(v, text, SendingHeader))
  {
    hide PushedStr, StatusLine, HeaderLine, AfterSendStatus, Appended, Room;
    var line := HeaderLine(field, val);
    if v.state == SendingStatus {
      StatusResult(v, 200, "OK", grant);
      AppendedTwice(v, Lead(v.state), line, SendingHeader, SendingHeader, grant);
      var (v1, err) := AfterSendStatus(v, 200, "OK", grant);
      StateIs(v, Lead(v.state), SendingHeader);
      if err == ESUCCESS { PushHere(v1, line, SendingHeader, grant); }
    } else {
      assert "" + line == line;
      PushHere(v, line, SendingHeader, grant);
    }
  }

  lemma StateIs(v: StreamValue, text: string, s: State)
    ensures Appended(v, text, s).state == s
  {
  }

  lemma PushHere(v: StreamValue, text: string, s: State, grant: Grant)
    requires v.Valid()
    ensures var (b, ok) := PushedStr(v.send, text, grant);
            (ok <==> Room(v, text, grant)) && (ok ==> v.(send := b, state := s) == Appended(v, text, s))
  {
    Push(v, text, grant);
  }

  lemma EndResult(v: StreamValue, grant: Grant)
    requires v.Valid() && v.state in {SendingStatus, SendingHeader}
    ensures var (u, err) := AfterFinalizeHeader(v, grant);
            var text := Lead(v.state) + "\r\n";
            && err == (if Room(v, text, grant) then ESUCCESS else EOUTOFMEM)
            && (err == ESUCCESS ==> u == Appended(v, text, SendingData))
  {
    hide PushedStr, StatusLine, AfterSendStatus, Appended, Room;
    if v.state == SendingStatus {
      StatusResult(v, 200, "OK", grant);
      AppendedTwice(v, Lead(v.state), "\r\n", SendingHeader, SendingData, grant);
      var (v1, err) := AfterSendStatus(v, 200, "OK", grant);
      StateIs(v, Lead(v.state), SendingHeader);
      if err == ESUCCESS { PushHere(v1, "\r\n", SendingData, grant); }
    } else {
      assert "" + "\r\n" == "\r\n";
      PushHere(v, "\r\n", SendingData, grant);
    }
  }

  lemma WriteResult(v: StreamValue, data: string, grant: Grant)
    requires v.Valid() && v.state in {SendingStatus, SendingHeader, SendingData}
    ensures var (u, err) := AfterWrite(v, data, grant);
            var text := Part(v.state, Write(data, grant));
            && err == (if Room(v, text, grant) then ESUCCESS else EOUTOFMEM)
            && (err == ESUCCESS ==> u == Appended(v, text, SendingData))
  {
    hide PushedStr, StatusLine, AfterFinalizeHeader, Appended, Room, Lead;
    if v.state == SendingData {
      PushHere(v, data, SendingData, grant);
    } else {
      EndResult(v, grant);
      var end := Lead(v.state) + "\r\n";
      AppendedTwice(v, end, data, SendingData, SendingData, grant);
      var (v1, err) := AfterFinalizeHeader(v, grant);
      StateIs(v, end, SendingData);
      if err == ESUCCESS { PushHere(v1, data, SendingData, grant); }
    }
  }

  lemma FileResult(v: StreamValue, data: string, grant: Grant)
    requires v.Valid() && v.state in {SendingStatus, SendingHeader}
    ensures var (u, err) := AfterSendFile(v, Some(data), grant);
            var text := Part(v.state, SendFile(Some(data), grant));
            && err == (if Room(v, text, grant) then ESUCCESS else EOUTOFMEM)
            && (err == ESUCCESS ==> u == Appended(v, text, SendingFile).(file := Some(File(data, 0))))
  {
    hide PushedStr, HeaderLine, AfterSendHeader, AfterFinalizeHeader, Room, SizeText, CapFor;
    var size := SizeText(data);
    var line := Lead(v.state) + HeaderLine("Content-Length", size);
    HeaderResult(v, "Content-Length", size, grant);
    AppendedTwice(v, line, "\r\n", SendingHeader, SendingData, grant);
    var (v1, err) := AfterSendHeader(v, "Content-Length", size, grant);
    if err == ESUCCESS {
      EndResult(v1, grant);
      assert "" + "\r\n" == "\r\n";
    }
  }

  /** What any call in any state comes to. Outside its states it is refused and changes
      nothing; in them it runs out of memory exactly when one of the doublings for the whole
      text is refused, and otherwise appends that text. */
  lemma CallResult(v: StreamValue, call: Call)
    requires v.Valid()
    ensures var (u, err) := AfterCall(v, call);
            var text := Part(v.state, call);
            if Accepted(v.state, call) then
              && err == (if Room(v, text, call.grant) then ESUCCESS else EOUTOFMEM)
              && (err == ESUCCESS ==> u == Done(v, call))
            else
              && u == v
              && err == if call.SendFile? && call.content.None? && Rank(v.state) <= Rank(SendingHeader) then ECANTOPEN
                        else EBADSTATE
  {
    if Accepted(v.state, call) {
      hide AfterSendStatus, AfterSendHeader, AfterSendFile, AfterWrite, Room, Part, CapFor, StatusLine;
      match call
      case SendStatus(code, msg, grant) => StatusCallResult(v, code, msg, grant);
      case SendHeader(field, val, grant) => HeaderCallResult(v, field, val, grant);
      case SendFile(content, grant) => FileResult(v, content.value, grant);
      case Write(data, grant) => WriteResult(v, data, grant);
    } else {
      hide PushedStr, StatusLine, HeaderLine, SizeText;
    }
  }

  lemma StatusCallResult(v: StreamValue, code: int, msg: string, grant: Grant)
    requires v.Valid() && v.state == SendingStatus
    ensures var (u, err) := AfterSendStatus(v, code, msg, grant);
            var text := Part(v.state, SendStatus(code, msg, grant));
            && err == (if Room(v, text, grant) then ESUCCESS else EOUTOFMEM)
            && (err == ESUCCESS ==> u == Appended(v, text, SendingHeader))
  {
    hide AfterSendStatus, Room, Appended, StatusLine;
    StatusResult(v, code, msg, grant);
  }

  lemma HeaderCallResult(v: StreamValue, field: string, val: string, grant: Grant)
    requires v.Valid() && v.state in {SendingStatus, SendingHeader}
    ensures var (u, err) := AfterSendHeader(v, field, val, grant);
            var text := Part(v.state, SendHeader(field, val, grant));
            && err == (if Room(v, text, grant) then ESUCCESS else EOUTOFMEM)
            && (err == ESUCCESS ==> u == Appended(v, text, SendingHeader))
  {
    hide AfterSendHeader, Room, Appended, HeaderLine, Lead;
    HeaderResult(v, field, val, grant);
  }

  // ---- calls in sequence ----

  /** May these calls be made one after the other? */
  ghost predicate InSequence(s: State, calls: seq<Call>)
    decreases |calls|
  {
    calls == [] || (Accepted(s, calls[0]) && InSequence(NextState(calls[0]), calls[1..]))
  }

  /** All that they append, and the file at their end. */
  function Text(s: State, calls: seq<Call>): string
    decreases |calls|
  {
    if calls == [] then "" else Part(s, calls[0]) + Text(NextState(calls[0]), calls[1..])
  }

  function FileOf(calls: seq<Call>): string
    decreases |calls|
  {
    if calls == [] then ""
    else if calls[0].SendFile? && calls[0].content.Some? then calls[0].content.value
    else FileOf(calls[1..])
  }

  ghost predicate AllMemory(calls: seq<Call>) {
    forall k :: 0 <= k < |calls| ==> forall n :: calls[k].grant(n)
  }

  lemma AfterFileNothing(calls: seq<Call>)
    requires InSequence(SendingFile, calls)
    ensures calls == []
  {
  }

  /** Calls in sequence with memory at hand all succeed, append their texts in order, and
      leave their file to be sent behind them; none of them closes the stream. */
  lemma {:induction false} CallsSucceed(v: StreamValue, calls: seq<Call>)
    requires v.Valid() && v.file.None? && v.state != Closing
    requires InSequence(v.state, calls) && AllMemory(calls)
    ensures var u := AfterCalls(v, calls);
            && Total(u) == Total(v) + Text(v.state, calls) + FileOf(calls)
            && u.wire == v.wire && u.send.bytes == v.send.bytes + Text(v.state, calls)
            && u.state != Closing && Rank(v.state) <= Rank(u.state)
    decreases |calls|
  {
    hide Part, AfterCall, CapFor, Accepted;
    if calls == [] {
      assert v.send.bytes + "" == v.send.bytes && Total(v) + "" + "" == Total(v);
    } else {
      var call, rest := calls[0], calls[1..];
      var (u, err) := AfterCall(v, call);
      OneSucceeds(v, call);
      if call.SendFile? {
        FileLast(v, call, rest);
        FileText(v.state, calls);
      } else {
        CallsSucceed(u, rest);
        TextGrows(v, u, call, rest);
      }
    }
  }

  lemma OneSucceeds(v: StreamValue, call: Call)
    requires v.Valid() && Accepted(v.state, call) && forall n :: call.grant(n)
    ensures AfterCall(v, call).1 == ESUCCESS
    ensures AfterCall(v, call).0 == Done(v, call)
  {
    hide Part, AfterCall, CapFor;
    CallResult(v, call);
  }

  lemma FileLast(v: StreamValue, call: Call, rest: seq<Call>)
    requires v.Valid() && v.file.None? && Accepted(v.state, call) && call.SendFile?
    requires forall n :: call.grant(n)
    requires InSequence(SendingFile, rest)
    ensures var u := AfterCall(v, call).0;
            && rest == [] && AfterCalls(u, rest) == u
            && Total(u) == Total(v) + (Part(v.state, call) + "") + call.content.value
            && u.send.bytes == v.send.bytes + (Part(v.state, call) + "")
  {
    hide Part, AfterCall, CapFor;
    AfterFileNothing(rest);
    OneSucceeds(v, call);
    var data := call.content.value;
    assert data[0..] == data && Part(v.state, call) + "" == Part(v.state, call);
    assert v.wire + v.send.bytes + "" == v.wire + v.send.bytes;
    assert v.wire + (v.send.bytes + Part(v.state, call)) == v.wire + v.send.bytes + Part(v.state, call);
  }

  lemma FileText(s: State, calls: seq<Call>)
    requires calls != [] && calls[0].SendFile? && Accepted(s, calls[0]) && calls[1..] == []
    ensures Text(s, calls) == Part(s, calls[0]) + "" && FileOf(calls) == calls[0].content.value
  {
    hide Part;
  }

  lemma TextGrows(v: StreamValue, u: StreamValue, call: Call, rest: seq<Call>)
    requires v.Valid() && u.Valid() && v.file.None? && u.file.None?
    requires u.wire == v.wire && u.send.bytes == v.send.bytes + Part(v.state, call)
    ensures var t := Text(NextState(call), rest);
            && Total(u) + t + FileOf(rest) == Total(v) + (Part(v.state, call) + t) + FileOf(rest)
            && u.send.bytes + t == v.send.bytes + (Part(v.state, call) + t)
  {
    hide Part, Text;
    var p, t := Part(v.state, call), Text(NextState(call), rest);
    assert v.send.bytes + p + t == v.send.bytes + (p + t);
    assert v.wire + (v.send.bytes + p) == v.wire + v.send.bytes + p;
    assert Total(u) == v.wire + v.send.bytes + p;
    assert Total(v) == v.wire + v.send.bytes;
    assert v.wire + v.send.bytes + p + t + FileOf(rest) == v.wire + v.send.bytes + (p + t) + FileOf(rest);
  }

  /** A reply to a request: its calls are carried out whatever its result code is, and the
      code alone says whether the stream stays, closes, or the poll fails. */
  lemma ReplyTakesEffect(v: StreamValue, reply: Reply)
    requires v.Valid() && v.file.None? && v.state != Closing
    requires InSequence(v.state, reply.calls) && AllMemory(reply.calls)
    ensures var (u, code) := AfterReply(v, reply);
            && Total(u) == Total(v) + Text(v.state, reply.calls) + FileOf(reply.calls)
            && (u.state == Closing <==> reply.res == RES_CLOSE)
            && code == (if reply.res < 0 then reply.res
                        else if reply.res == RES_OK || reply.res == RES_CLOSE then ESUCCESS
                        else EBADRESULT)
  {
    hide AfterCalls, Text, FileOf, InSequence, AllMemory;
    CallsSucceed(v, reply.calls);
  }
}
