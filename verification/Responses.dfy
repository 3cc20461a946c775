/** What the peer is told: status line, header lines, an empty line and the body, in this
    order under every sequence of response calls and sends (section 3 of RFC 7230). */
module Responses {
  import opened Basics
  import opened Buffers
  import opened StreamModel

  /** The parts of a response so far. */
  datatype Response = Response(status: Option<(int, string)>, headers: seq<(string, string)>, ended: bool, body: string)

  const NOTHING := Response(None, [], false, "")

  function RenderHeaders(headers: seq<(string, string)>): string {
    if headers == [] then ""
    else
      var last := headers[|headers| - 1];
      RenderHeaders(headers[..|headers| - 1]) + HeaderLine(last.0, last.1)
  }

  function Top(r: Response): string {
    if r.status.None? then "" else StatusLine(r.status.value.0, r.status.value.1) + RenderHeaders(r.headers)
  }

  function Render(r: Response): string {
    Top(r) + if r.ended then "\r\n" + r.body else ""
  }

  ghost predicate WellFormed(r: Response) {
    && (r.status.None? ==> r.headers == [] && !r.ended)
    && (!r.ended ==> r.body == "")
  }

  /** The part of the response that a state stands for. */
  ghost predicate Reached(s: State, r: Response) {
    match s
    case ReceivingHeader | ReceivingRequest | SendingStatus => r == NOTHING
    case SendingHeader => r.status.Some? && !r.ended
    case SendingData | SendingFile => r.status.Some? && r.ended
    case Closing => true
  }

  /** The bytes sent and the bytes waiting are exactly the response `r`; an open file's
      bytes up to the read position are its body. */
  ghost predicate Tells(v: StreamValue, r: Response) {
    && v.Valid() && WellFormed(r) && Reached(v.state, r)
    && v.wire + v.send.bytes == Render(r)
    && (v.file.Some? ==>
          v.state in {SendingFile, Closing} && r.ended && r.body == v.file.value.data[..v.file.value.pos])
  }

  // ---- one call ----

  function WithStatus(r: Response): Response {
    if r.status.None? then r.(status := Some((200, "OK"))) else r
  }

  function WithHeader(r: Response, field: string, val: string): Response {
    var s := WithStatus(r);
    s.(headers := s.headers + [(field, val)])
  }

  function Ended(r: Response): Response {
    WithStatus(r).(ended := true)
  }

  /** What a call that succeeds adds to the response. */
  function Told(r: Response, call: Call): Response {
    match call
    case SendStatus(code, msg, _) => r.(status := Some((code, msg)))
    case SendHeader(field, val, _) => WithHeader(r, field, val)
    case SendFile(content, _) =>
      if content.None? then r else Ended(WithHeader(r, "Content-Length", SizeText(content.value)))
    case Write(data, _) => Ended(r).(body := r.body + data)
  }

  /** What a call that runs out of memory may have added: one of its finished parts. */
  ghost predicate PartOf(t: Response, r: Response, call: Call) {
    || t == r
    || (!call.SendStatus? && t == WithStatus(r))
    || (call.SendFile? && call.content.Some? && t == WithHeader(r, "Content-Length", SizeText(call.content.value)))
    || (call.Write? && t == Ended(r))
  }

  /** The states in which a call is accepted. */
  ghost predicate Accepted(s: State, call: Call) {
    match call
    case SendStatus(_, _, _) => s == SendingStatus
    case SendHeader(_, _, _) => s in {SendingStatus, SendingHeader}
    case SendFile(content, _) => content.Some? && s in {SendingStatus, SendingHeader}
    case Write(_, _) => s in {SendingStatus, SendingHeader, SendingData}
  }

  lemma RenderHeaderStep(r: Response, field: string, val: string)
    requires r.status.Some? && !r.ended
    ensures Render(r.(headers := r.headers + [(field, val)])) == Render(r) + HeaderLine(field, val)
  {
    hide StatusLine, HeaderLine;
    var h := r.headers + [(field, val)];
    assert h[..|h| - 1] == r.headers && h[|h| - 1] == (field, val);
    assert RenderHeaders(h) == RenderHeaders(r.headers) + HeaderLine(field, val);
    assert Render(r) == Top(r);
  }

  lemma RenderEndStep(r: Response)
    requires r.status.Some? && !r.ended && r.body == ""
    ensures Render(r.(ended := true)) == Render(r) + "\r\n"
  {
    hide StatusLine, RenderHeaders;
  }

  lemma RenderBodyStep(r: Response, data: string)
    requires r.status.Some? && r.ended
    ensures Render(r.(body := r.body + data)) == Render(r) + data
  {
    hide StatusLine, RenderHeaders, Top;
    assert Top(r.(body := r.body + data)) == Top(r) by { SameTop(r, data); }
  }

  lemma SameTop(r: Response, data: string)
    ensures Top(r.(body := r.body + data)) == Top(r)
  {
    hide StatusLine, RenderHeaders;
  }

  /** A push adds its text to what the peer is told, or nothing. */
  lemma PushTold(v: StreamValue, s: string, grant: Grant)
    requires v.Valid()
    ensures var (b, ok) := PushedStr(v.send, s, grant);
            v.wire + b.bytes == v.wire + v.send.bytes + if ok then s else ""
  {
  }

  lemma StatusTold(v: StreamValue, code: int, msg: string, grant: Grant, r: Response)
    requires Tells(v, r)
    ensures var (u, err) := AfterSendStatus(v, code, msg, grant);
            && Tells(u, if err == ESUCCESS then r.(status := Some((code, msg))) else r)
            && (err == ESUCCESS ==> u.state == SendingHeader && r == NOTHING)
            && (err == EBADSTATE <==> v.state != SendingStatus) && (err == EBADSTATE ==> u == v)
            && err in {ESUCCESS, EBADSTATE, EOUTOFMEM}
  {
    PushTold(v, StatusLine(code, msg), grant);
  }

  lemma HeaderLineTold(v: StreamValue, field: string, val: string, grant: Grant, r: Response)
    requires Tells(v, r) && v.state == SendingHeader
    ensures var (u, err) := AfterSendHeader(v, field, val, grant);
            && Tells(u, if err == ESUCCESS then WithHeader(r, field, val) else r)
            && u.state == SendingHeader
            && err in {ESUCCESS, EOUTOFMEM}
  {
    hide Render;
    PushTold(v, HeaderLine(field, val), grant);
    RenderHeaderStep(r, field, val);
  }

  /** Before the status line is out, a header or the end of the header sends it first. */
  lemma StatusFirst(v: StreamValue, field: string, val: string, grant: Grant)
    requires v.Valid() && v.state == SendingStatus
    ensures var (v1, err) := AfterSendStatus(v, 200, "OK", grant);
            && AfterSendHeader(v, field, val, grant) ==
               (if err == ESUCCESS then AfterSendHeader(v1, field, val, grant) else (v1, err))
            && AfterFinalizeHeader(v, grant) ==
               (if err == ESUCCESS then AfterFinalizeHeader(v1, grant) else (v1, err))
  {
  }

  lemma HeaderTold(v: StreamValue, field: string, val: string, grant: Grant, r: Response) returns (t: Response)
    requires Tells(v, r)
    ensures var (u, err) := AfterSendHeader(v, field, val, grant);
            && Tells(u, t)
            && (err == ESUCCESS ==> t == WithHeader(r, field, val) && u.state == SendingHeader)
            && (err != ESUCCESS ==> t == r || t == WithStatus(r))
            && (err == EBADSTATE <==> v.state !in {SendingStatus, SendingHeader}) && (err == EBADSTATE ==> u == v)
            && err in {ESUCCESS, EBADSTATE, EOUTOFMEM}
  {
    hide Render;
    t := r;
    if v.state == SendingStatus {
      StatusTold(v, 200, "OK", grant, r);
      StatusFirst(v, field, val, grant);
      var (v1, err1) := AfterSendStatus(v, 200, "OK", grant);
      t := if err1 == ESUCCESS then WithStatus(r) else r;
      if err1 == ESUCCESS {
        HeaderLineTold(v1, field, val, grant, t);
        if AfterSendHeader(v1, field, val, grant).1 == ESUCCESS { t := WithHeader(r, field, val); }
      }
    } else if v.state == SendingHeader {
      HeaderLineTold(v, field, val, grant, r);
      if AfterSendHeader(v, field, val, grant).1 == ESUCCESS { t := WithHeader(r, field, val); }
    }
  }

  lemma EndLineTold(v: StreamValue, grant: Grant, r: Response)
    requires Tells(v, r) && v.state == SendingHeader
    ensures var (u, err) := AfterFinalizeHeader(v, grant);
            && Tells(u, if err == ESUCCESS then Ended(r) else r)
            && u.state == (if err == ESUCCESS then SendingData else SendingHeader)
            && err in {ESUCCESS, EOUTOFMEM}
  {
    hide Render;
    PushTold(v, "\r\n", grant);
    RenderEndStep(r);
  }

  lemma EndTold(v: StreamValue, grant: Grant, r: Response) returns (t: Response)
    requires Tells(v, r) && Rank(v.state) < Rank(SendingData)
    ensures var (u, err) := AfterFinalizeHeader(v, grant);
            && Tells(u, t)
            && (err == ESUCCESS ==> t == Ended(r) && u.state == SendingData)
            && (err != ESUCCESS ==> t == r || t == WithStatus(r))
            && (err == EBADSTATE <==> v.state !in {SendingStatus, SendingHeader}) && (err == EBADSTATE ==> u == v)
            && err in {ESUCCESS, EBADSTATE, EOUTOFMEM}
  {
    hide Render;
    t := r;
    if v.state == SendingStatus {
      StatusTold(v, 200, "OK", grant, r);
      StatusFirst(v, "", "", grant);
      var (v1, err1) := AfterSendStatus(v, 200, "OK", grant);
      t := if err1 == ESUCCESS then WithStatus(r) else r;
      if err1 == ESUCCESS {
        EndLineTold(v1, grant, t);
        if AfterFinalizeHeader(v1, grant).1 == ESUCCESS { t := Ended(r); }
      }
    } else if v.state == SendingHeader {
      EndLineTold(v, grant, r);
      if AfterFinalizeHeader(v, grant).1 == ESUCCESS { t := Ended(r); }
    }
  }

  lemma DataTold(v: StreamValue, data: string, grant: Grant, r: Response)
    requires Tells(v, r) && v.state == SendingData
    ensures var (u, err) := AfterWrite(v, data, grant);
            && Tells(u, if err == ESUCCESS then r.(body := r.body + data) else r)
            && err in {ESUCCESS, EOUTOFMEM}
  {
    hide Render;
    PushTold(v, data, grant);
    RenderBodyStep(r, data);
  }

  lemma WriteTold(v: StreamValue, data: string, grant: Grant, r: Response) returns (t: Response)
    requires Tells(v, r)
    ensures var (u, err) := AfterWrite(v, data, grant);
            && Tells(u, t)
            && (err == ESUCCESS ==> t == Ended(r).(body := r.body + data))
            && (err != ESUCCESS ==> t == r || t == WithStatus(r) || t == Ended(r))
            && (err == EBADSTATE <==> v.state !in {SendingStatus, SendingHeader, SendingData})
            && (err == EBADSTATE ==> u == v && t == r)
            && err in {ESUCCESS, EBADSTATE, EOUTOFMEM}
  {
    hide Render;
    t := r;
    var v1, err := v, ESUCCESS;
    if Rank(v.state) < Rank(SendingData) {
      t := EndTold(v, grant, r);
      v1, err := AfterFinalizeHeader(v, grant).0, AfterFinalizeHeader(v, grant).1;
    }
    if err == ESUCCESS && v1.state == SendingData {
      DataTold(v1, data, grant, t);
      assert AfterWrite(v, data, grant) == AfterWrite(v1, data, grant);
      if AfterWrite(v1, data, grant).1 == ESUCCESS { t := t.(body := t.body + data); }
    }
  }

  lemma FileHeadersTold(v: StreamValue, size: string, data: string, grant: Grant, r: Response) returns (t: Response)
    requires Tells(v, r) && Rank(v.state) <= Rank(SendingHeader)
    ensures var (u, err) := AfterFileHeaders(v, size, data, grant);
            && Tells(u, t)
            && (err == ESUCCESS ==> t == Ended(WithHeader(r, "Content-Length", size)))
            && (err == EOUTOFMEM ==> t == r || t == WithStatus(r) || t == WithHeader(r, "Content-Length", size))
            && (err == EBADSTATE <==> v.state !in {SendingStatus, SendingHeader})
            && (err == EBADSTATE ==> u == v && t == r)
            && err in {ESUCCESS, EBADSTATE, EOUTOFMEM}
  {
    hide Render;
    t := HeaderTold(v, "Content-Length", size, grant, r);
    var (v1, err1) := AfterSendHeader(v, "Content-Length", size, grant);
    if err1 == ESUCCESS {
      t := EndTold(v1, grant, t);
    } else if err1 == EBADSTATE {
      t := r;
    }
  }

  /** What becomes of one call: one that is refused for the state changes nothing, one
      that succeeds adds its whole part, one that runs out of memory adds finished parts
      only, and a call is refused exactly outside its states. */
  ghost predicate Outcome(v: StreamValue, call: Call, u: StreamValue, err: int, r: Response, t: Response) {
    && Tells(u, t)
    && (err == ESUCCESS ==> t == Told(r, call))
    && (err == EOUTOFMEM ==> PartOf(t, r, call))
    && (err !in {ESUCCESS, EOUTOFMEM} ==> u == v && t == r)
    && (err in {ESUCCESS, EOUTOFMEM} <==> Accepted(v.state, call))
  }

  lemma FileTold(v: StreamValue, content: Option<string>, grant: Grant, r: Response) returns (t: Response)
    requires Tells(v, r)
    ensures var (u, err) := AfterSendFile(v, content, grant);
            Outcome(v, SendFile(content, grant), u, err, r, t)
  {
    hide Render;
    t := r;
    if content.Some? && Rank(v.state) <= Rank(SendingHeader) {
      t := FileHeadersTold(v, SizeText(content.value), content.value, grant, r);
    }
  }

  lemma StatusCallTold(v: StreamValue, code: int, msg: string, grant: Grant, r: Response) returns (t: Response)
    requires Tells(v, r)
    ensures var (u, err) := AfterSendStatus(v, code, msg, grant);
            Outcome(v, SendStatus(code, msg, grant), u, err, r, t)
  {
    StatusTold(v, code, msg, grant, r);
    t := if AfterSendStatus(v, code, msg, grant).1 == ESUCCESS then r.(status := Some((code, msg))) else r;
  }

  /** Every call keeps the response well formed. */
  lemma CallTold(v: StreamValue, call: Call, r: Response) returns (t: Response)
    requires Tells(v, r)
    ensures var (u, err) := AfterCall(v, call); Outcome(v, call, u, err, r, t)
  {
    match call
    case SendStatus(code, msg, grant) => t := StatusCallTold(v, code, msg, grant, r);
    case SendHeader(field, val, grant) => t := HeaderTold(v, field, val, grant, r);
    case SendFile(content, grant) => t := FileTold(v, content, grant, r);
    case Write(data, grant) => t := WriteTold(v, data, grant, r);
  }

  // ---- sending ----

  lemma TransmitTold(v: StreamValue, out: Output, now: int, r: Response)
    requires Tells(v, r)
    ensures Tells(AfterTransmit(v, out, now), r)
  {
    hide Render;
    var u := AfterTransmit(v, out, now);
    assert u.wire + u.send.bytes == v.wire + v.send.bytes;
  }

  lemma LoadTold(v: StreamValue, room: Buf, n: nat, r: Response)
    requires Tells(v, r) && v.file.Some? && v.send.bytes == ""
    requires v.file.value.pos + n <= |v.file.value.data| && n <= room.cap
    ensures var f := v.file.value;
            Tells(Loaded(v, room, n), r.(body := r.body + f.data[f.pos..f.pos + n]))
  {
    hide Render;
    var f := v.file.value;
    var piece := f.data[f.pos..f.pos + n];
    assert f.data[..f.pos + n] == f.data[..f.pos] + piece;
    RenderBodyStep(r, piece);
    assert v.wire + v.send.bytes == v.wire;
  }

  /** The piece of the file that one sb_stream_send reads. */
  function PieceOf(v: StreamValue, out: Output): string
    requires v.Valid()
  {
    if |v.send.bytes| > 0 || v.file.None? then ""
    else
      var (room, ok) := Reserved(v.send, CHUNK, out.grant);
      var f := v.file.value;
      if ok then f.data[f.pos..f.pos + Min(out.read, Min(room.cap, |f.data| - f.pos))] else ""
  }

  /** One sb_stream_send keeps the response well formed; it grows by the piece of the file
      that is read, which happens only when everything before it is delivered. */
  lemma SendTold(v: StreamValue, out: Output, now: int, r: Response)
    requires Tells(v, r)
    ensures var u := AfterSend(v, out, now).0;
            && Tells(u, r.(body := r.body + PieceOf(v, out)))
            && (PieceOf(v, out) != "" ==> v.send.bytes == "" && v.wire == Render(r))
  {
    hide Render;
    assert r.body + "" == r.body && r.(body := r.body) == r;
    if |v.send.bytes| > 0 {
      TransmitTold(v, out, now, r);
    } else if v.file.Some? {
      var (room, ok) := Reserved(v.send, CHUNK, out.grant);
      var f := v.file.value;
      var n := Min(out.read, Min(room.cap, |f.data| - f.pos));
      if ok && n > 0 {
        LoadTold(v, room, n, r);
        TransmitTold(Loaded(v, room, n), out, now, r.(body := r.body + f.data[f.pos..f.pos + n]));
      }
      assert v.wire + v.send.bytes == v.wire;
    }
  }

  // ---- the response of a sequence of calls and sends ----

  /** A call with its result, or the piece of a file that a send reads. */
  datatype Deed = Called(call: Call, code: int) | Piece(data: string)

  /** What a deed makes of a response: a call that succeeds adds its part, one that runs out
      of memory finished parts of it, any other nothing. */
  ghost predicate Adds(d: Deed, r: Response, t: Response) {
    match d
    case Called(call, code) =>
      if code == ESUCCESS then t == Told(r, call) else if code == EOUTOFMEM then PartOf(t, r, call) else t == r
    case Piece(data) => t == r.(body := r.body + data)
  }

  ghost predicate Tale(deeds: seq<Deed>, r: Response, t: Response)
    decreases |deeds|
  {
    if deeds == [] then t == r else exists m :: Adds(deeds[0], r, m) && Tale(deeds[1..], m, t)
  }

  /** With memory enough, exactly one response. */
  function Folded(deeds: seq<Deed>, r: Response): Response
    decreases |deeds|
  {
    if deeds == [] then r
    else match deeds[0]
      case Called(call, code) => Folded(deeds[1..], if code == ESUCCESS then Told(r, call) else r)
      case Piece(data) => Folded(deeds[1..], r.(body := r.body + data))
  }

  lemma {:induction false} TaleIsFolded(deeds: seq<Deed>, r: Response, t: Response)
    requires Tale(deeds, r, t)
    requires forall k :: 0 <= k < |deeds| ==> deeds[k].Called? ==> deeds[k].code != EOUTOFMEM
    ensures t == Folded(deeds, r)
    decreases |deeds|
  {
    hide Told, PartOf;
    if deeds != [] {
      var m :| Adds(deeds[0], r, m) && Tale(deeds[1..], m, t);
      TaleIsFolded(deeds[1..], m, t);
    }
  }

  lemma {:induction false} TaleGoesOn(deeds: seq<Deed>, d: Deed, r: Response, m: Response, t: Response)
    requires Tale(deeds, r, m) && Adds(d, m, t)
    ensures Tale(deeds + [d], r, t)
    decreases |deeds|
  {
    hide Adds;
    var more := deeds + [d];
    if deeds == [] {
      assert more[0] == d && more[1..] == [];
      assert Tale(more[1..], t, t);
    } else {
      var n :| Adds(deeds[0], r, n) && Tale(deeds[1..], n, m);
      TaleGoesOn(deeds[1..], d, n, m, t);
      assert more[0] == deeds[0] && more[1..] == deeds[1..] + [d];
    }
  }

  /** A call as a deed. */
  lemma CallAdds(v: StreamValue, call: Call, r: Response) returns (t: Response)
    requires Tells(v, r)
    ensures var (u, err) := AfterCall(v, call); Tells(u, t) && Adds(Called(call, err), r, t)
  {
    hide Tells, Told, PartOf, AfterCall;
    t := CallTold(v, call, r);
  }

  // ---- conservation ----

  function Rest(f: Option<File>): string
    requires f.Some? ==> f.value.Valid()
  {
    if f.Some? then f.value.data[f.value.pos..] else ""
  }

  /** The bytes delivered, the bytes waiting and the unread bytes of the file. */
  function Total(v: StreamValue): string
    requires v.Valid()
  {
    v.wire + v.send.bytes + Rest(v.file)
  }

  lemma TransmitConserves(v: StreamValue, out: Output, now: int)
    requires v.Valid()
    ensures var u := AfterTransmit(v, out, now); Total(u) == Total(v) && v.wire <= u.wire
  {
    var u := AfterTransmit(v, out, now);
    assert u.wire + u.send.bytes == v.wire + v.send.bytes;
  }

  lemma LoadConserves(v: StreamValue, room: Buf, n: nat)
    requires v.Valid() && v.file.Some? && v.send.bytes == ""
    requires v.file.value.pos + n <= |v.file.value.data| && n <= room.cap
    ensures Total(Loaded(v, room, n)) == Total(v)
  {
    var f := v.file.value;
    assert f.data[f.pos..] == f.data[f.pos..f.pos + n] + f.data[f.pos + n..];
  }

  /** One sb_stream_send loses nothing, except the rest of a file that fread ends early,
      and closes the stream for want of data only when all of it is delivered. */
  lemma SendConserves(v: StreamValue, out: Output, now: int)
    requires v.Valid()
    ensures var (u, err) := AfterSend(v, out, now);
            && v.wire <= u.wire
            && Total(v) == Total(u) + (if v.file.Some? && u.file.None? then Rest(v.file) else "")
            && (v.file.Some? && u.file.None? && out.read > 0 ==> Rest(v.file) == "")
            && (u.state == Closing && v.state != Closing && (out.taken > 0 || out.wouldBlock) ==> v.wire == Total(v))
  {
    if |v.send.bytes| > 0 {
      TransmitConserves(v, out, now);
    } else if v.file.Some? {
      var (room, ok) := Reserved(v.send, CHUNK, out.grant);
      var f := v.file.value;
      var n := Min(out.read, Min(room.cap, |f.data| - f.pos));
      if ok && n > 0 {
        LoadConserves(v, room, n);
        TransmitConserves(Loaded(v, room, n), out, now);
      }
    }
  }
}
