/** Whole runs of a response: what is told only grows, everything is delivered, and a file
    response frames itself for a peer that reads Content-Length. */
module Delivery {
  import opened Basics
  import opened CText
  import opened HeaderFields
  import opened Numbers
  import opened StreamModel
  import opened Responses
  import Framing

  // ---- any mixture of calls and sends ----

  datatype Action = Do(call: Call) | Pump(out: Output, now: int)

  function Act(v: StreamValue, action: Action): (u: StreamValue)
    requires v.Valid()
    ensures u.Valid()
  {
    match action
    case Do(call) => AfterCall(v, call).0
    case Pump(out, now) => AfterSend(v, out, now).0
  }

  function Run(v: StreamValue, actions: seq<Action>): (u: StreamValue)
    requires v.Valid()
    ensures u.Valid()
    decreases |actions|
  {
    if actions == [] then v else Run(Act(v, actions[0]), actions[1..])
  }

  /** Sent and waiting bytes. */
  function Said(v: StreamValue): string {
    v.wire + v.send.bytes
  }

  lemma ActionAppends(v: StreamValue, action: Action)
    requires v.Valid()
    ensures Said(v) <= Said(Act(v, action))
    ensures v.wire <= Act(v, action).wire
  {
    match action
    case Do(call) => assert Onward(v, AfterCall(v, call).0);
    case Pump(out, now) =>
      if |v.send.bytes| > 0 {
        TransmitConserves(v, out, now);
        assert Said(AfterTransmit(v, out, now)) == Said(v);
      } else if v.file.Some? {
        PieceAppends(v, out, now);
      }
  }

  lemma PieceAppends(v: StreamValue, out: Output, now: int)
    requires v.Valid() && v.send.bytes == "" && v.file.Some?
    ensures var u := AfterSend(v, out, now).0; Said(v) <= Said(u) && v.wire <= u.wire
  {
    SendConserves(v, out, now);
    assert Said(v) == v.wire;
  }

  /** What a run does, with the results of its calls and the pieces its sends read. */
  function DeedOf(v: StreamValue, action: Action): Deed
    requires v.Valid()
  {
    match action
    case Do(call) => Called(call, AfterCall(v, call).1)
    case Pump(out, now) => Piece(PieceOf(v, out))
  }

  function DeedsOf(v: StreamValue, actions: seq<Action>): seq<Deed>
    requires v.Valid()
    decreases |actions|
  {
    if actions == [] then [] else [DeedOf(v, actions[0])] + DeedsOf(Act(v, actions[0]), actions[1..])
  }

  /** Under any sequence of calls and sends with any failures, the bytes sent and waiting
      are a response up to the part the state names: the one its successful calls and the
      pieces of its file make, in order. Nothing that was told is ever taken back or changed. */
  lemma {:induction false} RunTold(v: StreamValue, actions: seq<Action>, r: Response) returns (t: Response)
    requires Tells(v, r)
    ensures Tells(Run(v, actions), t) && Tale(DeedsOf(v, actions), r, t)
    ensures Said(v) <= Said(Run(v, actions)) && v.wire <= Run(v, actions).wire
    decreases |actions|
  {
    hide Tells, Act, DeedOf, Adds;
    t := r;
    if actions != [] {
      var a := actions[0];
      assert v.Valid() by { TellsIsValid(v, r); }
      ActionAppends(v, a);
      var m := ActionTold(v, a, r);
      t := RunTold(Act(v, a), actions[1..], m);
      var deeds := DeedsOf(v, actions);
      assert deeds[0] == DeedOf(v, a) && deeds[1..] == DeedsOf(Act(v, a), actions[1..]);
    }
  }

  lemma TellsIsValid(v: StreamValue, r: Response)
    requires Tells(v, r)
    ensures v.Valid()
  {
  }

  lemma ActionTold(v: StreamValue, action: Action, r: Response) returns (t: Response)
    requires v.Valid() && Tells(v, r)
    ensures Tells(Act(v, action), t) && Adds(DeedOf(v, action), r, t)
  {
    hide Tells, AfterCall, AfterSend, PieceOf;
    match action
    case Do(call) => t := CallAdds(v, call, r);
    case Pump(out, now) =>
      SendTold(v, out, now, r);
      t := r.(body := r.body + PieceOf(v, out));
  }

  // ---- delivery ----

  /** The sends of a stream that nobody writes to any more, until it closes. */
  function Pumped(v: StreamValue, outs: seq<Output>, now: int): (u: StreamValue)
    requires v.Valid()
    ensures u.Valid()
    decreases |outs|
  {
    if outs == [] || v.state == Closing then v else Pumped(AfterSend(v, outs[0], now).0, outs[1..], now)
  }

  /** fread delivers bytes while there are any and the peer stays connected. */
  ghost predicate Undisturbed(out: Output) {
    out.read > 0 && (out.taken > 0 || out.wouldBlock)
  }

  ghost predicate Productive(out: Output) {
    out.read > 0 && out.taken > 0 && out.grant(CHUNK)
  }

  /** Partial sends, would-blocks and refused buffers lose nothing, and a stream that
      closes has delivered everything. */
  lemma {:induction false} PumpingConserves(v: StreamValue, outs: seq<Output>, now: int)
    requires v.Valid() && v.state != Closing
    requires forall k :: 0 <= k < |outs| ==> Undisturbed(outs[k])
    ensures var u := Pumped(v, outs, now);
            Total(u) == Total(v) && (u.state == Closing ==> u.wire == Total(v))
    decreases |outs|
  {
    if outs != [] {
      var u := AfterSend(v, outs[0], now).0;
      assert Undisturbed(outs[0]);
      SendConserves(v, outs[0], now);
      assert Total(u) == Total(v);
      if u.state == Closing {
        assert Total(u) == u.wire + u.send.bytes + Rest(u.file);
        assert |u.wire| >= |v.wire|;
      } else {
        PumpingConserves(u, outs[1..], now);
      }
    }
  }

  /** A send closes the stream when there is nothing left to send, or when the peer takes
      nothing of what there is and is not merely slow; in no other case. The peer gets as
      much as it takes. */
  lemma ClosesIff(v: StreamValue, out: Output, now: int)
    requires v.Valid() && v.state != Closing
    ensures var u := AfterSend(v, out, now).0;
            var piece := PieceOf(v, out);
            u.state == Closing <==>
              || (v.send.bytes == "" && v.file.None?)
              || (v.send.bytes + piece != "" && out.taken == 0 && !out.wouldBlock)
    ensures AfterSend(v, out, now).0.state in {v.state, Closing}
    ensures |AfterSend(v, out, now).0.wire| == |v.wire| + Min(out.taken, |v.send.bytes + PieceOf(v, out)|)
  {
  }

  /** Steps a response still needs. */
  function Effort(v: StreamValue): nat
    requires v.Valid()
  {
    |v.send.bytes| + |Rest(v.file)| + (if v.file.Some? then 1 else 0) + if v.state == Closing then 0 else 1
  }

  lemma PumpIsProgress(v: StreamValue, out: Output, now: int)
    requires v.Valid() && v.state != Closing && Productive(out)
    ensures Effort(AfterSend(v, out, now).0) < Effort(v)
  {
  }

  /** With a peer that takes at least a byte a time the response is delivered whole and
      the stream closes, after no more sends than bytes and two. */
  lemma {:induction false} PumpingDelivers(v: StreamValue, outs: seq<Output>, now: int)
    requires v.Valid() && v.state != Closing
    requires forall k :: 0 <= k < |outs| ==> Productive(outs[k])
    requires |outs| >= Effort(v)
    ensures var u := Pumped(v, outs, now); u.state == Closing && u.wire == Total(v)
    decreases |outs|
  {
    PumpingConserves(v, outs, now);
    assert Productive(outs[0]);
    PumpIsProgress(v, outs[0], now);
    var u := AfterSend(v, outs[0], now).0;
    if u.state != Closing {
      PumpingDelivers(u, outs[1..], now);
    }
  }

  // ---- the peer's side: where a file response ends ----

  function HeaderTexts(headers: seq<(string, string)>): seq<string> {
    if headers == [] then []
    else
      var last := headers[|headers| - 1];
      HeaderTexts(headers[..|headers| - 1]) + [last.0 + ": " + last.1]
  }

  function TopLines(r: Response): seq<string>
    requires r.status.Some?
  {
    ["HTTP/1.1 " + SignedDecimal(r.status.value.0) + " " + r.status.value.1] + HeaderTexts(r.headers)
  }

  lemma {:induction false} HeadersAreJoined(headers: seq<(string, string)>)
    ensures RenderHeaders(headers) == Join(HeaderTexts(headers))
  {
    if headers != [] {
      var last := headers[|headers| - 1];
      var line := last.0 + ": " + last.1;
      HeadersAreJoined(headers[..|headers| - 1]);
      JoinConcat(HeaderTexts(headers[..|headers| - 1]), [line]);
      assert Join([line]) == HeaderLine(last.0, last.1);
    }
  }

  lemma TopIsJoined(r: Response)
    requires r.status.Some?
    ensures Top(r) == Join(TopLines(r))
  {
    HeadersAreJoined(r.headers);
    assert TopLines(r)[1..] == HeaderTexts(r.headers);
  }

  /** No text of the response brings a line end of its own. */
  ghost predicate CleanTexts(r: Response) {
    && (r.status.Some? ==> Clean(r.status.value.1))
    && forall k :: 0 <= k < |r.headers| ==> Clean(r.headers[k].0) && Clean(r.headers[k].1)
  }

  /** The texts of a call bring no line end of their own. */
  ghost predicate CleanCall(call: Call) {
    match call
    case SendStatus(_, msg, _) => Clean(msg)
    case SendHeader(field, val, _) => Clean(field) && Clean(val)
    case _ => true
  }

  lemma AddsClean(d: Deed, r: Response, t: Response)
    requires Adds(d, r, t) && CleanTexts(r) && (d.Called? ==> CleanCall(d.call))
    ensures CleanTexts(t)
  {
    hide Decimal;
    CleanField();
  }

  /** Calls with clean texts make a response with clean texts. */
  lemma {:induction false} TaleIsClean(deeds: seq<Deed>, r: Response, t: Response)
    requires Tale(deeds, r, t) && CleanTexts(r)
    requires forall k :: 0 <= k < |deeds| ==> deeds[k].Called? ==> CleanCall(deeds[k].call)
    ensures CleanTexts(t)
    decreases |deeds|
  {
    hide Adds, CleanTexts, CleanCall;
    if deeds != [] {
      var m :| Adds(deeds[0], r, m) && Tale(deeds[1..], m, t);
      AddsClean(deeds[0], r, m);
      TaleIsClean(deeds[1..], m, t);
    }
  }

  lemma {:induction false} HeaderTextsClean(headers: seq<(string, string)>)
    requires forall k :: 0 <= k < |headers| ==> Clean(headers[k].0) && Clean(headers[k].1)
    ensures CleanLines(HeaderTexts(headers))
  {
    if headers != [] {
      HeaderTextsClean(headers[..|headers| - 1]);
    }
  }

  /** Two line ends in a row stand behind the last line only. */
  lemma {:induction false} NoEarlierEnd(lines: seq<string>, rest: string, k: nat)
    requires lines != [] && CleanLines(lines)
    requires k < |Join(lines)| + 2 <= |Join(lines) + "\r\n" + rest|
    ensures !EndsAt(Join(lines) + "\r\n" + rest, k)
    decreases |lines|
  {
    var first := lines[0];
    var tail := Join(lines[1..]) + "\r\n" + rest;
    var s := first + "\r\n" + tail;
    assert Join(lines) + "\r\n" + rest == s;
    if k >= |first| + 6 && |lines| > 1 {
      var j := k - |first| - 2;
      NoEarlierEnd(lines[1..], rest, j);
      assert s[k - 4] == tail[j - 4] && s[k - 3] == tail[j - 3] && s[k - 2] == tail[j - 2] && s[k - 1] == tail[j - 1];
    } else if k == |first| + 4 && |lines| > 1 {
      assert s[k - 2] == tail[0] == lines[1][0];
    }
  }

  lemma {:induction false} JoinEndsLine(lines: seq<string>)
    requires lines != []
    ensures var s := Join(lines); |s| >= 2 && s[|s| - 2..] == "\r\n"
  {
    if |lines| > 1 {
      JoinEndsLine(lines[1..]);
    }
  }

  lemma BlockEnds(lines: seq<string>, rest: string)
    requires lines != [] && CleanLines(lines)
    ensures Framing.HeaderEnd(Join(lines) + "\r\n" + rest) == Some(|Join(lines)| + 2)
  {
    var s := Join(lines) + "\r\n" + rest;
    var n := |Join(lines)| + 2;
    JoinEndsLine(lines);
    assert s[n - 4..n - 2] == Join(lines)[n - 4..];
    forall k | 0 <= k < n ensures !EndsAt(s, k) {
      NoEarlierEnd(lines, rest, k);
    }
    Framing.HeaderEndIs(s, n);
  }

  lemma {:induction false} FirstNamedIsLast(lines: seq<string>, last: string, field: string)
    requires NameAt(last, field)
    requires forall k :: 0 <= k < |lines| ==> !NameAt(lines[k], field)
    ensures FirstNamed(lines + [last], field) == Some(|lines|)
  {
    if lines != [] {
      assert (lines + [last])[1..] == lines[1..] + [last];
      FirstNamedIsLast(lines[1..], last, field);
    }
  }

  lemma FieldLine(field: string, val: string)
    requires val == "" || !IsBlank(val[0])
    ensures NameAt(field + ": " + val, field)
    ensures SkipBlanks((field + ": " + val)[|field| + 1..]) == val
  {
    assert (field + ": " + val)[|field| + 1..] == " " + val;
    assert (" " + val)[1..] == val;
  }

  lemma UintOnTheLine(text: string, size: nat)
    requires LineOf(text) == Decimal(size) && size < UINT_RANGE
    ensures StrToUint(text) == size
  {
    var n := Cspn(text, {'\r'});
    assert text == Decimal(size) + text[n..];
    UintRoundTrip(size, text[n..]);
  }

  /** The first line of the length field says how long the data is. */
  lemma BlockLength(lines: seq<string>, last: string, field: string, size: nat)
    requires Clean(field) && size < UINT_RANGE
    requires CleanLines(lines + [last])
    requires NameAt(last, field) && SkipBlanks(last[|field| + 1..]) == Decimal(size)
    requires forall k :: 0 <= k < |lines| ==> !NameAt(lines[k], field)
    ensures var r := HeaderLookup(Join(lines + [last]) + "\r\n", field);
            r.Found? && StrToUint(r.value) == size
  {
    var block := Join(lines + [last]) + "\r\n";
    SplitJoin(lines + [last], "");
    assert block + "" == block;
    FirstNamedIsLast(lines, last, field);
    LookupIsFirstNamedLine(block, field);
    UintOnTheLine(HeaderLookup(block, field).value, size);
  }

  lemma TopLinesWithHeader(r: Response, field: string, val: string)
    ensures var t := Ended(WithHeader(r, field, val));
            TopLines(t) == TopLines(WithStatus(r)) + [field + ": " + val]
  {
    var h := WithHeader(r, field, val).headers;
    assert h[..|h| - 1] == WithStatus(r).headers;
  }

  /** A whole message: a block that says how much data follows, and that data. */
  lemma BlockFramesItself(block: string, data: string)
    requires Framing.HeaderEnd(block + data) == Some(|block|)
    requires var r := HeaderLookup(block, "Content-Length"); r.Found? && StrToUint(r.value) == |data|
    ensures Framing.FrameOf(block + data) == Framing.Whole(|block| + |data|, |block|, |block| + |data|)
  {
    assert (block + data)[..|block|] == block;
  }

  lemma CleanTop(r: Response)
    requires r.status.Some? && CleanTexts(r)
    ensures CleanLines(TopLines(r))
  {
    HeaderTextsClean(r.headers);
  }

  lemma TotalOfFile(u: StreamValue, t: Response, content: string)
    requires Tells(u, t) && u.file == Some(File(content, 0)) && t.ended
    ensures Total(u) == Top(t) + "\r\n" + content
  {
    assert content[..0] == "" && content[0..] == content;
  }

  lemma TopOfFile(r: Response, field: string, size: string)
    ensures Top(Ended(WithHeader(r, field, size))) == Join(TopLines(WithStatus(r)) + [field + ": " + size])
  {
    TopLinesWithHeader(r, field, size);
    TopIsJoined(Ended(WithHeader(r, field, size)));
  }

  /** The block in front of a file's bytes, for a length field of any name. */
  lemma BlockOfFile(lines: seq<string>, last: string, field: string, data: string)
    requires CleanLines(lines + [last]) && Clean(field) && |data| < UINT_RANGE
    requires NameAt(last, field) && SkipBlanks(last[|field| + 1..]) == Decimal(|data|)
    requires forall k :: 0 <= k < |lines| ==> !NameAt(lines[k], field)
    ensures var block := Join(lines + [last]) + "\r\n";
            && Framing.HeaderEnd(block + data) == Some(|block|)
            && HeaderLookup(block, field).Found? && StrToUint(HeaderLookup(block, field).value) == |data|
  {
    hide *;
    BlockLength(lines, last, field, |data|);
    BlockEnds(lines + [last], data);
  }

  lemma FileIsOpen(v: StreamValue, content: string, grant: Grant)
    requires v.Valid() && AfterSendFile(v, Some(content), grant).1 == ESUCCESS
    ensures AfterSendFile(v, Some(content), grant).0.file == Some(File(content, 0))
  {
  }

  /** A file below 2^32 bytes behind a clean top with no other Content-Length: everything
      the peer gets is one whole message by the framing of Content-Length, and its data
      is the file. */
  lemma FileResponseFramesItself(v: StreamValue, content: string, grant: Grant, r: Response)
    requires Tells(v, r) && CleanTexts(r) && |content| < UINT_RANGE
    requires AfterSendFile(v, Some(content), grant).1 == ESUCCESS
    requires forall k :: 0 <= k < |TopLines(WithStatus(r))| ==> !NameAt(TopLines(WithStatus(r))[k], "Content-Length")
    ensures var total := Total(AfterSendFile(v, Some(content), grant).0);
            var frame := Framing.FrameOf(total);
            frame.Whole? && frame.len == |total| && total[frame.dataIdx..] == content
  {
    hide Render, Framing.FrameOf, Rest, AfterSendFile, TopLines, CleanTexts, Decimal;
    var t := FileTold(v, Some(content), grant, r);
    FileIsOpen(v, content, grant);
    assert SizeText(content) == Decimal(|content|);
    FileFrames(AfterSendFile(v, Some(content), grant).0, t, content, r);
  }

  lemma FileFrames(u: StreamValue, t: Response, content: string, r: Response)
    requires Tells(u, t) && CleanTexts(r) && |content| < UINT_RANGE
    requires t.ended && t == Ended(WithHeader(r, "Content-Length", Decimal(|content|)))
    requires u.file == Some(File(content, 0))
    requires forall k :: 0 <= k < |TopLines(WithStatus(r))| ==> !NameAt(TopLines(WithStatus(r))[k], "Content-Length")
    ensures var frame := Framing.FrameOf(Total(u));
            frame.Whole? && frame.len == |Total(u)| && Total(u)[frame.dataIdx..] == content
  {
    hide *;
    TotalOfFile(u, t, content);
    var block := Top(t) + "\r\n";
    CleanField();
    BlockInFront(r, "Content-Length", content);
    BlockFramesItself(block, content);
    assert (block + content)[|block|..] == content;
  }

  lemma CleanField()
    ensures Clean("Content-Length")
  {
  }

  lemma BlockInFront(r: Response, field: string, content: string)
    requires CleanTexts(r) && Clean(field) && |content| < UINT_RANGE
    requires forall k :: 0 <= k < |TopLines(WithStatus(r))| ==> !NameAt(TopLines(WithStatus(r))[k], field)
    ensures var block := Top(Ended(WithHeader(r, field, Decimal(|content|)))) + "\r\n";
            && Framing.HeaderEnd(block + content) == Some(|block|)
            && HeaderLookup(block, field).Found? && StrToUint(HeaderLookup(block, field).value) == |content|
  {
    hide Framing.HeaderEnd, Join, HeaderLookup, StrToUint, Decimal, Top, NameAt, FirstNamed;
    var last := field + ": " + Decimal(|content|);
    FieldLine(field, Decimal(|content|));
    CleanTop(WithStatus(r));
    CleanLast(field, Decimal(|content|));
    TopOfFile(r, field, Decimal(|content|));
    BlockOfFile(TopLines(WithStatus(r)), last, field, content);
  }

  lemma CleanLast(field: string, size: string)
    requires Clean(field) && Clean(size)
    ensures Clean(field + ": " + size) && field + ": " + size != ""
  {
  }

  /** The length that is announced is the file's exactly below 2^32 bytes. */
  lemma AnnouncedLengthIff(data: string, rest: string)
    requires !IsDigit(At(rest, 0))
    ensures StrToUint(SizeText(data) + rest) == |data| <==> |data| < UINT_RANGE
  {
    UintRoundTrip(|data| % UINT_RANGE, rest);
  }
}
