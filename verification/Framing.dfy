/** Request framing: where a request ends depends on the bytes alone, not on how they
    are cut into chunks and calls (sections 3 and 3.3.3 of RFC 7230). */
module Framing {
  import opened Basics
  import opened CText
  import opened Buffers
  import opened HeaderFields
  import opened Numbers
  import opened StreamModel

  // ---- the end of a request in a byte stream ----

  /** The length of the shortest prefix that ends in two line ends, found by growing it. */
  function HeaderEnd(s: string): (n: Option<nat>)
    ensures n.Some? ==> n.value <= |s|
  {
    if s == "" then None
    else
      var before := HeaderEnd(s[..|s| - 1]);
      if before.Some? then before else if EndsHeader(s) then Some(|s|) else None
  }

  lemma {:induction false} HeaderEndIsShortest(s: string)
    ensures var n := HeaderEnd(s);
            && (n.Some? ==> EndsAt(s, n.value))
            && forall k :: 0 <= k < (if n.Some? then n.value else |s| + 1) ==> !EndsAt(s, k)
  {
    if s != "" {
      var t := s[..|s| - 1];
      HeaderEndIsShortest(t);
      assert forall k :: 0 <= k <= |t| ==> EndsAt(t, k) == EndsAt(s, k);
    }
  }

  lemma HeaderEndIs(s: string, n: nat)
    requires n <= |s| && EndsAt(s, n)
    requires forall k :: 0 <= k < n ==> !EndsAt(s, k)
    ensures HeaderEnd(s) == Some(n)
  {
    HeaderEndIsShortest(s);
  }

  datatype Frame =
    | InHeader
    | InBody(dataIdx: nat, expected: nat)
    | Whole(len: nat, dataIdx: nat, expected: nat)
    | Endless(headerLen: nat)

  /** A request is a header and as many bytes as its Content-Length says, none without
      that field. The header scan that does not return is kept apart. */
  function FrameOf(s: string): (f: Frame)
    ensures f.Whole? ==> f.dataIdx <= f.len <= |s|
    ensures f.Endless? ==> f.headerLen <= |s|
    ensures f.InBody? ==> f.dataIdx <= |s| < f.expected
  {
    match HeaderEnd(s)
    case None => InHeader
    case Some(n) =>
      match HeaderLookup(s[..n], "Content-Length")
      case Hangs => Endless(n)
      case Missing => Whole(n, 0, 0)
      case Found(text) =>
        var end := n + StrToUint(text);
        if |s| >= end then Whole(end, n, end) else InBody(n, end)
  }

  lemma {:induction false} HeaderEndOfPrefix(s: string, k: nat)
    requires k <= |s|
    ensures HeaderEnd(s[..k]) ==
            match HeaderEnd(s)
            case Some(n) => if n <= k then Some(n) else None
            case None => None
  {
    if k == |s| {
      assert s[..k] == s;
    } else {
      HeaderEndOfPrefix(s[..|s| - 1], k);
      assert s[..|s| - 1][..k] == s[..k];
    }
  }

  /** The end is met at exactly one length: no shorter prefix is a whole request and
      every longer one has the same end. */
  lemma WholeAtOneLength(s: string, k: nat)
    requires k <= |s|
    requires FrameOf(s).Whole?
    ensures k < FrameOf(s).len ==> !FrameOf(s[..k]).Whole?
    ensures k >= FrameOf(s).len ==> FrameOf(s[..k]) == FrameOf(s)
  {
    HeaderEndOfPrefix(s, k);
    var n := HeaderEnd(s).value;
    if n <= k { assert s[..k][..n] == s[..n]; }
  }

  // ---- the stream engine against that ----

  /** The value a fresh stream has after the bytes `s`, by their frame alone. */
  function FedBy(v: StreamValue, s: string, cap: nat): Fed {
    match FrameOf(s)
    case InHeader => More(v.(recv := Buf(s, cap)))
    case InBody(n, e) =>
      More(v.(recv := Buf(s, cap), state := ReceivingRequest, dataIdx := n, expected := e))
    case Whole(len, n, e) =>
      Ready(v.(recv := Buf(s[..len], cap), state := ReceivingRequest, dataIdx := n, expected := e))
    case Endless(n) => Hung(v.(recv := Buf(s[..n], cap), state := ReceivingRequest))
  }

  /** A stream that waits for the rest of a header. */
  ghost predicate Waiting(v: StreamValue) {
    && v.state == ReceivingHeader && v.expected == 0 && v.dataIdx == 0 && v.Valid()
    && HeaderEnd(v.recv.bytes) == None
  }

  ghost predicate IsFresh(v: StreamValue) {
    Waiting(v) && v.recv.bytes == ""
  }

  ghost predicate AllGranted(grant: Grant) {
    forall n :: grant(n)
  }

  /** One more byte, seen by the frame. */
  lemma FrameGrows(s: string, c: char)
    ensures var t := s + [c];
            match FrameOf(s)
            case InHeader => HeaderEnd(t) == if EndsHeader(t) then Some(|t|) else None
            case InBody(n, e) => FrameOf(t) == if |t| == e then Whole(e, n, e) else InBody(n, e)
            case Whole(len, n, e) => FrameOf(t) == FrameOf(s)
            case Endless(n) => FrameOf(t) == FrameOf(s)
  {
    var t := s + [c];
    assert t[..|t| - 1] == s;
    var n := HeaderEnd(s);
    if n.Some? { assert t[..n.value] == s[..n.value]; }
  }

  lemma {:induction false} BytesInTurn(v: StreamValue, a: string, b: string, grant: Grant)
    requires v.Valid()
    ensures AfterBytes(v, a + b, grant) ==
            var r := AfterBytes(v, a, grant); if r.More? then AfterBytes(r.v, b, grant) else r
    decreases |a|
  {
    if a == "" {
      assert a + b == b;
    } else {
      assert (a + b)[1..] == a[1..] + b;
      var next := AfterByte(v, a[0], grant);
      if next.More? { BytesInTurn(next.v, a[1..], b, grant); }
    }
  }

  lemma ByteInTurn(v: StreamValue, a: string, c: char, grant: Grant)
    requires v.Valid()
    ensures AfterBytes(v, a + [c], grant) ==
            var r := AfterBytes(v, a, grant); if r.More? then AfterByte(r.v, c, grant) else r
  {
    BytesInTurn(v, a, [c], grant);
    assert [c][1..] == "";
  }

  /** A byte inside the header. */
  lemma ByteInHeader(v: StreamValue, s: string, c: char, grant: Grant)
    requires v.Valid() && v.state == ReceivingHeader && v.recv.bytes == s && v.expected == 0
    requires AllGranted(grant) && !EndsHeader(s + [c])
    ensures var r := AfterByte(v, c, grant);
            r == More(v.(recv := Buf(s + [c], r.v.recv.cap)))
  {
  }

  /** A byte behind the header. */
  lemma ByteInBody(v: StreamValue, s: string, c: char, grant: Grant)
    requires v.Valid() && v.state == ReceivingRequest && v.recv.bytes == s
    requires AllGranted(grant)
    ensures var r := AfterByte(v, c, grant);
            r == CheckLength(v.(recv := Buf(s + [c], r.v.recv.cap)))
  {
  }

  lemma HeaderIsComplete(v: StreamValue, b: Buf, grant: Grant)
    requires v.(recv := b).Valid() && v.expected == 0 && v.dataIdx == 0 && AllGranted(grant)
    requires HeaderEnd(b.bytes) == Some(|b.bytes|)
    ensures var r := AfterHeader(v.(recv := b), grant); r == FedBy(v, b.bytes, r.v.recv.cap)
  {
    hide HeaderLookup, StrToUint, HeaderEnd;
    assert b.bytes[..|b.bytes|] == b.bytes;
  }

  /** The byte that completes the header. */
  lemma ByteEndsHeader(v: StreamValue, s: string, c: char, grant: Grant)
    requires v.Valid() && v.state == ReceivingHeader && v.recv.bytes == s && v.expected == 0 && v.dataIdx == 0
    requires AllGranted(grant)
    requires HeaderEnd(s + [c]) == Some(|s| + 1) && EndsHeader(s + [c])
    ensures var r := AfterByte(v, c, grant); r == FedBy(v, s + [c], r.v.recv.cap)
  {
    hide HeaderEnd, EndsHeader, AfterHeader, FedBy;
    HeaderIsComplete(v, PushedChar(v.recv, c, grant).0, grant);
  }

  /** What a waiting stream comes to, by the frame of what it has and what arrives. */
  lemma {:induction false} WaitingIsFramed(v: StreamValue, s: string, grant: Grant)
    requires Waiting(v) && AllGranted(grant)
    ensures var r := AfterBytes(v, s, grant); r == FedBy(v, v.recv.bytes + s, r.v.recv.cap)
  {
    if s == "" {
      assert v.recv.bytes + s == v.recv.bytes && v.recv == Buf(v.recv.bytes, v.recv.cap);
    } else {
      hide FedBy, AfterBytes, AfterByte, Waiting;
      var p, c := s[..|s| - 1], s[|s| - 1];
      WaitingIsFramed(v, p, grant);
      assert s == p + [c] && v.recv.bytes + s == v.recv.bytes + p + [c];
      assert v.Valid() by { WaitingIsValid(v); }
      ByteInTurn(v, p, c, grant);
      OneMoreByte(v, v.recv.bytes + p, c, grant, AfterBytes(v, p, grant));
    }
  }

  lemma WaitingIsValid(v: StreamValue)
    requires Waiting(v)
    ensures v.Valid()
  {
  }

  lemma FedIsFramed(v: StreamValue, s: string, grant: Grant)
    requires IsFresh(v) && AllGranted(grant)
    ensures var r := AfterBytes(v, s, grant); r == FedBy(v, s, r.v.recv.cap)
  {
    hide FedBy, AfterBytes;
    WaitingIsFramed(v, s, grant);
    assert v.recv.bytes + s == s;
  }

  lemma OneMoreByte(v: StreamValue, p: string, c: char, grant: Grant, r: Fed)
    requires Waiting(v) && AllGranted(grant)
    requires r.v.Valid() && r == FedBy(v, p, r.v.recv.cap)
    ensures var next := if r.More? then AfterByte(r.v, c, grant) else r;
            next == FedBy(v, p + [c], next.v.recv.cap)
  {
    FrameGrows(p, c);
    if r.More? {
      match FrameOf(p)
      case InHeader =>
        if EndsHeader(p + [c]) { ByteEndsHeader(r.v, p, c, grant); } else { ByteInHeader(r.v, p, c, grant); }
      case InBody(n, e) => ByteInBody(r.v, p, c, grant);
    } else {
      SameRequest(v, p, c);
    }
  }

  lemma SameRequest(v: StreamValue, p: string, c: char)
    requires FrameOf(p).Whole? || FrameOf(p).Endless?
    ensures forall cap :: FedBy(v, p, cap) == FedBy(v, p + [c], cap)
  {
    FrameGrows(p, c);
    var n := match FrameOf(p) case Whole(len, _, _) => len case Endless(n) => n case _ => 0;
    assert (p + [c])[..n] == p[..n];
  }

  // ---- chunks and calls ----

  /** One sb_stream_recv: the chunks it calls and the time it runs at. */
  datatype Read = Read(chunks: seq<string>, now: int)

  /** Calls one after another, until a request is complete or the scan does not return. */
  function Arrive(v: StreamValue, calls: seq<Read>, grant: Grant): (r: Fed)
    requires v.Valid()
    ensures r.v.Valid()
    decreases |calls|
  {
    if calls == [] then More(v)
    else
      var next := AfterChunks(v, calls[0].chunks, grant, calls[0].now);
      if next.More? then Arrive(next.v, calls[1..], grant) else next
  }

  function Stream(calls: seq<Read>): string {
    if calls == [] then "" else Flat(calls[0].chunks) + Stream(calls[1..])
  }

  /** Everything but the time of the last activity. */
  function Timeless(r: Fed): Fed {
    var v := r.v.(lastActivity := 0);
    match r
    case More(_) => More(v)
    case Ready(_) => Ready(v)
    case NoMemory(_) => NoMemory(v)
    case Hung(_) => Hung(v)
  }

  lemma TimeDoesNotMatterForHeader(v: StreamValue, grant: Grant)
    requires v.Valid()
    ensures Timeless(AfterHeader(v, grant)) == AfterHeader(v.(lastActivity := 0), grant)
  {
    hide HeaderLookup, StrToUint;
  }

  lemma TimeDoesNotMatterForByte(v: StreamValue, c: char, grant: Grant)
    requires v.Valid()
    ensures Timeless(AfterByte(v, c, grant)) == AfterByte(v.(lastActivity := 0), c, grant)
  {
    hide AfterHeader, EndsHeader;
    TimeDoesNotMatterForHeader(v.(recv := PushedChar(v.recv, c, grant).0), grant);
  }

  lemma {:induction false} TimeDoesNotMatter(v: StreamValue, s: string, grant: Grant)
    requires v.Valid()
    ensures Timeless(AfterBytes(v, s, grant)) == AfterBytes(v.(lastActivity := 0), s, grant)
    decreases |s|
  {
    if s != "" {
      TimeDoesNotMatterForByte(v, s[0], grant);
      var next := AfterByte(v, s[0], grant);
      if next.More? { TimeDoesNotMatter(next.v, s[1..], grant); }
    }
  }

  lemma {:induction false} ChunksAreBytes(v: StreamValue, chunks: seq<string>, grant: Grant, now: int)
    requires v.Valid()
    ensures Timeless(AfterChunks(v, chunks, grant, now)) == AfterBytes(v.(lastActivity := 0), Flat(chunks), grant)
    decreases |chunks|
  {
    if chunks != [] {
      var u := v.(lastActivity := now);
      TimeDoesNotMatter(u, chunks[0], grant);
      BytesInTurn(v.(lastActivity := 0), chunks[0], Flat(chunks[1..]), grant);
      var next := AfterBytes(u, chunks[0], grant);
      if next.More? { ChunksAreBytes(next.v, chunks[1..], grant, now); }
    }
  }

  lemma {:induction false} ReadsAreBytes(v: StreamValue, calls: seq<Read>, grant: Grant)
    requires v.Valid()
    ensures Timeless(Arrive(v, calls, grant)) == AfterBytes(v.(lastActivity := 0), Stream(calls), grant)
    decreases |calls|
  {
    if calls != [] {
      var r := calls[0];
      ChunksAreBytes(v, r.chunks, grant, r.now);
      BytesInTurn(v.(lastActivity := 0), Flat(r.chunks), Stream(calls[1..]), grant);
      var next := AfterChunks(v, r.chunks, grant, r.now);
      if next.More? { ReadsAreBytes(next.v, calls[1..], grant); }
    }
  }

  /** Two ways of cutting the same bytes into chunks and calls leave the stream the same
      in everything but the time of its last activity, whichever allocations fail. */
  lemma CuttingDoesNotMatter(v: StreamValue, a: seq<Read>, b: seq<Read>, grant: Grant)
    requires v.Valid()
    requires Stream(a) == Stream(b)
    ensures Timeless(Arrive(v, a, grant)) == Timeless(Arrive(v, b, grant))
  {
    ReadsAreBytes(v, a, grant);
    ReadsAreBytes(v, b, grant);
  }

  /** And with memory at hand the bytes' frame alone says what that is: state, contents,
      data index and expected length, and a complete request exactly when the bytes
      start with a header and its Content-Length of data. */
  lemma ArrivalIsFramed(v: StreamValue, calls: seq<Read>, grant: Grant)
    requires IsFresh(v) && AllGranted(grant)
    ensures var r := Timeless(Arrive(v, calls, grant));
            r == FedBy(v.(lastActivity := 0), Stream(calls), r.v.recv.cap)
  {
    ReadsAreBytes(v, calls, grant);
    FedIsFramed(v.(lastActivity := 0), Stream(calls), grant);
  }

  /** A header with a carriage return of its own: the server never returns from it. */
  lemma BareCarriageReturn()
    ensures FrameOf("G\rX\r\n\r\n") == Endless(7)
  {
    var s := "G\rX\r\n\r\n";
    HeaderEndIs(s, 7);
    assert s[..7] == s;
    BareReturnHangs(s);
  }

  lemma BareReturnHangs(s: string)
    requires s == "G\rX\r\n\r\n"
    ensures HeaderLookup(s, "Content-Length") == Hangs
  {
    CspnIs(s, {'\r'}, 1);
    StandingStill(s[1..], "Content-Length");
  }
}
