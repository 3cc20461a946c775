/** A request from the client's pen to the handler: whatever the chunks and polls it arrives
    in, the handler is told the method and path that were written and can read the query, the
    header and the form fields. */
module WrittenRequests {
  import opened Basics
  import opened CText
  import opened HeaderFields
  import opened Numbers
  import opened QueryVars
  import opened StreamModel
  import opened Framing
  import opened Reception
  import opened RequestLines
  import Delivery

  const LENGTH: string := "Content-Length"

  /** What a client writes: a method, a path to encode, perhaps a query, header lines, and
      form fields, which become the body of a request that says its length. */
  datatype Written = Written(
    verb: string, path: string, query: Option<string>, style: Style, headers: seq<string>,
    sized: bool, fields: seq<Pair>)
  {
    /** What the writer has to see to. */
    ghost predicate Valid() {
      && verb != "" && |verb| <= 15 && NoSpace(verb)
      && path != "" && ByteText(path) && style.Valid() && style.plain !! {'\U{000B}', '\U{000C}'}
      && (query.Some? ==> NoSpace(query.value))
      && Sendable(fields) && (!sized ==> fields == [])
    }
  }

  function Target(w: Written): string
    requires ByteText(w.path)
  {
    Encode(w.path, w.style) + if w.query.Some? then "?" + w.query.value else ""
  }

  function RequestLine(w: Written): string
    requires ByteText(w.path)
  {
    w.verb + (" " + (Target(w) + (" " + "HTTP/1.1")))
  }

  function LengthLine(size: nat): string {
    LENGTH + ": " + Decimal(size)
  }

  function Body(w: Written): string
    requires w.Valid()
  {
    QueryText(w.fields, w.style)
  }

  /** The lines of the header. */
  function Lines(w: Written): seq<string>
    requires w.Valid()
  {
    [RequestLine(w)] + w.headers + if w.sized then [LengthLine(|Body(w)|)] else []
  }

  /** The header, with its empty line. */
  function Block(w: Written): string
    requires w.Valid()
  {
    Join(Lines(w)) + "\r\n"
  }

  function Text(w: Written): string
    requires w.Valid()
  {
    Block(w) + Body(w)
  }

  /** Where the server sees the data start. */
  function DataIdx(w: Written): nat
    requires w.Valid()
  {
    if w.sized then |Block(w)| else 0
  }

  /** No line ends early or names the length by itself, and the body is below 2^32. */
  ghost predicate Framed(w: Written)
    requires w.Valid()
  {
    && CleanLines(w.headers) && |Body(w)| < UINT_RANGE
    && !NameAt(RequestLine(w), LENGTH)
    && forall k :: 0 <= k < |w.headers| ==> !NameAt(w.headers[k], LENGTH)
  }

  /** The plainest request: no query, no header line, no body. */
  lemma PlainGet()
    ensures var w := Written("GET", "/", None, Style({'/'}, false, false), [], false, []);
            w.Valid() && Framed(w) && Text(w) == "GET / HTTP/1.1\r\n\r\n"
  {
    hide NameAt;
    var w := Written("GET", "/", None, Style({'/'}, false, false), [], false, []);
    assert Encode("/", w.style) == EncodeByte('/', w.style) + Encode("", w.style);
    assert RequestLine(w) == "GET / HTTP/1.1";
    assert Join(Lines(w)) == "GET / HTTP/1.1" + "\r\n" + Join([]);
    OtherLine();
  }

  lemma OtherLine()
    ensures !NameAt("GET / HTTP/1.1", LENGTH)
  {
    assert ToLower("GET / HTTP/1.1"[0]) != ToLower(LENGTH[0]);
  }

  lemma NoSpaceIsClean(s: string)
    requires NoSpace(s)
    ensures Clean(s)
  {
  }

  lemma TargetHasNoSpace(w: Written)
    requires w.Valid()
    ensures NoSpace(Target(w))
  {
    hide Encode;
    EncodedPathHasNoSpace(w.path, w.style);
  }

  lemma RequestLineIsClean(w: Written)
    requires w.Valid()
    ensures Clean(RequestLine(w)) && RequestLine(w) != ""
  {
    hide Target;
    TargetHasNoSpace(w);
    NoSpaceIsClean(w.verb);
    NoSpaceIsClean(Target(w));
  }

  lemma LengthLineIs(size: nat)
    ensures Clean(LENGTH) && Clean(LengthLine(size)) && LengthLine(size) != ""
    ensures NameAt(LengthLine(size), LENGTH) && SkipBlanks(LengthLine(size)[|LENGTH| + 1..]) == Decimal(size)
  {
    hide Decimal, NameAt, SkipBlanks;
    Delivery.FieldLine(LENGTH, Decimal(size));
    Delivery.CleanLast(LENGTH, Decimal(size));
  }

  /** The text is one whole request by its own framing, with or without a length. */
  lemma TextIsFramed(w: Written)
    requires w.Valid() && Framed(w)
    ensures FrameOf(Text(w)) == Whole(|Text(w)|, DataIdx(w), if w.sized then |Text(w)| else 0)
  {
    hide RequestLine, LengthLine, NameAt, SkipBlanks, Join, FrameOf, HeaderEnd, HeaderLookup, StrToUint, Body, Decimal;
    RequestLineIsClean(w);
    LengthLineIs(|Body(w)|);
    var lines := [RequestLine(w)] + w.headers;
    if w.sized {
      Delivery.BlockOfFile(lines, LengthLine(|Body(w)|), LENGTH, Body(w));
      Delivery.BlockFramesItself(Block(w), Body(w));
    } else {
      assert Lines(w) == lines;
      NoBody(w);
      assert Text(w) == Block(w);
      UnsizedBlock(lines);
    }
  }

  lemma NoBody(w: Written)
    requires w.Valid() && !w.sized
    ensures Body(w) == ""
  {
  }

  /** A header that does not say a length is a whole request. */
  lemma UnsizedBlock(lines: seq<string>)
    requires lines != [] && CleanLines(lines) && forall k :: 0 <= k < |lines| ==> !NameAt(lines[k], LENGTH)
    ensures var block := Join(lines) + "\r\n"; FrameOf(block) == Whole(|block|, 0, 0)
  {
    hide Join, HeaderEnd, HeaderLookup, NameAt;
    var block := Join(lines) + "\r\n";
    assert block + "" == block && block[..|block|] == block;
    LengthLineIs(0);
    Delivery.BlockEnds(lines, "");
    SplitJoin(lines, "");
    LookupIsFirstNamedLine(block, LENGTH);
  }

  /** The text as a request line and what follows it. */
  lemma TextStartsWithLine(w: Written) returns (rest: string)
    requires w.Valid()
    ensures Text(w) == w.verb + (" " + (Target(w) + (" " + ("HTTP/1.1" + "\r\n" + rest))))
  {
    hide Target, LengthLine, Body;
    var lines := Lines(w);
    assert lines[0] == RequestLine(w);
    rest := Join(lines[1..]) + "\r\n" + Body(w);
    assert Text(w) == RequestLine(w) + ("\r\n" + rest);
    assert RequestLine(w) + ("\r\n" + rest) == w.verb + (" " + (Target(w) + (" " + ("HTTP/1.1" + "\r\n" + rest))));
  }

  /** In whatever chunks and calls the text arrives, the handler is told the method and the
      path, and the stream holds the text with the data where the body starts. */
  lemma WrittenRequestIsEmitted(w: Written, v: StreamValue, calls: seq<Read>, grant: Grant, handler: Handler)
    requires w.Valid() && Framed(w) && IsFresh(v) && AllGranted(grant)
    requires Stream(calls) == Text(w)
    ensures var r := Receive(v, calls, grant, handler);
            && r.Returned? && r.request == Some(Request(w.verb, w.path[..Min(|w.path|, 511)]))
            && r.v.recv.bytes == Text(w) && r.v.dataIdx == DataIdx(w)
  {
    hide Text, Block, Target, Framed, Receive, ParseRequest, FrameOf, DataIdx;
    TextIsFramed(w);
    FramedRequestIsEmitted(v, calls, grant, handler);
    assert Text(w)[..|Text(w)|] == Text(w);
    var rest := TextStartsWithLine(w);
    TargetIs(w);
    RequestRoundTrip(w.verb, w.path, w.query, rest, w.style);
  }

  lemma TargetIs(w: Written)
    requires w.Valid()
    ensures Target(w) == Encode(w.path, w.style) + if w.query.Some? then "?" + w.query.value else ""
  {
  }

  /** The pairs that a request's query was written from. */
  ghost predicate QueryIs(w: Written, pairs: seq<Pair>) {
    && Sendable(pairs)
    && if w.query.None? then pairs == [] else w.query == Some(QueryText(pairs, w.style))
  }

  /** Looking a name up in the text finds the first query pair of that name, or else looks
      into the body. */
  lemma QueryIsFound(w: Written, pairs: seq<Pair>, name: string)
    requires w.Valid() && '?' !in w.verb && QueryIs(w, pairs) && IsName(name)
    ensures DataIdx(w) <= |Text(w)|
    ensures var r := VarText(Text(w), DataIdx(w), name);
            match FirstPair(pairs, name)
            case Some(p) => r.Some? && Decode(r.value) == p.value
            case None => r == if w.sized then VarLookup(Text(w)[DataIdx(w)..], name) else None
  {
    TextIs(w);
    hide Text, VarText, FirstPair, Decode, DataIdx;
    if w.query.Some? {
      WithQuery(w, pairs, DataIdx(w), name);
    } else {
      NoPairs(name);
      WithoutQuery(w, name);
      DataOnly(Text(w), DataIdx(w), name);
    }
    assert DataIdx(w) > 0 <==> w.sized by { DataIdxIs(w); }
  }

  lemma DataIdxIs(w: Written)
    requires w.Valid()
    ensures DataIdx(w) > 0 <==> w.sized
  {
    hide Join;
  }

  lemma WithQuery(w: Written, pairs: seq<Pair>, dataIdx: nat, name: string)
    requires w.Valid() && '?' !in w.verb && Sendable(pairs)
    requires w.query == Some(QueryText(pairs, w.style)) && IsName(name)
    requires dataIdx <= |Text(w)|
    ensures var r := VarText(Text(w), dataIdx, name);
            match FirstPair(pairs, name)
            case Some(p) => r.Some? && Decode(r.value) == p.value
            case None => r == if dataIdx > 0 then VarLookup(Text(w)[dataIdx..], name) else None
  {
    hide Text, Target, Encode, QueryText, VarText, FirstPair, Decode, VarLookup;
    var front := w.verb + (" " + Encode(w.path, w.style));
    FrontIsTarget(w);
    var rest := TextStartsWithLine(w);
    TargetIs(w);
    var behind := " " + ("HTTP/1.1" + "\r\n" + rest);
    assert Text(w) == front + "?" + (QueryText(pairs, w.style) + behind);
    QueryRoundTrip(front, pairs, behind, dataIdx, w.style, name);
  }

  lemma WithoutQuery(w: Written, name: string)
    requires w.Valid() && '?' !in w.verb && w.query.None?
    ensures VarText(Text(w), 0, name) == None
  {
    hide Text, Target, Encode, VarText;
    var front := w.verb + (" " + Encode(w.path, w.style));
    FrontIsTarget(w);
    var rest := TextStartsWithLine(w);
    TargetIs(w);
    var line := front + (" " + "HTTP/1.1");
    assert Text(w) == line + ("\r\n" + rest);
    NoQueryNoVar(line, "\r\n" + rest, name);
  }

  lemma NoPairs(name: string)
    ensures FirstPair([], name) == None
  {
  }

  lemma DataOnly(s: string, dataIdx: nat, name: string)
    requires dataIdx <= |s| && VarText(s, 0, name).None?
    ensures VarText(s, dataIdx, name) == if dataIdx > 0 then VarLookup(s[dataIdx..], name) else None
  {
  }

  lemma FrontIsTarget(w: Written)
    requires w.Valid() && '?' !in w.verb
    ensures IsTarget(w.verb + (" " + Encode(w.path, w.style)))
  {
    hide Encode;
    EncodeHasNoStop(w.path, w.style);
    var e, front := Encode(w.path, w.style), w.verb + (" " + Encode(w.path, w.style));
    forall i | 0 <= i < |front| ensures front[i] != '?' && front[i] != '\r' && front[i] != '\0' {
      if i < |w.verb| { assert front[i] == w.verb[i] && !IsSpace(w.verb[i]); }
      else if i > |w.verb| { assert front[i] == e[i - |w.verb| - 1]; }
    }
  }

  /** And it can read what was written: of any name the first query pair's value, or else
      the first form field's, or nothing if the name is in neither. */
  lemma WrittenVariablesAreRead(w: Written, pairs: seq<Pair>, v: StreamValue, calls: seq<Read>, grant: Grant,
                                handler: Handler, name: string)
    requires w.Valid() && Framed(w) && IsFresh(v) && AllGranted(grant)
    requires '?' !in w.verb && QueryIs(w, pairs)
    requires Stream(calls) == Text(w) && IsName(name)
    ensures var u := Receive(v, calls, grant, handler).v;
            var r := VarText(u.recv.bytes, u.dataIdx, name);
            match FirstPair(pairs + w.fields, name)
            case Some(p) => r.Some? && Decode(r.value) == p.value
            case None => r.None?
  {
    WrittenRequestIsEmitted(w, v, calls, grant, handler);
    TextIs(w);
    hide Text, Block, Framed, Receive, VarText, FirstPair, Decode, QueryText, VarLookup;
    QueryIsFound(w, pairs, name);
    FirstOfBoth(pairs, w.fields, name);
    if w.sized {
      LookupInQuery(w.fields, w.style, name, "");
    } else {
      NoPairs(name);
    }
  }

  lemma {:induction false} FirstOfBoth(a: seq<Pair>, b: seq<Pair>, name: string)
    ensures FirstPair(a + b, name) == if FirstPair(a, name).Some? then FirstPair(a, name) else FirstPair(b, name)
  {
    if a == [] {
      assert a + b == b;
    } else {
      assert (a + b)[1..] == a[1..] + b;
      FirstOfBoth(a[1..], b, name);
    }
  }

  /** And it can read the header: of any field the first line's value without the blanks
      around it, cut to the caller's buffer; the lookup always returns. */
  lemma WrittenHeadersAreRead(w: Written, field: string, len: nat)
    requires w.Valid() && Framed(w) && Clean(field) && len >= 1
    ensures HeaderText(Text(w), field, len) ==
            match FirstNamed(Lines(w), field)
            case Some(k) => Fitted(Trim(Lines(w)[k][|field| + 1..]), len)
            case None => Fetched.NotFound
  {
    hide RequestLine, LengthLine, Body, HeaderText, Fitted, Trim, Join;
    RequestLineIsClean(w);
    LengthLineIs(|Body(w)|);
    SplitJoin(Lines(w), Body(w));
    HeaderTextIsTrimmedValue(Text(w), field, len);
  }

  lemma TextIs(w: Written)
    requires w.Valid()
    ensures DataIdx(w) <= |Text(w)| && (w.sized ==> DataIdx(w) > 0)
    ensures w.sized ==> Text(w)[DataIdx(w)..] == QueryText(w.fields, w.style) + ""
  {
    hide QueryText, Join;
    assert QueryText(w.fields, w.style) + "" == QueryText(w.fields, w.style);
    assert (Block(w) + Body(w))[|Block(w)|..] == Body(w);
  }
}
