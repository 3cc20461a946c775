/** Header lookup: find_header_value and sb_get_header, against line splitting. */
module HeaderFields {
  import opened Basics
  import opened CText

  /** `Hangs`: the scan stands on a carriage return that no line feed follows and
      makes no progress any more. */
  datatype Lookup = Found(value: string) | Missing | Hangs

  /** Does the line at the pointer carry the field name and a colon? */
  predicate NameAt(s: string, field: string) {
    StartsNoCase(s, field) && At(s, |field|) == ':'
  }

  /** Does "\r\n" stand `n` places behind the pointer? */
  predicate CrLf(s: string, n: nat) {
    At(s, n) == '\r' && At(s, n + 1) == '\n'
  }

  /** The scan of find_header_value, one line a step. */
  function HeaderLookup(s: string, field: string): (r: Lookup)
    ensures r.Found? && r.value != "" ==> !IsBlank(r.value[0])
    decreases |s|
  {
    if At(s, 0) == '\0' || CrLf(s, 0) then Missing
    else if NameAt(s, field) then Found(SkipBlanks(s[|field| + 1..]))
    else
      var n := Cspn(s, {'\r'});
      if CrLf(s, n) then HeaderLookup(s[n + 2..], field)
      else if n > 0 then HeaderLookup(s[n..], field)
      else Hangs
  }

  /** A pointer that moves on over a line finds the same. */
  lemma LookupMovesOn(s: string, field: string)
    requires At(s, 0) != '\0' && !CrLf(s, 0) && !NameAt(s, field)
    ensures var n := Cspn(s, {'\r'});
            if CrLf(s, n) then HeaderLookup(s[n + 2..], field) == HeaderLookup(s, field)
            else if n > 0 then HeaderLookup(s[n..], field) == HeaderLookup(s, field)
            else HeaderLookup(s, field) == Hangs
  {
  }

  method FindHeaderValue(str: string, field: string) returns (r: Lookup)
    requires '\0' !in field
    ensures r == HeaderLookup(str, field)
  {
    var s := str;
    while At(s, 0) != '\0' && !CrLf(s, 0)
      invariant HeaderLookup(s, field) == HeaderLookup(str, field)
      decreases |s|
    {
      var named := MemCaseEqual(s, field);
      if named && At(s, |field|) == ':' {
        return Found(SkipBlanks(s[|field| + 1..]));
      }
      LookupMovesOn(s, field);
      var n := Cspn(s, {'\r'});
      var step := if CrLf(s, n) then 2 else 0;
      if n + step == 0 {
        return Hangs;
      }
      s := s[n + step..];
    }
    return Missing;
  }

  // ---- what the lookup means: the block cut into lines ----

  datatype Ending =
    | EmptyLine   // the line of its own that closes a header
    | EndOfText   // the text ends where a line would start
    | OpenLine    // the text ends inside the last line
    | BareCr      // a carriage return with no line feed behind it

  datatype Block = Block(lines: seq<string>, ending: Ending)

  /** The lines in front of the empty line, cut without looking at any name. */
  function Split(s: string): Block
    decreases |s|
  {
    if CrLf(s, 0) then Block([], EmptyLine)
    else if At(s, 0) == '\0' then Block([], EndOfText)
    else
      var n := Cspn(s, {'\r'});
      if CrLf(s, n) then
        var tail := Split(s[n + 2..]);
        Block([LineOf(s)] + tail.lines, tail.ending)
      else
        Block([LineOf(s)], if At(s, n) == '\0' then OpenLine else BareCr)
  }

  lemma {:induction false} OpenLineIsLast(s: string)
    ensures Split(s).ending == OpenLine ==> Split(s).lines != []
  {
  }

  /** The first line whose name is the field's, letter case ignored. */
  function FirstNamed(lines: seq<string>, field: string): (k: Option<nat>)
    ensures k.Some? ==> k.value < |lines| && NameAt(lines[k.value], field)
    ensures forall j :: 0 <= j < (if k.Some? then k.value else |lines|) ==> !NameAt(lines[j], field)
  {
    if lines == [] then None
    else if NameAt(lines[0], field) then Some(0)
    else match FirstNamed(lines[1..], field)
      case None => None
      case Some(k) => Some(k + 1)
  }

  /** A name is found on the first line of the text or not in the text at all. */
  lemma NameIsOnTheLine(s: string, field: string)
    requires Clean(field)
    ensures NameAt(s, field) <==> NameAt(LineOf(s), field)
    ensures NameAt(s, field) ==> |field| < Cspn(s, {'\r'})
  {
    var n := Cspn(s, {'\r'});
    assert StartsNoCase(s, field) && n < |field| ==> ToLower(s[n]) == ToLower(field[n]);
  }

  lemma BlanksAre(s: string, n: nat)
    requires n <= |s|
    requires forall i :: 0 <= i < n ==> IsBlank(s[i])
    requires n < |s| ==> !IsBlank(s[n])
    ensures Blanks(s) == n
  {
  }

  /** Blanks end where the line ends, so they can be skipped before or after cutting. */
  lemma BlanksOnTheLine(s: string)
    ensures Blanks(s) == Blanks(LineOf(s)) <= Cspn(s, {'\r'})
  {
    var line := LineOf(s);
    var b := Blanks(line);
    assert forall i :: 0 <= i < b ==> IsBlank(line[i]) && line[i] == s[i];
    assert b < |line| ==> !IsBlank(line[b]) && line[b] == s[b];
    BlanksAre(s, b);
  }

  /** A pointer advanced inside its line sees the rest of the line and the same end. */
  lemma AdvanceOnTheLine(s: string, n: nat)
    requires n <= Cspn(s, {'\r'})
    ensures Cspn(s[n..], {'\r'}) == Cspn(s, {'\r'}) - n
    ensures LineOf(s[n..]) == LineOf(s)[n..]
    ensures Behind(s[n..]) == Behind(s)
  {
    CspnIs(s[n..], {'\r'}, Cspn(s, {'\r'}) - n);
  }

  /** The value behind a name on the line, and the value behind it in the text. */
  lemma ValueOnTheLine(s: string, n: nat)
    requires n <= Cspn(s, {'\r'})
    ensures LineOf(SkipBlanks(s[n..])) == SkipBlanks(LineOf(s)[n..])
    ensures Behind(SkipBlanks(s[n..])) == Behind(s)
  {
    AdvanceOnTheLine(s, n);
    BlanksOnTheLine(s[n..]);
    AdvanceOnTheLine(s[n..], Blanks(s[n..]));
  }

  /** What follows the line at the pointer. */
  function Behind(s: string): char {
    At(s, Cspn(s, {'\r'}))
  }

  lemma NamedOnFirstLine(s: string, field: string)
    requires Clean(field) && At(s, 0) != '\0' && !CrLf(s, 0) && NameAt(s, field)
    ensures HeaderLookup(s, field).Found? && FirstNamed(Split(s).lines, field) == Some(0)
    ensures LineOf(HeaderLookup(s, field).value) == SkipBlanks(LineOf(s)[|field| + 1..])
    ensures Behind(HeaderLookup(s, field).value) == '\0' <==> |Split(s).lines| == 1 && Split(s).ending == OpenLine
  {
    var n := Cspn(s, {'\r'});
    hide NameAt, LineOf, SkipBlanks;
    NameIsOnTheLine(s, field);
    ValueOnTheLine(s, |field| + 1);
    if CrLf(s, n) { OpenLineIsLast(s[n + 2..]); }
  }

  /** The lookup yields the value on the first matching line, the request line and an
      unfinished last line included; without a match it ends at the empty line or the
      terminator, and hangs exactly when a bare carriage return comes first. The value's
      line ends in a carriage return unless it is the unfinished last one. */
  lemma {:induction false} LookupIsFirstNamedLine(s: string, field: string)
    requires Clean(field)
    ensures var b := Split(s); var r := HeaderLookup(s, field);
            match FirstNamed(b.lines, field)
            case Some(k) =>
              && r.Found?
              && LineOf(r.value) == SkipBlanks(b.lines[k][|field| + 1..])
              && (Behind(r.value) == '\0' <==> k == |b.lines| - 1 && b.ending == OpenLine)
            case None => r == if b.ending == BareCr then Hangs else Missing
    decreases |s|
  {
    hide NameAt, LineOf, SkipBlanks, Behind;
    if At(s, 0) == '\0' || CrLf(s, 0) { return; }
    NameIsOnTheLine(s, field);
    var n := Cspn(s, {'\r'});
    if NameAt(s, field) {
      NamedOnFirstLine(s, field);
    } else if CrLf(s, n) {
      LookupIsFirstNamedLine(s[n + 2..], field);
      assert Split(s).lines[1..] == Split(s[n + 2..]).lines;
    } else if n > 0 {
      StandingStill(s[n..], field);
    }
  }

  /** Past a line with no line end the scan sees the terminator or stands still. */
  lemma StandingStill(s: string, field: string)
    requires Clean(field)
    requires At(s, 0) == '\0' || (At(s, 0) == '\r' && !CrLf(s, 0))
    ensures HeaderLookup(s, field) == if At(s, 0) == '\0' then Missing else Hangs
  {
    if At(s, 0) != '\0' { CspnIs(s, {'\r'}, 0); }
  }

  // ---- sb_get_header ----

  datatype Fetched =
    | Value(text: string)
    | Truncated(text: string)
    | NotFound
    | NoLineEnd  // no carriage return behind the value: the length is undefined
    | Stuck      // the lookup does not return

  function Trim(s: string): string {
    DropBlanksAtEnd(SkipBlanks(s))
  }

  /** What a caller with a buffer of `len` bytes is owed for a field's value. */
  function Fitted(value: string, len: nat): Fetched
    requires len >= 1
  {
    if |value| > len - 1 then Truncated(value[..len - 1]) else Value(value)
  }

  function HeaderText(s: string, field: string, len: nat): Fetched
    requires len >= 1
  {
    match HeaderLookup(s, field)
    case Missing => NotFound
    case Hangs => Stuck
    case Found(v) => if Behind(v) == '\0' then NoLineEnd else Fitted(DropBlanksAtEnd(LineOf(v)), len)
  }

  lemma {:induction false} DropBlanksUnique(s: string, r: string)
    requires r <= s
    requires r == "" || !IsBlank(r[|r| - 1])
    requires forall i :: |r| <= i < |s| ==> IsBlank(s[i])
    ensures DropBlanksAtEnd(s) == r
  {
    if |r| < |s| {
      DropBlanksUnique(s[..|s| - 1], r);
    } else {
      assert r == s;
    }
  }

  method GetHeader(recv: string, field: string, dst: array<char>, len: nat) returns (r: Fetched)
    requires '\0' !in field
    requires 1 <= len <= dst.Length
    modifies dst
    ensures r == HeaderText(recv, field, len)
    ensures r.Value? || r.Truncated? ==>
              |r.text| < len && dst[..|r.text| + 1] == r.text + "\0" && dst[|r.text| + 1..] == old(dst[|r.text| + 1..])
    ensures r.NotFound? ==> dst[0] == '\0' && dst[1..] == old(dst[1..])
    ensures r.NoLineEnd? || r.Stuck? ==> dst[..] == old(dst[..])
  {
    var found := FindHeaderValue(recv, field);
    match found {
      case Hangs => return Stuck;
      case Missing =>
        dst[0] := '\0';
        return NotFound;
      case Found(s) =>
        if Behind(s) == '\0' { return NoLineEnd; }
        var n := TrimmedLength(s);
        r := Value(s[..n]);
        if n > len - 1 {
          n := len - 1;
          r := Truncated(s[..n]);
        }
        forall i | 0 <= i < n { dst[i] := s[i]; }
        dst[n] := '\0';
        assert dst[..n] == r.text;
    }
  }

  /** The scan back over trailing blanks; it stops at one character, which is none. */
  method TrimmedLength(s: string) returns (n: nat)
    requires s == "" || !IsBlank(s[0])
    ensures n <= |s| && s[..n] == DropBlanksAtEnd(LineOf(s))
  {
    var line := LineOf(s);
    n := |line|;
    while n > 1 && IsBlank(s[n - 1])
      invariant n <= |line|
      invariant forall i :: n <= i < |line| ==> IsBlank(line[i])
    {
      n := n - 1;
    }
    DropBlanksUnique(line, line[..n]);
    assert line[..n] == s[..n];
  }

  /** sb_get_header returns the first matching line's value with the blanks around it
      removed, cut to the buffer and then marked truncated. It has no defined result
      exactly when that line is the unfinished last one, or when there is no such line
      and a bare carriage return stops the scan. */
  lemma HeaderTextIsTrimmedValue(s: string, field: string, len: nat)
    requires Clean(field)
    requires len >= 1
    ensures var b := Split(s);
            HeaderText(s, field, len) ==
            match FirstNamed(b.lines, field)
            case Some(k) =>
              if k == |b.lines| - 1 && b.ending == OpenLine then NoLineEnd
              else Fitted(Trim(b.lines[k][|field| + 1..]), len)
            case None => if b.ending == BareCr then Stuck else NotFound
  {
    LookupIsFirstNamedLine(s, field);
  }

  /** A header line cut short by a terminator of its own has no line end. */
  lemma CutShort()
    ensures HeaderText("A: b\0c\r\n\r\n", "A", 10) == NoLineEnd
  {
    var s, v := "A: b\0c\r\n\r\n", "b\0c\r\n\r\n";
    assert s[2..] == " " + v && (" " + v)[1..] == v && v[0] == 'b';
    ValueCutShort(v);
    assert NameAt(s, "A") && SkipBlanks(s[2..]) == v;
  }

  lemma ValueCutShort(v: string)
    requires |v| > 1 && v[0] == 'b' && v[1] == '\0'
    ensures Behind(v) == '\0'
  {
    CspnIs(v, {'\r'}, 1);
  }

  // ---- blocks that are written line by line ----

  function Join(lines: seq<string>): string {
    if lines == [] then "" else lines[0] + "\r\n" + Join(lines[1..])
  }

  ghost predicate CleanLines(lines: seq<string>) {
    forall k :: 0 <= k < |lines| ==> lines[k] != "" && Clean(lines[k])
  }

  lemma {:induction false} JoinConcat(a: seq<string>, b: seq<string>)
    ensures Join(a + b) == Join(a) + Join(b)
  {
    if a == [] {
      assert a + b == b;
    } else {
      assert (a + b)[1..] == a[1..] + b;
      JoinConcat(a[1..], b);
    }
  }

  lemma CutCleanLine(line: string, rest: string)
    requires Clean(line)
    ensures Cspn(line + "\r\n" + rest, {'\r'}) == |line|
    ensures CrLf(line + "\r\n" + rest, |line|)
    ensures LineOf(line + "\r\n" + rest) == line
    ensures (line + "\r\n" + rest)[|line| + 2..] == rest
  {
    CspnIs(line + "\r\n" + rest, {'\r'}, |line|);
  }

  /** Splitting undoes joining, whatever follows the empty line. */
  lemma {:induction false} SplitJoin(lines: seq<string>, rest: string)
    requires CleanLines(lines)
    ensures Split(Join(lines) + "\r\n" + rest) == Block(lines, EmptyLine)
    decreases |lines|
  {
    var s := Join(lines) + "\r\n" + rest;
    if lines != [] {
      var tail := Join(lines[1..]) + "\r\n" + rest;
      assert s == lines[0] + "\r\n" + tail;
      CutCleanLine(lines[0], tail);
      assert s[0] == lines[0][0];
      SplitJoin(lines[1..], rest);
    }
  }
}
