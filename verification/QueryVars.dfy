/** Query variables: url_decode, find_var_value and sb_get_var, against percent-encoding
    as in section 2.1 of RFC 3986. */
module QueryVars {
  import opened Basics
  import opened CText

  // ---- percent-encoded bytes ----

  /** hex_to_int: any character that is no digit counts from 'a' as ten. */
  function HexToInt(c: char): int {
    if '0' <= c <= '9' then c as int - '0' as int else ToLower(c) as int - 'a' as int + 10
  }

  /** The bitwise or of the low `bits` bits. */
  function Or(a: nat, b: nat, bits: nat): (r: nat)
    ensures r < Pow2(bits)
  {
    if bits == 0 then 0
    else 2 * Or(a / 2, b / 2, bits - 1) + if a % 2 == 1 || b % 2 == 1 then 1 else 0
  }

  function Pow2(n: nat): nat {
    if n == 0 then 1 else 2 * Pow2(n - 1)
  }

  /** The low byte of (hi << 4) | lo, whatever the two characters are. */
  function HexByte(hi: char, lo: char): char {
    assert Pow2(8) == 256;
    Or(HexToInt(hi) * 16 % 256, HexToInt(lo) % 256, 8) as char
  }

  function HexDigit(n: nat, upper: bool): char
    requires n < 16
  {
    if n < 10 then ('0' as int + n) as char
    else if upper then ('A' as int + n - 10) as char
    else ('a' as int + n - 10) as char
  }

  lemma {:induction false} OrZero(a: nat, bits: nat)
    requires a < Pow2(bits)
    ensures Or(a, 0, bits) == a
  {
    if bits > 0 { OrZero(a / 2, bits - 1); }
  }

  lemma {:induction false} OrOfShifted(h: nat, l: nat, shift: nat, bits: nat)
    requires h < Pow2(bits) && l < Pow2(shift)
    ensures Or(h * Pow2(shift), l, bits + shift) == h * Pow2(shift) + l
  {
    if shift == 0 {
      OrZero(h, bits);
    } else {
      var m := h * Pow2(shift - 1);
      assert h * Pow2(shift) == 2 * m by { assert h * (2 * Pow2(shift - 1)) == 2 * (h * Pow2(shift - 1)); }
      OrOfShifted(h, l / 2, shift - 1, bits);
      assert 2 * m / 2 == m;
    }
  }

  lemma HexDigitRoundTrip(n: nat, upper: bool)
    requires n < 16
    ensures HexToInt(HexDigit(n, upper)) == n
    ensures HexDigit(n, upper) !in {'\0', '?', '&', ' ', '\t', '\r', '\n'}
  {
  }

  /** Two hexadecimal digits of either case give their byte back. */
  lemma HexByteRoundTrip(c: char, upper: bool)
    requires c as int < 256
    ensures HexByte(HexDigit(c as int / 16, upper), HexDigit(c as int % 16, upper)) == c
  {
    hide Or, Pow2;
    var h, l := c as int / 16, c as int % 16;
    HexDigitRoundTrip(h, upper);
    HexDigitRoundTrip(l, upper);
    OrOfNibbles(h, l);
    assert h * 16 + l == c as int;
    assert h * 16 % 256 == h * 16 && l % 256 == l;
  }

  lemma OrOfNibbles(h: nat, l: nat)
    requires h < 16 && l < 16
    ensures Or(h * 16, l, 8) == h * 16 + l
  {
    assert Pow2(4) == 16;
    OrOfShifted(h, l, 4, 4);
  }

  // ---- url_decode ----

  const STOPS: set<char> := {'\0', '?', '&', ' ', '\t', '\r', '\n'}

  /** The characters of one decoding step, and how far the source pointer moves. */
  function Token(s: string): (t: (char, nat))
    requires At(s, 0) !in STOPS
    ensures 1 <= t.1 <= |s|
  {
    if s[0] == '%' && At(s, 1) != '\0' && At(s, 2) != '\0' then (HexByte(s[1], s[2]), 3)
    else if s[0] == '+' then (' ', 1)
    else (s[0], 1)
  }

  /** Decoding with no bound on the output. */
  function Decode(s: string): string
    decreases |s|
  {
    if At(s, 0) in STOPS then ""
    else [Token(s).0] + Decode(s[Token(s).1..])
  }

  /** url_decode: writes the first len - 1 bytes of the unbounded decoding and the
      terminator, nothing beyond, and succeeds exactly when the decoding is shorter than
      len - 1; one that just fits is reported as truncated, too. */
  method UrlDecode(dst: array<char>, source: string, size: nat) returns (truncated: bool)
    requires 1 <= size <= dst.Length
    modifies dst
    ensures var n := Min(|Decode(source)|, size - 1);
            dst[..n + 1] == Decode(source)[..n] + "\0" && dst[n + 1..] == old(dst[n + 1..])
    ensures truncated <==> |Decode(source)| >= size - 1
  {
    hide Token;
    var src, len, to := source, size - 1, 0;
    while At(src, 0) !in STOPS && len > 0
      invariant to + len == size - 1
      invariant Decode(source) == dst[..to] + Decode(src)
      invariant dst[to..] == old(dst[to..])
      decreases len
    {
      ghost var done := dst[..to];
      var (c, n) := Token(src);
      assert Decode(src) == [c] + Decode(src[n..]);
      dst[to] := c;
      src, to, len := src[n..], to + 1, len - 1;
      assert dst[..to] == done + [c];
    }
    ghost var done := dst[..to];
    assert Decode(source)[..to] == done;
    assert len == 0 || Decode(src) == "";
    dst[to] := '\0';
    assert dst[..to + 1] == done + "\0";
    truncated := len == 0;
  }

  // ---- encoded values ----

  /** How a client may write a value: which characters stand for themselves, whether a
      space is a plus sign, and the case of the digits. */
  datatype Style = Style(plain: set<char>, plus: bool, upper: bool) {
    ghost predicate Valid() {
      plain !! STOPS + {'%', '+'}
    }
  }

  ghost predicate ByteText(s: string) {
    forall i :: 0 <= i < |s| ==> s[i] as int < 256
  }

  function EncodeByte(c: char, style: Style): string
    requires c as int < 256
  {
    if c in style.plain then [c]
    else if c == ' ' && style.plus then "+"
    else ['%', HexDigit(c as int / 16, style.upper), HexDigit(c as int % 16, style.upper)]
  }

  function Encode(value: string, style: Style): string
    requires ByteText(value)
  {
    if value == "" then "" else EncodeByte(value[0], style) + Encode(value[1..], style)
  }

  lemma TokenOfByte(c: char, style: Style, rest: string)
    requires style.Valid() && c as int < 256
    ensures var e := EncodeByte(c, style);
            At(e + rest, 0) !in STOPS && Token(e + rest) == (c, |e|) && (e + rest)[|e|..] == rest
  {
    HexByteRoundTrip(c, style.upper);
    HexDigitRoundTrip(c as int / 16, style.upper);
    HexDigitRoundTrip(c as int % 16, style.upper);
  }

  /** Decoding an encoded value gives it back and stops where the value does. */
  lemma {:induction false} DecodeEncode(value: string, style: Style, rest: string)
    requires style.Valid() && ByteText(value)
    requires At(rest, 0) in STOPS
    ensures Decode(Encode(value, style) + rest) == value
  {
    if value == "" {
      assert Encode(value, style) + rest == rest;
    } else {
      var tail := Encode(value[1..], style) + rest;
      assert Encode(value, style) + rest == EncodeByte(value[0], style) + tail;
      TokenOfByte(value[0], style, tail);
      DecodeEncode(value[1..], style, rest);
    }
  }

  /** An encoded value holds no separator. */
  lemma {:induction false} EncodeHasNoStop(value: string, style: Style)
    requires style.Valid() && ByteText(value)
    ensures forall i :: 0 <= i < |Encode(value, style)| ==> Encode(value, style)[i] !in STOPS
  {
    if value != "" {
      EncodeHasNoStop(value[1..], style);
    }
  }

  // ---- find_var_value ----

  const SEPARATORS: set<char> := {'&', ' ', '\t', '\r', '\n'}

  function VarLookup(s: string, name: string): Option<string>
    decreases |s|
  {
    if name <= s && At(s, |name|) == '=' then Some(s[|name| + 1..])
    else
      var n := Cspn(s, SEPARATORS);
      if At(s, n) == '&' then VarLookup(s[n + 1..], name) else None
  }

  method FindVarValue(str: string, name: string) returns (r: Option<string>)
    ensures r == VarLookup(str, name)
  {
    var s := str;
    while true
      invariant VarLookup(s, name) == VarLookup(str, name)
      decreases |s|
    {
      if name <= s && At(s, |name|) == '=' {
        return Some(s[|name| + 1..]);
      }
      s := s[Cspn(s, SEPARATORS)..];
      if At(s, 0) != '&' {
        return None;
      }
      s := s[1..];
    }
  }

  // ---- queries that are written pair by pair ----

  datatype Pair = Pair(name: string, value: string)

  /** A name as it stands in front of its equals sign. */
  ghost predicate IsName(s: string) {
    forall i :: 0 <= i < |s| ==> s[i] !in SEPARATORS && s[i] != '=' && s[i] != '\0'
  }

  ghost predicate Sendable(pairs: seq<Pair>) {
    forall k :: 0 <= k < |pairs| ==> IsName(pairs[k].name) && ByteText(pairs[k].value)
  }

  function QueryText(pairs: seq<Pair>, style: Style): string
    requires Sendable(pairs)
  {
    if pairs == [] then ""
    else
      var more := if |pairs| == 1 then "" else "&" + QueryText(pairs[1..], style);
      pairs[0].name + "=" + Encode(pairs[0].value, style) + more
  }

  function FirstPair(pairs: seq<Pair>, name: string): Option<Pair> {
    if pairs == [] then None
    else if pairs[0].name == name then Some(pairs[0])
    else FirstPair(pairs[1..], name)
  }

  /** A pointer that moves on over a pair finds the same. */
  lemma VarMovesOn(s: string, n: nat, name: string)
    requires !(name <= s && At(s, |name|) == '=')
    requires n <= |s| && Cspn(s, SEPARATORS) == n
    ensures VarLookup(s, name) == if At(s, n) == '&' then VarLookup(s[n + 1..], name) else None
  {
  }

  lemma LookupHits(name: string, value: string)
    ensures VarLookup(name + "=" + value, name) == Some(value)
  {
    assert (name + "=" + value)[|name| + 1..] == value;
  }

  /** A pair of another name is passed over, up to the separator behind its value. */
  lemma LookupPasses(own: string, value: string, rest: string, name: string)
    requires IsName(own) && IsName(name) && own != name
    requires forall i :: 0 <= i < |value| ==> value[i] !in STOPS
    requires At(rest, 0) in SEPARATORS + {'\0'}
    ensures VarLookup(own + "=" + (value + rest), name) ==
            if At(rest, 0) == '&' then VarLookup(rest[1..], name) else None
  {
    var s := own + "=" + (value + rest);
    var n := |own| + 1 + |value|;
    OtherName(own, value + rest, name);
    assert forall i :: 0 <= i < n ==> s[i] !in SEPARATORS && s[i] != '\0';
    CspnIs(s, SEPARATORS, n);
    VarMovesOn(s, n, name);
    assert At(rest, 0) == '&' ==> s[n + 1..] == rest[1..];
  }

  /** A name that differs from the one in front of the equals sign does not match. */
  lemma OtherName(own: string, rest: string, name: string)
    requires IsName(own) && IsName(name) && own != name
    ensures var s := own + "=" + rest; !(name <= s && At(s, |name|) == '=')
  {
    var s := own + "=" + rest;
    assert s[|own|] == '=' && s[..|own|] == own;
    assert |name| < |own| ==> s[|name|] == own[|name|];
  }

  /** Looking a name up in a written query finds the first pair of that name, and what
      it finds decodes to that pair's value. */
  lemma {:induction false} LookupInQuery(pairs: seq<Pair>, style: Style, name: string, rest: string)
    requires style.Valid() && Sendable(pairs) && IsName(name)
    requires At(rest, 0) in {'\0', ' ', '\t', '\r', '\n'}
    ensures var r := VarLookup(QueryText(pairs, style) + rest, name);
            match FirstPair(pairs, name)
            case Some(p) => r.Some? && Decode(r.value) == p.value
            case None => r.None?
  {
    if pairs == [] {
      assert QueryText(pairs, style) + rest == rest;
      VarNotAt(rest, name);
    } else {
      var p := pairs[0];
      var e := Encode(p.value, style);
      var tail := if |pairs| == 1 then rest else "&" + (QueryText(pairs[1..], style) + rest);
      assert QueryText(pairs, style) + rest == p.name + "=" + (e + tail);
      if p.name == name {
        LookupHits(name, e + tail);
        DecodeEncode(p.value, style, tail);
      } else {
        EncodeHasNoStop(p.value, style);
        LookupPasses(p.name, e, tail, name);
        if |pairs| > 1 {
          LookupInQuery(pairs[1..], style, name, rest);
        } else {
          assert FirstPair(pairs[1..], name) == None;
        }
      }
    }
  }

  lemma VarNotAt(rest: string, name: string)
    requires IsName(name)
    requires At(rest, 0) in {'\0', ' ', '\t', '\r', '\n'}
    ensures VarLookup(rest, name) == None
  {
    CspnIs(rest, SEPARATORS, 0);
  }

  // ---- sb_get_var ----

  /** Where the query starts, if the request line has one. */
  function QueryOf(recv: string): Option<string> {
    var n := Cspn(recv, {'?', '\r'});
    if At(recv, n) == '?' then Some(recv[n + 1..]) else None
  }

  /** The query is searched first, then the data of a request that has some. */
  function VarText(recv: string, dataIdx: nat, name: string): Option<string>
    requires dataIdx <= |recv|
  {
    var q := QueryOf(recv);
    var s := if q.Some? then VarLookup(q.value, name) else None;
    if s.None? && dataIdx > 0 then VarLookup(recv[dataIdx..], name) else s
  }

  datatype VarResult = Success | Truncated | NotFound

  method GetVar(recv: string, dataIdx: nat, name: string, dst: array<char>, len: nat) returns (r: VarResult)
    requires dataIdx <= |recv|
    requires 1 <= len <= dst.Length
    modifies dst
    ensures match VarText(recv, dataIdx, name)
            case None => r == NotFound && dst[0] == '\0' && dst[1..] == old(dst[1..])
            case Some(v) =>
              && (r == if |Decode(v)| < len - 1 then Success else Truncated)
              && var n := Min(|Decode(v)|, len - 1);
                 dst[..n + 1] == Decode(v)[..n] + "\0" && dst[n + 1..] == old(dst[n + 1..])
  {
    var q := QueryOf(recv);
    var s := None;
    if q.Some? {
      s := FindVarValue(q.value, name);
    }
    if s.None? && dataIdx > 0 {
      s := FindVarValue(recv[dataIdx..], name);
    }
    if s.None? {
      dst[0] := '\0';
      return NotFound;
    }
    var truncated := UrlDecode(dst, s.value, len);
    r := if truncated then Truncated else Success;
  }

  /** A request line in front of its query. */
  ghost predicate IsTarget(s: string) {
    forall i :: 0 <= i < |s| ==> s[i] != '?' && s[i] != '\r' && s[i] != '\0'
  }

  lemma QueryBehindTarget(target: string, query: string)
    requires IsTarget(target)
    ensures QueryOf(target + "?" + query) == Some(query)
  {
    CspnIs(target + "?" + query, {'?', '\r'}, |target|);
    assert (target + "?" + query)[|target| + 1..] == query;
  }

  lemma NoQuery(target: string, rest: string)
    requires IsTarget(target) && At(rest, 0) == '\r'
    ensures QueryOf(target + rest) == None
  {
    CspnIs(target + rest, {'?', '\r'}, |target|);
  }

  /** Round trip through the query: the first pair of a name is read back, wherever the
      data starts; a name with no pair is looked up in the data, if there is any. */
  lemma QueryRoundTrip(target: string, query: seq<Pair>, rest: string, dataIdx: nat, style: Style, name: string)
    requires IsTarget(target) && style.Valid() && Sendable(query) && IsName(name)
    requires At(rest, 0) in {'\0', ' ', '\t', '\r', '\n'}
    requires dataIdx <= |target + "?" + (QueryText(query, style) + rest)|
    ensures var s := target + "?" + (QueryText(query, style) + rest);
            var r := VarText(s, dataIdx, name);
            match FirstPair(query, name)
            case Some(p) => r.Some? && Decode(r.value) == p.value
            case None => r == if dataIdx > 0 then VarLookup(s[dataIdx..], name) else None
  {
    QueryBehindTarget(target, QueryText(query, style) + rest);
    LookupInQuery(query, style, name, rest);
  }

  /** Round trip through the data: a name the request line does not have is looked up in
      the body, wherever that starts. */
  lemma BodyRoundTrip(top: string, body: seq<Pair>, end: string, style: Style, name: string)
    requires style.Valid() && Sendable(body) && IsName(name) && top != ""
    requires At(end, 0) in {'\0', ' ', '\t', '\r', '\n'}
    requires VarText(top + (QueryText(body, style) + end), 0, name).None?
    ensures var r := VarText(top + (QueryText(body, style) + end), |top|, name);
            match FirstPair(body, name)
            case Some(p) => r.Some? && Decode(r.value) == p.value
            case None => r.None?
  {
    var data := QueryText(body, style) + end;
    assert (top + data)[|top|..] == data;
    LookupInQuery(body, style, name, end);
  }

  /** A request line with no query gives every name to the data. */
  lemma NoQueryNoVar(target: string, rest: string, name: string)
    requires IsTarget(target) && At(rest, 0) == '\r'
    ensures VarText(target + rest, 0, name) == None
  {
    NoQuery(target, rest);
  }
}
