/** The C string layer of sandbird: a pointer into a terminated string is the text
    that lies behind it, so advancing a pointer is taking a suffix. */
module CText {

  /** The character `n` places behind a pointer; behind the text lies the terminator. */
  function At(s: string, n: nat): char {
    if n < |s| then s[n] else '\0'
  }

  function ToLower(c: char): char {
    if 'A' <= c <= 'Z' then (c as int + 32) as char else c
  }

  /** strcspn: the distance to the first character of `stop`, or to the terminator. */
  function Cspn(s: string, stop: set<char>): (n: nat)
    ensures n <= |s|
    ensures forall i :: 0 <= i < n ==> s[i] != '\0' && s[i] !in stop
    ensures n < |s| ==> s[n] == '\0' || s[n] in stop
  {
    if s == "" || s[0] == '\0' || s[0] in stop then 0 else 1 + Cspn(s[1..], stop)
  }

  /** strcspn is the only such distance. */
  lemma CspnIs(s: string, stop: set<char>, n: nat)
    requires n <= |s|
    requires forall i :: 0 <= i < n ==> s[i] != '\0' && s[i] !in stop
    requires n < |s| ==> s[n] == '\0' || s[n] in stop
    ensures Cspn(s, stop) == n
  {
  }

  /** The text up to the first carriage return or terminator. */
  function LineOf(s: string): (line: string)
    ensures |line| == Cspn(s, {'\r'})
  {
    s[..Cspn(s, {'\r'})]
  }

  predicate IsSpace(c: char) {
    c in {' ', '\t', '\n', '\U{000B}', '\U{000C}', '\r'}
  }

  predicate IsBlank(c: char) {
    c == ' ' || c == '\t'
  }

  /** strspn over blanks. */
  function Blanks(s: string): (n: nat)
    ensures n <= |s|
    ensures forall i :: 0 <= i < n ==> IsBlank(s[i])
    ensures n < |s| ==> !IsBlank(s[n])
  {
    if s != "" && IsBlank(s[0]) then 1 + Blanks(s[1..]) else 0
  }

  function SkipBlanks(s: string): string {
    s[Blanks(s)..]
  }

  function DropBlanksAtEnd(s: string): (r: string)
    ensures r <= s
    ensures r == "" || !IsBlank(r[|r| - 1])
    ensures forall i :: |r| <= i < |s| ==> IsBlank(s[i])
  {
    if s != "" && IsBlank(s[|s| - 1]) then DropBlanksAtEnd(s[..|s| - 1]) else s
  }

  /** mem_case_equal at pointer `s`, which stops at the first difference. */
  predicate StartsNoCase(s: string, t: string) {
    |t| <= |s| && forall i :: 0 <= i < |t| ==> ToLower(s[i]) == ToLower(t[i])
  }

  method MemCaseEqual(s: string, t: string) returns (equal: bool)
    requires '\0' !in t
    ensures equal == StartsNoCase(s, t)
  {
    var k := 0;
    while k < |t|
      invariant k <= |t| && k <= |s|
      invariant forall i :: 0 <= i < k ==> ToLower(s[i]) == ToLower(t[i])
    {
      if ToLower(At(s, k)) != ToLower(t[k]) {
        return false;
      }
      k := k + 1;
    }
    equal := true;
  }

  /** Text that can stand in a header line: no carriage return, no terminator. */
  ghost predicate Clean(s: string) {
    forall i :: 0 <= i < |s| ==> s[i] != '\r' && s[i] != '\0'
  }
}
