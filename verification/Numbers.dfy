/** Decimal numbers as the C library reads and prints them. */
module Numbers {
  import opened Basics
  import opened CText

  predicate IsDigit(c: char) {
    '0' <= c <= '9'
  }

  /** The value of the digits at the pointer, read on from `acc`. */
  function ReadDigits(s: string, acc: nat): nat {
    if IsDigit(At(s, 0)) then ReadDigits(s[1..], acc * 10 + (s[0] as int - '0' as int)) else acc
  }

  function SkipSpace(s: string): (r: string)
    ensures |r| <= |s|
  {
    if s != "" && IsSpace(s[0]) then SkipSpace(s[1..]) else s
  }

  /** What strtoul makes of a sign and digits: saturated, or negated modulo 2^64. */
  function ToUlong(negative: bool, digits: nat): nat {
    if digits >= SIZE_RANGE then SIZE_RANGE - 1
    else if negative then (SIZE_RANGE - digits) % SIZE_RANGE
    else digits
  }

  /** str_to_uint: sscanf with "%u", the low 32 bits of the number, 0 if there is none. */
  function StrToUint(s: string): (n: nat)
    ensures n < UINT_RANGE
  {
    var t := SkipSpace(s);
    var signed := At(t, 0) == '-' || At(t, 0) == '+';
    var digits := if signed then t[1..] else t;
    if !IsDigit(At(digits, 0)) then 0
    else ToUlong(At(t, 0) == '-', ReadDigits(digits, 0)) % UINT_RANGE
  }

  function Digit(d: nat): char
    requires d < 10
  {
    ('0' as int + d) as char
  }

  /** "%u" of a number below 2^32, "%d" of one that is not negative. */
  function Decimal(n: nat): (s: string)
    ensures s != "" && forall i :: 0 <= i < |s| ==> IsDigit(s[i])
  {
    if n < 10 then [Digit(n)] else Decimal(n / 10) + [Digit(n % 10)]
  }

  function SignedDecimal(n: int): (s: string)
    ensures s != "" && Clean(s)
  {
    if n < 0 then "-" + Decimal(-n) else Decimal(n)
  }

  lemma {:induction false} ReadDecimal(n: nat, rest: string)
    ensures ReadDigits(Decimal(n) + rest, 0) == ReadDigits(rest, n)
  {
    if n < 10 {
      assert (Decimal(n) + rest)[1..] == rest;
    } else {
      var tail := [Digit(n % 10)] + rest;
      assert Decimal(n) + rest == Decimal(n / 10) + tail;
      ReadDecimal(n / 10, tail);
      assert tail[1..] == rest;
    }
  }

  /** A printed number is read back, unless a digit follows it; of a larger number only
      the low 32 bits. */
  lemma UintRoundTrip(n: nat, rest: string)
    requires !IsDigit(At(rest, 0))
    requires n < SIZE_RANGE
    ensures StrToUint(Decimal(n) + rest) == n % UINT_RANGE
  {
    var s := Decimal(n) + rest;
    assert IsDigit(s[0]);
    assert SkipSpace(s) == s;
    ReadDecimal(n, rest);
  }
}
