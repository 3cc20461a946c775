/** The growable buffer of sandbird. Which realloc sizes are granted is an input: the
    sizes one call asks for grow strictly until it fails, so a predicate on sizes stands
    for every pattern of failures. */
module Buffers {
  import opened Basics

  /** A buffer's contents and capacity. */
  datatype Buf = Buf(bytes: string, cap: nat) {
    ghost predicate Valid() { |bytes| <= cap }
  }

  const EMPTY := Buf("", 0)

  function Reserved(b: Buf, n: nat, grant: Grant): (Buf, bool) {
    if b.cap >= n then (b, true) else if grant(n) then (b.(cap := n), true) else (b, false)
  }

  /** (cap << 1) | (!cap) */
  function NextCap(cap: nat): nat {
    if cap == 0 then 1 else 2 * cap
  }

  function PushedChar(b: Buf, c: char, grant: Grant): (r: (Buf, bool))
    requires b.Valid()
    ensures r.0.Valid()
    ensures r.1 ==> r.0.bytes == b.bytes + [c]
    ensures !r.1 ==> r.0 == b
  {
    var (room, ok) := if |b.bytes| == b.cap then Reserved(b, NextCap(b.cap), grant) else (b, true);
    if ok then (room.(bytes := b.bytes + [c]), true) else (b, false)
  }

  /** Character by character, with what was pushed before a failure still in place. */
  function PushedPart(b: Buf, s: string, grant: Grant): (r: (Buf, bool))
    requires b.Valid()
    ensures r.0.Valid() && r.0.cap >= b.cap
    ensures b.bytes <= r.0.bytes
    ensures r.1 ==> r.0.bytes == b.bytes + s
    decreases |s|
  {
    if s == "" then (b, true)
    else
      var (next, ok) := PushedChar(b, s[0], grant);
      if ok then PushedPart(next, s[1..], grant) else (next, false)
  }

  /** All of the text or none of it; a failed push may leave a larger capacity. */
  function PushedStr(b: Buf, s: string, grant: Grant): (r: (Buf, bool))
    requires b.Valid()
    ensures r.0.Valid()
    ensures r.0.bytes == if r.1 then b.bytes + s else b.bytes
  {
    var (next, ok) := PushedPart(b, s, grant);
    if ok then (next, true) else (Buf(b.bytes, next.cap), false)
  }

  /** A terminator behind the contents that is not counted among them. */
  function Terminated(b: Buf, grant: Grant): (r: (Buf, bool))
    requires b.Valid()
    ensures r.0.Valid() && r.0.bytes == b.bytes
    ensures r.1 ==> |r.0.bytes| < r.0.cap
  {
    var (next, ok) := PushedChar(b, '\0', grant);
    (next.(bytes := b.bytes), ok)
  }

  // ---- when a push succeeds ----

  /** The capacities asked for on the way to `need` bytes. */
  function Doublings(cap: nat, need: nat): seq<nat>
    decreases need - cap
  {
    if cap >= need then [] else [NextCap(cap)] + Doublings(NextCap(cap), need)
  }

  /** A push fails exactly when one of the doublings it needs is refused, and a buffer
      that had to grow is less than twice as large as its contents. */
  lemma {:induction false} PushSucceedsIff(b: Buf, s: string, grant: Grant)
    requires b.Valid()
    ensures var sizes := Doublings(b.cap, |b.bytes| + |s|);
            PushedPart(b, s, grant).1 <==> forall n <- sizes :: grant(n)
    ensures var r := PushedPart(b, s, grant);
            r.1 ==> r.0.cap == b.cap || r.0.cap < 2 * |r.0.bytes| || r.0.cap == 1
    decreases |s|
  {
    var sizes := Doublings(b.cap, |b.bytes| + |s|);
    if s != "" {
      var (next, ok) := PushedChar(b, s[0], grant);
      if |b.bytes| == b.cap {
        var rest := Doublings(NextCap(b.cap), |b.bytes| + |s|);
        assert sizes == [NextCap(b.cap)] + rest;
        assert forall n :: n in sizes <==> n == NextCap(b.cap) || n in rest;
      }
      if ok {
        PushSucceedsIff(next, s[1..], grant);
      }
    }
  }

  ghost predicate Grants(grant: Grant, sizes: seq<nat>) {
    forall n <- sizes :: grant(n)
  }

  /** The capacity behind those doublings. */
  function CapFor(cap: nat, need: nat): (r: nat)
    ensures r >= need && r >= cap && (cap >= need ==> r == cap)
    decreases need - cap
  {
    if cap >= need then cap else CapFor(NextCap(cap), need)
  }

  lemma {:induction false} GrantedPush(b: Buf, s: string, grant: Grant)
    requires b.Valid() && Grants(grant, Doublings(b.cap, |b.bytes| + |s|))
    ensures PushedPart(b, s, grant) == (Buf(b.bytes + s, CapFor(b.cap, |b.bytes| + |s|)), true)
    decreases |s|
  {
    if s == "" {
      assert b.bytes + s == b.bytes;
    } else {
      var next := PushedChar(b, s[0], grant).0;
      var sizes := Doublings(b.cap, |b.bytes| + |s|);
      if |b.bytes| == b.cap { assert sizes == [NextCap(b.cap)] + sizes[1..] && NextCap(b.cap) in sizes; }
      GrantedPush(next, s[1..], grant);
      assert b.bytes + [s[0]] + s[1..] == b.bytes + s;
    }
  }

  /** A text is pushed with its whole length's doublings, or not at all. */
  lemma PushedStrIs(b: Buf, s: string, grant: Grant)
    requires b.Valid()
    ensures var need := |b.bytes| + |s|;
            var r := PushedStr(b, s, grant);
            && (r.1 <==> Grants(grant, Doublings(b.cap, need)))
            && (r.1 ==> r.0 == Buf(b.bytes + s, CapFor(b.cap, need)))
  {
    PushSucceedsIff(b, s, grant);
    if Grants(grant, Doublings(b.cap, |b.bytes| + |s|)) { GrantedPush(b, s, grant); }
  }

  /** Growing in two steps asks for the same sizes as growing in one. */
  lemma {:induction false} DoublingsInSteps(cap: nat, first: nat, need: nat, grant: Grant)
    requires first <= need
    ensures Grants(grant, Doublings(cap, need)) <==>
            Grants(grant, Doublings(cap, first)) && Grants(grant, Doublings(CapFor(cap, first), need))
    ensures CapFor(CapFor(cap, first), need) == CapFor(cap, need)
    decreases first - cap
  {
    if cap < first {
      DoublingsInSteps(NextCap(cap), first, need, grant);
      FirstDoubling(cap, first, grant);
      FirstDoubling(cap, need, grant);
    } else {
      assert Doublings(cap, first) == [];
    }
  }

  lemma FirstDoubling(cap: nat, need: nat, grant: Grant)
    requires cap < need
    ensures Grants(grant, Doublings(cap, need)) <==> grant(NextCap(cap)) && Grants(grant, Doublings(NextCap(cap), need))
  {
    var rest := Doublings(NextCap(cap), need);
    assert Doublings(cap, need) == [NextCap(cap)] + rest;
    assert forall n :: n in Doublings(cap, need) <==> n == NextCap(cap) || n in rest;
  }

  // ---- in place ----

  class Buffer {
    var s: array<char>
    var len: nat

    ghost predicate Valid()
      reads this
    {
      len <= s.Length
    }

    /** cap is the length of the allocated block. */
    ghost function Value(): (b: Buf)
      reads this, s
      requires Valid()
      ensures b.Valid()
    {
      Buf(s[..len], s.Length)
    }

    constructor ()
      ensures Valid() && fresh(s) && Value() == EMPTY
    {
      s, len := new char[0], 0;
    }

    method Shift(n: nat)
      requires Valid() && n <= len
      modifies this, s
      ensures Valid() && s == old(s)
      ensures Value() == Buf(old(Value().bytes)[n..], old(Value().cap))
    {
      ghost var was := s[..len];
      len := len - n;
      var i := 0;
      while i < len
        invariant i <= len == old(len) - n && s == old(s)
        invariant forall j :: 0 <= j < i ==> s[j] == was[j + n]
        invariant forall j :: i <= j < old(len) ==> s[j] == was[j]
      {
        s[i] := s[i + n];
        i := i + 1;
      }
      assert s[..len] == was[n..];
    }

    method Reserve(n: nat, grant: Grant) returns (ok: bool)
      requires Valid()
      modifies this
      ensures Valid() && (s == old(s) || fresh(s))
      ensures (Value(), ok) == Reserved(old(Value()), n, grant)
    {
      if s.Length >= n { return true; }
      if !grant(n) { return false; }
      var p := new char[n];
      forall i | 0 <= i < len { p[i] := s[i]; }
      s := p;
      assert s[..len] == old(s[..len]);
      return true;
    }

    method PushChar(c: char, grant: Grant) returns (ok: bool)
      requires Valid()
      modifies this, s
      ensures Valid() && (s == old(s) || fresh(s))
      ensures (Value(), ok) == PushedChar(old(Value()), c, grant)
    {
      ghost var before := Value();
      if len == s.Length {
        ok := Reserve(NextCap(s.Length), grant);
        if !ok { return; }
      }
      assert Value().bytes == before.bytes;
      s[len] := c;
      len := len + 1;
      assert s[..len] == before.bytes + [c];
      ok := true;
    }

    method PushStr(p: string, grant: Grant) returns (ok: bool)
      requires Valid()
      modifies this, s
      ensures Valid() && (s == old(s) || fresh(s))
      ensures (Value(), ok) == PushedStr(old(Value()), p, grant)
    {
      ghost var before := Value();
      var original := len;
      var i := 0;
      while i < |p|
        invariant i <= |p| && Valid() && (s == old(s) || fresh(s))
        invariant before.bytes <= Value().bytes
        invariant PushedPart(before, p, grant) == PushedPart(Value(), p[i..], grant)
      {
        ghost var b := Value();
        ok := PushChar(p[i], grant);
        assert PushedPart(b, p[i..], grant) ==
               if ok then PushedPart(Value(), p[i..][1..], grant) else (Value(), false);
        if !ok {
          len := original;
          assert s[..len] == before.bytes;
          return false;
        }
        assert p[i..][1..] == p[i + 1..];
        i := i + 1;
      }
      return true;
    }

    method NullTerminate(grant: Grant) returns (ok: bool)
      requires Valid()
      modifies this, s
      ensures Valid() && (s == old(s) || fresh(s))
      ensures (Value(), ok) == Terminated(old(Value()), grant)
      ensures ok ==> len < s.Length && s[len] == '\0'
    {
      ghost var before := Value();
      ok := PushChar('\0', grant);
      if !ok { return; }
      assert s[len - 1] == Value().bytes[len - 1];
      len := len - 1;
      assert s[..len] == (before.bytes + "\0")[..len];
    }

    /** fread into the block: the first `k` bytes become the contents. */
    method Fill(data: string)
      requires Valid() && |data| <= s.Length
      modifies this, s
      ensures Valid() && s == old(s)
      ensures Value() == Buf(data, old(Value().cap))
    {
      forall i | 0 <= i < |data| { s[i] := data[i]; }
      len := |data|;
      assert s[..len] == data;
    }
  }
}
