/** The response body of the HTTP client: a block that grows by doubling, in the wrapping
    arithmetic of size_t. */
module HttpBody {
  import opened Basics

  type size = n: nat | n < SIZE_RANGE

  // ---- the growth rule ----

  /** x << 1 in a size_t. */
  function Shifted(x: size): size {
    2 * x % SIZE_RANGE
  }

  /** The first of n, 2n, 4n, ... above the limit, among all numbers. */
  function Above(n: nat, limit: nat): (r: nat)
    requires n > 0
    ensures r > limit && r >= n
    decreases if n > limit then 0 else limit + 1 - n
  {
    if n > limit then n else Above(2 * n, limit)
  }

  function FirstTry(sz: nat): (n: nat)
    ensures n > 0 && n >= 2 * sz
  {
    if sz > 0 then 2 * sz else 512
  }

  /** Does the doubling stay inside a size_t? */
  predicate Doubles(sz: size, length: size) {
    Above(FirstTry(sz), sz + length) < SIZE_RANGE
  }

  /** The new capacity: the doubling above sz + length, or that sum itself when the
      doubling would overflow. */
  function Grown(sz: size, length: size): (n: nat)
    ensures n >= sz + length
    ensures Doubles(sz, length) ==> n > sz + length && n >= 2 * sz
  {
    if Doubles(sz, length) then Above(FirstTry(sz), sz + length) else sz + length
  }

  /** A number doubled some times. */
  function Doubled(n: nat, times: nat): nat {
    if times == 0 then n else 2 * Doubled(n, times - 1)
  }

  /** The doubling is the first one above the limit. */
  lemma {:induction false} AboveIsFirst(n: nat, limit: nat) returns (times: nat)
    requires n > 0
    ensures Above(n, limit) == Doubled(n, times) > limit
    ensures times > 0 ==> Doubled(n, times - 1) <= limit
    decreases if n > limit then 0 else limit + 1 - n
  {
    times := 0;
    if n <= limit {
      var fewer := AboveIsFirst(2 * n, limit);
      DoubledFirst(n, fewer);
      if fewer > 0 { DoubledFirst(n, fewer - 1); }
      times := fewer + 1;
    }
  }

  lemma {:induction false} DoubledFirst(n: nat, times: nat)
    ensures Doubled(2 * n, times) == Doubled(n, times + 1)
  {
    if times > 0 {
      DoubledFirst(n, times - 1);
    }
  }

  /** A doubling that wraps is no larger than what it doubles, and only then. */
  lemma WrapIsCaught(x: size)
    ensures Shifted(x) == 2 * x <==> 2 * x < SIZE_RANGE
    ensures x > 0 ==> (Shifted(x) > x <==> 2 * x < SIZE_RANGE)
  {
  }

  lemma AboveGrows(n: nat, limit: nat)
    requires 0 < n <= limit
    ensures Above(n, limit) == Above(2 * n, limit)
  {
  }

  /** The doubling search of the write callback. */
  method Search(sz: size, length: size) returns (newSz: size)
    requires sz + length < SIZE_RANGE
    ensures newSz == Grown(sz, length)
  {
    var limit: size := sz + length;
    var lastTry: size := sz;
    newSz := if sz > 0 then Shifted(sz) else 512;
    WrapIsCaught(sz);
    ghost var ideal := FirstTry(sz);
    while newSz > lastTry && newSz <= limit
      invariant ideal > lastTry && Above(FirstTry(sz), limit) == Above(ideal, limit)
      invariant newSz > lastTry <==> ideal < SIZE_RANGE
      invariant newSz > lastTry ==> newSz == ideal
      decreases if newSz > lastTry then SIZE_RANGE - newSz else 0
    {
      AboveGrows(ideal, limit);
      WrapIsCaught(newSz);
      lastTry := newSz;
      newSz := Shifted(newSz);
      ideal := 2 * ideal;
    }
    if newSz <= lastTry {
      newSz := limit;
    }
  }

  // ---- the body ----

  /** The body's bytes, its capacity (zero without a block), the total of the capacities
      that were given up for larger ones since the last move, and whether a doubling has
      overflowed since then. */
  datatype BodyValue = BodyValue(bytes: Bytes, sz: nat, given: nat, overflowed: bool) {
    ghost predicate Valid() {
      |bytes| <= sz < SIZE_RANGE && (!overflowed ==> given <= sz)
    }
  }

  const NO_BODY := BodyValue([], 0, 0, false)

  /** A chunk is refused when the sum of capacity and length wraps or there is no memory,
      and only when it needs more room. */
  predicate Takes(v: BodyValue, chunk: Bytes, grant: Grant)
    requires v.Valid() && |chunk| < SIZE_RANGE
  {
    |chunk| <= v.sz - |v.bytes| || (v.sz + |chunk| < SIZE_RANGE && grant(Grown(v.sz, |chunk|)))
  }

  function AfterChunk(v: BodyValue, chunk: Bytes, grant: Grant): (u: BodyValue)
    requires v.Valid() && |chunk| < SIZE_RANGE
    ensures u.Valid()
  {
    if !Takes(v, chunk, grant) then v.(bytes := [])
    else if |chunk| <= v.sz - |v.bytes| then v.(bytes := v.bytes + chunk)
    else BodyValue(v.bytes + chunk, Grown(v.sz, |chunk|), v.given + v.sz, v.overflowed || !Doubles(v.sz, |chunk|))
  }

  /** What a move hands out: the bytes, and how much of the block is behind them; without a
      place for the length an empty body cannot be moved, the null pointer is written through. */
  datatype MoveResult = Moved(data: Bytes, room: nat) | Nothing | NullWrite

  class Body {
    var data: array?<byte>
    var used: nat
    var sz: nat
    ghost var given: nat
    ghost var overflowed: bool

    ghost predicate Valid()
      reads this, data
    {
      && used <= sz < SIZE_RANGE
      && (data == null ==> sz == 0) && (data != null ==> data.Length == sz)
      && (!overflowed ==> given <= sz)
    }

    ghost function Value(): (v: BodyValue)
      reads this, data
      requires Valid()
      ensures v.Valid()
    {
      BodyValue(if data == null then [] else data[..used], sz, given, overflowed)
    }

    constructor ()
      ensures Valid() && Value() == NO_BODY
    {
      data, used, sz, given, overflowed := null, 0, 0, 0, false;
    }

    /** http_response_body_write_callback. */
    method Write(chunk: Bytes, grant: Grant) returns (taken: nat)
      requires Valid() && |chunk| < SIZE_RANGE
      modifies this, data
      ensures Valid() && Value() == AfterChunk(old(Value()), chunk, grant)
      ensures taken == if || |chunk| <= old(sz) - old(used)
                          || (old(sz) + |chunk| < SIZE_RANGE && grant(Grown(old(sz), |chunk|)))
                       then |chunk| else 0
      ensures taken == |chunk| > 0 ==> used == old(used) + |chunk|
      ensures taken < |chunk| ==> used == 0 && sz == old(sz)
      ensures !Takes(old(Value()), chunk, grant) ==>
                data == old(data) && (data != null ==> data[..] == old(if data == null then [] else data[..]))
    {
      hide Grown, Doubles;
      var length: size := |chunk|;
      if sz - used < length {
        if sz + length >= SIZE_RANGE {
          assert (sz + length) % SIZE_RANGE < sz;
          used := 0;
          return 0;
        }
        var newSz := Search(sz, length);
        if !grant(newSz) {
          used := 0;
          return 0;
        }
        Replace(newSz, sz + length);
      }
      Append(chunk);
      return length;
    }

    /** realloc: a larger block with the old bytes in front. */
    method Replace(newSz: size, limit: nat)
      requires Valid() && sz <= limit <= newSz && newSz == Grown(sz, limit - sz)
      modifies this
      ensures Valid() && data != null && fresh(data) && used == old(used)
      ensures Value() == BodyValue(old(Value().bytes), newSz, old(given) + old(sz),
                                   old(overflowed) || !Doubles(old(sz), limit - old(sz)))
    {
      hide Above;
      var block := new byte[newSz](_ => 0);
      if data != null {
        forall i | 0 <= i < used { block[i] := data[i]; }
        assert block[..used] == data[..used];
      }
      given, overflowed := given + sz, overflowed || !Doubles(sz, limit - sz);
      data, sz := block, newSz;
    }

    method Append(chunk: Bytes)
      requires Valid() && |chunk| <= sz - used
      modifies this, data
      ensures Valid() && Value() == old(Value()).(bytes := old(Value()).bytes + chunk)
    {
      if data != null {
        ghost var before := data[..used];
        forall i | 0 <= i < |chunk| { data[used + i] := chunk[i]; }
        used := used + |chunk|;
        assert data[..used] == before + chunk;
      }
    }

    /** The body's part of http_client_reset. */
    method Reset()
      requires Valid()
      modifies this
      ensures Valid() && Value() == old(Value()).(bytes := [])
    {
      used := 0;
    }

    /** http_client_get_response_body. */
    method Get() returns (r: Option<Bytes>)
      requires Valid()
      ensures r == if Value().bytes == [] then None else Some(Value().bytes)
    {
      r := if used > 0 && data != null then Some(data[..used]) else None;
    }

    /** http_client_move_response_body. */
    method Move(haveLength: bool) returns (r: MoveResult)
      requires Valid()
      modifies this
      ensures Valid()
      ensures r.Moved? ==> old(Value().bytes) != [] && r.data == old(Value().bytes)
                            && |r.data| + r.room == old(Value().sz) && Value() == NO_BODY
      ensures !r.Moved? ==> old(Value().bytes) == [] && Value() == old(Value()) && (r == NullWrite <==> !haveLength)
    {
      if used == 0 { return if haveLength then Nothing else NullWrite; }
      r := Moved(data[..used], sz - used);
      data, used, sz := null, 0, 0;
      given, overflowed := 0, false;
    }
  }

  // ---- runs ----

  datatype Event = Chunk(chunk: Bytes, grant: Grant) | Reset | Move

  ghost predicate Fits(e: Event) {
    e.Chunk? ==> |e.chunk| < SIZE_RANGE
  }

  function After(v: BodyValue, e: Event): (u: BodyValue)
    requires v.Valid() && Fits(e)
    ensures u.Valid()
  {
    match e
    case Chunk(chunk, grant) => AfterChunk(v, chunk, grant)
    case Reset => v.(bytes := [])
    case Move => if v.bytes == [] then v else NO_BODY
  }

  function Run(v: BodyValue, events: seq<Event>): (u: BodyValue)
    requires v.Valid() && forall k :: 0 <= k < |events| ==> Fits(events[k])
    ensures u.Valid()
    decreases |events|
  {
    if events == [] then v else Run(After(v, events[0]), events[1..])
  }

  ghost predicate AllTaken(v: BodyValue, events: seq<Event>)
    requires v.Valid() && forall k :: 0 <= k < |events| ==> Fits(events[k])
    decreases |events|
  {
    if events == [] then true
    else
      var e := events[0];
      assert Fits(e);
      (e.Chunk? ==> Takes(v, e.chunk, e.grant)) && AllTaken(After(v, e), events[1..])
  }

  /** The chunks since the last reset or move, in front of them what there was before. */
  function Collected(start: Bytes, events: seq<Event>): Bytes
    decreases |events|
  {
    if events == [] then start
    else Collected(if events[0].Chunk? then start + events[0].chunk else [], events[1..])
  }

  /** Over any run in which every chunk is taken, the body is the concatenation of the
      chunks since the last reset or move. Its capacity is never less than its length,
      and unless a doubling overflowed, all the blocks given up on the way to the present
      one were together no larger than it. */
  lemma {:induction false} BodyIsCollected(v: BodyValue, events: seq<Event>)
    requires v.Valid() && (forall k :: 0 <= k < |events| ==> Fits(events[k])) && AllTaken(v, events)
    ensures var u := Run(v, events);
            u.bytes == Collected(v.bytes, events) && |u.bytes| <= u.sz && (!u.overflowed ==> u.given <= u.sz)
    decreases |events|
  {
    hide Grown, Doubles;
    if events != [] {
      BodyIsCollected(After(v, events[0]), events[1..]);
    }
  }

  /** No chunk makes the sum of capacity and length wrap when it comes. */
  ghost predicate InRange(v: BodyValue, events: seq<Event>)
    requires v.Valid() && forall k :: 0 <= k < |events| ==> Fits(events[k])
    decreases |events|
  {
    events == [] ||
    (assert Fits(events[0]);
     (events[0].Chunk? ==> v.sz + |events[0].chunk| < SIZE_RANGE) && InRange(After(v, events[0]), events[1..]))
  }

  /** With memory granted and no sum that wraps, every chunk is taken, and the body is what
      arrived since the last reset or move. */
  lemma {:induction false} GrantedIsCollected(v: BodyValue, events: seq<Event>)
    requires v.Valid() && (forall k :: 0 <= k < |events| ==> Fits(events[k])) && InRange(v, events)
    requires forall k :: 0 <= k < |events| ==> events[k].Chunk? ==> forall n :: events[k].grant(n)
    ensures AllTaken(v, events) && Run(v, events).bytes == Collected(v.bytes, events)
    decreases |events|
  {
    hide Grown, Doubles;
    if events != [] {
      assert Fits(events[0]);
      GrantedIsCollected(After(v, events[0]), events[1..]);
    }
  }

  /** A body fills its block, with no byte left behind it for a terminator, exactly after a
      chunk of just the room there was, or one for which a full block could not be doubled. */
  lemma FillsBlockIff(v: BodyValue, chunk: Bytes, grant: Grant)
    requires v.Valid() && |chunk| < SIZE_RANGE && chunk != [] && Takes(v, chunk, grant)
    ensures var u := AfterChunk(v, chunk, grant);
            |u.bytes| == u.sz <==>
              || |chunk| == v.sz - |v.bytes|
              || (|v.bytes| == v.sz && !Doubles(v.sz, |chunk|))
  {
    hide Above;
  }

  /** Two chunks of 256 bytes leave a full block of 512. */
  lemma FullBlock(grant: Grant)
    requires grant(512)
    ensures var chunk := Chunk(seq(256, _ => 0), grant);
            var u := Run(NO_BODY, [chunk, chunk]);
            |u.bytes| == u.sz == 512
  {
    var data: Bytes := seq(256, _ => 0);
    var chunk := Chunk(data, grant);
    assert Above(512, 256) == 512;
    assert Grown(0, 256) == 512;
    var v := AfterChunk(NO_BODY, data, grant);
    assert v.bytes == data && v.sz == 512;
    var u := AfterChunk(v, data, grant);
    assert u.bytes == data + data && u.sz == 512;
    assert [chunk, chunk][1..] == [chunk] && [chunk][1..] == [];
    assert Run(NO_BODY, [chunk, chunk]) == Run(v, [chunk]) == Run(u, []);
  }
}
