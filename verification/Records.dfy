/** The record format of a key's file: a 32-bit length in network byte order and that
    many bytes, one record after another; and the reader of get_values. */
module Records {
  import opened Basics

  const MAX_VALUE: nat := 32768
  const WORD: nat := 4

  // ---- words in memory ----

  /** The bytes of a word, most significant first. */
  function BigEndian(w: nat): (b: Bytes)
    requires w < UINT_RANGE
    ensures |b| == WORD
  {
    [w / 0x100_0000, w / 0x1_0000 % 256, w / 0x100 % 256, w % 256]
  }

  function Joined(a: nat, b: nat, c: nat, d: nat): nat {
    a * 0x100_0000 + b * 0x1_0000 + c * 0x100 + d
  }

  function FromBigEndian(b: Bytes): (w: nat)
    requires |b| == WORD
    ensures w < UINT_RANGE
  {
    Joined(b[0], b[1], b[2], b[3])
  }

  lemma WordRoundTrip(w: nat)
    requires w < UINT_RANGE
    ensures FromBigEndian(BigEndian(w)) == w
  {
    var a, b, c := w / 0x100_0000, w / 0x1_0000, w / 0x100;
    assert b == 256 * a + b % 256 by { assert b / 256 == a; }
    assert c == 256 * b + c % 256 by { assert c / 256 == b; }
    assert w == 256 * c + w % 256;
  }

  lemma LowByte(high: nat, low: nat)
    requires low < 256
    ensures (high * 0x100 + low) / 0x100 == high && (high * 0x100 + low) % 256 == low
  {
  }

  lemma JoinedParts(a: nat, b: nat, c: nat, d: nat)
    requires a < 256 && b < 256 && c < 256 && d < 256
    ensures var w := Joined(a, b, c, d);
            w < UINT_RANGE && w / 0x100_0000 == a && w / 0x1_0000 % 256 == b && w / 0x100 % 256 == c && w % 256 == d
  {
    var w := Joined(a, b, c, d);
    LowByte((a * 0x100 + b) * 0x100 + c, d);
    LowByte(a * 0x100 + b, c);
    LowByte(a, b);
    assert w / 0x1_0000 == w / 0x100 / 0x100 && w / 0x100_0000 == w / 0x1_0000 / 0x100;
  }

  lemma BytesRoundTrip(b: Bytes)
    requires |b| == WORD
    ensures BigEndian(FromBigEndian(b)) == b
  {
    hide Joined;
    JoinedParts(b[0], b[1], b[2], b[3]);
  }

  function Swapped(b: Bytes): Bytes
    requires |b| == WORD
  {
    [b[3], b[2], b[1], b[0]]
  }

  /** A word of memory as a processor of either byte order reads it. */
  function Load(b: Bytes, little: bool): (w: nat)
    requires |b| == WORD
    ensures w < UINT_RANGE
  {
    FromBigEndian(if little then Swapped(b) else b)
  }

  function Store(w: nat, little: bool): (b: Bytes)
    requires w < UINT_RANGE
    ensures |b| == WORD
  {
    if little then Swapped(BigEndian(w)) else BigEndian(w)
  }

  /** htonl and ntohl, the same exchange of bytes. */
  function SwapOrder(w: nat, little: bool): (r: nat)
    requires w < UINT_RANGE
    ensures r < UINT_RANGE
  {
    if little then FromBigEndian(Swapped(BigEndian(w))) else w
  }

  /** Whatever the byte order, reading through ntohl sees the network order, and storing
      through htonl writes it. */
  lemma NetworkOrder(b: Bytes, w: nat, little: bool)
    requires |b| == WORD && w < UINT_RANGE
    ensures SwapOrder(Load(b, little), little) == FromBigEndian(b)
    ensures Store(SwapOrder(w, little), little) == BigEndian(w)
    ensures Load(Store(w, little), little) == w
  {
    BytesRoundTrip(Swapped(b));
    BytesRoundTrip(Swapped(BigEndian(w)));
    WordRoundTrip(w);
    assert Swapped(Swapped(b)) == b;
  }

  // ---- records ----

  function Record(v: Bytes): Bytes
    requires |v| < UINT_RANGE
  {
    BigEndian(|v|) + v
  }

  ghost predicate Short(values: seq<Bytes>) {
    forall k :: 0 <= k < |values| ==> |values[k]| <= MAX_VALUE
  }

  function Encode(values: seq<Bytes>): Bytes
    requires Short(values)
  {
    if values == [] then [] else Record(values[0]) + Encode(values[1..])
  }

  /** What the reader takes for a complete file: records of at most the public length,
      the last one not empty. */
  ghost predicate WellFormed(values: seq<Bytes>) {
    Short(values) && (values != [] ==> values[|values| - 1] != [])
  }

  lemma {:induction false} EncodeConcat(a: seq<Bytes>, b: seq<Bytes>)
    requires Short(a) && Short(b)
    ensures Short(a + b) && Encode(a + b) == Encode(a) + Encode(b)
  {
    hide Record;
    if a == [] {
      assert a + b == b;
    } else {
      assert (a + b)[0] == a[0] && (a + b)[1..] == a[1..] + b;
      EncodeConcat(a[1..], b);
    }
  }

  /** A file's length is its values' and four bytes each. */
  lemma {:induction false} EncodedLength(values: seq<Bytes>)
    requires WellFormed(values) && values != []
    ensures |Encode(values)| > WORD
  {
    if |values| > 1 {
      EncodedLength(values[1..]);
    }
  }

  // ---- the reader ----

  /** The user's callback: shown the values so far and the next one, does it want more? */
  type Callback = seq<Bytes> -> bool

  datatype Scanned = Scanned(ok: bool, delivered: seq<Bytes>)

  /** The header at the front of the data, and what it leaves behind its record. */
  function LengthAt(data: Bytes): nat
    requires |data| > WORD
  {
    FromBigEndian(data[..WORD])
  }

  /** The tests on a record: its length, and a rest that is empty or can hold a header
      and a byte. */
  predicate Sound(data: Bytes)
    requires |data| > WORD
  {
    var n := LengthAt(data);
    n <= MAX_VALUE && (|data| == WORD + n || |data| > WORD + n + WORD)
  }

  function Value(data: Bytes): Bytes
    requires |data| > WORD && Sound(data)
  {
    data[WORD..WORD + LengthAt(data)]
  }

  function Rest(data: Bytes): Bytes
    requires |data| > WORD && Sound(data)
  {
    data[WORD + LengthAt(data)..]
  }

  function Scan(data: Bytes, wants: Callback, delivered: seq<Bytes>): Scanned
    requires |data| > WORD
    decreases |data|
  {
    if !Sound(data) then Scanned(false, delivered)
    else
      var seen := delivered + [Value(data)];
      if Rest(data) == [] || !wants(seen) then Scanned(true, seen) else Scan(Rest(data), wants, seen)
  }

  /** The loop of get_values, on the downloaded block. It turns each header to host order
      where it stands, and never touches a byte outside the block. */
  method Iterate(buf: array<byte>, little: bool, wants: Callback) returns (r: Scanned)
    requires buf.Length > WORD
    modifies buf
    ensures r == Scan(old(buf[..]), wants, [])
  {
    hide LengthAt, Scan;
    ghost var data := buf[..];
    var delivered, kv, dataLen := [], 0, buf.Length;
    assert data[0..] == data;
    while true
      invariant kv + dataLen == buf.Length && dataLen > WORD
      invariant buf[kv..] == data[kv..]
      invariant Scan(data, wants, []) == Scan(data[kv..], wants, delivered)
      decreases dataLen
    {
      ghost var here := data[kv..];
      ScanStep(here, wants, delivered);
      var valLen := ReadHeader(buf, kv, little);
      ghost var behind := buf[kv + WORD..];
      assert behind == here[WORD..];
      if valLen > MAX_VALUE { return Scanned(false, delivered); }
      var left := dataLen - (WORD + valLen);
      if left < 0 || 0 < left <= WORD { return Scanned(false, delivered); }
      var value := buf[kv + WORD..kv + WORD + valLen];
      assert value == behind[..valLen] == here[WORD..WORD + valLen];
      delivered := delivered + [value];
      if left == 0 || !wants(delivered) { return Scanned(true, delivered); }
      kv, dataLen := kv + WORD + valLen, left;
      assert buf[kv..] == behind[valLen..] == here[WORD + valLen..] == data[kv..];
    }
  }

  lemma ScanStep(data: Bytes, wants: Callback, delivered: seq<Bytes>)
    requires |data| > WORD
    ensures Scan(data, wants, delivered) ==
            var n := LengthAt(data);
            var left := |data| - (WORD + n);
            if n > MAX_VALUE || left < 0 || 0 < left <= WORD then Scanned(false, delivered)
            else
              var seen := delivered + [data[WORD..WORD + n]];
              if left == 0 || !wants(seen) then Scanned(true, seen) else Scan(data[WORD + n..], wants, seen)
  {
    hide LengthAt;
  }

  /** kv->val_len = ntohl(kv->val_len), and its value. */
  method ReadHeader(buf: array<byte>, kv: nat, little: bool) returns (valLen: nat)
    requires kv + WORD < buf.Length
    modifies buf
    ensures valLen == LengthAt(old(buf[kv..]))
    ensures buf[kv + WORD..] == old(buf[kv + WORD..])
  {
    var word := buf[kv..kv + WORD];
    assert word == buf[kv..][..WORD];
    NetworkOrder(word, 0, little);
    valLen := SwapOrder(Load(word, little), little);
    StoreWord(buf, kv, valLen, little);
  }

  method StoreWord(buf: array<byte>, at: nat, w: nat, little: bool)
    requires at + WORD <= buf.Length && w < UINT_RANGE
    modifies buf
    ensures buf[..] == old(buf[..at]) + Store(w, little) + old(buf[at + WORD..])
  {
    var b := Store(w, little);
    buf[at], buf[at + 1], buf[at + 2], buf[at + 3] := b[0], b[1], b[2], b[3];
    assert buf[at..at + WORD] == b;
    assert buf[..at] == old(buf[..at]) && buf[at + WORD..] == old(buf[at + WORD..]);
    assert buf[..] == buf[..at] + buf[at..at + WORD] + buf[at + WORD..];
  }

  // ---- the language of the reader ----

  /** The values a callback is shown, up to the first after which it wants no more. */
  function Until(values: seq<Bytes>, wants: Callback, delivered: seq<Bytes>): seq<Bytes> {
    if values == [] then delivered
    else
      var seen := delivered + [values[0]];
      if wants(seen) then Until(values[1..], wants, seen) else seen
  }

  lemma RecordInFront(v: Bytes, rest: Bytes)
    requires |v| <= MAX_VALUE && (if rest == [] then v != [] else |rest| > WORD)
    ensures var data := Record(v) + rest;
            |data| > WORD && Sound(data) && Value(data) == v && Rest(data) == rest
  {
    hide FromBigEndian, BigEndian;
    var data := Record(v) + rest;
    assert data == BigEndian(|v|) + (v + rest);
    assert data[..WORD] == BigEndian(|v|);
    WordRoundTrip(|v|);
    assert data[WORD..WORD + |v|] == v && data[WORD + |v|..] == rest;
  }

  /** Every well-formed file is read: the callback is shown its values in order, as long
      as it wants more. */
  lemma {:induction false} ScanEncoded(values: seq<Bytes>, wants: Callback, delivered: seq<Bytes>)
    requires WellFormed(values) && values != []
    ensures |Encode(values)| > WORD
    ensures Scan(Encode(values), wants, delivered) == Scanned(true, Until(values, wants, delivered))
    decreases |values|
  {
    hide Sound, Value, Rest, Record;
    var tail := values[1..];
    EncodedLength(values);
    if tail != [] {
      EncodedLength(tail);
      ScanEncoded(tail, wants, delivered + [values[0]]);
    }
    RecordInFront(values[0], Encode(tail));
    assert Encode(values) == Record(values[0]) + Encode(tail);
  }

  /** What any outcome of the reader says about the bytes: the values it delivered are
      the leading records, and it stopped because nothing is left, because the callback
      wants no more, or because what is left does not start with a sound record. */
  lemma {:induction false} ScanMeans(data: Bytes, wants: Callback, delivered: seq<Bytes>)
    returns (read: seq<Bytes>, rest: Bytes)
    requires |data| > WORD
    ensures var r := Scan(data, wants, delivered);
            && r.delivered == delivered + read && Short(read) && data == Encode(read) + rest
            && (r.ok && rest == [] ==> WellFormed(read) && read != [])
            && (r.ok && rest != [] ==> !wants(r.delivered))
            && (!r.ok ==> |rest| > WORD && !Sound(rest))
    decreases |data|
  {
    hide LengthAt;
    if !Sound(data) {
      return [], data;
    }
    var v := Value(data);
    SoundSplits(data);
    var seen := delivered + [v];
    assert Encode([v]) == Record(v) + Encode([]);
    if Rest(data) == [] || !wants(seen) {
      return [v], Rest(data);
    }
    var more, end := ScanMeans(Rest(data), wants, seen);
    EncodeConcat([v], more);
    return [v] + more, end;
  }

  lemma SoundSplits(data: Bytes)
    requires |data| > WORD && Sound(data)
    ensures |Value(data)| <= MAX_VALUE && data == Record(Value(data)) + Rest(data)
    ensures Rest(data) == [] ==> Value(data) != []
  {
    var n := LengthAt(data);
    BytesRoundTrip(data[..WORD]);
    assert data == data[..WORD] + data[WORD..WORD + n] + data[WORD + n..];
  }

  /** A file's bytes are accepted by a callback that wants everything exactly when they
      are an encoding of well-formed values, which then are the values delivered. */
  lemma AcceptsExactlyEncodings(data: Bytes)
    ensures (data == [] || (|data| > WORD && Scan(data, _ => true, []).ok))
            <==> exists values: seq<Bytes> :: WellFormed(values) && data == Encode(values)
    ensures forall values: seq<Bytes> :: WellFormed(values) && data == Encode(values) && |data| > WORD ==>
              Scan(data, _ => true, []) == Scanned(true, values)
  {
    hide Scan, Encode;
    var all: Callback := _ => true;
    if data == [] {
      assert WellFormed([]) && Encode([]) == data by { EmptyEncoding(); }
    } else if |data| > WORD && Scan(data, all, []).ok {
      var read, rest := ScanMeans(data, all, []);
      assert rest == [] && data == Encode(read);
    }
    forall values: seq<Bytes> | WellFormed(values) && data == Encode(values)
      ensures data == [] || (|data| > WORD && Scan(data, all, []) == Scanned(true, values))
    {
      if values == [] {
        EmptyEncoding();
      } else {
        ScanEncoded(values, all, []);
        UntilAll(values, []);
      }
    }
  }

  lemma EmptyEncoding()
    ensures Encode([]) == []
  {
  }

  lemma {:induction false} UntilAll(values: seq<Bytes>, delivered: seq<Bytes>)
    ensures Until(values, _ => true, delivered) == delivered + values
    decreases |values|
  {
    if values != [] {
      UntilAll(values[1..], delivered + [values[0]]);
    }
  }
}
