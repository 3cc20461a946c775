/** What several modules share: optional values, bytes, the widths of C integers, and
    memory that may or may not be granted. */
module Basics {

  datatype Option<+T> = None | Some(value: T)

  type byte = b: int | 0 <= b < 256
  type Bytes = seq<byte>

  /** The ranges of unsigned int and uint32_t, and of size_t and unsigned long. */
  const UINT_RANGE: nat := 0x1_0000_0000
  const SIZE_RANGE: nat := 0x1_0000_0000_0000_0000

  /** Which sizes an allocation gets. */
  type Grant = nat -> bool

  function Min(a: nat, b: nat): nat {
    if a < b then a else b
  }

  function Flat<T>(chunks: seq<seq<T>>): seq<T> {
    if chunks == [] then [] else chunks[0] + Flat(chunks[1..])
  }
}
