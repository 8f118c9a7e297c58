/** Byte strings, and the two result types the models share. */
module ByteStrings {

  type Byte = b: int | 0 <= b < 256
  type Bytes = seq<Byte>

  datatype Option<+T> = None | Some(value: T)

  /** The largest value of an unsigned 64-bit integer, plus one. */
  const TWO_64: int := 0x1_0000_0000_0000_0000
  const TWO_63: int := 0x8000_0000_0000_0000

  type UInt64 = n: int | 0 <= n < TWO_64
  type Int64 = n: int | -TWO_63 <= n < TWO_63

  lemma Assoc<T>(a: seq<T>, b: seq<T>, c: seq<T>)
    ensures a + b + c == a + (b + c)
  {}
}
