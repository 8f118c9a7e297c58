/**
 * The binary wire form of a document tree (src/Value.cpp, include/common/Value.h,
 * include/common/Serialize.hpp) as functions: the bytes that are written, and what is read
 * from the start of a byte string together with what is left of it.
 */
module WireFormat {
  import opened ByteStrings
  import opened FiFoMaps
  import opened Values

  const MAX_STRING_SIZE: int := 64 * 1024 * 1024
  const MAX_WIRE_DEPTH: int := 128

  const TAG_I64: nat := 1
  const TAG_U64: nat := 2
  const TAG_BOOL: nat := 3
  const TAG_DOUBLE: nat := 4
  const TAG_STRING: nat := 5
  const TAG_OBJECT: nat := 6
  const TAG_ARRAY: nat := 7
  const TAG_NULL: nat := 8

  type UInt16 = n: int | 0 <= n < 0x10000

  datatype ValueWire = ValueWire(tag: UInt16, payload: Bytes)

  // ---- Writing ----

  /** The lowest `k` bytes of `n`, most significant first. */
  function BigEndian(n: nat, k: nat): (bs: Bytes)
    ensures |bs| == k
  {
    if k == 0 then [] else BigEndian(n / 256, k - 1) + [n % 256]
  }

  /** A 64-bit integer as the unsigned one with the same bits. */
  function TwosComplement(i: Int64): UInt64 {
    if i < 0 then i + TWO_64 else i
  }

  function StringBytes(s: Bytes): Bytes {
    BigEndian(|s|, 8) + s
  }

  function WireBytes(w: ValueWire): Bytes {
    BigEndian(w.tag, 2) + StringBytes(w.payload)
  }

  function EntryBytes(key: Bytes, w: ValueWire): Bytes {
    StringBytes(key) + WireBytes(w)
  }

  /** valueToWire. */
  function ToWire(v: Value): ValueWire
    decreases v, 1
  {
    match v
    case Null => ValueWire(TAG_NULL, [])
    case I64(i) => ValueWire(TAG_I64, BigEndian(TwosComplement(i), 8))
    case U64(u) => ValueWire(TAG_U64, BigEndian(u, 8))
    case Bool(b) => ValueWire(TAG_BOOL, [if b then 1 else 0])
    case Double(bits) => ValueWire(TAG_DOUBLE, BigEndian(bits, 8))
    case Str(s) => ValueWire(TAG_STRING, StringBytes(s))
    case Obj(fields) => ValueWire(TAG_OBJECT, BigEndian(|fields|, 8) + FieldsBytes(fields))
    case Arr(elements) => ValueWire(TAG_ARRAY, BigEndian(|elements|, 8) + ElementsBytes(elements))
  }

  function FieldsBytes(fields: Fields): Bytes
    decreases fields, 0
  {
    if fields == [] then []
    else
      Smaller(fields, 0);
      EntryBytes(fields[0].key, ToWire(fields[0].value)) + FieldsBytes(fields[1..])
  }

  function ElementsBytes(elements: seq<Value>): Bytes
    decreases elements, 0
  {
    if elements == [] then [] else WireBytes(ToWire(elements[0])) + ElementsBytes(elements[1..])
  }

  // ---- Reading ----

  datatype Taken<+T> = Short | Took(value: T, rest: Bytes)

  function FromBigEndian(bs: Bytes): nat {
    if bs == [] then 0
    else
      var low: int := bs[|bs| - 1];
      FromBigEndian(bs[..|bs| - 1]) * 256 + low
  }

  function FromTwosComplement(n: UInt64): Int64 {
    if n >= TWO_63 then n - TWO_64 else n
  }

  function TakeInteger(t: Bytes, k: nat): Taken<nat> {
    if |t| < k then Short else Took(FromBigEndian(t[..k]), t[k..])
  }

  /** Exactly 0 or 1. */
  function TakeBool(t: Bytes): Taken<bool> {
    if t == [] || t[0] > 1 then Short else Took(t[0] == 1, t[1..])
  }

  /** A declared length above the cap, or beyond the input, is refused. */
  function TakeString(t: Bytes): Taken<Bytes> {
    if |t| < 8 then Short
    else
      var size := FromBigEndian(t[..8]);
      if size > MAX_STRING_SIZE || size > |t| - 8 then Short
      else Took(t[8..8 + size], t[8 + size..])
  }

  function TakeWire(t: Bytes): (r: Taken<ValueWire>)
    ensures r.Took? ==> |r.value.payload| + |r.rest| < |t|
  {
    if |t| < 2 then Short
    else
      match TakeString(t[2..])
      case Short => Short
      case Took(payload, rest) =>
        TwoBytes(t[..2]);
        Took(ValueWire(FromBigEndian(t[..2]), payload), rest)
  }

  lemma TwoBytes(bs: Bytes)
    requires |bs| == 2
    ensures FromBigEndian(bs) < 0x10000
  {
    assert FromBigEndian(bs[..1]) == FromBigEndian(bs[..1][..0]) * 256 + bs[0] as int;
  }

  /** What wireToValue makes of a wire value: refused, skipped, or a value. */
  datatype Decoded = Malformed | Skipped | Known(value: Value)

  function OfInteger(payload: Bytes): Option<UInt64> {
    if |payload| == 8 then
      EightBytes(payload);
      Some(FromBigEndian(payload))
    else None
  }

  lemma {:induction false} FromBigEndianBound(bs: Bytes, k: nat)
    requires |bs| == k
    ensures FromBigEndian(bs) < Power256(k)
  {
    if k > 0 {
      FromBigEndianBound(bs[..k - 1], k - 1);
    }
  }

  function Power256(k: nat): nat {
    if k == 0 then 1 else 256 * Power256(k - 1)
  }

  lemma EightBytes(bs: Bytes)
    requires |bs| == 8
    ensures FromBigEndian(bs) < TWO_64
  {
    FromBigEndianBound(bs, 8);
    PowerOfEight();
  }

  lemma PowerOfEight()
    ensures Power256(8) == TWO_64 && Power256(2) == 0x10000
  {
    assert Power256(4) == 0x1_0000_0000;
  }

  /** wireToValue, `depth` being the nesting it was entered at. */
  function FromWire(w: ValueWire, depth: nat): Decoded
    decreases |w.payload|, 1
  {
    if depth >= MAX_WIRE_DEPTH then Malformed
    else if w.tag == TAG_NULL then Known(Null)
    else if w.tag == TAG_I64 then
      if OfInteger(w.payload).Some? then Known(I64(FromTwosComplement(OfInteger(w.payload).value))) else Malformed
    else if w.tag == TAG_U64 then
      if OfInteger(w.payload).Some? then Known(U64(OfInteger(w.payload).value)) else Malformed
    else if w.tag == TAG_DOUBLE then
      if OfInteger(w.payload).Some? then Known(Double(OfInteger(w.payload).value)) else Malformed
    else if w.tag == TAG_BOOL then
      match TakeBool(w.payload)
      case Short => Malformed
      case Took(b, rest) => if rest == [] then Known(Bool(b)) else Malformed
    else if w.tag == TAG_STRING then
      match TakeString(w.payload)
      case Short => Malformed
      case Took(s, rest) => if rest == [] then Known(Str(s)) else Malformed
    else if w.tag == TAG_OBJECT then
      if w.payload == [] then Known(Obj([]))
      else
        match TakeObject(w.payload, depth + 1)
        case Short => Malformed
        case Took(fields, rest) => if rest == [] then Known(Obj(fields)) else Malformed
    else if w.tag == TAG_ARRAY then
      if |w.payload| < 8 then Malformed
      else
        match TakeElements(w.payload[8..], FromBigEndian(w.payload[..8]), depth + 1, [])
        case Short => Malformed
        case Took(elements, rest) => if rest == [] then Known(Arr(elements)) else Malformed
    else Skipped
  }

  /** Object::serialize on an input archive. */
  function TakeObject(t: Bytes, depth: nat): Taken<Fields>
    decreases |t|, 0
  {
    if |t| < 8 then Short else TakeEntries(t[8..], FromBigEndian(t[..8]), depth, [])
  }

  /** One entry of an object, added to those before it unless its tag is unknown. */
  function TakeEntry(t: Bytes, depth: nat, before: Fields): (r: Taken<Fields>)
    ensures r.Took? ==> |r.rest| < |t|
    decreases |t|, 0
  {
    match TakeString(t)
    case Short => Short
    case Took(key, r1) =>
      match TakeWire(r1)
      case Short => Short
      case Took(w, r2) =>
        if HasKey(before, key) then Short
        else
          match FromWire(w, depth)
          case Malformed => Short
          case Skipped => Took(before, r2)
          case Known(v) => Took(SetEntry(before, key, v), r2)
  }

  function TakeEntries(t: Bytes, count: nat, depth: nat, before: Fields): Taken<Fields>
    decreases |t|, 1
  {
    if count == 0 then Took(before, t)
    else
      match TakeEntry(t, depth, before)
      case Short => Short
      case Took(fields, r) => TakeEntries(r, count - 1, depth, fields)
  }

  function TakeElements(t: Bytes, count: nat, depth: nat, before: seq<Value>): Taken<seq<Value>>
    decreases |t|, 1
  {
    if count == 0 then Took(before, t)
    else
      match TakeWire(t)
      case Short => Short
      case Took(w, r) =>
        match FromWire(w, depth)
        case Known(v) => TakeElements(r, count - 1, depth, before + [v])
        case _ => Short
  }

  /** binaryUnpack of an Object, outside any wire value. */
  function UnpackObject(data: Bytes): Option<Fields> {
    match TakeObject(data, 0)
    case Short => None
    case Took(fields, rest) => if rest == [] then Some(fields) else None
  }
}
