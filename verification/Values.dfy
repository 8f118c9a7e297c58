/** The in-memory document tree (include/common/Value.h), without null pointers. */
module Values {
  import opened ByteStrings
  import opened FiFoMaps

  type Fields = seq<Entry<Bytes, Value>>

  /** A double is kept as its 64-bit pattern. */
  datatype Value =
    | Null
    | I64(i: Int64)
    | U64(u: UInt64)
    | Bool(b: bool)
    | Double(bits: UInt64)
    | Str(s: Bytes)
    | Obj(fields: Fields)
    | Arr(elements: seq<Value>)

  /** A value held by an entry is smaller than the list of entries. */
  lemma Smaller(fields: Fields, i: nat)
    requires i < |fields|
    ensures fields decreases to fields[i].value
  {
    var e := fields[i];
    assert e.value < e;
    assert fields decreases to e;
  }

  /** What FiFoMap guarantees of every object in the tree: no key twice. */
  ghost predicate WellFormed(v: Value) {
    match v
    case Obj(fields) => WellFormedFields(fields)
    case Arr(elements) => forall i :: 0 <= i < |elements| ==> WellFormed(elements[i])
    case _ => true
  }

  ghost predicate WellFormedFields(fields: Fields) {
    DistinctKeys(fields) && forall i :: 0 <= i < |fields| ==> (Smaller(fields, i); WellFormed(fields[i].value))
  }

  function Max(a: int, b: int): int { if a < b then b else a }

  /** Objects and arrays nested in each other, as both JSON directions count them. */
  function Containers(v: Value): nat
    decreases v, 1
  {
    match v
    case Obj(fields) => 1 + FieldsContainers(fields)
    case Arr(elements) => 1 + ElementsContainers(elements)
    case _ => 0
  }

  function FieldsContainers(fields: Fields): nat
    decreases fields, 0
  {
    if fields == [] then 0
    else
      Smaller(fields, 0);
      Max(Containers(fields[0].value), FieldsContainers(fields[1..]))
  }

  function ElementsContainers(elements: seq<Value>): nat
    decreases elements, 0
  {
    if elements == [] then 0 else Max(Containers(elements[0]), ElementsContainers(elements[1..]))
  }
}
