/**
 * What writing and reading the wire form do together: exactly which trees come back, that
 * every piece is self-delimiting, and how entries with an unknown tag are passed over.
 */
module WireRoundTrip {
  import opened ByteStrings
  import opened FiFoMaps
  import opened Values
  import opened WireFormat

  // ---- Self-delimiting pieces ----

  lemma {:induction false} BigEndianReads(n: nat, k: nat)
    requires n < Power256(k)
    ensures FromBigEndian(BigEndian(n, k)) == n
  {
    if k > 0 {
      BigEndianReads(n / 256, k - 1);
      assert BigEndian(n, k)[..k - 1] == BigEndian(n / 256, k - 1);
    }
  }

  /** An integer of `k` bytes, followed by anything, is read as itself and leaves what followed. */
  lemma IntegerReads(n: nat, k: nat, rest: Bytes)
    requires n < Power256(k)
    ensures TakeInteger(BigEndian(n, k) + rest, k) == Took(n, rest)
  {
    BigEndianReads(n, k);
    assert (BigEndian(n, k) + rest)[..k] == BigEndian(n, k) && (BigEndian(n, k) + rest)[k..] == rest;
  }

  lemma StringReads(s: Bytes, rest: Bytes)
    requires |s| < TWO_64
    ensures TakeString(StringBytes(s) + rest) == if |s| <= MAX_STRING_SIZE then Took(s, rest) else Short
  {
    var t := StringBytes(s) + rest;
    PowerOfEight();
    IntegerReads(|s|, 8, s + rest);
    Assoc(BigEndian(|s|, 8), s, rest);
    if |s| <= MAX_STRING_SIZE {
      SplitAt(BigEndian(|s|, 8), s, rest);
    }
  }

  lemma SplitAt(a: Bytes, b: Bytes, c: Bytes)
    ensures (a + (b + c))[|a|..|a| + |b|] == b && (a + (b + c))[|a| + |b|..] == c
  {}

  lemma WireReads(w: ValueWire, rest: Bytes)
    requires |w.payload| < TWO_64
    ensures TakeWire(WireBytes(w) + rest) == if |w.payload| <= MAX_STRING_SIZE then Took(w, rest) else Short
  {
    PowerOfEight();
    var t := WireBytes(w) + rest;
    assert t == BigEndian(w.tag, 2) + (StringBytes(w.payload) + rest);
    IntegerReads(w.tag, 2, StringBytes(w.payload) + rest);
    assert t[..2] == BigEndian(w.tag, 2) && t[2..] == StringBytes(w.payload) + rest;
    StringReads(w.payload, rest);
  }

  // ---- Objects as lists of wire entries ----

  type WireEntries = seq<Entry<Bytes, ValueWire>>

  function EntriesBytes(es: WireEntries): Bytes {
    if es == [] then [] else EntryBytes(es[0].key, es[0].value) + EntriesBytes(es[1..])
  }

  predicate EntryAddressable(e: Entry<Bytes, ValueWire>) {
    |e.key| < TWO_64 && |e.value.payload| < TWO_64
  }

  /** Reading the entries one after the other, without their bytes. */
  function FoldEntries(es: WireEntries, depth: nat, before: Fields): Option<Fields> {
    if es == [] then Some(before)
    else
      var e := es[0];
      if |e.key| > MAX_STRING_SIZE || |e.value.payload| > MAX_STRING_SIZE || HasKey(before, e.key) then None
      else
        match FromWire(e.value, depth)
        case Malformed => None
        case Skipped => FoldEntries(es[1..], depth, before)
        case Known(v) => FoldEntries(es[1..], depth, before + [Entry(e.key, v)])
  }

  /** The bytes of any list of entries, followed by anything, are read as that list. */
  lemma {:induction false} EntriesRead(es: WireEntries, depth: nat, before: Fields, rest: Bytes)
    requires forall i :: 0 <= i < |es| ==> EntryAddressable(es[i])
    ensures TakeEntries(EntriesBytes(es) + rest, |es|, depth, before) ==
            match FoldEntries(es, depth, before)
            case None => Short
            case Some(fields) => Took(fields, rest)
    decreases es
  {
    if es == [] {
      assert EntriesBytes(es) + rest == rest;
    } else {
      var key, w := es[0].key, es[0].value;
      assert EntryAddressable(es[0]);
      var tail := EntriesBytes(es[1..]) + rest;
      EntryReads(key, w, tail, depth, before);
      Assoc(EntryBytes(key, w), EntriesBytes(es[1..]), rest);
      match FromWire(w, depth)
      case Malformed =>
      case Skipped => EntriesRead(es[1..], depth, before, rest);
      case Known(v) => EntriesRead(es[1..], depth, before + [Entry(key, v)], rest);
    }
  }

  lemma EntryReads(key: Bytes, w: ValueWire, rest: Bytes, depth: nat, before: Fields)
    requires |key| < TWO_64 && |w.payload| < TWO_64
    ensures TakeEntry(EntryBytes(key, w) + rest, depth, before) ==
            if |key| > MAX_STRING_SIZE || |w.payload| > MAX_STRING_SIZE || HasKey(before, key) then Short
            else
              match FromWire(w, depth)
              case Malformed => Short
              case Skipped => Took(before, rest)
              case Known(v) => Took(before + [Entry(key, v)], rest)
  {
    Assoc(StringBytes(key), WireBytes(w), rest);
    StringReads(key, WireBytes(w) + rest);
    WireReads(w, rest);
  }

  function WireEntriesOf(fields: Fields): (es: WireEntries)
    ensures |es| == |fields|
    ensures forall i :: 0 <= i < |fields| ==> es[i] == Entry(fields[i].key, ToWire(fields[i].value))
  {
    if fields == [] then [] else [Entry(fields[0].key, ToWire(fields[0].value))] + WireEntriesOf(fields[1..])
  }

  lemma {:induction false} FieldsBytesOfEntries(fields: Fields)
    ensures FieldsBytes(fields) == EntriesBytes(WireEntriesOf(fields))
  {
    if fields != [] {
      FieldsBytesOfEntries(fields[1..]);
      assert WireEntriesOf(fields)[1..] == WireEntriesOf(fields[1..]);
    }
  }

  // ---- Which trees come back ----

  /** Every count and length fits the 64 bits it is written in, as it must in memory. */
  ghost predicate Addressable(v: Value) {
    && |ToWire(v).payload| < TWO_64
    && match v
       case Str(s) => |s| < TWO_64
       case Obj(fields) =>
         |fields| < TWO_64 && forall i :: 0 <= i < |fields| ==> |fields[i].key| < TWO_64 && (Smaller(fields, i); Addressable(fields[i].value))
       case Arr(elements) =>
         |elements| < TWO_64 && forall i :: 0 <= i < |elements| ==> Addressable(elements[i])
       case _ => true
  }

  /** Values nested in each other, a leaf being one level, as the depth guard counts them. */
  function Levels(v: Value): nat
    decreases v, 1
  {
    match v
    case Obj(fields) => 1 + FieldsLevels(fields)
    case Arr(elements) => 1 + ElementsLevels(elements)
    case _ => 1
  }

  function FieldsLevels(fields: Fields): nat
    decreases fields, 0
  {
    if fields == [] then 0
    else
      Smaller(fields, 0);
      Max(Levels(fields[0].value), FieldsLevels(fields[1..]))
  }

  function ElementsLevels(elements: seq<Value>): nat
    decreases elements, 0
  {
    if elements == [] then 0 else Max(Levels(elements[0]), ElementsLevels(elements[1..]))
  }

  /** No string, key or nested payload is longer than a string may be. */
  ghost predicate SizesFit(v: Value) {
    match v
    case Str(s) => |s| <= MAX_STRING_SIZE
    case Obj(fields) => FieldsFit(fields)
    case Arr(elements) => ElementsFit(elements)
    case _ => true
  }

  ghost predicate FieldsFit(fields: Fields) {
    forall i :: 0 <= i < |fields| ==>
      |fields[i].key| <= MAX_STRING_SIZE && |ToWire(fields[i].value).payload| <= MAX_STRING_SIZE
      && (Smaller(fields, i); SizesFit(fields[i].value))
  }

  ghost predicate ElementsFit(elements: seq<Value>) {
    forall i :: 0 <= i < |elements| ==> |ToWire(elements[i]).payload| <= MAX_STRING_SIZE && SizesFit(elements[i])
  }

  /**
   * A tree comes back from its wire form, keys in order, exactly when its sizes fit and its
   * levels stay within the guard; any other tree is refused.
   */
  lemma {:induction false} WireRoundTrip(v: Value, depth: nat)
    requires WellFormed(v) && Addressable(v)
    ensures FromWire(ToWire(v), depth) == if SizesFit(v) && depth + Levels(v) <= MAX_WIRE_DEPTH then Known(v) else Malformed
    decreases v, 2
  {
    match v
    case Obj(fields) =>
      if depth < MAX_WIRE_DEPTH {
        ObjectWire(fields, depth);
      }
    case Arr(elements) =>
      if depth < MAX_WIRE_DEPTH {
        ArrayWire(elements, depth);
      }
    case _ =>
      if depth < MAX_WIRE_DEPTH {
        ScalarRoundTrip(v, depth);
      }
  }

  lemma {:induction false} ObjectWire(fields: Fields, depth: nat)
    requires depth < MAX_WIRE_DEPTH && WellFormedFields(fields) && Addressable(Obj(fields))
    ensures FromWire(ToWire(Obj(fields)), depth) ==
            if FieldsFit(fields) && depth + 1 + FieldsLevels(fields) <= MAX_WIRE_DEPTH then Known(Obj(fields)) else Malformed
    decreases fields, 2
  {
    var t := BigEndian(|fields|, 8) + FieldsBytes(fields);
    assert t + [] == t && |t| >= 8;
    ObjectRoundTrip(fields, depth + 1, []);
  }

  lemma {:induction false} ArrayWire(elements: seq<Value>, depth: nat)
    requires depth < MAX_WIRE_DEPTH && |elements| < TWO_64
    requires forall i :: 0 <= i < |elements| ==> WellFormed(elements[i]) && Addressable(elements[i])
    ensures FromWire(ToWire(Arr(elements)), depth) ==
            if ElementsFit(elements) && depth + 1 + ElementsLevels(elements) <= MAX_WIRE_DEPTH then Known(Arr(elements)) else Malformed
    decreases elements, 2
  {
    hide ElementsBytes, TakeElements, BigEndian, FromBigEndian;
    ArrayPayload(elements);
    ElementsExactly(elements, depth + 1);
  }

  lemma {:induction false} ElementsExactly(elements: seq<Value>, depth: nat)
    requires forall i :: 0 <= i < |elements| ==> WellFormed(elements[i]) && Addressable(elements[i])
    ensures TakeElements(ElementsBytes(elements), |elements|, depth, []) ==
            if ElementsFit(elements) && (elements == [] || depth + ElementsLevels(elements) <= MAX_WIRE_DEPTH)
            then Took(elements, []) else Short
    decreases elements, 1
  {
    ElementsRoundTrip(elements, depth, [], []);
    assert ElementsBytes(elements) + [] == ElementsBytes(elements) && [] + elements == elements;
  }

  lemma ArrayPayload(elements: seq<Value>)
    requires |elements| < TWO_64
    ensures var t := BigEndian(|elements|, 8) + ElementsBytes(elements);
            FromBigEndian(t[..8]) == |elements| && t[8..] == ElementsBytes(elements)
  {
    PowerOfEight();
    IntegerReads(|elements|, 8, ElementsBytes(elements));
  }

  lemma ScalarRoundTrip(v: Value, depth: nat)
    requires !v.Obj? && !v.Arr? && Addressable(v) && depth < MAX_WIRE_DEPTH
    ensures FromWire(ToWire(v), depth) == if SizesFit(v) then Known(v) else Malformed
  {
    PowerOfEight();
    match v
    case I64(i) =>
      BigEndianReads(TwosComplement(i), 8);
    case U64(u) =>
      BigEndianReads(u, 8);
    case Double(bits) =>
      BigEndianReads(bits, 8);
    case Str(s) =>
      StringReads(s, []);
      assert StringBytes(s) + [] == StringBytes(s);
    case _ =>
  }

  /** binaryPack and binaryUnpack of an Object, followed by anything. */
  lemma {:induction false} ObjectRoundTrip(fields: Fields, depth: nat, rest: Bytes)
    requires WellFormedFields(fields) && Addressable(Obj(fields))
    ensures TakeObject(BigEndian(|fields|, 8) + FieldsBytes(fields) + rest, depth) ==
            if FieldsFit(fields) && (fields == [] || depth + FieldsLevels(fields) <= MAX_WIRE_DEPTH) then Took(fields, rest) else Short
    decreases fields, 1
  {
    PowerOfEight();
    Assoc(BigEndian(|fields|, 8), FieldsBytes(fields), rest);
    IntegerReads(|fields|, 8, FieldsBytes(fields) + rest);
    FieldsBytesOfEntries(fields);
    forall i | 0 <= i < |fields|
      ensures EntryAddressable(WireEntriesOf(fields)[i])
    {
      assert Addressable(fields[i].value);
    }
    EntriesRead(WireEntriesOf(fields), depth, [], rest);
    assert [] + fields == fields;
    FoldFields(fields, depth, []);
  }

  /** The same for an Object packed on its own. */
  lemma PackRoundTrip(fields: Fields)
    requires WellFormedFields(fields) && Addressable(Obj(fields))
    ensures UnpackObject(BigEndian(|fields|, 8) + FieldsBytes(fields)) ==
            if FieldsFit(fields) && FieldsLevels(fields) <= MAX_WIRE_DEPTH then Some(fields) else None
  {
    var t := BigEndian(|fields|, 8) + FieldsBytes(fields);
    assert t + [] == t;
    ObjectRoundTrip(fields, 0, []);
  }

  lemma {:induction false} FoldFields(fields: Fields, depth: nat, before: Fields)
    requires DistinctKeys(before + fields)
    requires forall i :: 0 <= i < |fields| ==> WellFormed(fields[i].value) && Addressable(fields[i].value)
    ensures FoldEntries(WireEntriesOf(fields), depth, before) ==
            if FieldsFit(fields) && (fields == [] || depth + FieldsLevels(fields) <= MAX_WIRE_DEPTH) then Some(before + fields) else None
    decreases fields, 0
  {
    if fields == [] {
      assert before + fields == before;
    } else {
      Smaller(fields, 0);
      var key, v := fields[0].key, fields[0].value;
      assert WireEntriesOf(fields)[1..] == WireEntriesOf(fields[1..]);
      Assoc(before, [fields[0]], fields[1..]);
      assert fields == [fields[0]] + fields[1..];
      NotBefore(before, fields);
      WireRoundTrip(v, depth);
      FirstFits(fields);
      if |key| <= MAX_STRING_SIZE && |ToWire(v).payload| <= MAX_STRING_SIZE && SizesFit(v) && depth + Levels(v) <= MAX_WIRE_DEPTH {
        FoldFields(fields[1..], depth, before + [fields[0]]);
      }
    }
  }

  lemma NotBefore(before: Fields, fields: Fields)
    requires DistinctKeys(before + fields) && fields != []
    ensures !HasKey(before, fields[0].key)
  {
    var all := before + fields;
    assert all[|before|] == fields[0] && forall i :: 0 <= i < |before| ==> all[i] == before[i];
  }

  lemma FirstFits(fields: Fields)
    requires fields != []
    ensures FieldsFit(fields) <==>
            && |fields[0].key| <= MAX_STRING_SIZE && |ToWire(fields[0].value).payload| <= MAX_STRING_SIZE
            && SizesFit(fields[0].value) && FieldsFit(fields[1..])
  {
    assert forall i :: 0 <= i < |fields| ==> fields[i] == if i == 0 then fields[0] else fields[1..][i - 1];
  }

  lemma {:induction false} ElementsRoundTrip(elements: seq<Value>, depth: nat, before: seq<Value>, rest: Bytes)
    requires forall i :: 0 <= i < |elements| ==> WellFormed(elements[i]) && Addressable(elements[i])
    ensures TakeElements(ElementsBytes(elements) + rest, |elements|, depth, before) ==
            if ElementsFit(elements) && (elements == [] || depth + ElementsLevels(elements) <= MAX_WIRE_DEPTH)
            then Took(before + elements, rest) else Short
    decreases elements, 0
  {
    if elements == [] {
      assert ElementsBytes(elements) + rest == rest && before + elements == before;
    } else {
      var v := elements[0];
      var w := ToWire(v);
      var tail := ElementsBytes(elements[1..]) + rest;
      Assoc(WireBytes(w), ElementsBytes(elements[1..]), rest);
      WireReads(w, tail);
      WireRoundTrip(v, depth);
      assert elements == [v] + elements[1..];
      Assoc(before, [v], elements[1..]);
      FirstElementFits(elements);
      ElementsRoundTrip(elements[1..], depth, before + [v], rest);
    }
  }

  lemma FirstElementFits(elements: seq<Value>)
    requires elements != []
    ensures ElementsFit(elements) <==>
            |ToWire(elements[0]).payload| <= MAX_STRING_SIZE && SizesFit(elements[0]) && ElementsFit(elements[1..])
  {
    assert forall i :: 0 <= i < |elements| ==> elements[i] == if i == 0 then elements[0] else elements[1..][i - 1];
  }

  // ---- Unknown tags ----

  predicate UnknownTag(w: ValueWire) {
    w.tag !in {TAG_I64, TAG_U64, TAG_BOOL, TAG_DOUBLE, TAG_STRING, TAG_OBJECT, TAG_ARRAY, TAG_NULL}
  }

  /** The entries a reader knows. */
  function KnownOnly(es: WireEntries): WireEntries {
    if es == [] then []
    else (if UnknownTag(es[0].value) then [] else [es[0]]) + KnownOnly(es[1..])
  }

  /** Each unknown entry is readable, and its key is none of the known keys before it. */
  predicate SkipsCleanly(es: WireEntries, before: Fields) {
    es == [] ||
    if UnknownTag(es[0].value) then
      |es[0].key| <= MAX_STRING_SIZE && |es[0].value.payload| <= MAX_STRING_SIZE && !HasKey(before, es[0].key)
      && SkipsCleanly(es[1..], before)
    else SkipsCleanly(es[1..], before + [Entry(es[0].key, Null)])
  }

  /** Only the keys of the fields before matter to skipping. */
  lemma {:induction false} SkippingByKeys(es: WireEntries, a: Fields, b: Fields)
    requires Keys(a) == Keys(b)
    ensures SkipsCleanly(es, a) == SkipsCleanly(es, b)
  {
    if es != [] {
      if UnknownTag(es[0].value) {
        KeysDecide(a, b, es[0].key);
        SkippingByKeys(es[1..], a, b);
      } else {
        var e := Entry(es[0].key, Null);
        KeysAppend(a, e);
        KeysAppend(b, e);
        SkippingByKeys(es[1..], a + [e], b + [e]);
      }
    }
  }

  lemma KeysDecide(a: Fields, b: Fields, key: Bytes)
    requires Keys(a) == Keys(b)
    ensures HasKey(a, key) == HasKey(b, key)
  {
    assert |Keys(a)| == |Keys(b)|;
    assert forall i :: 0 <= i < |a| ==> a[i].key == Keys(a)[i] == Keys(b)[i] == b[i].key;
  }

  lemma {:induction false} KeysAppend(a: Fields, e: Entry<Bytes, Value>)
    ensures Keys(a + [e]) == Keys(a) + [e.key]
  {
    assert forall i :: 0 <= i < |a| ==> (a + [e])[i] == a[i];
  }

  /**
   * Below the depth limit, unknown entries change nothing exactly when they skip cleanly: if
   * they do not, the whole object is refused.
   */
  lemma {:induction false} UnknownEntriesSkipped(es: WireEntries, depth: nat, before: Fields)
    requires depth < MAX_WIRE_DEPTH
    ensures FoldEntries(es, depth, before) ==
            if SkipsCleanly(es, before) then FoldEntries(KnownOnly(es), depth, before) else None
    decreases es
  {
    if es != [] {
      var e := es[0];
      if UnknownTag(e.value) {
        assert KnownOnly(es) == KnownOnly(es[1..]);
        UnknownEntriesSkipped(es[1..], depth, before);
      } else {
        var tail := KnownOnly(es[1..]);
        assert KnownOnly(es)[0] == e && KnownOnly(es)[1..] == tail;
        match FromWire(e.value, depth)
        case Malformed =>
        case Skipped => assert false;
        case Known(v) =>
          var next := before + [Entry(e.key, v)];
          UnknownEntriesSkipped(es[1..], depth, next);
          KeysAppend(before, Entry(e.key, v));
          KeysAppend(before, Entry(e.key, Null));
          SkippingByKeys(es[1..], next, before + [Entry(e.key, Null)]);
      }
    }
  }

  /** Forward compatibility: an object with entries of unknown tags among its own decodes to the object. */
  lemma ForwardSkip(fields: Fields, es: WireEntries, depth: nat, rest: Bytes)
    requires WellFormedFields(fields) && Addressable(Obj(fields)) && FieldsFit(fields)
    requires depth < MAX_WIRE_DEPTH && depth + FieldsLevels(fields) <= MAX_WIRE_DEPTH
    requires KnownOnly(es) == WireEntriesOf(fields) && SkipsCleanly(es, [])
    requires |es| < TWO_64 && forall i :: 0 <= i < |es| ==> EntryAddressable(es[i])
    ensures TakeObject(BigEndian(|es|, 8) + EntriesBytes(es) + rest, depth) == Took(fields, rest)
  {
    PowerOfEight();
    Assoc(BigEndian(|es|, 8), EntriesBytes(es), rest);
    IntegerReads(|es|, 8, EntriesBytes(es) + rest);
    EntriesRead(es, depth, [], rest);
    UnknownEntriesSkipped(es, depth, []);
    assert [] + fields == fields;
    FoldFields(fields, depth, []);
  }

  /** In an array an unknown tag refuses the whole array. */
  lemma UnknownElementRefused(elements: seq<Value>, w: ValueWire, count: nat, depth: nat, before: seq<Value>, rest: Bytes)
    requires UnknownTag(w) && |w.payload| < TWO_64
    requires forall i :: 0 <= i < |elements| ==> WellFormed(elements[i]) && Addressable(elements[i])
    requires count > |elements|
    ensures TakeElements(ElementsBytes(elements) + (WireBytes(w) + rest), count, depth, before) == Short
    decreases elements
  {
    if elements == [] {
      assert ElementsBytes(elements) + (WireBytes(w) + rest) == WireBytes(w) + rest;
      WireReads(w, rest);
    } else {
      var v := elements[0];
      var tail := ElementsBytes(elements[1..]) + (WireBytes(w) + rest);
      Assoc(WireBytes(ToWire(v)), ElementsBytes(elements[1..]), WireBytes(w) + rest);
      assert Addressable(v);
      WireReads(ToWire(v), tail);
      UnknownElementRefused(elements[1..], w, count - 1, depth, before + [v], rest);
      WireRoundTrip(v, depth);
    }
  }
}
