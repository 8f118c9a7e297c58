/**
 * The wire form byte by byte: the numbers of its tags, the places of its bytes, and that a number, a
 * bool or a string is read from its own encoding and from no other.
 */
module WireLayout {
  import opened ByteStrings
  import opened Values
  import opened WireFormat
  import opened WireRoundTrip

  // ---- Bytes by their places ----

  /** Each byte counts by its place, the first one most. */
  function PlaceValue(bs: Bytes): nat {
    if bs == [] then 0 else bs[0] * Power256(|bs| - 1) + PlaceValue(bs[1..])
  }

  lemma {:induction false} PlaceOfLast(bs: Bytes)
    requires bs != []
    ensures PlaceValue(bs) == PlaceValue(bs[..|bs| - 1]) * 256 + bs[|bs| - 1]
  {
    var init: Bytes := bs[..|bs| - 1];
    if |bs| == 1 {
      assert PlaceValue(bs[1..]) == 0 && Power256(0) == 1;
    } else {
      var first: int, p := bs[0], Power256(|bs| - 2);
      PlaceOfLast(bs[1..]);
      assert bs[1..][..|bs| - 2] == init[1..];
      assert PlaceValue(init) == first * p + PlaceValue(init[1..]);
      assert Power256(|bs| - 1) == 256 * p;
      assert first * (256 * p) == first * p * 256;
    }
  }

  /** An integer is read from its bytes by their places ... */
  lemma {:induction false} BytesByPlace(bs: Bytes)
    ensures FromBigEndian(bs) == PlaceValue(bs)
  {
    if bs != [] {
      BytesByPlace(bs[..|bs| - 1]);
      PlaceOfLast(bs);
    }
  }

  /** ... and there is one way to write it in so many bytes. */
  lemma {:induction false} WritesBack(bs: Bytes)
    ensures BigEndian(FromBigEndian(bs), |bs|) == bs
  {
    if bs != [] {
      WritesBack(bs[..|bs| - 1]);
      assert bs == bs[..|bs| - 1] + [bs[|bs| - 1]];
    }
  }

  // ---- Tags ----

  /** The tag numbers, and what the payload of each kind of value is. */
  lemma PayloadsByTag(v: Value)
    ensures v.I64? ==> ToWire(v).tag == 1 && |ToWire(v).payload| == 8 && PlaceValue(ToWire(v).payload) == v.i % TWO_64
    ensures v.U64? ==> ToWire(v).tag == 2 && |ToWire(v).payload| == 8 && PlaceValue(ToWire(v).payload) == v.u
    ensures v.Bool? ==> ToWire(v) == ValueWire(3, [if v.b then 1 else 0])
    ensures v.Double? ==> ToWire(v).tag == 4 && |ToWire(v).payload| == 8 && PlaceValue(ToWire(v).payload) == v.bits
    ensures v.Str? && |v.s| < TWO_64 ==>
              var p := ToWire(v).payload;
              ToWire(v).tag == 5 && |p| == 8 + |v.s| && PlaceValue(p[..8]) == |v.s| && p[8..] == v.s
    ensures v.Obj? ==> ToWire(v).tag == 6
    ensures v.Arr? ==> ToWire(v).tag == 7
    ensures v.Null? ==> ToWire(v) == ValueWire(8, [])
  {
    match v
    case I64(i) => IntegerPayload(TwosComplement(i));
    case U64(u) => IntegerPayload(u);
    case Double(bits) => IntegerPayload(bits);
    case Str(s) =>
      if |s| < TWO_64 {
        IntegerPayload(|s|);
      }
    case _ =>
  }

  lemma IntegerPayload(n: UInt64)
    ensures PlaceValue(BigEndian(n, 8)) == n
  {
    PowerOfEight();
    BigEndianReads(n, 8);
    BytesByPlace(BigEndian(n, 8));
  }

  /** The kind of value a tag stands for. */
  predicate IsOfTag(v: Value, tag: int) {
    match v
    case I64(_) => tag == 1
    case U64(_) => tag == 2
    case Bool(_) => tag == 3
    case Double(_) => tag == 4
    case Str(_) => tag == 5
    case Obj(_) => tag == 6
    case Arr(_) => tag == 7
    case Null => tag == 8
  }

  /** A value is read from its own tag only, and a tag that is none of these, and no other, is skipped. */
  lemma TagsDecide(w: ValueWire, depth: nat)
    ensures FromWire(w, depth) == Skipped <==> depth < 128 && (w.tag < 1 || w.tag > 8)
    ensures FromWire(w, depth).Known? ==> depth < 128 && IsOfTag(FromWire(w, depth).value, w.tag)
  {
    hide TakeObject, TakeElements, TakeString, TakeBool, FromBigEndian;
  }

  // ---- One encoding each ----

  lemma IntegerIsCanonical(payload: Bytes, n: UInt64)
    ensures OfInteger(payload) == Some(n) <==> payload == BigEndian(n, 8)
  {
    PowerOfEight();
    BigEndianReads(n, 8);
    WritesBack(payload);
    hide BigEndian, FromBigEndian;
  }

  lemma StringIsCanonical(payload: Bytes, s: Bytes)
    requires |s| < TWO_64
    ensures TakeString(payload) == Took(s, []) <==> |s| <= MAX_STRING_SIZE && payload == StringBytes(s)
  {
    StringReads(s, []);
    assert StringBytes(s) + [] == StringBytes(s);
    if TakeString(payload) == Took(s, []) {
      WritesBack(payload[..8]);
      hide BigEndian, FromBigEndian;
      assert payload == payload[..8] + payload[8..];
    }
  }

  lemma TwosComplementBack(n: UInt64, i: Int64)
    ensures FromTwosComplement(n) == i <==> n == TwosComplement(i)
  {}

  /**
   * A number, a bool or a string is read from exactly its own encoding: a payload of another length, a
   * bool byte above 1, a length beyond the bytes or the cap of 64 MiB, and bytes left over are refused.
   */
  lemma ScalarsAreCanonical(w: ValueWire, depth: nat, v: Value)
    requires v.I64? || v.U64? || v.Bool? || v.Double? || (v.Str? && |v.s| < TWO_64)
    ensures FromWire(w, depth) == Known(v) <==> depth < 128 && w == ToWire(v) && (v.Str? ==> |v.s| <= 64 * 1024 * 1024)
  {
    TagsDecide(w, depth);
    PayloadsByTag(v);
    if depth < 128 && IsOfTag(v, w.tag) {
      match v {
        case I64(i) =>
          IntegerIsCanonical(w.payload, TwosComplement(i));
          if OfInteger(w.payload).Some? {
            TwosComplementBack(OfInteger(w.payload).value, i);
          }
        case U64(u) => IntegerIsCanonical(w.payload, u);
        case Double(bits) => IntegerIsCanonical(w.payload, bits);
        case Str(s) => StringIsCanonical(w.payload, s);
        case Bool(b) => BoolIsCanonical(w.payload, b);
      }
    }
  }

  lemma BoolIsCanonical(payload: Bytes, b: bool)
    ensures TakeBool(payload) == Took(b, []) <==> payload == [if b then 1 else 0]
  {
    assert payload != [] ==> payload == [payload[0]] + payload[1..];
  }
}
