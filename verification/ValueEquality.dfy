/** valueEqual and Object::operator== (src/Value.cpp): equality of trees, with doubles compared as numbers. */
module ValueEquality {
  import opened ByteStrings
  import opened FiFoMaps
  import opened Values

  /** The bits of a NaN: all exponent bits set, and some of the fraction. */
  predicate IsNan(bits: UInt64) {
    bits as int % TWO_63 > 0x7FF0_0000_0000_0000
  }

  /** Numbers are equal when they have the same bits or are both zero; a NaN equals nothing. */
  predicate DoubleEqual(x: UInt64, y: UInt64) {
    !IsNan(x) && !IsNan(y) && (x == y || (x as int % TWO_63 == 0 && y as int % TWO_63 == 0))
  }

  // ---- What the bits of a double mean ----

  const TWO_52: int := 0x10_0000_0000_0000

  /** A number is given in units of 2^-1074, the smallest positive double. */
  datatype Number = NotANumber | Infinite(negative: bool) | Finite(units: int)

  function Power2(k: nat): nat {
    if k == 0 then 1 else 2 * Power2(k - 1)
  }

  /** 11 bits of exponent and 52 of fraction; exponent 0 has no leading one. */
  function Magnitude(exponent: nat, fraction: nat): nat {
    if exponent == 0 then fraction else (TWO_52 + fraction) * Power2(exponent - 1)
  }

  /** The number a bit pattern stands for (section 3.4 of IEEE 754). */
  function NumberOf(bits: UInt64): Number {
    var negative, exponent, fraction := bits >= TWO_63, bits / TWO_52 % 2048, bits % TWO_52;
    if exponent == 2047 then (if fraction == 0 then Infinite(negative) else NotANumber)
    else Finite(if negative then 0 - Magnitude(exponent, fraction) else Magnitude(exponent, fraction))
  }

  /** A bit pattern from its fields. */
  lemma Fields64(bits: UInt64)
    ensures var exponent, fraction := bits / TWO_52 % 2048, bits % TWO_52;
            bits as int % TWO_63 == exponent * TWO_52 + fraction && bits == (if bits >= TWO_63 then TWO_63 else 0) + bits as int % TWO_63
  {}

  lemma {:induction false} PowersGrow(a: nat, b: nat)
    requires a <= b
    ensures 0 < Power2(a) <= Power2(b)
    decreases b
  {
    if a < b {
      PowersGrow(a, b - 1);
    } else if a > 0 {
      PowersGrow(a - 1, b - 1);
    }
  }

  lemma MagnitudeBounds(exponent: nat, fraction: nat)
    requires fraction < TWO_52
    ensures Magnitude(exponent, fraction) < TWO_52 * Power2(exponent)
    ensures exponent > 0 ==> TWO_52 * Power2(exponent - 1) <= Magnitude(exponent, fraction)
  {
    if exponent > 0 {
      var p := Power2(exponent - 1);
      PowersGrow(exponent - 1, exponent);
      assert fraction * p < TWO_52 * p;
      assert (TWO_52 + fraction) * p == TWO_52 * p + fraction * p;
    }
  }

  lemma LargerExponent(e: nat, f: nat, e': nat, f': nat)
    requires f < TWO_52 && f' < TWO_52 && e < e'
    ensures Magnitude(e, f) < Magnitude(e', f')
  {
    MagnitudeBounds(e, f);
    MagnitudeBounds(e', f');
    PowersGrow(e, e' - 1);
    hide Magnitude, Power2;
  }

  /** Different fields, different magnitudes. */
  lemma MagnitudeIsInjective(e: nat, f: nat, e': nat, f': nat)
    requires f < TWO_52 && f' < TWO_52 && Magnitude(e, f) == Magnitude(e', f')
    ensures e == e' && f == f'
  {
    if e < e' {
      LargerExponent(e, f, e', f');
    } else if e' < e {
      LargerExponent(e', f', e, f);
    } else if e > 0 {
      PowersGrow(0, e - 1);
      var p := Power2(e - 1);
      hide Power2;
      assert (TWO_52 + f) * p == (TWO_52 + f') * p;
      Cancelled(TWO_52 + f, TWO_52 + f', p);
    }
  }

  lemma Cancelled(a: nat, b: nat, p: nat)
    requires a * p == b * p && p > 0
    ensures a == b
  {
    assert (a - b) * p == 0;
  }

  lemma ZeroMagnitude(e: nat, f: nat)
    requires f < TWO_52
    ensures Magnitude(e, f) == 0 <==> e == 0 && f == 0
  {
    if Magnitude(e, f) == 0 {
      MagnitudeIsInjective(e, f, 0, 0);
    }
  }

  /** Doubles are equal exactly when they stand for the same number, zero being one number; a NaN stands for none. */
  lemma DoublesAsNumbers(x: UInt64, y: UInt64)
    ensures IsNan(x) <==> NumberOf(x) == NotANumber
    ensures DoubleEqual(x, y) <==> NumberOf(x) != NotANumber && NumberOf(x) == NumberOf(y)
  {
    Fields64(x);
    Fields64(y);
    var e, f, e', f' := x / TWO_52 % 2048, x % TWO_52, y / TWO_52 % 2048, y % TWO_52;
    ZeroMagnitude(e, f);
    ZeroMagnitude(e', f');
    if Magnitude(e, f) == Magnitude(e', f') {
      MagnitudeIsInjective(e, f, e', f');
    }
    hide Magnitude;
  }

  // ---- Trees ----

  ghost predicate Same(a: Value, b: Value)
    decreases a
  {
    match a
    case Double(x) => b.Double? && DoubleEqual(x, b.bits)
    case Obj(fields) => b.Obj? && SameFields(fields, b.fields)
    case Arr(elements) => b.Arr? && SameElements(elements, b.elements)
    case _ => a == b
  }

  ghost predicate SameFields(a: Fields, b: Fields)
    decreases a
  {
    |a| == |b| && forall i :: 0 <= i < |a| ==> a[i].key == b[i].key && (Smaller(a, i); Same(a[i].value, b[i].value))
  }

  ghost predicate SameElements(a: seq<Value>, b: seq<Value>)
    decreases a
  {
    |a| == |b| && forall i :: 0 <= i < |a| ==> Same(a[i], b[i])
  }

  method ValueEqual(a: Value, b: Value) returns (equal: bool)
    ensures equal == Same(a, b)
    decreases a
  {
    match a {
      case Double(x) =>
        if !b.Double? {
          return false;
        }
        equal := DoubleEqual(x, b.bits);
      case Obj(fields) =>
        if !b.Obj? {
          return false;
        }
        equal := ObjectEqual(fields, b.fields);
      case Arr(elements) =>
        if !b.Arr? || |elements| != |b.elements| {
          return false;
        }
        for i := 0 to |elements|
          invariant forall j :: 0 <= j < i ==> Same(elements[j], b.elements[j])
        {
          var same := ValueEqual(elements[i], b.elements[i]);
          if !same {
            return false;
          }
        }
        equal := true;
      case _ =>
        equal := a == b;
    }
  }

  /** Entries in their order, as FiFoMap keeps them. */
  method ObjectEqual(a: Fields, b: Fields) returns (equal: bool)
    ensures equal == SameFields(a, b)
    decreases a
  {
    if |a| != |b| {
      return false;
    }
    for i := 0 to |a|
      invariant forall j :: 0 <= j < i ==> a[j].key == b[j].key && (Smaller(a, j); Same(a[j].value, b[j].value))
    {
      if a[i].key != b[i].key {
        return false;
      }
      Smaller(a, i);
      var same := ValueEqual(a[i].value, b[i].value);
      if !same {
        return false;
      }
    }
    equal := true;
  }

  // ---- What equality means ----

  ghost predicate NanFree(v: Value) {
    match v
    case Double(bits) => !IsNan(bits)
    case Obj(fields) => forall i :: 0 <= i < |fields| ==> (Smaller(fields, i); NanFree(fields[i].value))
    case Arr(elements) => forall i :: 0 <= i < |elements| ==> NanFree(elements[i])
    case _ => true
  }

  /** The tree with each negative zero made positive. */
  function OneZero(v: Value): Value
    decreases v, 1
  {
    match v
    case Double(bits) => if bits == TWO_63 then Double(0) else v
    case Obj(fields) => Obj(OneZeroFields(fields))
    case Arr(elements) => Arr(OneZeroElements(elements))
    case _ => v
  }

  function OneZeroFields(fields: Fields): (r: Fields)
    ensures |r| == |fields|
    ensures forall i :: 0 <= i < |fields| ==> (Smaller(fields, i); r[i] == Entry(fields[i].key, OneZero(fields[i].value)))
    decreases fields, 0
  {
    if fields == [] then []
    else
      Smaller(fields, 0);
      [Entry(fields[0].key, OneZero(fields[0].value))] + OneZeroFields(fields[1..])
  }

  function OneZeroElements(elements: seq<Value>): (r: seq<Value>)
    ensures |r| == |elements|
    ensures forall i :: 0 <= i < |elements| ==> r[i] == OneZero(elements[i])
    decreases elements, 0
  {
    if elements == [] then [] else [OneZero(elements[0])] + OneZeroElements(elements[1..])
  }

  lemma DoublesEqual(x: UInt64, y: UInt64)
    ensures DoubleEqual(x, y) <==> !IsNan(x) && OneZero(Double(x)) == OneZero(Double(y))
  {}

  /** Two trees are equal exactly when they hold no NaN and differ at most in the signs of zeros. */
  lemma {:induction false} EqualityMeans(a: Value, b: Value)
    ensures Same(a, b) <==> NanFree(a) && OneZero(a) == OneZero(b)
    decreases a
  {
    match a
    case Double(x) =>
      if b.Double? {
        DoublesEqual(x, b.bits);
      }
    case Obj(fields) =>
      if b.Obj? && |fields| == |b.fields| {
        FieldsEqualityMeans(fields, b.fields);
      }
    case Arr(elements) =>
      if b.Arr? && |elements| == |b.elements| {
        ElementsEqualityMeans(elements, b.elements);
      }
    case _ =>
  }

  lemma {:induction false} FieldsEqualityMeans(a: Fields, b: Fields)
    requires |a| == |b|
    ensures SameFields(a, b) <==> NanFree(Obj(a)) && OneZeroFields(a) == OneZeroFields(b)
    decreases a
  {
    forall i | 0 <= i < |a|
      ensures a decreases to a[i].value
      ensures Same(a[i].value, b[i].value) <==> NanFree(a[i].value) && OneZero(a[i].value) == OneZero(b[i].value)
    {
      Smaller(a, i);
      EqualityMeans(a[i].value, b[i].value);
    }
    forall i | 0 <= i < |b|
      ensures b decreases to b[i].value
    {
      Smaller(b, i);
    }
    if OneZeroFields(a) == OneZeroFields(b) {
      assert forall i :: 0 <= i < |a| ==> OneZeroFields(a)[i] == OneZeroFields(b)[i];
    }
  }

  lemma {:induction false} ElementsEqualityMeans(a: seq<Value>, b: seq<Value>)
    requires |a| == |b|
    ensures SameElements(a, b) <==> NanFree(Arr(a)) && OneZeroElements(a) == OneZeroElements(b)
    decreases a
  {
    forall i | 0 <= i < |a|
      ensures Same(a[i], b[i]) <==> NanFree(a[i]) && OneZero(a[i]) == OneZero(b[i])
    {
      EqualityMeans(a[i], b[i]);
    }
    if OneZeroElements(a) == OneZeroElements(b) {
      assert forall i :: 0 <= i < |a| ==> OneZeroElements(a)[i] == OneZeroElements(b)[i];
    }
  }

  /** So it is symmetric and transitive, and a tree equals itself exactly when it holds no NaN. */
  lemma EqualityLaws(a: Value, b: Value, c: Value)
    ensures Same(a, a) <==> NanFree(a)
    ensures Same(a, b) ==> Same(b, a)
    ensures Same(a, b) && Same(b, c) ==> Same(a, c)
  {
    EqualityMeans(a, a);
    EqualityMeans(a, b);
    EqualityMeans(b, a);
    EqualityMeans(b, c);
    EqualityMeans(a, c);
    if Same(a, b) {
      NanFreeFollows(a, b);
    }
  }

  lemma {:induction false} NanFreeFollows(a: Value, b: Value)
    requires Same(a, b)
    ensures NanFree(b)
    decreases a
  {
    match a
    case Obj(fields) =>
      forall i | 0 <= i < |b.fields|
        ensures b.fields decreases to b.fields[i].value
        ensures NanFree(b.fields[i].value)
      {
        Smaller(fields, i);
        Smaller(b.fields, i);
        NanFreeFollows(fields[i].value, b.fields[i].value);
      }
    case Arr(elements) =>
      forall i | 0 <= i < |elements|
        ensures NanFree(b.elements[i])
      {
        NanFreeFollows(elements[i], b.elements[i]);
      }
    case _ =>
  }
}
