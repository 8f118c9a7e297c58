/**
 * What the tokens of a JSON text stand for, in terms of their own: the UTF-16 units and hex digits of
 * the \u escapes (section 7 of RFC 8259), the two-character escapes, the places of decimal digits.
 * Nothing here is defined by the functions that read or print them.
 */
module JsonTokens {
  import opened ByteStrings
  import opened Utf8
  import opened FiFoMaps
  import opened Values
  import opened JsonWriter
  import opened JsonReading

  // ---- Characters ----

  /** The bytes the printer and the parser are written with. */
  lemma Characters(c: Byte)
    ensures NULL_TEXT == ['n' as int, 'u' as int, 'l' as int, 'l' as int]
    ensures TRUE_TEXT == ['t' as int, 'r' as int, 'u' as int, 'e' as int]
    ensures FALSE_TEXT == ['f' as int, 'a' as int, 'l' as int, 's' as int, 'e' as int]
    ensures QUOTE == '"' as int && BACKSLASH == '\\' as int && COMMA == ',' as int && COLON == ':' as int
    ensures LBRACE == '{' as int && RBRACE == '}' as int && LBRACKET == '[' as int && RBRACKET == ']' as int
    ensures MINUS == '-' as int && ZERO == '0' as int && SPACE == ' ' as int && NEWLINE == '\n' as int
    ensures IsWs(c) <==> c == ' ' as int || c == '\t' as int || c == '\r' as int || c == '\n' as int
    ensures IsDigit(c) <==> '0' as int <= c <= '9' as int
    ensures MAX_NESTING_DEPTH == 128
  {}

  // ---- \u escapes ----

  /** The UTF-16 units of a scalar value (section 2.1 of RFC 2781). */
  function Units(cp: int): (units: seq<int>)
    requires IsScalar(cp)
    ensures forall i :: 0 <= i < |units| ==> 0 <= units[i] < 0x10000
  {
    if cp < 0x10000 then [cp] else [0xD800 + (cp - 0x10000) / 1024, 0xDC00 + (cp - 0x10000) % 1024]
  }

  function HexByte(d: int, upper: bool): Byte
    requires 0 <= d < 16
  {
    if d < 10 then '0' as int + d else (if upper then 'A' else 'a') as int + (d - 10)
  }

  /** Which of four digits are written in upper case. */
  type Cases = (bool, bool, bool, bool)

  /** \uXXXX. */
  function UnitText(unit: int, cases: Cases): Bytes
    requires 0 <= unit < 0x10000
  {
    ['\\' as int, 'u' as int,
     HexByte(unit / 4096, cases.0), HexByte(unit / 256 % 16, cases.1), HexByte(unit / 16 % 16, cases.2), HexByte(unit % 16, cases.3)]
  }

  /** A scalar value, and how its escapes are written. */
  datatype Escaped = Escaped(cp: int, first: Cases, second: Cases)

  function EscapeText(e: Escaped): Bytes
    requires IsScalar(e.cp)
  {
    var units := Units(e.cp);
    if |units| == 1 then UnitText(units[0], e.first) else UnitText(units[0], e.first) + UnitText(units[1], e.second)
  }

  lemma HexByteReads(d: int, upper: bool)
    requires 0 <= d < 16
    ensures HexVal(HexByte(d, upper)) == d
  {}

  lemma HexByteOnly(h: Byte)
    requires HexVal(h) >= 0
    ensures HexByte(HexVal(h), h < 0x61) == h
  {}

  lemma FourDigits(unit: int)
    requires 0 <= unit < 0x10000
    ensures 0 <= unit / 4096 < 16
    ensures ((unit / 4096 * 16 + unit / 256 % 16) * 16 + unit / 16 % 16) * 16 + unit % 16 == unit
  {
    assert unit / 256 == unit / 4096 * 16 + unit / 256 % 16;
    assert unit / 16 == unit / 256 * 16 + unit / 16 % 16;
  }

  lemma FromFourDigits(a: int, b: int, c: int, d: int)
    requires 0 <= a < 16 && 0 <= b < 16 && 0 <= c < 16 && 0 <= d < 16
    ensures var n := ((a * 16 + b) * 16 + c) * 16 + d;
            0 <= n < 0x10000 && n / 4096 == a && n / 256 % 16 == b && n / 16 % 16 == c && n % 16 == d
  {
    var n := ((a * 16 + b) * 16 + c) * 16 + d;
    assert n / 16 == (a * 16 + b) * 16 + c;
    assert n / 256 == a * 16 + b;
  }

  /** A unit's four digits are read as the unit ... */
  lemma UnitReads(unit: int, cases: Cases, rest: Bytes)
    requires 0 <= unit < 0x10000
    ensures var t := UnitText(unit, cases) + rest;
            t[0] == BACKSLASH && t[1] == 0x75 && ParseHex4(t[2..]) == Done(unit, rest)
  {
    FourDigits(unit);
    HexByteReads(unit / 4096, cases.0);
    HexByteReads(unit / 256 % 16, cases.1);
    HexByteReads(unit / 16 % 16, cases.2);
    HexByteReads(unit % 16, cases.3);
    var h := UnitText(unit, cases)[2..];
    assert (UnitText(unit, cases) + rest)[2..] == h + rest;
    hide HexByte, HexVal;
    assert (h + rest)[..4] == h && (h + rest)[4..] == rest;
  }

  /** ... and nothing else is. */
  lemma UnitOnly(t: Bytes) returns (cases: Cases)
    requires |t| >= 2 && t[0] == BACKSLASH && t[1] == 0x75 && ParseHex4(t[2..]).Done?
    ensures var unit := ParseHex4(t[2..]).value;
            0 <= unit < 0x10000 && t == UnitText(unit, cases) + ParseHex4(t[2..]).rest
  {
    var h := t[2..][..4];
    cases := (h[0] < 0x61, h[1] < 0x61, h[2] < 0x61, h[3] < 0x61);
    HexByteOnly(h[0]);
    HexByteOnly(h[1]);
    HexByteOnly(h[2]);
    HexByteOnly(h[3]);
    assert HexVal(h[0]) < 16 && HexVal(h[1]) < 16 && HexVal(h[2]) < 16 && HexVal(h[3]) < 16;
    FromFourDigits(HexVal(h[0]), HexVal(h[1]), HexVal(h[2]), HexVal(h[3]));
    hide HexByte, HexVal;
    assert UnitText(Hex4Value(h), cases) == [t[0], t[1]] + h;
  }

  lemma HalvesOfPair(cp: int)
    requires 0x10000 <= cp <= 0x10FFFF
    ensures var high, low := 0xD800 + (cp - 0x10000) / 1024, 0xDC00 + (cp - 0x10000) % 1024;
            IsHighSurrogate(high) && IsLowSurrogate(low) && SurrogatePair(high, low) == cp
  {}

  lemma PairOfHalves(high: int, low: int)
    requires IsHighSurrogate(high) && IsLowSurrogate(low)
    ensures Units(SurrogatePair(high, low)) == [high, low]
  {}

  /** Every scalar value, escaped by its units with digits in either case, is read as its UTF-8 encoding. */
  lemma EscapeReads(e: Escaped, rest: Bytes)
    requires IsScalar(e.cp)
    ensures var t := EscapeText(e) + rest;
            t[0] == BACKSLASH && ParseStringStep(t) == Done(EncodeChar(e.cp), rest)
    ensures IsChar(EncodeChar(e.cp)) && DecodeChar(EncodeChar(e.cp)) == e.cp
  {
    EncodeIsChar(e.cp);
    hide EncodeChar, SequenceLength, DecodeChar, ParseHex4, UnitText;
    var t := EscapeText(e) + rest;
    if e.cp < 0x10000 {
      UnitReads(e.cp, e.first, rest);
      assert t[1..][1..] == t[2..];
    } else {
      HalvesOfPair(e.cp);
      var high, low := Units(e.cp)[0], Units(e.cp)[1];
      var tail := UnitText(low, e.second) + rest;
      Assoc(UnitText(high, e.first), UnitText(low, e.second), rest);
      UnitReads(high, e.first, tail);
      UnitReads(low, e.second, rest);
      assert t[1..][1..] == t[2..];
    }
  }

  /** And no \u escape is read that is not one of these: a surrogate without its other half is refused. */
  lemma EscapeOnly(t: Bytes) returns (e: Escaped)
    requires |t| >= 2 && t[0] == BACKSLASH && t[1] == 0x75 && ParseStringStep(t).Done?
    ensures IsScalar(e.cp) && t == EscapeText(e) + ParseStringStep(t).rest && ParseStringStep(t).value == EncodeChar(e.cp)
  {
    assert t[1..][1..] == t[2..];
    var unit, r := ParseHex4(t[2..]).value, ParseHex4(t[2..]).rest;
    var first := UnitOnly(t);
    hide EncodeChar, SequenceLength, ParseHex4, UnitText;
    if IsHighSurrogate(unit) {
      var second := UnitOnly(r);
      var low := ParseHex4(r[2..]).value;
      PairOfHalves(unit, low);
      e := Escaped(SurrogatePair(unit, low), first, second);
      Assoc(UnitText(unit, first), UnitText(low, second), ParseHex4(r[2..]).rest);
    } else {
      e := Escaped(unit, first, first);
    }
  }

  function EscapesText(es: seq<Escaped>, rest: Bytes): Bytes
    requires forall i :: 0 <= i < |es| ==> IsScalar(es[i].cp)
  {
    if es == [] then rest else EscapeText(es[0]) + EscapesText(es[1..], rest)
  }

  function Encoded(es: seq<Escaped>): Bytes
    requires forall i :: 0 <= i < |es| ==> IsScalar(es[i].cp)
  {
    if es == [] then []
    else
      assert IsScalar(es[0].cp);
      EncodeChar(es[0].cp) + Encoded(es[1..])
  }

  lemma {:induction false} EscapesRead(es: seq<Escaped>, out: Bytes, rest: Bytes)
    requires forall i :: 0 <= i < |es| ==> IsScalar(es[i].cp)
    ensures ParseStringBody(EscapesText(es, [QUOTE] + rest), out) == Done(out + Encoded(es), rest)
    decreases es
  {
    if es == [] {
      assert out + [] == out;
    } else {
      EscapeReads(es[0], EscapesText(es[1..], [QUOTE] + rest));
      hide EscapeText, EncodeChar, ParseStringStep;
      EscapesRead(es[1..], out + EncodeChar(es[0].cp), rest);
      Assoc(out, EncodeChar(es[0].cp), Encoded(es[1..]));
    }
  }

  /** A string of such escapes is read as the UTF-8 encodings, one after the other, leaving what follows. */
  lemma EscapedStringReads(es: seq<Escaped>, rest: Bytes)
    requires forall i :: 0 <= i < |es| ==> IsScalar(es[i].cp)
    ensures ParseString([QUOTE] + EscapesText(es, [QUOTE] + rest)) == Done(Encoded(es), rest)
  {
    var body := EscapesText(es, [QUOTE] + rest);
    EscapesRead(es, [], rest);
    hide EscapesText, ParseStringBody, Encoded;
    assert ([QUOTE] + body)[1..] == body && [] + Encoded(es) == Encoded(es);
    assert SkipWs([QUOTE] + body) == [QUOTE] + body;
  }

  // ---- Two-character escapes ----

  /** The letters after a backslash, and the bytes they stand for, in the same order. */
  const SHORT_LETTERS := "\"\\/bfnrt"
  const SHORT_BYTES: Bytes := [0x22, 0x5C, 0x2F, 0x08, 0x0C, 0x0A, 0x0D, 0x09]

  /** Exactly these are read. */
  lemma ShortEscapesRead(letter: Byte, rest: Bytes)
    requires letter != 'u' as int
    ensures var r := ParseStringStep([BACKSLASH, letter] + rest);
            && (forall k :: 0 <= k < 8 && letter == SHORT_LETTERS[k] as int ==> r == Done([SHORT_BYTES[k]], rest))
            && ((forall k :: 0 <= k < 8 ==> letter != SHORT_LETTERS[k] as int) ==> r == Fail)
  {
    var t := [BACKSLASH, letter] + rest;
    assert t[1..] == [letter] + rest && t[1..][1..] == rest;
    assert letter == SHORT_LETTERS[0] as int || letter == SHORT_LETTERS[1] as int || letter == SHORT_LETTERS[2] as int
           || letter == SHORT_LETTERS[3] as int || letter == SHORT_LETTERS[4] as int || letter == SHORT_LETTERS[5] as int
           || letter == SHORT_LETTERS[6] as int || letter == SHORT_LETTERS[7] as int || Unescape(letter).None?;
  }

  /** The printer writes these, a slash as itself, and any other control byte as a \u escape. */
  lemma AsciiPrinted(c: Byte, rest: Bytes)
    requires c < 0x80
    ensures var text := EscapeStep([c] + rest);
            && StepLength([c] + rest) == 1
            && (forall k :: 0 <= k < 8 && k != 2 && c == SHORT_BYTES[k] ==> text == [BACKSLASH, SHORT_LETTERS[k] as int])
            && (c < 0x20 && c !in SHORT_BYTES ==> text == EscapeText(Escaped(c, (false, false, false, false), (false, false, false, false))))
            && (c >= 0x20 && c != QUOTE && c != BACKSLASH ==> text == [c])
  {
    assert c == SHORT_BYTES[3] || c == SHORT_BYTES[4] || c == SHORT_BYTES[5] || c == SHORT_BYTES[6] || c == SHORT_BYTES[7] ==> c in SHORT_BYTES;
  }

  // ---- Decimal digits ----

  function Power10(k: nat): nat {
    if k == 0 then 1 else 10 * Power10(k - 1)
  }

  /** Each digit counts by its place, the first one most. */
  function PlaceValue(ds: Bytes): nat
    requires AllDigits(ds)
  {
    if ds == [] then 0 else (ds[0] - '0' as int) * Power10(|ds| - 1) + PlaceValue(ds[1..])
  }

  lemma OnePlaceUp(first: int, p: int, middle: int, last: int)
    ensures first * (10 * p) + (middle * 10 + last) == (first * p + middle) * 10 + last
  {}

  lemma {:induction false} PlaceOfLast(ds: Bytes)
    requires AllDigits(ds) && ds != []
    ensures PlaceValue(ds) == PlaceValue(ds[..|ds| - 1]) * 10 + (ds[|ds| - 1] - '0' as int)
  {
    var init: Bytes, last: int := ds[..|ds| - 1], ds[|ds| - 1] - 0x30;
    if |ds| == 1 {
      assert PlaceValue(ds[1..]) == 0 && Power10(0) == 1;
    } else {
      var first: int, p := ds[0] - 0x30, Power10(|ds| - 2);
      PlaceOfLast(ds[1..]);
      assert ds[1..][..|ds| - 2] == init[1..];
      assert PlaceValue(init) == first * p + PlaceValue(init[1..]);
      assert PlaceValue(ds) == first * (10 * p) + PlaceValue(ds[1..]);
      hide PlaceValue, Power10;
      OnePlaceUp(first, p, PlaceValue(init[1..]), last);
    }
  }

  lemma {:induction false} DigitsByPlace(ds: Bytes)
    requires AllDigits(ds)
    ensures DigitsValue(ds) == PlaceValue(ds)
  {
    if ds != [] {
      DigitsByPlace(ds[..|ds| - 1]);
      PlaceOfLast(ds);
    }
  }

  /** An integer token has the value of its digits by their places, negated after a minus; none when that is no int64. */
  lemma IntegerByPlace(negative: bool, ds: Bytes)
    requires AllDigits(ds) && ds != []
    ensures var n: int := if negative then 0 - PlaceValue(ds) else PlaceValue(ds);
            IntegerValue((if negative then ['-' as int] else []) + ds) ==
            if -0x8000_0000_0000_0000 <= n <= 0x7FFF_FFFF_FFFF_FFFF then Some(I64(n)) else None
  {
    DigitsByPlace(ds);
    var token := (if negative then ['-' as int] else []) + ds;
    if negative {
      assert token[0] == MINUS && token[1..] == ds;
    } else {
      assert token == ds && IsDigit(ds[0]);
    }
  }

  // ---- Line breaks ----

  /** A line feed, and so many spaces. */
  function NewLine(spaces: nat): (r: Bytes)
    ensures |r| == 1 + spaces && r[0] == '\n' as int && forall i :: 1 <= i < |r| ==> r[i] == ' ' as int
  {
    if spaces == 0 then ['\n' as int] else NewLine(spaces - 1) + [' ' as int]
  }

  /** Printed compactly nothing separates the tokens; else each level of nesting is set in by `indent` spaces. */
  lemma LineBreaks(indent: int, depth: nat)
    ensures indent < 0 ==> Break(indent, depth) == [] && AfterColon(indent) == []
    ensures indent >= 0 ==> 0 <= indent * depth && Break(indent, depth) == NewLine(indent * depth) && AfterColon(indent) == [' ' as int]
  {
    if indent >= 0 {
      var spaces := indent * depth;
      assert spaces == 0 || (indent > 0 && depth > 0);
      assert |NlIndent(indent, depth)| == 1 + spaces;
    }
  }
}
