/**
 * The UTF-8 table shared by the JSON printer and the JSON parser (src/io/Json.cpp), and
 * the replacement of malformed bytes by U+FFFD.
 *
 * The masks and shifts of the source are written as divisions and remainders;
 * `LeadMasks` and `ContinuationBits` show in bit-vector arithmetic that they are the same.
 */
module Utf8 {
  import opened ByteStrings

  datatype LeadInfo = LeadInfo(extraBytes: int, lowBound: Byte, highBound: Byte)

  const INVALID_LEAD := LeadInfo(-1, 0x80, 0xBF)

  /** How many continuation bytes a lead byte asks for (-1: not a multi-byte lead), and the bounds of the first. */
  function ClassifyLead(first: Byte): LeadInfo {
    if first / 32 == 6 then                    // (first & 0xE0) == 0xC0
      if first < 0xC2 then INVALID_LEAD else LeadInfo(1, 0x80, 0xBF)
    else if first / 16 == 14 then              // (first & 0xF0) == 0xE0
      LeadInfo(2, if first == 0xE0 then 0xA0 else 0x80, if first == 0xED then 0x9F else 0xBF)
    else if first / 8 == 30 then               // (first & 0xF8) == 0xF0
      if first > 0xF4 then INVALID_LEAD
      else LeadInfo(3, if first == 0xF0 then 0x90 else 0x80, if first == 0xF4 then 0x8F else 0xBF)
    else INVALID_LEAD
  }

  lemma LeadMasks(first: bv8)
    ensures first & 0xE0 == 0xC0 <==> first / 32 == 6
    ensures first & 0xF0 == 0xE0 <==> first / 16 == 14
    ensures first & 0xF8 == 0xF0 <==> first / 8 == 30
  {}

  lemma ContinuationBits(cp: bv32)
    ensures 0x80 | (cp & 0x3F) == 0x80 + cp % 64
    ensures cp >> 6 == cp / 64 && cp >> 12 == cp / 4096 && cp >> 18 == cp / 262144
    ensures cp <= 0x7FF ==> 0xC0 | (cp >> 6) == 0xC0 + cp / 64
    ensures cp <= 0xFFFF ==> 0xE0 | (cp >> 12) == 0xE0 + cp / 4096
    ensures cp <= 0x10FFFF ==> 0xF0 | (cp >> 18) == 0xF0 + cp / 262144
  {}

  /** A byte at position i > 0 of a sequence lies within the bounds its lead byte sets. */
  predicate ContinuationOk(info: LeadInfo, i: nat, b: Byte) {
    (if i == 1 then info.lowBound else 0x80) <= b <= (if i == 1 then info.highBound else 0xBF)
  }

  /** The length of the well-formed sequence `s` starts with; 0 when it starts with none. */
  function SequenceLength(s: Bytes): (n: nat)
    requires s != []
    ensures n <= |s|
  {
    if s[0] < 0x80 then 1
    else
      var info := ClassifyLead(s[0]);
      if info.extraBytes < 0 || 1 + info.extraBytes > |s| then 0
      else if forall i :: 1 <= i <= info.extraBytes ==> ContinuationOk(info, i, s[i]) then 1 + info.extraBytes
      else 0
  }

  /** Exactly one well-formed sequence. */
  predicate IsChar(c: Bytes) {
    c != [] && SequenceLength(c) == |c|
  }

  predicate Valid(s: Bytes) {
    s == [] || (SequenceLength(s) > 0 && Valid(s[SequenceLength(s)..]))
  }

  lemma CharPrefix(c: Bytes, rest: Bytes)
    requires IsChar(c)
    ensures SequenceLength(c + rest) == |c|
    ensures (c + rest)[..|c|] == c && (c + rest)[|c|..] == rest
  {
    assert forall i :: 0 <= i < |c| ==> (c + rest)[i] == c[i];
  }

  lemma PrefixIsChar(s: Bytes)
    requires s != [] && SequenceLength(s) > 0
    ensures IsChar(s[..SequenceLength(s)])
  {}

  // ---- Code points ----

  predicate IsScalar(cp: int) {
    0 <= cp <= 0x10FFFF && !(0xD800 <= cp <= 0xDFFF)
  }

  /** What appendUtf8 appends for a code point. */
  function EncodeChar(cp: int): Bytes
    requires 0 <= cp <= 0x10FFFF
  {
    if cp <= 0x7F then [cp]
    else if cp <= 0x7FF then [0xC0 + cp / 64, 0x80 + cp % 64]
    else if cp <= 0xFFFF then [0xE0 + cp / 4096, 0x80 + cp / 64 % 64, 0x80 + cp % 64]
    else [0xF0 + cp / 262144, 0x80 + cp / 4096 % 64, 0x80 + cp / 64 % 64, 0x80 + cp % 64]
  }

  /** The payload of a continuation byte. */
  function Low6(b: int): int { b - 0x80 }

  /** The code point a well-formed sequence stands for (section 3 of RFC 3629). */
  function DecodeChar(c: Bytes): int
    requires IsChar(c)
  {
    var lead: int := c[0];
    if |c| == 1 then lead
    else if |c| == 2 then (lead - 0xC0) * 64 + Low6(c[1])
    else if |c| == 3 then (lead - 0xE0) * 4096 + Low6(c[1]) * 64 + Low6(c[2])
    else (lead - 0xF0) * 262144 + Low6(c[1]) * 4096 + Low6(c[2]) * 64 + Low6(c[3])
  }

  /** A code point from its base-64 digits. */
  lemma Base64Digits(cp: nat)
    ensures cp / 4096 == cp / 64 / 64 && cp / 262144 == cp / 64 / 64 / 64
  {}

  /** One lead byte asks for |c| - 1 bytes, and each of them is within its bounds. */
  lemma MultiByte(c: Bytes)
    requires c != [] && c[0] >= 0x80
    ensures IsChar(c) <==>
              var info := ClassifyLead(c[0]);
              |c| == 1 + info.extraBytes && forall i :: 1 <= i < |c| ==> ContinuationOk(info, i, c[i])
  {}

  /** appendUtf8 maps the scalar values one to one into the sequences the table accepts ... */
  lemma EncodeIsChar(cp: int)
    requires 0 <= cp <= 0x10FFFF
    ensures IsChar(EncodeChar(cp)) <==> IsScalar(cp)
    ensures IsScalar(cp) ==> DecodeChar(EncodeChar(cp)) == cp
  {
    Base64Digits(cp);
    if cp > 0x7F {
      var c := EncodeChar(cp);
      MultiByte(c);
      assert forall i :: 2 <= i < |c| ==> ContinuationOk(ClassifyLead(c[0]), i, c[i]);
      assert ContinuationOk(ClassifyLead(c[0]), 1, c[1]) <==> IsScalar(cp) by {
        if cp <= 0x7FF {
        } else if cp <= 0xFFFF {
        } else {
        }
      }
    }
  }

  /** The base-64 digits of a number put together from digits. */
  lemma FromBase64(q: nat, d2: nat, d1: nat, d0: nat)
    requires d2 < 64 && d1 < 64 && d0 < 64
    ensures var cp := q * 262144 + d2 * 4096 + d1 * 64 + d0;
            cp / 262144 == q && cp / 4096 == q * 64 + d2 && cp / 4096 % 64 == d2 && cp / 64 % 64 == d1 && cp % 64 == d0
  {
    var cp := q * 262144 + d2 * 4096 + d1 * 64 + d0;
    Base64Digits(cp);
    assert cp / 64 == q * 4096 + d2 * 64 + d1;
    assert cp / 64 / 64 == q * 64 + d2;
  }

  lemma TwoBytes(lead: Byte, b1: Byte)
    requires 0xC2 <= lead <= 0xDF && 0x80 <= b1 <= 0xBF
    ensures var cp := (lead as int - 0xC0) * 64 + Low6(b1);
            0x80 <= cp <= 0x7FF && EncodeChar(cp) == [lead, b1]
  {
    FromBase64(0, 0, lead as int - 0xC0, Low6(b1));
  }

  lemma ThreeBytes(lead: Byte, b1: Byte, b2: Byte)
    requires 0xE0 <= lead <= 0xEF && 0x80 <= b1 <= 0xBF && 0x80 <= b2 <= 0xBF
    requires lead == 0xE0 ==> b1 >= 0xA0
    requires lead == 0xED ==> b1 <= 0x9F
    ensures var cp := (lead as int - 0xE0) * 4096 + Low6(b1) * 64 + Low6(b2);
            0x800 <= cp <= 0xFFFF && IsScalar(cp) && EncodeChar(cp) == [lead, b1, b2]
  {
    FromBase64(0, lead as int - 0xE0, Low6(b1), Low6(b2));
  }

  lemma FourBytes(lead: Byte, b1: Byte, b2: Byte, b3: Byte)
    requires 0xF0 <= lead <= 0xF4 && 0x80 <= b1 <= 0xBF && 0x80 <= b2 <= 0xBF && 0x80 <= b3 <= 0xBF
    requires lead == 0xF0 ==> b1 >= 0x90
    requires lead == 0xF4 ==> b1 <= 0x8F
    ensures var cp := (lead as int - 0xF0) * 262144 + Low6(b1) * 4096 + Low6(b2) * 64 + Low6(b3);
            0x10000 <= cp && IsScalar(cp) && EncodeChar(cp) == [lead, b1, b2, b3]
  {
    FromBase64(lead as int - 0xF0, Low6(b1), Low6(b2), Low6(b3));
  }

  /** ... and onto them: a sequence is accepted exactly when it encodes a scalar value. */
  lemma CharIsEncoded(c: Bytes)
    requires IsChar(c)
    ensures IsScalar(DecodeChar(c)) && EncodeChar(DecodeChar(c)) == c
  {
    if c[0] >= 0x80 {
      MultiByte(c);
      hide EncodeChar, SequenceLength;
      var info := ClassifyLead(c[0]);
      assert ContinuationOk(info, 1, c[1]);
      if |c| == 2 {
        TwoBytes(c[0], c[1]);
      } else if |c| == 3 {
        assert ContinuationOk(info, 2, c[2]);
        ThreeBytes(c[0], c[1], c[2]);
      } else {
        assert ContinuationOk(info, 2, c[2]) && ContinuationOk(info, 3, c[3]);
        FourBytes(c[0], c[1], c[2], c[3]);
      }
    }
  }

  // ---- Replacement of malformed bytes ----

  const REPLACEMENT: Bytes := [0xEF, 0xBF, 0xBD]

  /** Malformed bytes become U+FFFD, one for each byte; everything else is kept. */
  function Sanitise(s: Bytes): Bytes {
    if s == [] then []
    else
      var n := SequenceLength(s);
      if n > 0 then s[..n] + Sanitise(s[n..]) else REPLACEMENT + Sanitise(s[1..])
  }

  lemma ReplacementIsChar()
    ensures IsChar(REPLACEMENT) && EncodeChar(0xFFFD) == REPLACEMENT
  {
    EncodeIsChar(0xFFFD);
  }

  lemma {:induction false} SanitiseIsValid(s: Bytes)
    ensures Valid(Sanitise(s))
  {
    if s != [] {
      var n := SequenceLength(s);
      if n > 0 {
        SanitiseIsValid(s[n..]);
        PrefixIsChar(s);
        CharPrefix(s[..n], Sanitise(s[n..]));
      } else {
        SanitiseIsValid(s[1..]);
        ReplacementIsChar();
        CharPrefix(REPLACEMENT, Sanitise(s[1..]));
      }
    }
  }

  /** Sanitising changes nothing exactly when the string was valid UTF-8; so it is idempotent. */
  lemma {:induction false} SanitiseIdentity(s: Bytes)
    ensures Sanitise(s) == s <==> Valid(s)
    ensures Sanitise(Sanitise(s)) == Sanitise(s)
  {
    SanitiseIsValid(s);
    ValidUnchanged(Sanitise(s));
    if Valid(s) {
      ValidUnchanged(s);
    }
  }

  lemma {:induction false} ValidUnchanged(s: Bytes)
    requires Valid(s)
    ensures Sanitise(s) == s
  {
    if s != [] {
      ValidUnchanged(s[SequenceLength(s)..]);
    }
  }
}
