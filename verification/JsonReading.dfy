/**
 * What the JSON parser of src/io/Json.cpp reads, as functions from the remaining text to a
 * result and the text left over. `JsonParser` moves a cursor instead and agrees with these.
 */
module JsonReading {
  import opened ByteStrings
  import opened Utf8
  import opened FiFoMaps
  import opened Values
  import opened JsonWriter

  datatype Parsed<+T> = Fail | Done(value: T, rest: Bytes)

  /** The library's reading of a floating-point token; None when out of range. Not modelled further. */
  type Strtod = Bytes -> Option<UInt64>

  /** The byte at the cursor, 0 at the end. */
  function Peek(t: Bytes): Byte {
    if t == [] then 0 else t[0]
  }

  predicate IsWs(c: Byte) {
    c == 0x20 || c == 0x09 || c == 0x0A || c == 0x0D
  }

  predicate IsDigit(c: Byte) {
    0x30 <= c <= 0x39
  }

  function SkipWs(t: Bytes): (r: Bytes)
    ensures |r| <= |t| && !IsWs(Peek(r))
  {
    if IsWs(Peek(t)) then SkipWs(t[1..]) else t
  }

  function SkipDigits(t: Bytes): (r: Bytes)
    ensures |r| <= |t| && !IsDigit(Peek(r))
  {
    if IsDigit(Peek(t)) then SkipDigits(t[1..]) else t
  }

  /** White space, then the byte `c`. */
  function Expect(t: Bytes, c: Byte): (r: Parsed<()>)
    requires c != 0
    ensures r.Done? ==> |r.rest| < |t|
  {
    var u := SkipWs(t);
    if Peek(u) == c then Done((), u[1..]) else Fail
  }

  // ---- Strings ----

  function HexVal(h: Byte): int {
    if 0x30 <= h <= 0x39 then h - 0x30
    else if 0x41 <= h <= 0x46 then h - 0x41 + 10
    else if 0x61 <= h <= 0x66 then h - 0x61 + 10
    else -1
  }

  predicate IsHex4(h: Bytes) {
    |h| == 4 && HexVal(h[0]) >= 0 && HexVal(h[1]) >= 0 && HexVal(h[2]) >= 0 && HexVal(h[3]) >= 0
  }

  function Hex4Value(h: Bytes): (n: int)
    requires IsHex4(h)
    ensures 0 <= n <= 0xFFFF
  {
    ((HexVal(h[0]) * 16 + HexVal(h[1])) * 16 + HexVal(h[2])) * 16 + HexVal(h[3])
  }

  function ParseHex4(t: Bytes): Parsed<int> {
    if |t| < 4 || !IsHex4(t[..4]) then Fail else Done(Hex4Value(t[..4]), t[4..])
  }

  predicate IsHighSurrogate(cp: int) { 0xD800 <= cp <= 0xDBFF }
  predicate IsLowSurrogate(cp: int) { 0xDC00 <= cp <= 0xDFFF }

  function SurrogatePair(high: int, low: int): (cp: int)
    requires IsHighSurrogate(high) && IsLowSurrogate(low)
    ensures 0x10000 <= cp <= 0x10FFFF
  {
    0x10000 + (high - 0xD800) * 1024 + (low - 0xDC00)
  }

  /** The code point after `\u`. */
  function ParseUnicode(t: Bytes): Parsed<int> {
    match ParseHex4(t)
    case Fail => Fail
    case Done(cp, r) =>
      if IsHighSurrogate(cp) then
        if |r| >= 2 && r[0] == BACKSLASH && r[1] == 0x75 then
          match ParseHex4(r[2..])
          case Fail => Fail
          case Done(low, r') => if IsLowSurrogate(low) then Done(SurrogatePair(cp, low), r') else Fail
        else Fail
      else if IsLowSurrogate(cp) then Fail
      else Done(cp, r)
  }

  /** The byte a two-character escape stands for. */
  function Unescape(e: Byte): Option<Byte> {
    if e == QUOTE || e == BACKSLASH || e == 0x2F then Some(e)
    else if e == 0x62 then Some(0x08)
    else if e == 0x66 then Some(0x0C)
    else if e == 0x6E then Some(0x0A)
    else if e == 0x72 then Some(0x0D)
    else if e == 0x74 then Some(0x09)
    else None
  }

  /** After the backslash: the bytes the escape stands for. */
  function ParseEscape(t: Bytes): Parsed<Bytes> {
    if t == [] then Fail
    else if Unescape(t[0]).Some? then Done([Unescape(t[0]).value], t[1..])
    else if t[0] != 0x75 then Fail
    else
      match ParseUnicode(t[1..])
      case Fail => Fail
      case Done(cp, r) => Done(EncodeChar(cp), r)
  }

  /** One turn of the string loop that is not the closing quote. */
  function ParseStringStep(t: Bytes): (r: Parsed<Bytes>)
    requires t != []
    ensures r.Done? ==> |r.rest| < |t|
  {
    if t[0] < 0x20 then Fail
    else if t[0] == BACKSLASH then ParseEscape(t[1..])
    else
      var n := SequenceLength(t);
      if n == 0 then Fail else Done(t[..n], t[n..])
  }

  /** After the opening quote, `out` being what was read so far. */
  function ParseStringBody(t: Bytes, out: Bytes): (r: Parsed<Bytes>)
    ensures r.Done? ==> |r.rest| < |t|
    decreases |t|
  {
    if t == [] then Fail
    else if t[0] == QUOTE then Done(out, t[1..])
    else
      match ParseStringStep(t)
      case Fail => Fail
      case Done(b, r) => ParseStringBody(r, out + b)
  }

  function ParseString(t: Bytes): (r: Parsed<Bytes>)
    ensures r.Done? ==> |r.rest| < |t|
  {
    match Expect(t, QUOTE)
    case Fail => Fail
    case Done(_, r) => ParseStringBody(r, [])
  }

  // ---- Numbers ----

  function SkipMinus(t: Bytes): Bytes {
    if Peek(t) == MINUS then t[1..] else t
  }

  /** "0", or digits that do not start with 0. */
  function ScanInteger(t: Bytes): (r: Parsed<()>)
    ensures r.Done? ==> |r.rest| < |t|
  {
    if Peek(t) == ZERO then Done((), t[1..])
    else if IsDigit(Peek(t)) then Done((), SkipDigits(t[1..]))
    else Fail
  }

  function ScanDigits(t: Bytes): (r: Parsed<()>)
    ensures r.Done? ==> |r.rest| < |t|
  {
    if IsDigit(Peek(t)) then Done((), SkipDigits(t[1..])) else Fail
  }

  /** An optional fraction; whether there was one. */
  function ScanFraction(t: Bytes): (r: Parsed<bool>)
    ensures r.Done? ==> |r.rest| <= |t|
  {
    if Peek(t) == 0x2E then
      match ScanDigits(t[1..])
      case Fail => Fail
      case Done(_, r) => Done(true, r)
    else Done(false, t)
  }

  function SkipSign(t: Bytes): Bytes {
    if Peek(t) == 0x2B || Peek(t) == MINUS then t[1..] else t
  }

  /** An optional exponent; whether there was one. */
  function ScanExponent(t: Bytes): (r: Parsed<bool>)
    ensures r.Done? ==> |r.rest| <= |t|
  {
    if Peek(t) == 0x65 || Peek(t) == 0x45 then
      match ScanDigits(SkipSign(t[1..]))
      case Fail => Fail
      case Done(_, r) => Done(true, r)
    else Done(false, t)
  }

  /** A number token: whether it has a fraction or an exponent, and what follows it. */
  function ScanNumber(t: Bytes): (r: Parsed<bool>)
    ensures r.Done? ==> |r.rest| < |t|
  {
    match ScanInteger(SkipMinus(t))
    case Fail => Fail
    case Done(_, r1) =>
      match ScanFraction(r1)
      case Fail => Fail
      case Done(fraction, r2) =>
        match ScanExponent(r2)
        case Fail => Fail
        case Done(exponent, r3) => Done(fraction || exponent, r3)
  }

  /** The number a string of decimal digits stands for. */
  function DigitsValue(ds: Bytes): nat
    requires AllDigits(ds)
  {
    if ds == [] then 0
    else
      var last: int := ds[|ds| - 1];
      DigitsValue(ds[..|ds| - 1]) * 10 + (last - ZERO)
  }

  predicate AllDigits(ds: Bytes) {
    forall i :: 0 <= i < |ds| ==> IsDigit(ds[i])
  }

  /** from_chars on an integer token: None when the number is not a 64-bit one. */
  function IntegerValue(token: Bytes): Option<Value> {
    var negative := Peek(token) == MINUS;
    var digits := SkipMinus(token);
    if !AllDigits(digits) then None
    else
      var n: int := if negative then 0 - DigitsValue(digits) else DigitsValue(digits);
      if -TWO_63 <= n < TWO_63 then Some(I64(n)) else None
  }

  function NumberValue(token: Bytes, isFloat: bool, strtod: Strtod): Option<Value> {
    if !isFloat then IntegerValue(token)
    else
      match strtod(token)
      case None => None
      case Some(bits) => Some(Double(bits))
  }

  function ParseNumber(t: Bytes, strtod: Strtod): (r: Parsed<Value>)
    ensures r.Done? ==> |r.rest| < |t|
  {
    match ScanNumber(t)
    case Fail => Fail
    case Done(isFloat, r) =>
      match NumberValue(t[..|t| - |r|], isFloat, strtod)
      case None => Fail
      case Some(v) => Done(v, r)
  }

  // ---- Values ----

  /** A keyword at the cursor. */
  predicate StartsWith(t: Bytes, word: Bytes) {
    |t| >= |word| && t[..|word|] == word
  }

  function ParseValue(t: Bytes, depth: nat, strtod: Strtod): (r: Parsed<Value>)
    ensures r.Done? ==> |r.rest| < |t|
    decreases |t|, 3
  {
    var u := SkipWs(t);
    var c := Peek(u);
    if c == QUOTE then
      match ParseString(u)
      case Fail => Fail
      case Done(s, r) => Done(Str(s), r)
    else if c == LBRACE || c == LBRACKET then
      if depth >= MAX_NESTING_DEPTH then Fail
      else if c == LBRACE then
        match ParseObject(u, depth + 1, strtod)
        case Fail => Fail
        case Done(fields, r) => Done(Obj(fields), r)
      else
        match ParseArray(u, depth + 1, strtod)
        case Fail => Fail
        case Done(elements, r) => Done(Arr(elements), r)
    else if StartsWith(u, NULL_TEXT) then Done(Null, u[4..])
    else if StartsWith(u, TRUE_TEXT) then Done(Bool(true), u[4..])
    else if StartsWith(u, FALSE_TEXT) then Done(Bool(false), u[5..])
    else if c == MINUS || IsDigit(c) then ParseNumber(u, strtod)
    else Fail
  }

  function ParseObject(t: Bytes, depth: nat, strtod: Strtod): (r: Parsed<Fields>)
    ensures r.Done? ==> |r.rest| < |t|
    decreases |t|, 2
  {
    match Expect(t, LBRACE)
    case Fail => Fail
    case Done(_, r) =>
      match Expect(r, RBRACE)
      case Done(_, r') => Done([], r')
      case Fail => ParseMembers(SkipWs(r), depth, [], strtod)
  }

  /** One member, added to the fields read before it; a key already there is an error. */
  function ParseMember(t: Bytes, depth: nat, out: Fields, strtod: Strtod): (r: Parsed<Fields>)
    ensures r.Done? ==> |r.rest| < |t|
    decreases |t|, 0
  {
    match ParseString(t)
    case Fail => Fail
    case Done(key, r1) =>
      if HasKey(out, key) then Fail
      else
        match Expect(r1, COLON)
        case Fail => Fail
        case Done(_, r2) =>
          match ParseValue(r2, depth, strtod)
          case Fail => Fail
          case Done(v, r3) => Done(SetEntry(out, key, v), r3)
  }

  function ParseMembers(t: Bytes, depth: nat, out: Fields, strtod: Strtod): (r: Parsed<Fields>)
    ensures r.Done? ==> |r.rest| < |t|
    decreases |t|, 4
  {
    match ParseMember(t, depth, out, strtod)
    case Fail => Fail
    case Done(out', r) =>
      match Expect(r, RBRACE)
      case Done(_, r') => Done(out', r')
      case Fail =>
        match Expect(r, COMMA)
        case Fail => Fail
        case Done(_, r') => ParseMembers(r', depth, out', strtod)
  }

  function ParseArray(t: Bytes, depth: nat, strtod: Strtod): (r: Parsed<seq<Value>>)
    ensures r.Done? ==> |r.rest| < |t|
    decreases |t|, 2
  {
    match Expect(t, LBRACKET)
    case Fail => Fail
    case Done(_, r) =>
      match Expect(r, RBRACKET)
      case Done(_, r') => Done([], r')
      case Fail => ParseElements(SkipWs(r), depth, [], strtod)
  }

  function ParseElements(t: Bytes, depth: nat, out: seq<Value>, strtod: Strtod): (r: Parsed<seq<Value>>)
    ensures r.Done? ==> |r.rest| < |t|
    decreases |t|, 4
  {
    match ParseValue(t, depth, strtod)
    case Fail => Fail
    case Done(v, r) =>
      match Expect(r, RBRACKET)
      case Done(_, r') => Done(out + [v], r')
      case Fail =>
        match Expect(r, COMMA)
        case Fail => Fail
        case Done(_, r') => ParseElements(r', depth, out + [v], strtod)
  }

  /** valueFromJsonString: one value, and white space after it. */
  function ParseDocument(t: Bytes, strtod: Strtod): Option<Value> {
    match ParseValue(t, 0, strtod)
    case Fail => None
    case Done(v, r) => if SkipWs(r) == [] then Some(v) else None
  }
}
