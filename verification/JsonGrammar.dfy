/**
 * JSON texts as syntax trees (RFC 8259), independently of any parser: which texts there are,
 * and what each of them denotes. `ValueComplete` and `ValueSound` show that the parser accepts
 * exactly the texts that denote something, and returns what they denote.
 *
 * A text is written with the text that follows it, so that no proof needs associativity.
 */
module JsonGrammar {
  import opened ByteStrings
  import opened Utf8
  import opened FiFoMaps
  import opened Values
  import opened JsonWriter
  import opened JsonReading

  // ---- Syntax ----

  /** One character of a string: itself, a short escape, \uXXXX, or a surrogate pair of those. */
  datatype Piece = Raw(c: Bytes) | Short(e: Byte) | Hex(h: Bytes) | Pair(high: Bytes, low: Bytes)

  datatype Exponent = Exponent(marker: Byte, sign: Bytes, digits: Bytes)

  datatype Number = Number(negative: bool, integer: Bytes, fraction: Option<Bytes>, exponent: Option<Exponent>)

  datatype Json =
    | JNull
    | JBool(b: bool)
    | JNumber(n: Number)
    | JString(ps: seq<Piece>)
    | JArray(gap: Bytes, items: seq<Item>)
    | JObject(gap: Bytes, members: seq<Member>)

  /** A value with the white space around it. */
  datatype Item = Item(pre: Bytes, value: Json, post: Bytes)

  datatype Member = Member(pre: Bytes, key: seq<Piece>, mid: Bytes, item: Item)

  predicate AllWs(w: Bytes) {
    forall i :: 0 <= i < |w| ==> IsWs(w[i])
  }

  predicate ValidPiece(x: Piece) {
    match x
    case Raw(c) => IsChar(c) && c[0] >= 0x20 && c[0] != QUOTE && c[0] != BACKSLASH
    case Short(e) => Unescape(e).Some?
    case Hex(h) => IsHex4(h) && !IsHighSurrogate(Hex4Value(h)) && !IsLowSurrogate(Hex4Value(h))
    case Pair(high, low) => IsHex4(high) && IsHighSurrogate(Hex4Value(high)) && IsHex4(low) && IsLowSurrogate(Hex4Value(low))
  }

  predicate ValidPieces(ps: seq<Piece>) {
    forall i :: 0 <= i < |ps| ==> ValidPiece(ps[i])
  }

  predicate ValidNumber(n: Number) {
    && (n.integer == [ZERO] || (n.integer != [] && AllDigits(n.integer) && n.integer[0] != ZERO))
    && (n.fraction.Some? ==> n.fraction.value != [] && AllDigits(n.fraction.value))
    && (n.exponent.Some? ==>
          && n.exponent.value.marker in {0x65, 0x45}
          && n.exponent.value.sign in {[], [0x2B], [MINUS]}
          && n.exponent.value.digits != [] && AllDigits(n.exponent.value.digits))
  }

  ghost predicate ValidJson(j: Json) {
    match j
    case JNumber(n) => ValidNumber(n)
    case JString(ps) => ValidPieces(ps)
    case JArray(gap, items) =>
      AllWs(gap) && (items != [] ==> gap == []) && forall i :: 0 <= i < |items| ==> ValidItem(items[i])
    case JObject(gap, members) =>
      AllWs(gap) && (members != [] ==> gap == []) && forall i :: 0 <= i < |members| ==> ValidMember(members[i])
    case _ => true
  }

  ghost predicate ValidItem(x: Item) {
    AllWs(x.pre) && ValidJson(x.value) && AllWs(x.post)
  }

  ghost predicate ValidMember(m: Member) {
    AllWs(m.pre) && ValidPieces(m.key) && AllWs(m.mid) && ValidItem(m.item)
  }

  // ---- Text ----

  function PieceText(x: Piece): Bytes {
    match x
    case Raw(c) => c
    case Short(e) => [BACKSLASH, e]
    case Hex(h) => [BACKSLASH, 0x75] + h
    case Pair(high, low) => [BACKSLASH, 0x75] + high + [BACKSLASH, 0x75] + low
  }

  function PiecesText(ps: seq<Piece>, rest: Bytes): Bytes {
    if ps == [] then rest else PieceText(ps[0]) + PiecesText(ps[1..], rest)
  }

  function StringText(ps: seq<Piece>, rest: Bytes): Bytes {
    [QUOTE] + PiecesText(ps, [QUOTE] + rest)
  }

  function ExponentText(e: Option<Exponent>, rest: Bytes): Bytes {
    if e.None? then rest else [e.value.marker] + (e.value.sign + (e.value.digits + rest))
  }

  function FractionText(f: Option<Bytes>, rest: Bytes): Bytes {
    if f.None? then rest else [0x2E] + (f.value + rest)
  }

  function NumberText(n: Number, rest: Bytes): Bytes {
    (if n.negative then [MINUS] else []) + (n.integer + FractionText(n.fraction, ExponentText(n.exponent, rest)))
  }

  function Text(j: Json, rest: Bytes): Bytes
    decreases j
  {
    match j
    case JNull => NULL_TEXT + rest
    case JBool(b) => (if b then TRUE_TEXT else FALSE_TEXT) + rest
    case JNumber(n) => NumberText(n, rest)
    case JString(ps) => StringText(ps, rest)
    case JArray(gap, items) =>
      [LBRACKET] + if items == [] then gap + ([RBRACKET] + rest) else ItemsText(items, [RBRACKET] + rest)
    case JObject(gap, members) =>
      [LBRACE] + if members == [] then gap + ([RBRACE] + rest) else MembersText(members, [RBRACE] + rest)
  }

  function ItemText(x: Item, rest: Bytes): Bytes
    decreases x
  {
    x.pre + Text(x.value, x.post + rest)
  }

  function ItemsText(items: seq<Item>, rest: Bytes): Bytes
    requires items != []
    decreases items
  {
    ItemText(items[0], if |items| == 1 then rest else [COMMA] + ItemsText(items[1..], rest))
  }

  function MemberText(m: Member, rest: Bytes): Bytes
    decreases m
  {
    m.pre + StringText(m.key, m.mid + ([COLON] + ItemText(m.item, rest)))
  }

  function MembersText(members: seq<Member>, rest: Bytes): Bytes
    requires members != []
    decreases members
  {
    MemberText(members[0], if |members| == 1 then rest else [COMMA] + MembersText(members[1..], rest))
  }

  // ---- Meaning ----

  function PieceValue(x: Piece): Bytes
    requires ValidPiece(x)
  {
    match x
    case Raw(c) => c
    case Short(e) => [Unescape(e).value]
    case Hex(h) => EncodeChar(Hex4Value(h))
    case Pair(high, low) => EncodeChar(SurrogatePair(Hex4Value(high), Hex4Value(low)))
  }

  function PiecesValue(ps: seq<Piece>): Bytes
    requires ValidPieces(ps)
  {
    if ps == [] then [] else PieceValue(ps[0]) + PiecesValue(ps[1..])
  }

  /**
   * What a JSON text denotes. Nothing when containers nest deeper than 128, when an object
   * has a key twice, when an integer is not a 64-bit one, or when a float is out of range.
   */
  ghost function Denote(j: Json, depth: nat, strtod: Strtod): Option<Value>
    requires ValidJson(j)
    decreases j
  {
    match j
    case JNull => Some(Null)
    case JBool(b) => Some(Bool(b))
    case JNumber(n) => NumberValue(NumberText(n, []), n.fraction.Some? || n.exponent.Some?, strtod)
    case JString(ps) => Some(Str(PiecesValue(ps)))
    case JArray(_, items) =>
      if depth >= MAX_NESTING_DEPTH then None
      else (match DenoteItems(items, depth + 1, strtod)
            case None => None
            case Some(vs) => Some(Arr(vs)))
    case JObject(_, members) =>
      if depth >= MAX_NESTING_DEPTH then None
      else
        match DenoteMembers(members, depth + 1, [], strtod)
        case None => None
        case Some(fields) => Some(Obj(fields))
  }

  ghost function DenoteItems(items: seq<Item>, depth: nat, strtod: Strtod): Option<seq<Value>>
    requires forall i :: 0 <= i < |items| ==> ValidItem(items[i])
    decreases items
  {
    if items == [] then Some([])
    else
      assert ValidItem(items[0]);
      match Denote(items[0].value, depth, strtod)
      case None => None
      case Some(v) =>
        match DenoteItems(items[1..], depth, strtod)
        case None => None
        case Some(vs) => Some([v] + vs)
  }

  /** `before` holds the members that came before. */
  ghost function DenoteMembers(members: seq<Member>, depth: nat, before: Fields, strtod: Strtod): Option<Fields>
    requires forall i :: 0 <= i < |members| ==> ValidMember(members[i])
    decreases members
  {
    if members == [] then Some(before)
    else
      assert ValidMember(members[0]) && ValidItem(members[0].item);
      var key := PiecesValue(members[0].key);
      if HasKey(before, key) then None
      else
        match Denote(members[0].item.value, depth, strtod)
        case None => None
        case Some(v) => DenoteMembers(members[1..], depth, before + [Entry(key, v)], strtod)
  }

  /** The parse result a denotation calls for. */
  function Outcome<T>(value: Option<T>, rest: Bytes): Parsed<T> {
    match value
    case None => Fail
    case Some(v) => Done(v, rest)
  }

  // ---- White space ----

  lemma {:induction false} SkipGap(w: Bytes, t: Bytes)
    requires AllWs(w) && !IsWs(Peek(t))
    ensures SkipWs(w + t) == t
  {
    if w == [] {
      assert w + t == t;
    } else {
      assert (w + t)[1..] == w[1..] + t;
      SkipGap(w[1..], t);
    }
  }

  lemma {:induction false} GapBefore(t: Bytes) returns (w: Bytes)
    ensures AllWs(w) && t == w + SkipWs(t)
  {
    if IsWs(Peek(t)) {
      w := GapBefore(t[1..]);
      w := [t[0]] + w;
    } else {
      w := [];
    }
  }

  /** White space, then a byte that is not the next one: only the white space is skipped. */
  lemma ExpectAfterGap(w: Bytes, c: Byte, rest: Bytes, wanted: Byte)
    requires AllWs(w) && !IsWs(c) && wanted != 0
    ensures Expect(w + ([c] + rest), wanted) == if c == wanted then Done((), rest) else Fail
  {
    SkipGap(w, [c] + rest);
  }

  lemma ExpectSound(t: Bytes, c: Byte) returns (w: Bytes)
    requires c != 0 && Expect(t, c).Done?
    ensures AllWs(w) && t == w + ([c] + Expect(t, c).rest)
  {
    w := GapBefore(t);
    assert SkipWs(t) == [c] + SkipWs(t)[1..];
  }

  // ---- Strings ----

  /** One piece is read as one turn of the string loop. */
  lemma PieceComplete(x: Piece, rest: Bytes)
    requires ValidPiece(x)
    ensures var t := PieceText(x) + rest;
            t != [] && t[0] != QUOTE && ParseStringStep(t) == Done(PieceValue(x), rest)
  {
    var t := PieceText(x) + rest;
    match x
    case Raw(c) =>
      CharPrefix(c, rest);
    case Short(e) =>
      assert t[1] == e && t[1..][1..] == rest;
    case Hex(h) =>
      UnicodeText(t, h, rest);
    case Pair(high, low) =>
      PairComplete(high, low, rest);
  }

  lemma PairComplete(high: Bytes, low: Bytes, rest: Bytes)
    requires ValidPiece(Pair(high, low))
    ensures var t := PieceText(Pair(high, low)) + rest;
            t[0] == BACKSLASH && ParseEscape(t[1..]) == Done(PieceValue(Pair(high, low)), rest)
  {
    hide ClassifyLead, ContinuationOk;
    var t := PieceText(Pair(high, low)) + rest;
    var tail := [BACKSLASH, 0x75] + (low + rest);
    assert t == [BACKSLASH, 0x75] + high + tail;
    UnicodeText(t, high, tail);
    assert tail[0] == BACKSLASH && tail[1] == 0x75 && tail[2..] == low + rest;
    assert tail[2..][..4] == low && tail[2..][4..] == rest;
  }

  lemma UnicodeText(t: Bytes, h: Bytes, rest: Bytes)
    requires t == [BACKSLASH, 0x75] + h + rest && IsHex4(h)
    ensures t[0] == BACKSLASH && t[1..][0] == 0x75
    ensures ParseHex4(t[1..][1..]) == Done(Hex4Value(h), rest)
  {
    assert t[1..][1..] == h + rest;
    assert (h + rest)[..4] == h && (h + rest)[4..] == rest;
  }

  lemma {:induction false} PiecesComplete(ps: seq<Piece>, out: Bytes, rest: Bytes)
    requires ValidPieces(ps)
    ensures ParseStringBody(PiecesText(ps, [QUOTE] + rest), out) == Done(out + PiecesValue(ps), rest)
    decreases ps
  {
    if ps == [] {
      assert out + PiecesValue(ps) == out;
    } else {
      PieceComplete(ps[0], PiecesText(ps[1..], [QUOTE] + rest));
      PiecesComplete(ps[1..], out + PieceValue(ps[0]), rest);
      Assoc(out, PieceValue(ps[0]), PiecesValue(ps[1..]));
    }
  }

  lemma StringComplete(w: Bytes, ps: seq<Piece>, rest: Bytes)
    requires AllWs(w) && ValidPieces(ps)
    ensures ParseString(w + StringText(ps, rest)) == Done(PiecesValue(ps), rest)
  {
    ExpectAfterGap(w, QUOTE, PiecesText(ps, [QUOTE] + rest), QUOTE);
    PiecesComplete(ps, [], rest);
    assert [] + PiecesValue(ps) == PiecesValue(ps);
  }

  /** Every turn of the string loop reads one piece. */
  lemma PieceSound(t: Bytes) returns (x: Piece)
    requires t != [] && t[0] != QUOTE && ParseStringStep(t).Done?
    ensures ValidPiece(x) && t == PieceText(x) + ParseStringStep(t).rest && ParseStringStep(t).value == PieceValue(x)
  {
    if t[0] != BACKSLASH {
      var n := SequenceLength(t);
      PrefixIsChar(t);
      x := Raw(t[..n]);
    } else if Unescape(t[1]).Some? {
      x := Short(t[1]);
      assert t == [t[0], t[1]] + t[1..][1..];
    } else {
      x := UnicodeSound(t);
    }
  }

  lemma UnicodeSound(t: Bytes) returns (x: Piece)
    requires |t| >= 2 && t[0] == BACKSLASH && Unescape(t[1]).None? && ParseEscape(t[1..]).Done?
    ensures ValidPiece(x) && t == PieceText(x) + ParseEscape(t[1..]).rest && ParseEscape(t[1..]).value == PieceValue(x)
  {
    hide ClassifyLead, ContinuationOk, SequenceLength;
    var u := t[1..][1..];
    assert t == [BACKSLASH, 0x75] + u;
    assert u == u[..4] + u[4..];
    if IsHighSurrogate(Hex4Value(u[..4])) {
      var v := u[4..][2..];
      assert u[4..] == [BACKSLASH, 0x75] + v;
      assert v == v[..4] + v[4..];
      x := Pair(u[..4], v[..4]);
      assert t == PieceText(x) + v[4..];
    } else {
      x := Hex(u[..4]);
      assert t == PieceText(x) + u[4..];
    }
  }

  lemma {:induction false} PiecesSound(t: Bytes, out: Bytes) returns (ps: seq<Piece>)
    requires ParseStringBody(t, out).Done?
    ensures ValidPieces(ps)
    ensures t == PiecesText(ps, [QUOTE] + ParseStringBody(t, out).rest)
    ensures ParseStringBody(t, out).value == out + PiecesValue(ps)
    decreases |t|
  {
    if t[0] == QUOTE {
      ps := [];
      assert t == [QUOTE] + t[1..];
      assert out + PiecesValue(ps) == out;
    } else {
      var x := PieceSound(t);
      var step := ParseStringStep(t);
      ps := PiecesSound(step.rest, out + step.value);
      Assoc(out, PieceValue(x), PiecesValue(ps));
      assert ([x] + ps)[1..] == ps;
      ps := [x] + ps;
    }
  }

  // ---- Numbers ----

  /** No byte that would continue a number. */
  predicate NumberEnds(rest: Bytes) {
    !IsDigit(Peek(rest)) && Peek(rest) != 0x2E && Peek(rest) != 0x65 && Peek(rest) != 0x45
  }

  lemma {:induction false} SkipAllDigits(ds: Bytes, rest: Bytes)
    requires AllDigits(ds) && !IsDigit(Peek(rest))
    ensures SkipDigits(ds + rest) == rest
  {
    if ds == [] {
      assert ds + rest == rest;
    } else {
      assert (ds + rest)[1..] == ds[1..] + rest;
      SkipAllDigits(ds[1..], rest);
    }
  }

  lemma DigitsComplete(ds: Bytes, rest: Bytes)
    requires ds != [] && AllDigits(ds) && !IsDigit(Peek(rest))
    ensures ScanDigits(ds + rest) == Done((), rest)
    ensures ds[0] != ZERO ==> ScanInteger(ds + rest) == Done((), rest)
  {
    assert (ds + rest)[1..] == ds[1..] + rest;
    SkipAllDigits(ds[1..], rest);
  }

  lemma ExponentComplete(e: Option<Exponent>, rest: Bytes)
    requires ValidNumber(Number(false, [ZERO], None, e)) && NumberEnds(rest)
    ensures ScanExponent(ExponentText(e, rest)) == Done(e.Some?, rest)
    ensures !IsDigit(Peek(ExponentText(e, rest))) && Peek(ExponentText(e, rest)) != 0x2E
  {
    if e.Some? {
      var t := ExponentText(e, rest);
      var signed := e.value.sign + (e.value.digits + rest);
      assert t[1..] == signed;
      assert SkipSign(signed) == e.value.digits + rest;
      DigitsComplete(e.value.digits, rest);
    }
  }

  lemma FractionComplete(f: Option<Bytes>, rest: Bytes)
    requires ValidNumber(Number(false, [ZERO], f, None))
    requires !IsDigit(Peek(rest)) && Peek(rest) != 0x2E
    ensures ScanFraction(FractionText(f, rest)) == Done(f.Some?, rest)
    ensures !IsDigit(Peek(FractionText(f, rest)))
  {
    if f.Some? {
      assert FractionText(f, rest)[1..] == f.value + rest;
      DigitsComplete(f.value, rest);
    }
  }

  lemma IntegerComplete(n: Number, rest: Bytes)
    requires ValidNumber(n) && !IsDigit(Peek(rest))
    ensures var t := n.integer + rest;
            ScanInteger(t) == Done((), rest) && IsDigit(Peek(t)) && SkipMinus([MINUS] + t) == t
  {
    var t := n.integer + rest;
    assert ([MINUS] + t)[1..] == t;
    if n.integer == [ZERO] {
      assert t[1..] == rest;
    } else {
      DigitsComplete(n.integer, rest);
    }
  }

  lemma NumberComplete(n: Number, rest: Bytes)
    requires ValidNumber(n) && NumberEnds(rest)
    ensures ScanNumber(NumberText(n, rest)) == Done(n.fraction.Some? || n.exponent.Some?, rest)
    ensures Peek(NumberText(n, rest)) == MINUS || IsDigit(Peek(NumberText(n, rest)))
  {
    hide ScanInteger, ScanFraction, ScanExponent;
    var t3 := ExponentText(n.exponent, rest);
    var t2 := FractionText(n.fraction, t3);
    ExponentComplete(n.exponent, rest);
    FractionComplete(n.fraction, t3);
    IntegerComplete(n, t2);
    assert [] + (n.integer + t2) == n.integer + t2;
  }

  /** The token is the text of the number alone. */
  lemma NumberTextSplits(n: Number, rest: Bytes)
    ensures NumberText(n, rest) == NumberText(n, []) + rest
    ensures NumberText(n, rest)[..|NumberText(n, rest)| - |rest|] == NumberText(n, [])
  {
    var e, e0 := ExponentText(n.exponent, rest), ExponentText(n.exponent, []);
    assert e == e0 + rest;
    assert FractionText(n.fraction, e) == FractionText(n.fraction, e0) + rest;
  }

  lemma {:induction false} DigitsSound(t: Bytes) returns (ds: Bytes)
    ensures AllDigits(ds) && t == ds + SkipDigits(t)
  {
    if IsDigit(Peek(t)) {
      ds := DigitsSound(t[1..]);
      ds := [t[0]] + ds;
    } else {
      ds := [];
    }
  }

  lemma ScanDigitsSound(t: Bytes) returns (ds: Bytes)
    requires ScanDigits(t).Done?
    ensures ds != [] && AllDigits(ds) && t == ds + ScanDigits(t).rest && ds[0] == t[0]
  {
    var tail := DigitsSound(t[1..]);
    assert t == [t[0]] + t[1..];
    Assoc([t[0]], tail, SkipDigits(t[1..]));
    ds := [t[0]] + tail;
  }

  lemma ExponentSound(t: Bytes) returns (e: Option<Exponent>)
    requires ScanExponent(t).Done?
    ensures ValidNumber(Number(false, [ZERO], None, e))
    ensures t == ExponentText(e, ScanExponent(t).rest) && ScanExponent(t).value == e.Some?
  {
    if ScanExponent(t).value {
      var signed := t[1..];
      var ds := ScanDigitsSound(SkipSign(signed));
      var sign: Bytes := if SkipSign(signed) == signed then [] else [signed[0]];
      assert signed == sign + SkipSign(signed);
      e := Some(Exponent(t[0], sign, ds));
      assert t == [t[0]] + signed;
    } else {
      e := None;
    }
  }

  lemma FractionSound(t: Bytes) returns (f: Option<Bytes>)
    requires ScanFraction(t).Done?
    ensures ValidNumber(Number(false, [ZERO], f, None))
    ensures t == FractionText(f, ScanFraction(t).rest) && ScanFraction(t).value == f.Some?
  {
    if ScanFraction(t).value {
      var ds := ScanDigitsSound(t[1..]);
      f := Some(ds);
      assert t == [t[0]] + t[1..];
    } else {
      f := None;
    }
  }

  lemma NumberSound(t: Bytes) returns (n: Number)
    requires ScanNumber(t).Done?
    ensures ValidNumber(n) && t == NumberText(n, ScanNumber(t).rest)
    ensures ScanNumber(t).value == (n.fraction.Some? || n.exponent.Some?)
  {
    var t1 := SkipMinus(t);
    var t2 := ScanInteger(t1).rest;
    var integer: Bytes := [ZERO];
    if Peek(t1) == ZERO {
      assert t1 == integer + t2;
    } else {
      integer := ScanDigitsSound(t1);
    }
    var fraction := FractionSound(t2);
    var exponent := ExponentSound(ScanFraction(t2).rest);
    n := Number(Peek(t) == MINUS, integer, fraction, exponent);
    assert t == (if n.negative then [MINUS] else []) + t1;
  }

  // ---- Values: the parser reads every text as it is denoted ----

  /** White space before a value, a member or a list of them does not matter. */
  lemma ParseAfterGap(t: Bytes, u: Bytes, depth: nat, strtod: Strtod)
    requires SkipWs(t) == SkipWs(u)
    ensures ParseValue(t, depth, strtod) == ParseValue(u, depth, strtod)
    ensures forall out :: ParseElements(t, depth, out, strtod) == ParseElements(u, depth, out, strtod)
    ensures forall out :: ParseMember(t, depth, out, strtod) == ParseMember(u, depth, out, strtod)
    ensures forall out :: ParseMembers(t, depth, out, strtod) == ParseMembers(u, depth, out, strtod)
  {
    assert ParseString(t) == ParseString(u);
  }

  predicate StartsValue(c: Byte) {
    c in {QUOTE, LBRACE, LBRACKET, 0x6E, 0x74, 0x66, MINUS} || IsDigit(c)
  }

  lemma TextStart(j: Json, rest: Bytes)
    requires ValidJson(j)
    ensures StartsValue(Peek(Text(j, rest)))
  {}

  lemma KeywordComplete(word: Bytes, rest: Bytes)
    requires word in {NULL_TEXT, TRUE_TEXT, FALSE_TEXT}
    ensures StartsWith(word + rest, word) && (word + rest)[|word|..] == rest
    ensures forall other :: other in {NULL_TEXT, TRUE_TEXT, FALSE_TEXT} && other != word ==> !StartsWith(word + rest, other)
  {
    assert (word + rest)[..|word|] == word;
    forall other | other in {NULL_TEXT, TRUE_TEXT, FALSE_TEXT} && other != word
      ensures !StartsWith(word + rest, other)
    {
      if |word + rest| >= |other| {
        assert (word + rest)[..|other|][0] == word[0];
      }
    }
  }

  /** A scalar is read whole, whatever follows it (for a number: whatever does not continue it). */
  lemma ScalarComplete(j: Json, depth: nat, rest: Bytes, strtod: Strtod)
    requires ValidJson(j) && !j.JArray? && !j.JObject? && NumberEnds(rest)
    ensures ParseValue(Text(j, rest), depth, strtod) == Outcome(Denote(j, depth, strtod), rest)
  {
    match j
    case JNull =>
      KeywordComplete(NULL_TEXT, rest);
    case JBool(b) =>
      KeywordComplete(if b then TRUE_TEXT else FALSE_TEXT, rest);
    case JString(ps) =>
      StringReads(ps, depth, rest, strtod);
    case JNumber(n) =>
      NumberReads(n, depth, rest, strtod);
  }

  lemma StringReads(ps: seq<Piece>, depth: nat, rest: Bytes, strtod: Strtod)
    requires ValidPieces(ps)
    ensures ParseValue(StringText(ps, rest), depth, strtod) == Done(Str(PiecesValue(ps)), rest)
  {
    var t := StringText(ps, rest);
    StringComplete([], ps, rest);
    assert [] + t == t;
    hide ParseString, PiecesText;
  }

  lemma NumberReads(n: Number, depth: nat, rest: Bytes, strtod: Strtod)
    requires ValidNumber(n) && NumberEnds(rest)
    ensures ParseValue(NumberText(n, rest), depth, strtod) == ParseNumber(NumberText(n, rest), strtod)
    ensures ParseNumber(NumberText(n, rest), strtod) ==
            Outcome(NumberValue(NumberText(n, []), n.fraction.Some? || n.exponent.Some?, strtod), rest)
  {
    NumberComplete(n, rest);
    NoKeyword(NumberText(n, rest));
    ParseNumberComplete(n, rest, strtod);
    hide ParseNumber, NumberText, StartsWith, ScanNumber;
  }

  lemma NoKeyword(t: Bytes)
    requires t != [] && (t[0] == MINUS || IsDigit(t[0]))
    ensures !StartsWith(t, NULL_TEXT) && !StartsWith(t, TRUE_TEXT) && !StartsWith(t, FALSE_TEXT)
  {
    if |t| >= 4 {
      assert t[..4][0] == t[0];
    }
    if |t| >= 5 {
      assert t[..5][0] == t[0];
    }
  }

  lemma ParseNumberComplete(n: Number, rest: Bytes, strtod: Strtod)
    requires ValidNumber(n) && NumberEnds(rest)
    ensures ParseNumber(NumberText(n, rest), strtod) ==
            Outcome(NumberValue(NumberText(n, []), n.fraction.Some? || n.exponent.Some?, strtod), rest)
  {
    NumberComplete(n, rest);
    NumberTextSplits(n, rest);
  }

  lemma {:induction false} ValueComplete(j: Json, depth: nat, pre: Bytes, rest: Bytes, strtod: Strtod)
    requires ValidJson(j) && AllWs(pre) && NumberEnds(rest)
    ensures ParseValue(pre + Text(j, rest), depth, strtod) == Outcome(Denote(j, depth, strtod), rest)
    decreases j, 1
  {
    var t := Text(j, rest);
    TextStart(j, rest);
    SkipGap(pre, t);
    ParseAfterGap(pre + t, t, depth, strtod);
    match j
    case JArray(gap, items) =>
      if depth < MAX_NESTING_DEPTH {
        ArrayComplete(j, depth, rest, strtod);
      }
    case JObject(gap, members) =>
      if depth < MAX_NESTING_DEPTH {
        ObjectComplete(j, depth, rest, strtod);
      }
    case _ =>
      ScalarComplete(j, depth, rest, strtod);
  }

  lemma {:induction false} ArrayComplete(j: Json, depth: nat, rest: Bytes, strtod: Strtod)
    requires ValidJson(j) && j.JArray?
    ensures ParseArray(Text(j, rest), depth + 1, strtod) == Outcome(DenoteItems(j.items, depth + 1, strtod), rest)
    decreases j, 0
  {
    var t := Text(j, rest);
    var r := t[1..];
    assert Expect(t, LBRACKET) == Done((), r);
    if j.items == [] {
      assert r == j.gap + ([RBRACKET] + rest);
      ExpectAfterGap(j.gap, RBRACKET, rest, RBRACKET);
    } else {
      assert r == ItemsText(j.items, [RBRACKET] + rest);
      ItemsComplete(j.items, depth + 1, [], rest, strtod);
      ParseAfterGap(r, SkipWs(r), depth + 1, strtod);
      match DenoteItems(j.items, depth + 1, strtod)
      case None =>
      case Some(vs) => assert [] + vs == vs;
    }
  }

  lemma {:induction false} ItemsComplete(items: seq<Item>, depth: nat, out: seq<Value>, rest: Bytes, strtod: Strtod)
    requires items != [] && forall i :: 0 <= i < |items| ==> ValidItem(items[i])
    ensures var t := ItemsText(items, [RBRACKET] + rest);
            && Expect(t, RBRACKET) == Fail
            && ParseElements(t, depth, out, strtod) ==
               match DenoteItems(items, depth, strtod)
               case None => Fail
               case Some(vs) => Done(out + vs, rest)
    decreases items
  {
    hide ParseValue, Text, Denote, SkipWs, ValidJson;
    var x := items[0];
    assert ValidItem(x);
    var next := if |items| == 1 then [RBRACKET] + rest else [COMMA] + ItemsText(items[1..], [RBRACKET] + rest);
    var after := x.post + next;
    TextStart(x.value, after);
    SkipGap(x.pre, Text(x.value, after));
    ValueComplete(x.value, depth, x.pre, after, strtod);
    match Denote(x.value, depth, strtod)
    case None =>
    case Some(v) =>
      if |items| == 1 {
        ExpectAfterGap(x.post, RBRACKET, rest, RBRACKET);
        assert DenoteItems(items[1..], depth, strtod) == Some([]);
        assert [v] + [] == [v];
      } else {
        var tail := ItemsText(items[1..], [RBRACKET] + rest);
        ExpectAfterGap(x.post, COMMA, tail, RBRACKET);
        ExpectAfterGap(x.post, COMMA, tail, COMMA);
        ItemsComplete(items[1..], depth, out + [v], rest, strtod);
        match DenoteItems(items[1..], depth, strtod)
        case None =>
        case Some(vs) => Assoc(out, [v], vs);
      }
  }

  lemma {:induction false} ObjectComplete(j: Json, depth: nat, rest: Bytes, strtod: Strtod)
    requires ValidJson(j) && j.JObject?
    ensures ParseObject(Text(j, rest), depth + 1, strtod) == Outcome(DenoteMembers(j.members, depth + 1, [], strtod), rest)
    decreases j, 0
  {
    var t := Text(j, rest);
    var r := t[1..];
    assert Expect(t, LBRACE) == Done((), r);
    if j.members == [] {
      assert r == j.gap + ([RBRACE] + rest);
      ExpectAfterGap(j.gap, RBRACE, rest, RBRACE);
    } else {
      assert r == MembersText(j.members, [RBRACE] + rest);
      MembersComplete(j.members, depth + 1, [], rest, strtod);
      ParseAfterGap(r, SkipWs(r), depth + 1, strtod);
    }
  }

  lemma {:induction false} MembersComplete(members: seq<Member>, depth: nat, out: Fields, rest: Bytes, strtod: Strtod)
    requires members != [] && forall i :: 0 <= i < |members| ==> ValidMember(members[i])
    ensures var t := MembersText(members, [RBRACE] + rest);
            && Expect(t, RBRACE) == Fail
            && ParseMembers(t, depth, out, strtod) == Outcome(DenoteMembers(members, depth, out, strtod), rest)
    decreases members
  {
    var m := members[0];
    assert ValidMember(m) && ValidItem(m.item);
    var next := if |members| == 1 then [RBRACE] + rest else [COMMA] + MembersText(members[1..], [RBRACE] + rest);
    var after := m.item.post + next;
    MemberComplete(m, depth, out, next, strtod);
    ExpectAfterGap(m.pre, QUOTE, PiecesText(m.key, [QUOTE] + (m.mid + ([COLON] + ItemText(m.item, next)))), RBRACE);
    var key := PiecesValue(m.key);
    if !HasKey(out, key) && Denote(m.item.value, depth, strtod).Some? {
      var out' := out + [Entry(key, Denote(m.item.value, depth, strtod).value)];
      if |members| == 1 {
        ExpectAfterGap(m.item.post, RBRACE, rest, RBRACE);
        assert DenoteMembers(members[1..], depth, out', strtod) == Some(out');
      } else {
        var tail := MembersText(members[1..], [RBRACE] + rest);
        ExpectAfterGap(m.item.post, COMMA, tail, RBRACE);
        ExpectAfterGap(m.item.post, COMMA, tail, COMMA);
        MembersComplete(members[1..], depth, out', rest, strtod);
      }
    }
  }

  lemma {:induction false} MemberComplete(m: Member, depth: nat, out: Fields, next: Bytes, strtod: Strtod)
    requires ValidMember(m) && ValidItem(m.item) && NumberEnds(m.item.post + next)
    ensures ParseMember(MemberText(m, next), depth, out, strtod) ==
            if HasKey(out, PiecesValue(m.key)) || Denote(m.item.value, depth, strtod).None? then Fail
            else Done(out + [Entry(PiecesValue(m.key), Denote(m.item.value, depth, strtod).value)], m.item.post + next)
    decreases m
  {
    var x := m.item;
    var r2 := ItemText(x, next);
    StringComplete(m.pre, m.key, m.mid + ([COLON] + r2));
    ExpectAfterGap(m.mid, COLON, r2, COLON);
    ValueComplete(x.value, depth, x.pre, x.post + next, strtod);
  }

  // ---- Values: whatever the parser reads is a text that denotes the result ----

  lemma {:induction false} ValueSound(t: Bytes, depth: nat, strtod: Strtod) returns (pre: Bytes, j: Json)
    requires ParseValue(t, depth, strtod).Done?
    ensures AllWs(pre) && ValidJson(j)
    ensures t == pre + Text(j, ParseValue(t, depth, strtod).rest)
    ensures Denote(j, depth, strtod) == Some(ParseValue(t, depth, strtod).value)
    decreases |t|, 3
  {
    pre := GapBefore(t);
    var u := SkipWs(t);
    var c := Peek(u);
    var r := ParseValue(t, depth, strtod).rest;
    if c == QUOTE {
      var body := Expect(u, QUOTE).rest;
      var ps := PiecesSound(body, []);
      assert [] + PiecesValue(ps) == PiecesValue(ps);
      assert u == [QUOTE] + body;
      j := JString(ps);
    } else if c == LBRACE {
      j := ObjectSound(u, depth + 1, strtod);
    } else if c == LBRACKET {
      j := ArraySound(u, depth + 1, strtod);
    } else if StartsWith(u, NULL_TEXT) {
      assert u == NULL_TEXT + u[4..];
      j := JNull;
    } else if StartsWith(u, TRUE_TEXT) {
      assert u == TRUE_TEXT + u[4..];
      j := JBool(true);
    } else if StartsWith(u, FALSE_TEXT) {
      assert u == FALSE_TEXT + u[5..];
      j := JBool(false);
    } else {
      var n := NumberSound(u);
      NumberTextSplits(n, r);
      j := JNumber(n);
    }
  }

  lemma {:induction false} ArraySound(t: Bytes, depth: nat, strtod: Strtod) returns (j: Json)
    requires !IsWs(Peek(t)) && ParseArray(t, depth, strtod).Done?
    ensures ValidJson(j) && j.JArray?
    ensures t == Text(j, ParseArray(t, depth, strtod).rest)
    ensures DenoteItems(j.items, depth, strtod) == Some(ParseArray(t, depth, strtod).value)
    decreases |t|, 2
  {
    var r := t[1..];
    assert t == [LBRACKET] + r;
    if Expect(r, RBRACKET).Done? {
      var gap := ExpectSound(r, RBRACKET);
      j := JArray(gap, []);
    } else {
      ParseAfterGap(r, SkipWs(r), depth, strtod);
      var items, vs := ItemsSound(r, depth, [], strtod);
      assert [] + vs == vs;
      j := JArray([], items);
    }
  }

  lemma {:induction false} ItemsSound(t: Bytes, depth: nat, out: seq<Value>, strtod: Strtod) returns (items: seq<Item>, vs: seq<Value>)
    requires ParseElements(t, depth, out, strtod).Done?
    ensures items != [] && forall i :: 0 <= i < |items| ==> ValidItem(items[i])
    ensures t == ItemsText(items, [RBRACKET] + ParseElements(t, depth, out, strtod).rest)
    ensures DenoteItems(items, depth, strtod) == Some(vs) && ParseElements(t, depth, out, strtod).value == out + vs
    decreases |t|, 4
  {
    var pre, j := ValueSound(t, depth, strtod);
    var v, r := ParseValue(t, depth, strtod).value, ParseValue(t, depth, strtod).rest;
    if Expect(r, RBRACKET).Done? {
      var post := ExpectSound(r, RBRACKET);
      items := [Item(pre, j, post)];
      assert ValidItem(items[0]);
      vs := [v];
      assert DenoteItems(items[1..], depth, strtod) == Some([]);
      assert [v] + [] == [v];
    } else {
      var post := ExpectSound(r, COMMA);
      var x := Item(pre, j, post);
      var items', vs' := ItemsSound(Expect(r, COMMA).rest, depth, out + [v], strtod);
      items := [x] + items';
      assert ValidItem(x) && items[1..] == items';
      vs := [v] + vs';
      Assoc(out, [v], vs');
    }
  }

  lemma {:induction false} ObjectSound(t: Bytes, depth: nat, strtod: Strtod) returns (j: Json)
    requires !IsWs(Peek(t)) && ParseObject(t, depth, strtod).Done?
    ensures ValidJson(j) && j.JObject?
    ensures t == Text(j, ParseObject(t, depth, strtod).rest)
    ensures DenoteMembers(j.members, depth, [], strtod) == Some(ParseObject(t, depth, strtod).value)
    decreases |t|, 2
  {
    var r := t[1..];
    assert t == [LBRACE] + r;
    if Expect(r, RBRACE).Done? {
      var gap := ExpectSound(r, RBRACE);
      j := JObject(gap, []);
    } else {
      ParseAfterGap(r, SkipWs(r), depth, strtod);
      var members := MembersSound(r, depth, [], strtod);
      j := JObject([], members);
    }
  }

  lemma {:induction false} MembersSound(t: Bytes, depth: nat, out: Fields, strtod: Strtod) returns (members: seq<Member>)
    requires ParseMembers(t, depth, out, strtod).Done?
    ensures members != [] && forall i :: 0 <= i < |members| ==> ValidMember(members[i])
    ensures t == MembersText(members, [RBRACE] + ParseMembers(t, depth, out, strtod).rest)
    ensures DenoteMembers(members, depth, out, strtod) == Some(ParseMembers(t, depth, out, strtod).value)
    decreases |t|, 4
  {
    var out', r := ParseMember(t, depth, out, strtod).value, ParseMember(t, depth, out, strtod).rest;
    if Expect(r, RBRACE).Done? {
      var post := ExpectSound(r, RBRACE);
      var m := MemberSound(t, depth, out, post, [RBRACE] + Expect(r, RBRACE).rest, strtod);
      members := [m];
      assert DenoteMembers(members[1..], depth, out', strtod) == Some(out');
    } else {
      var post := ExpectSound(r, COMMA);
      var m := MemberSound(t, depth, out, post, [COMMA] + Expect(r, COMMA).rest, strtod);
      var members' := MembersSound(Expect(r, COMMA).rest, depth, out', strtod);
      members := [m] + members';
      assert members[1..] == members';
    }
  }

  lemma {:induction false} MemberSound(t: Bytes, depth: nat, out: Fields, post: Bytes, next: Bytes, strtod: Strtod) returns (m: Member)
    requires ParseMember(t, depth, out, strtod).Done?
    requires AllWs(post) && ParseMember(t, depth, out, strtod).rest == post + next
    ensures ValidMember(m) && ValidItem(m.item) && t == MemberText(m, next)
    ensures !HasKey(out, PiecesValue(m.key)) && Denote(m.item.value, depth, strtod).Some?
    ensures ParseMember(t, depth, out, strtod).value == out + [Entry(PiecesValue(m.key), Denote(m.item.value, depth, strtod).value)]
    decreases |t|, 0
  {
    var pre := ExpectSound(t, QUOTE);
    var body := Expect(t, QUOTE).rest;
    var ps := PiecesSound(body, []);
    assert [] + PiecesValue(ps) == PiecesValue(ps);
    var r1 := ParseString(t).rest;
    var mid := ExpectSound(r1, COLON);
    var r2 := Expect(r1, COLON).rest;
    var gap, j := ValueSound(r2, depth, strtod);
    m := Member(pre, ps, mid, Item(gap, j, post));
    assert ValidItem(m.item);
  }

  // ---- Documents ----

  ghost predicate IsDocument(t: Bytes, pre: Bytes, j: Json, post: Bytes) {
    AllWs(pre) && ValidJson(j) && AllWs(post) && t == pre + Text(j, post)
  }

  /** Every RFC 8259 document is read as what it denotes, and refused when it denotes nothing. */
  lemma DocumentComplete(t: Bytes, pre: Bytes, j: Json, post: Bytes, strtod: Strtod)
    requires IsDocument(t, pre, j, post)
    ensures ParseDocument(t, strtod) == Denote(j, 0, strtod)
  {
    ValueComplete(j, 0, pre, post, strtod);
    SkipGap(post, []);
    assert post + [] == post;
  }

  /** Whatever text is accepted is such a document. */
  lemma DocumentSound(t: Bytes, strtod: Strtod) returns (pre: Bytes, j: Json, post: Bytes)
    requires ParseDocument(t, strtod).Some?
    ensures IsDocument(t, pre, j, post)
    ensures Denote(j, 0, strtod) == ParseDocument(t, strtod)
  {
    pre, j := ValueSound(t, 0, strtod);
    var r := ParseValue(t, 0, strtod).rest;
    post := GapBefore(r);
    assert post + [] == post;
  }
}
