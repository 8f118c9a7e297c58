/**
 * The JSON printer of src/io/Json.cpp: the text it emits as a function, and the encoder
 * that appends it piece by piece.
 */
module JsonWriter {
  import opened ByteStrings
  import opened Utf8
  import opened FiFoMaps
  import opened Values

  const MAX_NESTING_DEPTH := 128

  const QUOTE: Byte := 0x22
  const BACKSLASH: Byte := 0x5C
  const COMMA: Byte := 0x2C
  const COLON: Byte := 0x3A
  const LBRACE: Byte := 0x7B
  const RBRACE: Byte := 0x7D
  const LBRACKET: Byte := 0x5B
  const RBRACKET: Byte := 0x5D
  const MINUS: Byte := 0x2D
  const ZERO: Byte := 0x30
  const SPACE: Byte := 0x20
  const NEWLINE: Byte := 0x0A

  const NULL_TEXT: Bytes := [0x6E, 0x75, 0x6C, 0x6C]
  const TRUE_TEXT: Bytes := [0x74, 0x72, 0x75, 0x65]
  const FALSE_TEXT: Bytes := [0x66, 0x61, 0x6C, 0x73, 0x65]

  /** How a finite double is written; None for one that is not finite. Not modelled further. */
  type DoubleFormat = UInt64 -> Option<Bytes>

  // ---- Strings ----

  function HexDigit(d: int): Byte
    requires 0 <= d < 16
  {
    if d < 10 then 0x30 + d else 0x61 + (d - 10)
  }

  /** The letter of the two-character escape of a byte, if it has one. */
  function ShortEscape(c: Byte): Option<Byte> {
    if c == QUOTE || c == BACKSLASH then Some(c)
    else if c == 0x08 then Some(0x62)
    else if c == 0x0C then Some(0x66)
    else if c == 0x0A then Some(0x6E)
    else if c == 0x0D then Some(0x72)
    else if c == 0x09 then Some(0x74)
    else None
  }

  /** How many bytes of `s` one step of the escaping loop takes. */
  function StepLength(s: Bytes): (n: nat)
    requires s != []
    ensures 1 <= n <= |s|
  {
    if SequenceLength(s) > 0 then SequenceLength(s) else 1
  }

  /** What that step emits. */
  function EscapeStep(s: Bytes): Bytes
    requires s != []
  {
    var c := s[0];
    if ShortEscape(c).Some? then [BACKSLASH, ShortEscape(c).value]
    else if c < 0x20 then [BACKSLASH, 0x75, ZERO, ZERO, HexDigit(c / 16), HexDigit(c % 16)]
    else if SequenceLength(s) > 0 then s[..SequenceLength(s)]
    else REPLACEMENT
  }

  function EscapeBody(s: Bytes): Bytes {
    if s == [] then [] else EscapeStep(s) + EscapeBody(s[StepLength(s)..])
  }

  function Quoted(s: Bytes): Bytes {
    [QUOTE] + EscapeBody(s) + [QUOTE]
  }

  // ---- Numbers ----

  function Digits(n: nat): Bytes {
    if n < 10 then [ZERO + n] else Digits(n / 10) + [ZERO + n % 10]
  }

  function Decimal(n: int): Bytes {
    if n < 0 then [MINUS] + Digits(-n) else Digits(n)
  }

  // ---- Values ----

  function NlIndent(indent: int, depth: nat): Bytes {
    [NEWLINE] + (if indent > 0 && depth > 0 then seq(indent * depth, _ => SPACE) else [])
  }

  /** Nothing when compact. */
  function Break(indent: int, depth: nat): Bytes {
    if indent >= 0 then NlIndent(indent, depth) else []
  }

  /** What follows the colon of a member. */
  function AfterColon(indent: int): Bytes {
    if indent >= 0 then [SPACE] else []
  }

  function Separator(first: bool): Bytes {
    if first then [] else [COMMA]
  }

  function ValueText(v: Value, indent: int, depth: nat, fmt: DoubleFormat): Option<Bytes>
    decreases v, 1
  {
    match v
    case Null => Some(NULL_TEXT)
    case I64(i) => Some(Decimal(i))
    case U64(u) => if u < TWO_63 then Some(Decimal(u)) else None
    case Bool(b) => Some(if b then TRUE_TEXT else FALSE_TEXT)
    case Double(bits) => fmt(bits)
    case Str(s) => Some(Quoted(s))
    case Obj(fields) => ObjectText(fields, indent, depth, fmt)
    case Arr(elements) =>
      if depth >= MAX_NESTING_DEPTH then None
      else
        match ElementsText(elements, true, indent, depth, fmt)
        case None => None
        case Some(body) =>
          Some([LBRACKET] + body + (if elements == [] then [] else Break(indent, depth)) + [RBRACKET])
  }

  function ObjectText(fields: Fields, indent: int, depth: nat, fmt: DoubleFormat): Option<Bytes>
    decreases fields, 2
  {
    if depth >= MAX_NESTING_DEPTH then None
    else if fields == [] then Some([LBRACE, RBRACE])
    else
      match MembersText(fields, true, indent, depth, fmt)
      case None => None
      case Some(body) => Some([LBRACE] + body + Break(indent, depth) + [RBRACE])
  }

  /** Everything a member puts before its value. */
  function MemberHead(key: Bytes, first: bool, indent: int, depth: nat): Bytes {
    Separator(first) + Break(indent, depth + 1) + Quoted(key) + [COLON] + AfterColon(indent)
  }

  function MembersText(fields: Fields, first: bool, indent: int, depth: nat, fmt: DoubleFormat): Option<Bytes>
    decreases fields, 0
  {
    if fields == [] then Some([])
    else
      Smaller(fields, 0);
      match ValueText(fields[0].value, indent, depth + 1, fmt)
      case None => None
      case Some(value) =>
        match MembersText(fields[1..], false, indent, depth, fmt)
        case None => None
        case Some(rest) => Some(MemberHead(fields[0].key, first, indent, depth) + value + rest)
  }

  function ElementsText(elements: seq<Value>, first: bool, indent: int, depth: nat, fmt: DoubleFormat): Option<Bytes>
    decreases elements, 0
  {
    if elements == [] then Some([])
    else
      match ValueText(elements[0], indent, depth + 1, fmt)
      case None => None
      case Some(value) =>
        match ElementsText(elements[1..], false, indent, depth, fmt)
        case None => None
        case Some(rest) => Some(ElementHead(first, indent, depth) + value + rest)
  }

  function ElementHead(first: bool, indent: int, depth: nat): Bytes {
    Separator(first) + Break(indent, depth + 1)
  }

  /** `pre` has been written of a text that ends as `rest` does. */
  ghost predicate Prefixed(whole: Option<Bytes>, pre: Bytes, rest: Option<Bytes>) {
    whole == match rest case None => None case Some(r) => Some(pre + r)
  }

  lemma PrefixedStart(whole: Option<Bytes>)
    ensures Prefixed(whole, [], whole)
  {
    if whole.Some? {
      assert [] + whole.value == whole.value;
    }
  }

  lemma PrefixedStep(whole: Option<Bytes>, pre: Bytes, next: Bytes, rest: Option<Bytes>)
    requires Prefixed(whole, pre, match rest case None => None case Some(r) => Some(next + r))
    ensures Prefixed(whole, pre + next, rest)
  {
    if rest.Some? {
      Assoc(pre, next, rest.value);
    }
  }

  class Encoder {
    var o: Bytes
    const fmt: DoubleFormat

    constructor (fmt: DoubleFormat)
      ensures o == [] && this.fmt == fmt
    {
      this.fmt := fmt;
      o := [];
    }

    /** The length of the well-formed sequence at `i`, checked byte by byte; 0 when there is none. */
    method CheckSequence(s: Bytes, i: nat) returns (n: nat)
      requires i < |s| && s[i] >= 0x80
      ensures n == SequenceLength(s[i..])
    {
      var info := ClassifyLead(s[i]);
      var ok := info.extraBytes >= 0 && i + 1 + info.extraBytes <= |s|;
      var k := 0;
      while k < info.extraBytes && ok
        invariant 0 <= k && (k <= info.extraBytes || info.extraBytes < 0)
        invariant ok ==> info.extraBytes >= 0 && i + 1 + info.extraBytes <= |s|
        invariant ok ==> forall j :: 1 <= j <= k ==> ContinuationOk(info, j, s[i..][j])
        invariant !ok ==> SequenceLength(s[i..]) == 0
        decreases info.extraBytes - k, ok
      {
        var lo := if k == 0 then info.lowBound else 0x80;
        var hi := if k == 0 then info.highBound else 0xBF;
        assert s[i..][k + 1] == s[i + 1 + k];
        ok := lo <= s[i + 1 + k] <= hi;
        k := k + 1;
      }
      n := if ok then 1 + info.extraBytes else 0;
    }

    /** One turn of the escaping loop. */
    method AppendEscapeStep(s: Bytes, i: nat) returns (next: nat)
      requires i < |s|
      modifies this
      ensures o == old(o) + EscapeStep(s[i..])
      ensures next == i + StepLength(s[i..])
    {
      var c := s[i];
      if ShortEscape(c).Some? {
        o := o + [BACKSLASH, ShortEscape(c).value];
        next := i + 1;
      } else if c < 0x20 {
        o := o + [BACKSLASH, 0x75, ZERO, ZERO];
        o := o + [HexDigit(c / 16)];
        o := o + [HexDigit(c % 16)];
        next := i + 1;
      } else if c < 0x80 {
        o := o + [c];
        next := i + 1;
      } else {
        var n := CheckSequence(s, i);
        if n > 0 {
          assert s[i..][..n] == s[i..i + n];
          o := o + s[i..i + n];
          next := i + n;
        } else {
          o := o + REPLACEMENT;
          next := i + 1;
        }
      }
    }

    method AppendEscapedJsonString(s: Bytes)
      modifies this
      ensures o == old(o) + Quoted(s)
    {
      o := o + [QUOTE];
      var i := 0;
      ghost var done: Bytes := [QUOTE];
      assert s[0..] == s;
      while i < |s|
        invariant 0 <= i <= |s|
        invariant o == old(o) + done
        invariant [QUOTE] + EscapeBody(s) == done + EscapeBody(s[i..])
      {
        ghost var here := s[i..];
        i := AppendEscapeStep(s, i);
        assert s[i..] == here[StepLength(here)..];
        Assoc(old(o), done, EscapeStep(here));
        Assoc(done, EscapeStep(here), EscapeBody(s[i..]));
        done := done + EscapeStep(here);
      }
      o := o + [QUOTE];
      assert done == [QUOTE] + EscapeBody(s);
      Assoc(old(o), done, [QUOTE]);
    }

    method AppendNlIndent(indent: int, depth: nat)
      modifies this
      ensures o == old(o) + NlIndent(indent, depth)
    {
      o := o + [NEWLINE];
      if indent > 0 && depth > 0 {
        o := o + seq(indent * depth, _ => SPACE);
      }
    }

    method AppendBreak(indent: int, depth: nat)
      modifies this
      ensures o == old(o) + Break(indent, depth)
    {
      if indent >= 0 {
        AppendNlIndent(indent, depth);
      }
    }

    method AppendMemberHead(key: Bytes, first: bool, indent: int, depth: nat)
      modifies this
      ensures o == old(o) + MemberHead(key, first, indent, depth)
    {
      if !first {
        o := o + [COMMA];
      }
      ghost var head := Separator(first);
      AppendBreak(indent, depth + 1);
      Assoc(old(o), head, Break(indent, depth + 1));
      head := head + Break(indent, depth + 1);
      AppendEscapedJsonString(key);
      Assoc(old(o), head, Quoted(key));
      head := head + Quoted(key);
      o := o + [COLON];
      Assoc(old(o), head, [COLON]);
      head := head + [COLON];
      o := o + AfterColon(indent);
      Assoc(old(o), head, AfterColon(indent));
    }

    method AppendJsonObject(fields: Fields, indent: int, depth: nat) returns (ok: bool)
      modifies this
      ensures ok <==> ObjectText(fields, indent, depth, fmt).Some?
      ensures ok ==> o == old(o) + ObjectText(fields, indent, depth, fmt).value
      decreases fields, 3
    {
      if depth >= MAX_NESTING_DEPTH {
        return false;
      }
      o := o + [LBRACE];
      if fields == [] {
        o := o + [RBRACE];
        return true;
      }
      ok := AppendMembers(fields, indent, depth);
      if ok {
        ghost var body := MembersText(fields, true, indent, depth, fmt).value;
        Assoc(old(o), [LBRACE], body);
        AppendBreak(indent, depth);
        Assoc(old(o), [LBRACE] + body, Break(indent, depth));
        o := o + [RBRACE];
        Assoc(old(o), [LBRACE] + body + Break(indent, depth), [RBRACE]);
      }
    }

    /** The loop over the fields of an object. */
    method AppendMembers(fields: Fields, indent: int, depth: nat) returns (ok: bool)
      modifies this
      ensures ok <==> MembersText(fields, true, indent, depth, fmt).Some?
      ensures ok ==> o == old(o) + MembersText(fields, true, indent, depth, fmt).value
      decreases fields, 2
    {
      ghost var whole := MembersText(fields, true, indent, depth, fmt);
      ghost var done: Bytes := [];
      assert fields[0..] == fields;
      PrefixedStart(whole);
      for i := 0 to |fields|
        invariant o == old(o) + done
        invariant Prefixed(whole, done, MembersText(fields[i..], i == 0, indent, depth, fmt))
      {
        ghost var here := fields[i..];
        assert here[0] == fields[i] && here[1..] == fields[i + 1..];
        ghost var head := MemberHead(fields[i].key, i == 0, indent, depth);
        AppendMemberHead(fields[i].key, i == 0, indent, depth);
        Assoc(old(o), done, head);
        Smaller(fields, i);
        ok := AppendJsonValue(fields[i].value, indent, depth + 1);
        if !ok {
          return false;
        }
        ghost var value := ValueText(fields[i].value, indent, depth + 1, fmt).value;
        Assoc(old(o), done + head, value);
        Assoc(done, head, value);
        PrefixedStep(whole, done, head + value, MembersText(fields[i + 1..], false, indent, depth, fmt));
        done := done + (head + value);
      }
      ok := true;
    }

    method AppendElementHead(first: bool, indent: int, depth: nat)
      modifies this
      ensures o == old(o) + ElementHead(first, indent, depth)
    {
      if !first {
        o := o + [COMMA];
      }
      AppendBreak(indent, depth + 1);
    }

    method AppendJsonArray(elements: seq<Value>, indent: int, depth: nat) returns (ok: bool)
      modifies this
      ensures ok <==> ValueText(Arr(elements), indent, depth, fmt).Some?
      ensures ok ==> o == old(o) + ValueText(Arr(elements), indent, depth, fmt).value
      decreases elements, 3
    {
      if depth >= MAX_NESTING_DEPTH {
        return false;
      }
      o := o + [LBRACKET];
      ok := AppendElements(elements, indent, depth);
      if ok {
        ghost var body := ElementsText(elements, true, indent, depth, fmt).value;
        Assoc(old(o), [LBRACKET], body);
        ghost var close: Bytes := if elements == [] then [] else Break(indent, depth);
        if elements != [] {
          AppendBreak(indent, depth);
        }
        Assoc(old(o), [LBRACKET] + body, close);
        o := o + [RBRACKET];
        Assoc(old(o), [LBRACKET] + body + close, [RBRACKET]);
      }
    }

    /** The loop over the elements of an array. */
    method AppendElements(elements: seq<Value>, indent: int, depth: nat) returns (ok: bool)
      modifies this
      ensures ok <==> ElementsText(elements, true, indent, depth, fmt).Some?
      ensures ok ==> o == old(o) + ElementsText(elements, true, indent, depth, fmt).value
      decreases elements, 2
    {
      ghost var whole := ElementsText(elements, true, indent, depth, fmt);
      ghost var done: Bytes := [];
      assert elements[0..] == elements;
      PrefixedStart(whole);
      for i := 0 to |elements|
        invariant o == old(o) + done
        invariant Prefixed(whole, done, ElementsText(elements[i..], i == 0, indent, depth, fmt))
      {
        ghost var here := elements[i..];
        assert here[0] == elements[i] && here[1..] == elements[i + 1..];
        ghost var head := ElementHead(i == 0, indent, depth);
        AppendElementHead(i == 0, indent, depth);
        Assoc(old(o), done, head);
        ok := AppendJsonValue(elements[i], indent, depth + 1);
        if !ok {
          return false;
        }
        ghost var value := ValueText(elements[i], indent, depth + 1, fmt).value;
        Assoc(old(o), done + head, value);
        Assoc(done, head, value);
        PrefixedStep(whole, done, head + value, ElementsText(elements[i + 1..], false, indent, depth, fmt));
        done := done + (head + value);
      }
      ok := true;
    }

    /** On failure `o` holds what was written so far; the caller discards it. */
    method AppendJsonValue(v: Value, indent: int, depth: nat) returns (ok: bool)
      modifies this
      ensures ok <==> ValueText(v, indent, depth, fmt).Some?
      ensures ok ==> o == old(o) + ValueText(v, indent, depth, fmt).value
      decreases v, 2
    {
      match v
      case Null =>
        o := o + NULL_TEXT;
        ok := true;
      case I64(i) =>
        o := o + Decimal(i);
        ok := true;
      case U64(u) =>
        ok := u < TWO_63;
        if ok {
          o := o + Decimal(u);
        }
      case Bool(b) =>
        o := o + if b then TRUE_TEXT else FALSE_TEXT;
        ok := true;
      case Double(bits) =>
        ok := fmt(bits).Some?;
        if ok {
          o := o + fmt(bits).value;
        }
      case Str(s) =>
        AppendEscapedJsonString(s);
        ok := true;
      case Obj(fields) =>
        ok := AppendJsonObject(fields, indent, depth);
      case Arr(elements) =>
        ok := AppendJsonArray(elements, indent, depth);
    }
  }

  /** valueToJsonString: the whole text, or None on an encoding error. */
  method ValueToJsonString(v: Value, indent: int, fmt: DoubleFormat) returns (text: Option<Bytes>)
    ensures text == ValueText(v, indent, 0, fmt)
  {
    var encoder := new Encoder(fmt);
    var ok := encoder.AppendJsonValue(v, indent, 0);
    text := if ok then Some(encoder.o) else None;
    PrefixedStart(ValueText(v, indent, 0, fmt));
  }

  const ERROR_KEY: Bytes := [0x65, 0x72, 0x72, 0x6F, 0x72]

  /** {"error":...} */
  function ErrorText(message: Bytes): Bytes {
    [LBRACE] + ([QUOTE] + ERROR_KEY + [QUOTE]) + [COLON] + Quoted(message) + [RBRACE]
  }

  /** objectToJsonString; `message` is what the encoding error says, if there is one. */
  method ObjectToJsonString(fields: Fields, indent: int, fmt: DoubleFormat, message: Bytes) returns (text: Bytes)
    ensures text == match ValueText(Obj(fields), indent, 0, fmt) case Some(t) => t case None => ErrorText(message)
  {
    var r := ValueToJsonString(Obj(fields), indent, fmt);
    if r.None? {
      var encoder := new Encoder(fmt);
      encoder.o := [LBRACE] + ([QUOTE] + ERROR_KEY + [QUOTE]) + [COLON];
      encoder.AppendEscapedJsonString(message);
      encoder.o := encoder.o + [RBRACE];
      return encoder.o;
    }
    text := r.value;
  }
}
