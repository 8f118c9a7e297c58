/**
 * What the JSON printer and the JSON parser do together: every tree without doubles that can
 * be printed reads back as its JSON form, exactly when no two keys of an object become equal
 * by sanitising; and whatever the parser accepts is in that form already.
 */
module JsonRoundTrip {
  import opened ByteStrings
  import opened Utf8
  import opened FiFoMaps
  import opened Values
  import opened JsonWriter
  import opened JsonReading
  import G = JsonGrammar

  // ---- The trees in question ----

  /** No double anywhere: how doubles are printed and read is the library's. */
  ghost predicate DoubleFree(v: Value) {
    match v
    case Double(_) => false
    case Obj(fields) => forall i :: 0 <= i < |fields| ==> (Smaller(fields, i); DoubleFree(fields[i].value))
    case Arr(elements) => forall i :: 0 <= i < |elements| ==> DoubleFree(elements[i])
    case _ => true
  }

  /** Every unsigned integer fits a signed one. */
  ghost predicate UnsignedFits(v: Value) {
    match v
    case U64(u) => u < TWO_63
    case Obj(fields) => forall i :: 0 <= i < |fields| ==> (Smaller(fields, i); UnsignedFits(fields[i].value))
    case Arr(elements) => forall i :: 0 <= i < |elements| ==> UnsignedFits(elements[i])
    case _ => true
  }

  /** What JSON keeps of a tree: signed integers, and sanitised strings and keys, in the same order. */
  function JsonForm(v: Value): Value
    requires UnsignedFits(v)
    decreases v, 1
  {
    match v
    case U64(u) => I64(u)
    case Str(s) => Str(Sanitise(s))
    case Obj(fields) => Obj(JsonFields(fields))
    case Arr(elements) => Arr(JsonElements(elements))
    case _ => v
  }

  function JsonFields(fields: Fields): Fields
    requires forall i :: 0 <= i < |fields| ==> UnsignedFits(fields[i].value)
    decreases fields, 0
  {
    if fields == [] then []
    else
      Smaller(fields, 0);
      [Entry(Sanitise(fields[0].key), JsonForm(fields[0].value))] + JsonFields(fields[1..])
  }

  function JsonElements(elements: seq<Value>): seq<Value>
    requires forall i :: 0 <= i < |elements| ==> UnsignedFits(elements[i])
    decreases elements, 0
  {
    if elements == [] then [] else [JsonForm(elements[0])] + JsonElements(elements[1..])
  }

  /** No two keys of one object become equal by sanitising. */
  ghost predicate KeysStayDistinct(v: Value)
    decreases v, 1
  {
    match v
    case Obj(fields) => DistinctKeys(SanitisedKeys(fields)) && FieldsStayDistinct(fields)
    case Arr(elements) => ElementsStayDistinct(elements)
    case _ => true
  }

  ghost predicate FieldsStayDistinct(fields: Fields)
    decreases fields, 0
  {
    fields == [] || (Smaller(fields, 0); KeysStayDistinct(fields[0].value) && FieldsStayDistinct(fields[1..]))
  }

  ghost predicate ElementsStayDistinct(elements: seq<Value>)
    decreases elements, 0
  {
    elements == [] || (KeysStayDistinct(elements[0]) && ElementsStayDistinct(elements[1..]))
  }

  function SanitisedKeys(fields: Fields): seq<Entry<Bytes, ()>> {
    if fields == [] then [] else [Entry(Sanitise(fields[0].key), ())] + SanitisedKeys(fields[1..])
  }

  // ---- When a tree can be printed ----

  lemma {:induction false} Printable(v: Value, indent: int, depth: nat, fmt: DoubleFormat)
    requires DoubleFree(v)
    ensures ValueText(v, indent, depth, fmt).Some? <==>
            UnsignedFits(v) && (Containers(v) > 0 ==> depth + Containers(v) <= MAX_NESTING_DEPTH)
    decreases v, 1
  {
    match v
    case Obj(fields) =>
      if depth < MAX_NESTING_DEPTH {
        FieldsPrintable(fields, true, indent, depth, fmt);
      }
    case Arr(elements) =>
      if depth < MAX_NESTING_DEPTH {
        ElementsPrintable(elements, true, indent, depth, fmt);
      }
    case _ =>
  }

  lemma {:induction false} FieldsPrintable(fields: Fields, first: bool, indent: int, depth: nat, fmt: DoubleFormat)
    requires depth < MAX_NESTING_DEPTH && forall i :: 0 <= i < |fields| ==> DoubleFree(fields[i].value)
    ensures MembersText(fields, first, indent, depth, fmt).Some? <==>
            (forall i :: 0 <= i < |fields| ==> UnsignedFits(fields[i].value)) && depth + 1 + FieldsContainers(fields) <= MAX_NESTING_DEPTH
    decreases fields, 0
  {
    if fields != [] {
      Smaller(fields, 0);
      Printable(fields[0].value, indent, depth + 1, fmt);
      FieldsPrintable(fields[1..], false, indent, depth, fmt);
      assert forall i :: 0 <= i < |fields| ==> fields[i] == if i == 0 then fields[0] else fields[1..][i - 1];
    }
  }

  lemma {:induction false} ElementsPrintable(elements: seq<Value>, first: bool, indent: int, depth: nat, fmt: DoubleFormat)
    requires depth < MAX_NESTING_DEPTH && forall i :: 0 <= i < |elements| ==> DoubleFree(elements[i])
    ensures ElementsText(elements, first, indent, depth, fmt).Some? <==>
            (forall i :: 0 <= i < |elements| ==> UnsignedFits(elements[i])) && depth + 1 + ElementsContainers(elements) <= MAX_NESTING_DEPTH
    decreases elements, 0
  {
    if elements != [] {
      Printable(elements[0], indent, depth + 1, fmt);
      ElementsPrintable(elements[1..], false, indent, depth, fmt);
      assert forall i :: 0 <= i < |elements| ==> elements[i] == if i == 0 then elements[0] else elements[1..][i - 1];
    }
  }

  // ---- Strings ----

  /** The syntax of what the escaping loop emits for the start of `s`. */
  function StepPiece(s: Bytes): G.Piece
    requires s != []
  {
    var c := s[0];
    if ShortEscape(c).Some? then G.Short(ShortEscape(c).value)
    else if c < 0x20 then G.Hex([ZERO, ZERO, HexDigit(c / 16), HexDigit(c % 16)])
    else if SequenceLength(s) > 0 then G.Raw(s[..SequenceLength(s)])
    else G.Raw(REPLACEMENT)
  }

  function PiecesOf(s: Bytes): seq<G.Piece> {
    if s == [] then [] else [StepPiece(s)] + PiecesOf(s[StepLength(s)..])
  }

  lemma HexOfControl(c: Byte)
    requires c < 0x20
    ensures var h := [ZERO, ZERO, HexDigit(c / 16), HexDigit(c % 16)];
            IsHex4(h) && Hex4Value(h) == c && EncodeChar(c) == [c]
  {}

  lemma StepPieceReads(s: Bytes)
    requires s != []
    ensures G.ValidPiece(StepPiece(s)) && G.PieceText(StepPiece(s)) == EscapeStep(s)
    ensures Sanitise(s) == G.PieceValue(StepPiece(s)) + Sanitise(s[StepLength(s)..])
  {
    var c := s[0];
    if c < 0x80 {
      assert s[..1] == [c];
      if ShortEscape(c).None? && c < 0x20 {
        HexOfControl(c);
      }
    }
    if SequenceLength(s) > 0 {
      PrefixIsChar(s);
    } else {
      ReplacementIsChar();
    }
  }

  /** The escaped string is one the grammar has, and stands for the sanitised one. */
  lemma {:induction false} EscapedReads(s: Bytes, rest: Bytes)
    ensures G.ValidPieces(PiecesOf(s)) && G.PiecesValue(PiecesOf(s)) == Sanitise(s)
    ensures G.PiecesText(PiecesOf(s), rest) == EscapeBody(s) + rest
    decreases |s|
  {
    if s != [] {
      var tail := s[StepLength(s)..];
      StepPieceReads(s);
      EscapedReads(tail, rest);
      assert PiecesOf(s)[1..] == PiecesOf(tail);
      Assoc(EscapeStep(s), EscapeBody(tail), rest);
    } else {
      assert EscapeBody(s) + rest == rest;
    }
  }

  lemma QuotedReads(s: Bytes, rest: Bytes)
    ensures G.ValidPieces(PiecesOf(s)) && G.PiecesValue(PiecesOf(s)) == Sanitise(s)
    ensures G.StringText(PiecesOf(s), rest) == Quoted(s) + rest
  {
    EscapedReads(s, [QUOTE] + rest);
    Assoc([QUOTE] + EscapeBody(s), [QUOTE], rest);
    Assoc([QUOTE], EscapeBody(s), [QUOTE] + rest);
  }

  /** parseString on what appendEscapedJsonString emits: reads all of it, and returns it sanitised. */
  lemma StringRoundTrip(s: Bytes, rest: Bytes)
    ensures ParseString(Quoted(s) + rest) == Done(Sanitise(s), rest)
  {
    QuotedReads(s, rest);
    G.StringComplete([], PiecesOf(s), rest);
    assert [] + G.StringText(PiecesOf(s), rest) == G.StringText(PiecesOf(s), rest);
  }

  // ---- Integers ----

  lemma {:induction false} DigitsRead(n: nat)
    ensures AllDigits(Digits(n)) && DigitsValue(Digits(n)) == n
    ensures n > 0 ==> Digits(n)[0] != ZERO
  {
    if n < 10 {
      assert DigitsValue(Digits(n)[..0]) == 0;
    } else {
      DigitsRead(n / 10);
      assert Digits(n)[..|Digits(n)| - 1] == Digits(n / 10);
    }
  }

  function NumberOf(n: int): G.Number {
    G.Number(n < 0, Digits(if n < 0 then -n else n), None, None)
  }

  lemma DecimalText(n: int, rest: Bytes)
    ensures G.NumberText(NumberOf(n), rest) == Decimal(n) + rest
  {
    var digits := Digits(if n < 0 then -n else n);
    if n < 0 {
      Assoc([MINUS], digits, rest);
    } else {
      assert [] + (digits + rest) == digits + rest;
    }
  }

  /** to_string and from_chars. */
  lemma DecimalReads(n: int, rest: Bytes)
    ensures G.ValidNumber(NumberOf(n))
    ensures G.NumberText(NumberOf(n), rest) == Decimal(n) + rest
    ensures -TWO_63 <= n < TWO_63 ==> IntegerValue(G.NumberText(NumberOf(n), [])) == Some(I64(n))
  {
    DigitsRead(if n < 0 then -n else n);
    DecimalText(n, rest);
    DecimalText(n, []);
    assert Decimal(n) + [] == Decimal(n);
    if -TWO_63 <= n < TWO_63 {
      DecimalValue(n);
    }
  }

  lemma DecimalValue(n: int)
    requires -TWO_63 <= n < TWO_63
    ensures IntegerValue(Decimal(n)) == Some(I64(n))
  {
    var digits := Digits(if n < 0 then -n else n);
    DigitsRead(if n < 0 then -n else n);
    if n < 0 {
      assert Decimal(n)[1..] == digits;
    }
    assert SkipMinus(Decimal(n)) == digits;
  }

  // ---- The syntax tree of what the printer writes ----

  function Layout(v: Value, indent: int, depth: nat): G.Json
    requires DoubleFree(v)
    decreases v, 1
  {
    match v
    case Null => G.JNull
    case I64(i) => G.JNumber(NumberOf(i))
    case U64(u) => G.JNumber(NumberOf(u))
    case Bool(b) => G.JBool(b)
    case Str(s) => G.JString(PiecesOf(s))
    case Obj(fields) => G.JObject([], LayoutMembers(fields, indent, depth))
    case Arr(elements) => G.JArray([], LayoutItems(elements, indent, depth))
  }

  /** What stands after a value: the closing line break after the last one. */
  function AfterValue(last: bool, indent: int, depth: nat): Bytes {
    if last then Break(indent, depth) else []
  }

  function LayoutItems(elements: seq<Value>, indent: int, depth: nat): (items: seq<G.Item>)
    requires forall i :: 0 <= i < |elements| ==> DoubleFree(elements[i])
    ensures |items| == |elements|
    decreases elements, 0
  {
    if elements == [] then []
    else
      [G.Item(Break(indent, depth + 1), Layout(elements[0], indent, depth + 1), AfterValue(|elements| == 1, indent, depth))]
      + LayoutItems(elements[1..], indent, depth)
  }

  function LayoutMembers(fields: Fields, indent: int, depth: nat): (members: seq<G.Member>)
    requires forall i :: 0 <= i < |fields| ==> DoubleFree(fields[i].value)
    ensures |members| == |fields|
    decreases fields, 0
  {
    if fields == [] then []
    else
      Smaller(fields, 0);
      [G.Member(Break(indent, depth + 1), PiecesOf(fields[0].key), [],
                G.Item(AfterColon(indent), Layout(fields[0].value, indent, depth + 1), AfterValue(|fields| == 1, indent, depth)))]
      + LayoutMembers(fields[1..], indent, depth)
  }

  lemma BreakIsWs(indent: int, depth: nat)
    ensures G.AllWs(Break(indent, depth)) && G.AllWs(AfterColon(indent))
  {}

  lemma {:induction false} LayoutValid(v: Value, indent: int, depth: nat)
    requires DoubleFree(v)
    ensures G.ValidJson(Layout(v, indent, depth))
    decreases v, 1
  {
    match v
    case I64(i) => DecimalReads(i, []);
    case U64(u) => DecimalReads(u, []);
    case Str(s) => EscapedReads(s, []);
    case Obj(fields) => LayoutMembersValid(fields, indent, depth);
    case Arr(elements) => LayoutItemsValid(elements, indent, depth);
    case _ =>
  }

  lemma {:induction false} LayoutItemsValid(elements: seq<Value>, indent: int, depth: nat)
    requires forall i :: 0 <= i < |elements| ==> DoubleFree(elements[i])
    ensures forall i :: 0 <= i < |elements| ==> G.ValidItem(LayoutItems(elements, indent, depth)[i])
    decreases elements, 0
  {
    if elements != [] {
      BreakIsWs(indent, depth);
      BreakIsWs(indent, depth + 1);
      LayoutValid(elements[0], indent, depth + 1);
      LayoutItemsValid(elements[1..], indent, depth);
    }
  }

  lemma {:induction false} LayoutMembersValid(fields: Fields, indent: int, depth: nat)
    requires forall i :: 0 <= i < |fields| ==> DoubleFree(fields[i].value)
    ensures forall i :: 0 <= i < |fields| ==> G.ValidMember(LayoutMembers(fields, indent, depth)[i])
    decreases fields, 0
  {
    if fields != [] {
      Smaller(fields, 0);
      BreakIsWs(indent, depth);
      BreakIsWs(indent, depth + 1);
      EscapedReads(fields[0].key, []);
      LayoutValid(fields[0].value, indent, depth + 1);
      LayoutMembersValid(fields[1..], indent, depth);
      assert G.ValidItem(LayoutMembers(fields, indent, depth)[0].item);
    }
  }

  /** The printer writes the text of that tree. */
  lemma {:induction false} LayoutText(v: Value, indent: int, depth: nat, fmt: DoubleFormat, rest: Bytes)
    requires DoubleFree(v) && ValueText(v, indent, depth, fmt).Some?
    ensures G.Text(Layout(v, indent, depth), rest) == ValueText(v, indent, depth, fmt).value + rest
    decreases v, 1
  {
    match v
    case I64(i) => DecimalReads(i, rest);
    case U64(u) => DecimalReads(u, rest);
    case Str(s) => QuotedReads(s, rest);
    case Obj(fields) =>
      if fields == [] {
        assert [] + ([RBRACE] + rest) == [RBRACE] + rest;
      } else {
        var body := MembersText(fields, true, indent, depth, fmt).value;
        LayoutMembersText(fields, true, indent, depth, fmt, [RBRACE] + rest);
        NoSeparator(G.MembersText(LayoutMembers(fields, indent, depth), [RBRACE] + rest));
        Bracketed([LBRACE], body, Break(indent, depth), [RBRACE], rest);
      }
    case Arr(elements) =>
      if elements == [] {
        assert [] + ([RBRACKET] + rest) == [RBRACKET] + rest;
      } else {
        var body := ElementsText(elements, true, indent, depth, fmt).value;
        LayoutItemsText(elements, true, indent, depth, fmt, [RBRACKET] + rest);
        NoSeparator(G.ItemsText(LayoutItems(elements, indent, depth), [RBRACKET] + rest));
        Bracketed([LBRACKET], body, Break(indent, depth), [RBRACKET], rest);
      }
    case _ =>
  }

  lemma NoSeparator(t: Bytes)
    ensures Separator(true) + t == t
  {}

  lemma Bracketed(open: Bytes, body: Bytes, gap: Bytes, close: Bytes, rest: Bytes)
    ensures open + (body + (gap + (close + rest))) == open + body + gap + close + rest
  {
    Assoc(open + body + gap, close, rest);
    Assoc(open + body, gap, close + rest);
    Assoc(open, body, gap + (close + rest));
  }

  lemma {:induction false} LayoutItemsText(elements: seq<Value>, first: bool, indent: int, depth: nat, fmt: DoubleFormat, rest: Bytes)
    requires elements != [] && forall i :: 0 <= i < |elements| ==> DoubleFree(elements[i])
    requires ElementsText(elements, first, indent, depth, fmt).Some?
    ensures Separator(first) + G.ItemsText(LayoutItems(elements, indent, depth), rest) ==
            ElementsText(elements, first, indent, depth, fmt).value + (Break(indent, depth) + rest)
    decreases elements, 0
  {
    var items := LayoutItems(elements, indent, depth);
    var value := ValueText(elements[0], indent, depth + 1, fmt).value;
    var tail := ElementsText(elements[1..], false, indent, depth, fmt).value;
    assert items[1..] == LayoutItems(elements[1..], indent, depth);
    var next := if |items| == 1 then rest else [COMMA] + G.ItemsText(items[1..], rest);
    assert items[0].post + next == tail + (Break(indent, depth) + rest) by {
      if |items| == 1 {
        assert tail == [];
        assert [] + (Break(indent, depth) + rest) == Break(indent, depth) + rest;
      } else {
        LayoutItemsText(elements[1..], false, indent, depth, fmt, rest);
        assert [] + next == next;
      }
    }
    LayoutText(elements[0], indent, depth + 1, fmt, items[0].post + next);
    Bracketed(Separator(first), Break(indent, depth + 1), value, tail, Break(indent, depth) + rest);
  }

  lemma {:induction false} LayoutMembersText(fields: Fields, first: bool, indent: int, depth: nat, fmt: DoubleFormat, rest: Bytes)
    requires fields != [] && forall i :: 0 <= i < |fields| ==> DoubleFree(fields[i].value)
    requires MembersText(fields, first, indent, depth, fmt).Some?
    ensures Separator(first) + G.MembersText(LayoutMembers(fields, indent, depth), rest) ==
            MembersText(fields, first, indent, depth, fmt).value + (Break(indent, depth) + rest)
    decreases fields, 0
  {
    Smaller(fields, 0);
    var members := LayoutMembers(fields, indent, depth);
    var x := members[0].item;
    var value := ValueText(fields[0].value, indent, depth + 1, fmt).value;
    var tail := MembersText(fields[1..], false, indent, depth, fmt).value;
    assert members[1..] == LayoutMembers(fields[1..], indent, depth);
    var next := if |members| == 1 then rest else [COMMA] + G.MembersText(members[1..], rest);
    var closing := Break(indent, depth) + rest;
    assert x.post + next == tail + closing by {
      if |members| == 1 {
        assert tail == [];
        assert [] + closing == closing;
      } else {
        LayoutMembersText(fields[1..], false, indent, depth, fmt, rest);
        assert [] + next == next;
      }
    }
    LayoutText(fields[0].value, indent, depth + 1, fmt, x.post + next);
    assert G.ItemText(x, next) == AfterColon(indent) + (value + (tail + closing));
    assert G.MembersText(members, rest) == G.MemberText(members[0], next);
    MemberTextFlat(fields[0].key, first, indent, depth, value, tail + closing);
    Assoc(MemberHead(fields[0].key, first, indent, depth) + value, tail, closing);
    Assoc(MemberHead(fields[0].key, first, indent, depth), value, tail + closing);
  }

  lemma MemberTextFlat(key: Bytes, first: bool, indent: int, depth: nat, value: Bytes, rest: Bytes)
    ensures Separator(first) + (Break(indent, depth + 1) + G.StringText(PiecesOf(key), [] + ([COLON] + (AfterColon(indent) + (value + rest))))) ==
            MemberHead(key, first, indent, depth) + (value + rest)
  {
    var after := AfterColon(indent) + (value + rest);
    assert [] + ([COLON] + after) == [COLON] + after;
    QuotedReads(key, [COLON] + after);
    Bracketed(Separator(first), Break(indent, depth + 1), Quoted(key), [COLON], after);
    Assoc(Separator(first) + Break(indent, depth + 1) + Quoted(key) + [COLON], AfterColon(indent), value + rest);
  }

  // ---- What that tree denotes ----

  lemma {:induction false} LayoutDenotes(v: Value, indent: int, depth: nat, strtod: Strtod)
    requires DoubleFree(v) && UnsignedFits(v)
    requires Containers(v) > 0 ==> depth + Containers(v) <= MAX_NESTING_DEPTH
    ensures G.ValidJson(Layout(v, indent, depth))
    ensures G.Denote(Layout(v, indent, depth), depth, strtod) == if KeysStayDistinct(v) then Some(JsonForm(v)) else None
    decreases v, 1
  {
    LayoutValid(v, indent, depth);
    match v
    case I64(i) => DecimalReads(i, []);
    case U64(u) => DecimalReads(u, []);
    case Str(s) => EscapedReads(s, []);
    case Obj(fields) =>
      LayoutMembersDenote(fields, indent, depth, [], strtod);
      assert [] + JsonFields(fields) == JsonFields(fields);
      SanitisedKeysOfForm(fields);
      assert [] + SanitisedKeys(fields) == SanitisedKeys(fields);
    case Arr(elements) =>
      LayoutItemsDenote(elements, indent, depth, strtod);
    case _ =>
  }

  lemma {:induction false} LayoutItemsDenote(elements: seq<Value>, indent: int, depth: nat, strtod: Strtod)
    requires forall i :: 0 <= i < |elements| ==> DoubleFree(elements[i]) && UnsignedFits(elements[i])
    requires depth + 1 + ElementsContainers(elements) <= MAX_NESTING_DEPTH
    ensures forall i :: 0 <= i < |elements| ==> G.ValidItem(LayoutItems(elements, indent, depth)[i])
    ensures G.DenoteItems(LayoutItems(elements, indent, depth), depth + 1, strtod) ==
            if ElementsStayDistinct(elements) then Some(JsonElements(elements)) else None
    decreases elements, 0
  {
    LayoutItemsValid(elements, indent, depth);
    if elements != [] {
      LayoutDenotes(elements[0], indent, depth + 1, strtod);
      LayoutItemsDenote(elements[1..], indent, depth, strtod);
      assert LayoutItems(elements, indent, depth)[1..] == LayoutItems(elements[1..], indent, depth);
    }
  }

  lemma {:induction false} LayoutMembersDenote(fields: Fields, indent: int, depth: nat, before: Fields, strtod: Strtod)
    requires forall i :: 0 <= i < |fields| ==> DoubleFree(fields[i].value) && UnsignedFits(fields[i].value)
    requires depth + 1 + FieldsContainers(fields) <= MAX_NESTING_DEPTH && DistinctKeys(before)
    ensures forall i :: 0 <= i < |fields| ==> G.ValidMember(LayoutMembers(fields, indent, depth)[i])
    ensures G.DenoteMembers(LayoutMembers(fields, indent, depth), depth + 1, before, strtod) ==
            if DistinctKeys(before + JsonFields(fields)) && FieldsStayDistinct(fields) then Some(before + JsonFields(fields)) else None
    decreases fields, 1
  {
    if fields == [] {
      assert before + JsonFields(fields) == before;
    } else {
      Smaller(fields, 0);
      FirstFieldDenotes(fields, indent, depth, before, strtod);
      if KeysStayDistinct(fields[0].value) {
        var entry := Entry(Sanitise(fields[0].key), JsonForm(fields[0].value));
        Assoc(before, [entry], JsonFields(fields[1..]));
        if HasKey(before, entry.key) {
          RepeatedKey(before, entry, JsonFields(fields[1..]));
        } else {
          LayoutMembersDenote(fields[1..], indent, depth, before + [entry], strtod);
        }
      }
    }
  }

  lemma {:induction false} FirstFieldDenotes(fields: Fields, indent: int, depth: nat, before: Fields, strtod: Strtod)
    requires fields != [] && forall i :: 0 <= i < |fields| ==> DoubleFree(fields[i].value) && UnsignedFits(fields[i].value)
    requires depth + 1 + FieldsContainers(fields) <= MAX_NESTING_DEPTH
    ensures forall i :: 0 <= i < |fields| ==> G.ValidMember(LayoutMembers(fields, indent, depth)[i])
    ensures forall i :: 0 <= i < |fields[1..]| ==> G.ValidMember(LayoutMembers(fields[1..], indent, depth)[i])
    ensures var key := Sanitise(fields[0].key);
            G.DenoteMembers(LayoutMembers(fields, indent, depth), depth + 1, before, strtod) ==
            if HasKey(before, key) || (Smaller(fields, 0); !KeysStayDistinct(fields[0].value)) then None
            else G.DenoteMembers(LayoutMembers(fields[1..], indent, depth), depth + 1,
                                 before + [Entry(key, JsonForm(fields[0].value))], strtod)
    decreases fields, 0
  {
    Smaller(fields, 0);
    var members := LayoutMembers(fields, indent, depth);
    LayoutMembersValid(fields, indent, depth);
    LayoutMembersValid(fields[1..], indent, depth);
    EscapedReads(fields[0].key, []);
    LayoutDenotes(fields[0].value, indent, depth + 1, strtod);
    assert members[1..] == LayoutMembers(fields[1..], indent, depth);
    FirstMemberDenotes(members, depth + 1, before, strtod);
  }

  lemma FirstMemberDenotes(members: seq<G.Member>, depth: nat, before: Fields, strtod: Strtod)
    requires members != [] && forall i :: 0 <= i < |members| ==> G.ValidMember(members[i])
    ensures G.ValidPieces(members[0].key) && G.ValidJson(members[0].item.value)
    ensures var key := G.PiecesValue(members[0].key);
            var value := G.Denote(members[0].item.value, depth, strtod);
            G.DenoteMembers(members, depth, before, strtod) ==
            if HasKey(before, key) || value.None? then None
            else G.DenoteMembers(members[1..], depth, before + [Entry(key, value.value)], strtod)
  {
    assert G.ValidMember(members[0]) && G.ValidItem(members[0].item);
  }

  lemma RepeatedKey(before: Fields, entry: Entry<Bytes, Value>, after: Fields)
    requires HasKey(before, entry.key)
    ensures !DistinctKeys(before + ([entry] + after))
  {
    var all := before + ([entry] + after);
    assert all[IndexOf(before, entry.key)].key == all[|before|].key;
  }

  lemma {:induction false} SanitisedKeysOfForm(fields: Fields)
    requires forall i :: 0 <= i < |fields| ==> UnsignedFits(fields[i].value)
    ensures |JsonFields(fields)| == |SanitisedKeys(fields)|
    ensures forall i :: 0 <= i < |JsonFields(fields)| ==> JsonFields(fields)[i].key == SanitisedKeys(fields)[i].key
    ensures DistinctKeys(JsonFields(fields)) <==> DistinctKeys(SanitisedKeys(fields))
    decreases fields
  {
    if fields != [] {
      SanitisedKeysOfForm(fields[1..]);
    }
  }

  // ---- The round trip ----

  /**
   * A tree without doubles can be printed exactly when its unsigned integers fit and it nests
   * at most 128 containers; and then, compact or with any indent, what is printed reads back
   * as the JSON form of the tree exactly when its keys stay distinct, and not at all otherwise.
   */
  lemma JsonRoundTrip(v: Value, indent: int, fmt: DoubleFormat, strtod: Strtod)
    requires DoubleFree(v)
    ensures ValueText(v, indent, 0, fmt).Some? <==> UnsignedFits(v) && Containers(v) <= MAX_NESTING_DEPTH
    ensures ValueText(v, indent, 0, fmt).Some? ==>
              ParseDocument(ValueText(v, indent, 0, fmt).value, strtod) == if KeysStayDistinct(v) then Some(JsonForm(v)) else None
  {
    Printable(v, indent, 0, fmt);
    if ValueText(v, indent, 0, fmt).Some? {
      var text := ValueText(v, indent, 0, fmt).value;
      LayoutText(v, indent, 0, fmt, []);
      LayoutDenotes(v, indent, 0, strtod);
      assert text == [] + G.Text(Layout(v, indent, 0), []);
      G.DocumentComplete(text, [], Layout(v, indent, 0), [], strtod);
    }
  }

  /** The keys of this object are distinct, and both become U+FFFD: it is printed, and refused on the way back. */
  lemma CollidingKeys(fmt: DoubleFormat, strtod: Strtod)
    ensures var v := Obj([Entry([0xFF], Null), Entry([0xFE], Null)]);
            && WellFormed(v)
            && ValueText(v, -1, 0, fmt).Some?
            && ParseDocument(ValueText(v, -1, 0, fmt).value, strtod) == None
  {
    var a: Bytes, b: Bytes := [0xFF], [0xFE];
    var fields: Fields := [Entry(a, Null), Entry(b, Null)];
    assert fields[1..] == [Entry(b, Null)];
    assert Sanitise(a) == REPLACEMENT + Sanitise(a[1..]) && Sanitise(b) == REPLACEMENT + Sanitise(b[1..]);
    assert SanitisedKeys(fields)[0].key == SanitisedKeys(fields)[1].key;
    assert FieldsContainers([Entry(b, Null)]) == 0;
    assert FieldsContainers(fields) == 0;
    JsonRoundTrip(Obj(fields), -1, fmt, strtod);
  }

  /** The text that stands for an encoding error is itself an object the parser reads, whatever the message. */
  lemma ErrorTextReads(message: Bytes, fmt: DoubleFormat, strtod: Strtod)
    ensures ParseDocument(ErrorText(message), strtod) == Some(Obj([Entry(ERROR_KEY, Str(Sanitise(message)))]))
  {
    hide EscapeBody, Sanitise, ParseDocument;
    PlainText(ERROR_KEY);
    OneFieldReads(ERROR_KEY, message, fmt, strtod);
  }

  lemma OneFieldReads(key: Bytes, s: Bytes, fmt: DoubleFormat, strtod: Strtod)
    ensures ParseDocument([LBRACE] + Quoted(key) + [COLON] + Quoted(s) + [RBRACE], strtod) ==
            Some(Obj([Entry(Sanitise(key), Str(Sanitise(s)))]))
  {
    hide Quoted, Sanitise, ValueText, JsonForm, DoubleFree, UnsignedFits, KeysStayDistinct;
    OneFieldText(key, s, fmt);
    OneFieldForm(key, s);
    JsonRoundTrip(Obj([Entry(key, Str(s))]), -1, fmt, strtod);
  }

  /** Printable ASCII without quotes and backslashes is printed as it is. */
  lemma {:induction false} PlainText(s: Bytes)
    requires forall i :: 0 <= i < |s| ==> 0x20 <= s[i] < 0x80 && s[i] != QUOTE && s[i] != BACKSLASH
    ensures EscapeBody(s) == s && Sanitise(s) == s
  {
    if s != [] {
      PlainText(s[1..]);
      assert SequenceLength(s) == 1;
      assert s == s[..1] + s[1..];
    }
  }

  lemma OneFieldText(key: Bytes, s: Bytes, fmt: DoubleFormat)
    ensures ValueText(Obj([Entry(key, Str(s))]), -1, 0, fmt) == Some([LBRACE] + Quoted(key) + [COLON] + Quoted(s) + [RBRACE])
  {
    var fields: Fields := [Entry(key, Str(s))];
    hide Quoted;
    assert fields[1..] == [];
    assert MembersText(fields[1..], false, -1, 0, fmt) == Some([]);
    assert MemberHead(key, true, -1, 0) == Quoted(key) + [COLON];
    assert MembersText(fields, true, -1, 0, fmt) == Some(Quoted(key) + [COLON] + Quoted(s) + []);
    assert [LBRACE] + (Quoted(key) + [COLON] + Quoted(s) + []) + [] + [RBRACE] == [LBRACE] + Quoted(key) + [COLON] + Quoted(s) + [RBRACE];
  }

  lemma OneFieldForm(key: Bytes, s: Bytes)
    ensures var v := Obj([Entry(key, Str(s))]);
            && DoubleFree(v) && UnsignedFits(v) && KeysStayDistinct(v)
            && JsonForm(v) == Obj([Entry(Sanitise(key), Str(Sanitise(s)))])
  {
    hide Sanitise;
    var fields: Fields := [Entry(key, Str(s))];
    assert fields[0].value == Str(s) && UnsignedFits(Str(s)) && DoubleFree(Str(s)) && KeysStayDistinct(Str(s));
    assert fields[1..] == [];
    assert JsonForm(Str(s)) == Str(Sanitise(s)) && JsonFields(fields[1..]) == [];
    assert JsonFields(fields) == [Entry(Sanitise(key), Str(Sanitise(s)))];
    assert FieldsStayDistinct(fields[1..]) && SanitisedKeys(fields[1..]) == [];
    assert FieldsStayDistinct(fields) && SanitisedKeys(fields) == [Entry(Sanitise(key), ())];
  }

  // ---- The parser's results are in JSON form ----

  /** Valid UTF-8 strings, keys distinct in every object, integers signed. */
  ghost predicate NormalForm(v: Value) {
    match v
    case U64(_) => false
    case Str(s) => Valid(s)
    case Obj(fields) => NormalFields(fields)
    case Arr(elements) => forall i :: 0 <= i < |elements| ==> NormalForm(elements[i])
    case _ => true
  }

  ghost predicate NormalFields(fields: Fields) {
    DistinctKeys(fields) && forall i :: 0 <= i < |fields| ==> Valid(fields[i].key) && (Smaller(fields, i); NormalForm(fields[i].value))
  }

  /** Every accepted escape or surrogate pair is a scalar value, so strings come out as valid UTF-8. */
  lemma {:induction false} PiecesAreValid(ps: seq<G.Piece>)
    requires G.ValidPieces(ps)
    ensures Valid(G.PiecesValue(ps))
  {
    if ps != [] {
      match ps[0] {
        case Raw(c) =>
        case Short(e) =>
        case Hex(h) => EncodeIsChar(Hex4Value(h));
        case Pair(high, low) => EncodeIsChar(SurrogatePair(Hex4Value(high), Hex4Value(low)));
      }
      assert IsChar(G.PieceValue(ps[0]));
      PiecesAreValid(ps[1..]);
      CharPrefix(G.PieceValue(ps[0]), G.PiecesValue(ps[1..]));
    }
  }

  lemma {:induction false} DenotesNormal(j: G.Json, depth: nat, strtod: Strtod)
    requires G.ValidJson(j) && G.Denote(j, depth, strtod).Some?
    ensures var v := G.Denote(j, depth, strtod).value;
            NormalForm(v) && (Containers(v) > 0 ==> depth + Containers(v) <= MAX_NESTING_DEPTH)
    decreases j
  {
    match j
    case JString(ps) => PiecesAreValid(ps);
    case JArray(_, items) => ItemsDenoteNormal(items, depth, strtod);
    case JObject(_, members) => MembersDenoteNormal(members, depth, [], strtod);
    case _ =>
  }

  lemma {:induction false} ItemsDenoteNormal(items: seq<G.Item>, depth: nat, strtod: Strtod)
    requires forall i :: 0 <= i < |items| ==> G.ValidItem(items[i])
    requires depth < MAX_NESTING_DEPTH && G.DenoteItems(items, depth + 1, strtod).Some?
    ensures var vs := G.DenoteItems(items, depth + 1, strtod).value;
            && (forall i :: 0 <= i < |vs| ==> NormalForm(vs[i]))
            && depth + 1 + ElementsContainers(vs) <= MAX_NESTING_DEPTH
    decreases items
  {
    if items != [] {
      assert G.ValidItem(items[0]);
      DenotesNormal(items[0].value, depth + 1, strtod);
      ItemsDenoteNormal(items[1..], depth, strtod);
      var vs := G.DenoteItems(items, depth + 1, strtod).value;
      assert vs[1..] == G.DenoteItems(items[1..], depth + 1, strtod).value;
    }
  }

  lemma {:induction false} MembersDenoteNormal(members: seq<G.Member>, depth: nat, before: Fields, strtod: Strtod)
    requires forall i :: 0 <= i < |members| ==> G.ValidMember(members[i])
    requires depth < MAX_NESTING_DEPTH && G.DenoteMembers(members, depth + 1, before, strtod).Some?
    requires NormalFields(before) && depth + 1 + FieldsContainers(before) <= MAX_NESTING_DEPTH
    ensures var fields := G.DenoteMembers(members, depth + 1, before, strtod).value;
            NormalFields(fields) && depth + 1 + FieldsContainers(fields) <= MAX_NESTING_DEPTH
    decreases members
  {
    if members != [] {
      assert G.ValidMember(members[0]) && G.ValidItem(members[0].item);
      var entry := Entry(G.PiecesValue(members[0].key), G.Denote(members[0].item.value, depth + 1, strtod).value);
      DenotesNormal(members[0].item.value, depth + 1, strtod);
      PiecesAreValid(members[0].key);
      OneMoreContainers(before, entry);
      OneMoreNormal(before, entry);
      hide NormalForm, NormalFields, FieldsContainers, Containers, Valid;
      MembersDenoteNormal(members[1..], depth, before + [entry], strtod);
    }
  }

  lemma OneMoreNormal(before: Fields, entry: Entry<Bytes, Value>)
    requires NormalFields(before) && !HasKey(before, entry.key) && Valid(entry.key) && NormalForm(entry.value)
    ensures NormalFields(before + [entry])
  {
    assert forall i :: 0 <= i < |before| ==> (before + [entry])[i] == before[i];
  }

  lemma {:induction false} OneMoreContainers(before: Fields, entry: Entry<Bytes, Value>)
    ensures FieldsContainers(before + [entry]) == Max(FieldsContainers(before), Containers(entry.value))
    decreases before
  {
    if before == [] {
      assert [] + [entry] == [entry] && [entry][1..] == [];
    } else {
      assert (before + [entry])[1..] == before[1..] + [entry];
      OneMoreContainers(before[1..], entry);
    }
  }

  /** Whatever text is accepted, the result is a normal form that nests at most 128 containers. */
  lemma AcceptedIsNormal(t: Bytes, strtod: Strtod)
    requires ParseDocument(t, strtod).Some?
    ensures NormalForm(ParseDocument(t, strtod).value) && Containers(ParseDocument(t, strtod).value) <= MAX_NESTING_DEPTH
  {
    var pre, j, post := G.DocumentSound(t, strtod);
    DenotesNormal(j, 0, strtod);
  }

  /** A normal form is its own JSON form. */
  lemma {:induction false} NormalUnchanged(v: Value)
    requires NormalForm(v)
    ensures UnsignedFits(v) && JsonForm(v) == v && KeysStayDistinct(v)
    decreases v
  {
    match v
    case Str(s) => SanitiseIdentity(s);
    case Obj(fields) =>
      NormalFieldsUnchanged(fields);
      SanitisedKeysOfForm(fields);
    case Arr(elements) =>
      NormalElementsUnchanged(elements);
    case _ =>
  }

  lemma {:induction false} NormalFieldsUnchanged(fields: Fields)
    requires forall i :: 0 <= i < |fields| ==> Valid(fields[i].key) && NormalForm(fields[i].value)
    ensures forall i :: 0 <= i < |fields| ==> UnsignedFits(fields[i].value)
    ensures JsonFields(fields) == fields && FieldsStayDistinct(fields)
    decreases fields
  {
    if fields != [] {
      Smaller(fields, 0);
      SanitiseIdentity(fields[0].key);
      NormalUnchanged(fields[0].value);
      NormalFieldsUnchanged(fields[1..]);
      assert forall i :: 0 <= i < |fields| ==> fields[i] == if i == 0 then fields[0] else fields[1..][i - 1];
    }
  }

  lemma {:induction false} NormalElementsUnchanged(elements: seq<Value>)
    requires forall i :: 0 <= i < |elements| ==> NormalForm(elements[i])
    ensures forall i :: 0 <= i < |elements| ==> UnsignedFits(elements[i])
    ensures JsonElements(elements) == elements && ElementsStayDistinct(elements)
    decreases elements
  {
    if elements != [] {
      NormalUnchanged(elements[0]);
      NormalElementsUnchanged(elements[1..]);
      assert forall i :: 0 <= i < |elements| ==> elements[i] == if i == 0 then elements[0] else elements[1..][i - 1];
    }
  }

  /** An accepted result without doubles prints again, with any indent, and reads back as itself. */
  lemma AcceptedReparses(t: Bytes, indent: int, fmt: DoubleFormat, strtod: Strtod)
    requires ParseDocument(t, strtod).Some? && DoubleFree(ParseDocument(t, strtod).value)
    ensures var v := ParseDocument(t, strtod).value;
            ValueText(v, indent, 0, fmt).Some? && ParseDocument(ValueText(v, indent, 0, fmt).value, strtod) == Some(v)
  {
    AcceptedIsNormal(t, strtod);
    NormalUnchanged(ParseDocument(t, strtod).value);
    JsonRoundTrip(ParseDocument(t, strtod).value, indent, fmt, strtod);
  }
}
