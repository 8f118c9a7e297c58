/**
 * The recursive-descent parser of src/io/Json.cpp as it is written: a cursor into the text
 * and a nesting counter, moved by loops and mutually recursive methods. Every method reads
 * exactly what the function of the same name in `JsonReading` reads, and leaves the nesting
 * counter as it found it, also on an error.
 */
module JsonParser {
  import opened ByteStrings
  import opened FiFoMaps
  import opened Values
  import W = JsonWriter
  import R = JsonReading
  import U = Utf8

  class Parser {
    const text: Bytes
    const strtod: R.Strtod
    var p: nat
    var depth: nat

    constructor (text: Bytes, strtod: R.Strtod)
      ensures this.text == text && this.strtod == strtod
      ensures p == 0 && depth == 0
    {
      this.text, this.strtod := text, strtod;
      p, depth := 0, 0;
    }

    ghost predicate Valid()
      reads this`p
    {
      p <= |text|
    }

    ghost function Rest(): Bytes
      requires Valid()
      reads this`p
    {
      text[p..]
    }

    /** `r` is the result `spec` predicts, and the cursor stands where `spec` leaves off. */
    ghost predicate Agrees<T>(spec: R.Parsed<T>, r: Option<T>)
      reads this`p
    {
      Valid() && match spec
                 case Fail => r.None?
                 case Done(v, rest) => r == Some(v) && Rest() == rest
    }

    function Peek(): Byte
      requires Valid()
      reads this`p
      ensures Peek() == R.Peek(Rest())
    {
      if p < |text| then text[p] else 0
    }

    lemma Advance()
      requires Valid() && p < |text|
      ensures Rest() != [] && Rest()[0] == text[p] && Rest()[1..] == text[p + 1..]
    {}

    method SkipWs()
      requires Valid()
      modifies this`p
      ensures Valid() && Rest() == R.SkipWs(old(Rest())) && p >= old(p)
    {
      while p < |text| && R.IsWs(text[p])
        invariant Valid() && p >= old(p)
        invariant R.SkipWs(Rest()) == R.SkipWs(old(Rest()))
      {
        Advance();
        p := p + 1;
      }
    }

    method SkipDigits()
      requires Valid()
      modifies this`p
      ensures Valid() && Rest() == R.SkipDigits(old(Rest())) && p >= old(p)
    {
      while p < |text| && R.IsDigit(text[p])
        invariant Valid() && p >= old(p)
        invariant R.SkipDigits(Rest()) == R.SkipDigits(old(Rest()))
      {
        Advance();
        p := p + 1;
      }
    }

    /** tryConsume and expect: on a mismatch only the white space is consumed. */
    method TryConsume(c: Byte) returns (ok: bool)
      requires Valid() && c != 0
      modifies this`p
      ensures Valid() && p >= old(p)
      ensures ok <==> R.Expect(old(Rest()), c).Done?
      ensures ok ==> Rest() == R.Expect(old(Rest()), c).rest && p > old(p)
      ensures !ok ==> Rest() == R.SkipWs(old(Rest()))
    {
      SkipWs();
      if Peek() != c {
        return false;
      }
      Advance();
      p := p + 1;
      ok := true;
    }

    // ---- Strings ----

    method ParseHex4() returns (r: Option<int>)
      requires Valid()
      modifies this`p
      ensures p >= old(p) && Agrees(R.ParseHex4(old(Rest())), r)
      ensures r.Some? ==> 0 <= r.value <= 0xFFFF
    {
      if |text| - p < 4 {
        return None;
      }
      ghost var h := Rest()[..4];
      var cp := 0;
      var i := 0;
      while i < 4
        invariant 0 <= i <= 4 && p == old(p) + i && Valid()
        invariant forall j :: 0 <= j < i ==> R.HexVal(h[j]) >= 0
        invariant i == 0 ==> cp == 0
        invariant i == 1 ==> cp == R.HexVal(h[0])
        invariant i == 2 ==> cp == R.HexVal(h[0]) * 16 + R.HexVal(h[1])
        invariant i == 3 ==> cp == (R.HexVal(h[0]) * 16 + R.HexVal(h[1])) * 16 + R.HexVal(h[2])
        invariant i == 4 ==> R.IsHex4(h) && cp == R.Hex4Value(h)
      {
        assert text[p] == h[i];
        var dv := R.HexVal(text[p]);
        p := p + 1;
        if dv < 0 {
          return None;
        }
        cp := cp * 16 + dv;
        i := i + 1;
      }
      r := Some(cp);
    }

    method ParseUnicode() returns (r: Option<int>)
      requires Valid()
      modifies this`p
      ensures p >= old(p) && Agrees(R.ParseUnicode(old(Rest())), r)
      ensures r.Some? ==> 0 <= r.value <= 0x10FFFF
    {
      r := ParseHex4();
      if r.None? {
        return None;
      }
      var cp := r.value;
      if R.IsHighSurrogate(cp) {
        if p + 1 < |text| && text[p] == W.BACKSLASH && text[p + 1] == 0x75 {
          assert Rest()[0] == text[p] && Rest()[1] == text[p + 1] && Rest()[2..] == text[p + 2..];
          p := p + 2;
          var low := ParseHex4();
          if low.None? || !R.IsLowSurrogate(low.value) {
            return None;
          }
          r := Some(R.SurrogatePair(cp, low.value));
        } else {
          assert |Rest()| >= 2 ==> Rest()[0] == text[p] && Rest()[1] == text[p + 1];
          return None;
        }
      } else if R.IsLowSurrogate(cp) {
        return None;
      }
    }

    method ParseEscape() returns (r: Option<Bytes>)
      requires Valid()
      modifies this`p
      ensures p >= old(p) && Agrees(R.ParseEscape(old(Rest())), r)
    {
      if p >= |text| {
        return None;
      }
      Advance();
      var e := text[p];
      p := p + 1;
      if R.Unescape(e).Some? {
        return Some([R.Unescape(e).value]);
      }
      if e != 0x75 {
        return None;
      }
      var cp := ParseUnicode();
      if cp.None? {
        return None;
      }
      r := Some(U.EncodeChar(cp.value));
    }

    /** Copies one multi-byte sequence whose lead byte is at the cursor, checking it byte by byte. */
    method AppendValidatedUtf8() returns (r: Option<Bytes>)
      requires Valid() && p < |text| && text[p] >= 0x80
      modifies this`p
      ensures Valid() && p >= old(p)
      ensures r.None? <==> U.SequenceLength(old(Rest())) == 0
      ensures r.Some? ==> var n := U.SequenceLength(old(Rest()));
                          r.value == old(Rest())[..n] && Rest() == old(Rest())[n..]
    {
      ghost var t := Rest();
      var first := text[p];
      p := p + 1;
      var info := U.ClassifyLead(first);
      if info.extraBytes < 0 {
        return None;
      }
      var out := [first];
      var i := 0;
      while i < info.extraBytes
        invariant 0 <= i <= info.extraBytes && p == old(p) + 1 + i && Valid()
        invariant out == t[..i + 1]
        invariant forall j :: 1 <= j <= i ==> U.ContinuationOk(info, j, t[j])
      {
        if p >= |text| {
          return None;
        }
        var cont := text[p];
        assert cont == t[i + 1];
        var lo := if i == 0 then info.lowBound else 0x80;
        var hi := if i == 0 then info.highBound else 0xBF;
        if cont < lo || cont > hi {
          assert !U.ContinuationOk(info, i + 1, t[i + 1]);
          return None;
        }
        out := out + [cont];
        p := p + 1;
        i := i + 1;
      }
      r := Some(out);
    }

    method ParseStringStep() returns (r: Option<Bytes>)
      requires Valid() && p < |text|
      modifies this`p
      ensures p >= old(p) && Agrees(R.ParseStringStep(old(Rest())), r)
    {
      Advance();
      var c := text[p];
      if c < 0x20 {
        p := p + 1;
        return None;
      }
      if c == W.BACKSLASH {
        p := p + 1;
        r := ParseEscape();
      } else if c < 0x80 {
        assert Rest()[..1] == [c];
        p := p + 1;
        r := Some([c]);
      } else {
        r := AppendValidatedUtf8();
      }
    }

    method ParseString() returns (r: Option<Bytes>)
      requires Valid()
      modifies this`p
      ensures p >= old(p) && Agrees(R.ParseString(old(Rest())), r)
    {
      var open := TryConsume(W.QUOTE);
      if !open {
        return None;
      }
      var out: Bytes := [];
      while p < |text|
        invariant Valid() && p >= old(p)
        invariant R.ParseString(old(Rest())) == R.ParseStringBody(Rest(), out)
      {
        Advance();
        if text[p] == W.QUOTE {
          p := p + 1;
          return Some(out);
        }
        ghost var here := p;
        var b := ParseStringStep();
        if b.None? {
          return None;
        }
        assert p > here by {
          assert |text| - p < |text| - here;
        }
        out := out + b.value;
      }
      r := None;
    }

    // ---- Numbers ----

    method ScanDigits() returns (ok: bool)
      requires Valid()
      modifies this`p
      ensures p >= old(p) && Agrees(R.ScanDigits(old(Rest())), if ok then Some(()) else None)
    {
      if p >= |text| || !R.IsDigit(text[p]) {
        return false;
      }
      Advance();
      p := p + 1;
      SkipDigits();
      ok := true;
    }

    method ScanInteger() returns (ok: bool)
      requires Valid()
      modifies this`p
      ensures p >= old(p) && Agrees(R.ScanInteger(old(Rest())), if ok then Some(()) else None)
    {
      if Peek() == W.ZERO {
        Advance();
        p := p + 1;
        ok := true;
      } else if R.IsDigit(Peek()) {
        Advance();
        p := p + 1;
        SkipDigits();
        ok := true;
      } else {
        ok := false;
      }
    }

    method ScanFraction() returns (r: Option<bool>)
      requires Valid()
      modifies this`p
      ensures p >= old(p) && Agrees(R.ScanFraction(old(Rest())), r)
    {
      if p < |text| && text[p] == 0x2E {
        Advance();
        p := p + 1;
        var ok := ScanDigits();
        r := if ok then Some(true) else None;
      } else {
        r := Some(false);
      }
    }

    method ScanExponent() returns (r: Option<bool>)
      requires Valid()
      modifies this`p
      ensures p >= old(p) && Agrees(R.ScanExponent(old(Rest())), r)
    {
      if p < |text| && (text[p] == 0x65 || text[p] == 0x45) {
        Advance();
        p := p + 1;
        if p < |text| && (text[p] == 0x2B || text[p] == W.MINUS) {
          Advance();
          p := p + 1;
        }
        var ok := ScanDigits();
        r := if ok then Some(true) else None;
      } else {
        r := Some(false);
      }
    }

    /** Moves over one number token; whether it has a fraction or an exponent. */
    method ScanNumber() returns (r: Option<bool>)
      requires Valid()
      modifies this`p
      ensures p >= old(p) && Agrees(R.ScanNumber(old(Rest())), r)
    {
      if Peek() == W.MINUS {
        Advance();
        p := p + 1;
      }
      var integer := ScanInteger();
      if !integer {
        return None;
      }
      var fraction := ScanFraction();
      if fraction.None? {
        return None;
      }
      var exponent := ScanExponent();
      if exponent.None? {
        return None;
      }
      r := Some(fraction.value || exponent.value);
    }

    method ParseNumber() returns (r: Option<Value>)
      requires Valid()
      modifies this`p
      ensures p >= old(p) && Agrees(R.ParseNumber(old(Rest()), strtod), r)
    {
      var start := p;
      var isFloat := ScanNumber();
      if isFloat.None? {
        return None;
      }
      var token := text[start..p];
      assert token == text[start..][..p - start];
      r := R.NumberValue(token, isFloat.value, strtod);
    }

    // ---- Values ----

    method ParseValue() returns (r: Option<Value>)
      requires Valid()
      modifies this
      ensures p >= old(p) && depth == old(depth)
      ensures Agrees(R.ParseValue(old(Rest()), old(depth), strtod), r)
      decreases |text| - p, 3
    {
      SkipWs();
      var c := Peek();
      if c == W.QUOTE {
        var s := ParseString();
        r := if s.Some? then Some(Str(s.value)) else None;
      } else if c == W.LBRACE || c == W.LBRACKET {
        if depth >= W.MAX_NESTING_DEPTH {
          return None;
        }
        depth := depth + 1;
        if c == W.LBRACE {
          var fields := ParseObject();
          r := if fields.Some? then Some(Obj(fields.value)) else None;
        } else {
          var elements := ParseArray();
          r := if elements.Some? then Some(Arr(elements.value)) else None;
        }
        depth := depth - 1;
      } else {
        r := ParseScalar();
      }
    }

    /** null, true, false and numbers. */
    method ParseScalar() returns (r: Option<Value>)
      requires Valid()
      requires !R.IsWs(R.Peek(Rest())) && R.Peek(Rest()) !in {W.QUOTE, W.LBRACE, W.LBRACKET}
      modifies this`p
      ensures p >= old(p) && Agrees(R.ParseValue(old(Rest()), depth, strtod), r)
    {
      var c := Peek();
      assert R.SkipWs(Rest()) == Rest();
      if c == 0x6E && |text| - p >= 4 && text[p..p + 4] == W.NULL_TEXT {
        assert Rest()[..4] == text[p..p + 4] && Rest()[4..] == text[p + 4..];
        p := p + 4;
        return Some(Null);
      }
      if c == 0x74 && |text| - p >= 4 && text[p..p + 4] == W.TRUE_TEXT {
        assert Rest()[..4] == text[p..p + 4] && Rest()[4..] == text[p + 4..];
        p := p + 4;
        return Some(Bool(true));
      }
      if c == 0x66 && |text| - p >= 5 && text[p..p + 5] == W.FALSE_TEXT {
        assert Rest()[..5] == text[p..p + 5] && Rest()[5..] == text[p + 5..];
        p := p + 5;
        return Some(Bool(false));
      }
      NoKeyword();
      if c == W.MINUS || R.IsDigit(c) {
        r := ParseNumber();
      } else {
        r := None;
      }
    }

    /** A text that starts with none of the keywords at the cursor starts with none in the specification. */
    lemma NoKeyword()
      requires Valid()
      ensures R.StartsWith(Rest(), W.NULL_TEXT) <==> Peek() == 0x6E && |text| - p >= 4 && text[p..p + 4] == W.NULL_TEXT
      ensures R.StartsWith(Rest(), W.TRUE_TEXT) <==> Peek() == 0x74 && |text| - p >= 4 && text[p..p + 4] == W.TRUE_TEXT
      ensures R.StartsWith(Rest(), W.FALSE_TEXT) <==> Peek() == 0x66 && |text| - p >= 5 && text[p..p + 5] == W.FALSE_TEXT
    {
      if |Rest()| >= 4 {
        assert Rest()[..4] == text[p..p + 4] && text[p..p + 4][0] == Peek();
      }
      if |Rest()| >= 5 {
        assert Rest()[..5] == text[p..p + 5] && text[p..p + 5][0] == Peek();
      }
    }

    method ParseObject() returns (r: Option<Fields>)
      requires Valid()
      modifies this
      ensures p >= old(p) && depth == old(depth)
      ensures Agrees(R.ParseObject(old(Rest()), old(depth), strtod), r)
      decreases |text| - p, 2
    {
      var open := TryConsume(W.LBRACE);
      if !open {
        return None;
      }
      SkipWs();
      var close := TryConsume(W.RBRACE);
      if close {
        return Some([]);
      }
      r := ParseMembers();
    }

    /** After a member or an element: the closing bracket, or else a comma. */
    method CloseOrComma(bracket: Byte) returns (close: bool, comma: bool)
      requires Valid() && bracket != 0
      modifies this`p
      ensures Valid() && p >= old(p)
      ensures close <==> R.Expect(old(Rest()), bracket).Done?
      ensures close ==> Rest() == R.Expect(old(Rest()), bracket).rest
      ensures !close ==> (comma <==> R.Expect(old(Rest()), W.COMMA).Done?)
      ensures !close && comma ==> Rest() == R.Expect(old(Rest()), W.COMMA).rest && p > old(p)
    {
      SkipWs();
      close := TryConsume(bracket);
      if close {
        return true, false;
      }
      comma := TryConsume(W.COMMA);
    }

    /** The loop over the members. */
    method ParseMembers() returns (r: Option<Fields>)
      requires Valid()
      modifies this
      ensures p >= old(p) && depth == old(depth)
      ensures Agrees(R.ParseMembers(old(Rest()), old(depth), [], strtod), r)
      decreases |text| - p, 4
    {
      var out := new FiFoMap<Bytes, Value>();
      while true
        invariant Valid() && p >= old(p) && depth == old(depth) && out.Valid() && fresh(out)
        invariant R.ParseMembers(old(Rest()), old(depth), [], strtod) == R.ParseMembers(Rest(), depth, out.entries, strtod)
        decreases |text| - p
      {
        hide R.ParseMember, R.Expect;
        var ok := ParseMember(out);
        if !ok {
          return None;
        }
        var close, comma := CloseOrComma(W.RBRACE);
        if close {
          return Some(out.entries);
        }
        if !comma {
          return None;
        }
      }
    }

    method ParseMember(out: FiFoMap<Bytes, Value>) returns (ok: bool)
      requires Valid() && out.Valid()
      modifies this, out
      ensures Valid() && p >= old(p) && depth == old(depth) && out.Valid()
      ensures ok <==> R.ParseMember(old(Rest()), old(depth), old(out.entries), strtod).Done?
      ensures ok ==> R.ParseMember(old(Rest()), old(depth), old(out.entries), strtod) == R.Done(out.entries, Rest())
      decreases |text| - p, 0
    {
      SkipWs();
      var key := ParseString();
      if key.None? {
        return false;
      }
      var duplicate := out.Contains(key.value);
      if duplicate {
        return false;
      }
      var colon := TryConsume(W.COLON);
      if !colon {
        return false;
      }
      var value := ParseValue();
      if value.None? {
        return false;
      }
      out.Set(key.value, value.value);
      ok := true;
    }

    method ParseArray() returns (r: Option<seq<Value>>)
      requires Valid()
      modifies this
      ensures p >= old(p) && depth == old(depth)
      ensures Agrees(R.ParseArray(old(Rest()), old(depth), strtod), r)
      decreases |text| - p, 2
    {
      var open := TryConsume(W.LBRACKET);
      if !open {
        return None;
      }
      SkipWs();
      var close := TryConsume(W.RBRACKET);
      if close {
        return Some([]);
      }
      r := ParseElements();
    }

    /** The loop over the elements. */
    method ParseElements() returns (r: Option<seq<Value>>)
      requires Valid()
      modifies this
      ensures p >= old(p) && depth == old(depth)
      ensures Agrees(R.ParseElements(old(Rest()), old(depth), [], strtod), r)
      decreases |text| - p, 4
    {
      var elements: seq<Value> := [];
      while true
        invariant Valid() && p >= old(p) && depth == old(depth)
        invariant R.ParseElements(old(Rest()), old(depth), [], strtod) == R.ParseElements(Rest(), depth, elements, strtod)
        decreases |text| - p
      {
        hide R.ParseValue, R.Expect;
        var value := ParseValue();
        if value.None? {
          return None;
        }
        elements := elements + [value.value];
        var close, comma := CloseOrComma(W.RBRACKET);
        if close {
          return Some(elements);
        }
        if !comma {
          return None;
        }
      }
    }
  }

  /** valueFromJsonString. */
  method ValueFromJsonString(json: Bytes, strtod: R.Strtod) returns (r: Option<Value>)
    ensures r == R.ParseDocument(json, strtod)
  {
    var parser := new Parser(json, strtod);
    assert parser.Rest() == json;
    r := parser.ParseValue();
    if r.None? {
      return None;
    }
    parser.SkipWs();
    if parser.p < |json| {
      return None;
    }
  }
}
