/**
 * Exactly which bytes are read as an object or an array: a count, then so many entries or elements, and
 * nothing after them. `WireLayout` does the same for numbers, bools and strings.
 */
module WireGrammar {
  import opened ByteStrings
  import opened FiFoMaps
  import opened Values
  import opened WireFormat
  import opened WireRoundTrip
  import opened WireLayout

  // ---- Pieces ----

  /** A string that was taken stood there, within the cap. */
  lemma StringSound(t: Bytes)
    requires TakeString(t).Took?
    ensures |TakeString(t).value| <= 64 * 1024 * 1024
    ensures t == StringBytes(TakeString(t).value) + TakeString(t).rest
  {
    WritesBack(t[..8]);
    hide BigEndian, FromBigEndian;
    assert t == t[..8] + TakeString(t).value + TakeString(t).rest;
  }

  lemma WireSound(t: Bytes)
    requires TakeWire(t).Took?
    ensures |TakeWire(t).value.payload| <= 64 * 1024 * 1024
    ensures t == WireBytes(TakeWire(t).value) + TakeWire(t).rest
  {
    StringSound(t[2..]);
    WritesBack(t[..2]);
    hide BigEndian, FromBigEndian, TakeString;
    assert t == t[..2] + t[2..];
    Assoc(t[..2], StringBytes(TakeWire(t).value.payload), TakeWire(t).rest);
  }

  // ---- Objects ----

  lemma EntrySound(t: Bytes, depth: nat, before: Fields) returns (e: Entry<Bytes, ValueWire>)
    requires TakeEntry(t, depth, before).Took?
    ensures EntryAddressable(e) && t == EntryBytes(e.key, e.value) + TakeEntry(t, depth, before).rest
  {
    StringSound(t);
    var r := TakeString(t).rest;
    WireSound(r);
    e := Entry(TakeString(t).value, TakeWire(r).value);
    hide TakeString, TakeWire, StringBytes, WireBytes;
    Assoc(StringBytes(e.key), WireBytes(e.value), TakeWire(r).rest);
  }

  /** The first entry of a list, and the others read after it. */
  lemma FirstEntry(e: Entry<Bytes, ValueWire>, es: WireEntries, rest: Bytes, depth: nat, before: Fields, fields: Fields)
    requires EntryAddressable(e) && forall i :: 0 <= i < |es| ==> EntryAddressable(es[i])
    requires TakeEntry(EntryBytes(e.key, e.value) + rest, depth, before) == Took(fields, rest)
    ensures forall i :: 0 <= i < |[e] + es| ==> EntryAddressable(([e] + es)[i])
    ensures FoldEntries([e] + es, depth, before) == FoldEntries(es, depth, fields)
    ensures EntriesBytes([e] + es) == EntryBytes(e.key, e.value) + EntriesBytes(es)
  {
    EntryReads(e.key, e.value, rest, depth, before);
    hide TakeEntry, FromWire, EntryBytes;
    assert ([e] + es)[1..] == es;
  }

  /** Entries that were taken stood there, and make up the object they were taken as. */
  lemma {:induction false} EntriesSound(t: Bytes, count: nat, depth: nat, before: Fields) returns (es: WireEntries)
    requires TakeEntries(t, count, depth, before).Took?
    ensures |es| == count && forall i :: 0 <= i < |es| ==> EntryAddressable(es[i])
    ensures t == EntriesBytes(es) + TakeEntries(t, count, depth, before).rest
    ensures FoldEntries(es, depth, before) == Some(TakeEntries(t, count, depth, before).value)
    decreases count
  {
    if count == 0 {
      es := [];
      assert t == [] + t;
    } else {
      hide TakeEntry, EntryBytes, FromWire, EntriesBytes, FoldEntries, EntryAddressable;
      var e := EntrySound(t, depth, before);
      var fields, r := TakeEntry(t, depth, before).value, TakeEntry(t, depth, before).rest;
      var all := TakeEntries(t, count, depth, before);
      assert all == TakeEntries(r, count - 1, depth, fields);
      hide TakeEntries;
      es := EntriesSound(r, count - 1, depth, fields);
      FirstEntry(e, es, r, depth, before, fields);
      Assoc(EntryBytes(e.key, e.value), EntriesBytes(es), all.rest);
      es := [e] + es;
    }
  }

  /** These bytes are the count and the entries `es`, which make up `fields` read at this depth. */
  ghost predicate IsObject(t: Bytes, es: WireEntries, depth: nat, fields: Fields) {
    && |es| < TWO_64 && (forall i :: 0 <= i < |es| ==> EntryAddressable(es[i]))
    && t == BigEndian(|es|, 8) + EntriesBytes(es)
    && FoldEntries(es, depth, []) == Some(fields)
  }

  lemma ObjectReads(t: Bytes, es: WireEntries, depth: nat, fields: Fields)
    requires IsObject(t, es, depth, fields)
    ensures TakeObject(t, depth) == Took(fields, [])
  {
    PowerOfEight();
    IntegerReads(|es|, 8, EntriesBytes(es));
    EntriesRead(es, depth, [], []);
    assert EntriesBytes(es) + [] == EntriesBytes(es);
    hide BigEndian, FromBigEndian, EntriesBytes, TakeEntries, FoldEntries;
  }

  lemma ObjectSound(t: Bytes, depth: nat) returns (es: WireEntries)
    requires TakeObject(t, depth).Took? && TakeObject(t, depth).rest == []
    ensures IsObject(t, es, depth, TakeObject(t, depth).value)
  {
    PowerOfEight();
    WritesBack(t[..8]);
    EightBytes(t[..8]);
    es := EntriesSound(t[8..], FromBigEndian(t[..8]), depth, []);
    hide BigEndian, FromBigEndian, EntriesBytes, TakeEntries, FoldEntries;
    assert EntriesBytes(es) + [] == EntriesBytes(es);
    assert t == t[..8] + t[8..];
  }

  /** The same for a payload met at this depth. */
  ghost predicate IsObjectPayload(t: Bytes, es: WireEntries, depth: nat, fields: Fields) {
    IsObject(t, es, depth + 1, fields)
  }

  /**
   * The payload of an object is read as these fields if and only if it is empty and so are they, or it is
   * a count and exactly so many entries that make them up (known tags in their order, no key twice).
   */
  lemma ObjectIsExact(w: ValueWire, depth: nat, fields: Fields)
    ensures FromWire(w, depth) == Known(Obj(fields)) <==>
            && depth < 128 && w.tag == 6
            && ((w.payload == [] && fields == []) || exists es :: IsObjectPayload(w.payload, es, depth, fields))
  {
    TagsDecide(w, depth);
    hide TakeObject, IsObject;
    if depth < 128 && w.tag == 6 && w.payload != [] {
      if FromWire(w, depth) == Known(Obj(fields)) {
        var es := ObjectSound(w.payload, depth + 1);
        assert IsObjectPayload(w.payload, es, depth, fields);
      }
      forall es | IsObjectPayload(w.payload, es, depth, fields)
        ensures TakeObject(w.payload, depth + 1) == Took(fields, [])
      {
        ObjectReads(w.payload, es, depth + 1, fields);
      }
    } else if depth < 128 && w.tag == 6 {
      NoObjectIsEmpty(depth, fields);
    }
  }

  lemma NoObjectIsEmpty(depth: nat, fields: Fields)
    ensures forall es :: !IsObjectPayload([], es, depth, fields)
  {
    hide EntriesBytes, FoldEntries;
  }

  /** The same for a packed object, whose bytes are never empty. */
  lemma PackedIsExact(data: Bytes, fields: Fields)
    ensures UnpackObject(data) == Some(fields) <==> exists es :: IsObject(data, es, 0, fields)
  {
    hide TakeObject, IsObject;
    if UnpackObject(data) == Some(fields) {
      var es := ObjectSound(data, 0);
    }
    forall es | IsObject(data, es, 0, fields)
      ensures TakeObject(data, 0) == Took(fields, [])
    {
      ObjectReads(data, es, 0, fields);
    }
  }

  // ---- Arrays ----

  function WiresBytes(ws: seq<ValueWire>): Bytes {
    if ws == [] then [] else WireBytes(ws[0]) + WiresBytes(ws[1..])
  }

  /** These wire values are read as these elements, one by one. */
  ghost predicate AreElements(ws: seq<ValueWire>, depth: nat, elements: seq<Value>) {
    && |ws| == |elements|
    && forall i :: 0 <= i < |ws| ==> |ws[i].payload| <= 64 * 1024 * 1024 && FromWire(ws[i], depth) == Known(elements[i])
  }

  /** The first element is taken, and the others after it. */
  lemma FirstElementReads(w: ValueWire, rest: Bytes, count: nat, depth: nat, before: seq<Value>, v: Value)
    requires |w.payload| <= 64 * 1024 * 1024 && FromWire(w, depth) == Known(v)
    ensures TakeElements(WireBytes(w) + rest, count + 1, depth, before) == TakeElements(rest, count, depth, before + [v])
  {
    WireReads(w, rest);
    hide WireBytes, TakeWire, FromWire;
  }

  lemma OtherElements(ws: seq<ValueWire>, depth: nat, elements: seq<Value>)
    requires AreElements(ws, depth, elements) && ws != []
    ensures |ws[0].payload| <= 64 * 1024 * 1024 && FromWire(ws[0], depth) == Known(elements[0])
    ensures AreElements(ws[1..], depth, elements[1..])
  {
    hide FromWire;
  }

  lemma {:induction false} ElementsRead(ws: seq<ValueWire>, depth: nat, before: seq<Value>, elements: seq<Value>, rest: Bytes)
    requires AreElements(ws, depth, elements)
    ensures TakeElements(WiresBytes(ws) + rest, |ws|, depth, before) == Took(before + elements, rest)
    decreases ws
  {
    hide FromWire, WireBytes;
    if ws == [] {
      assert WiresBytes(ws) + rest == rest && before + elements == before;
    } else {
      hide AreElements, TakeElements;
      OtherElements(ws, depth, elements);
      var tail := WiresBytes(ws[1..]);
      FirstElementReads(ws[0], tail + rest, |ws| - 1, depth, before, elements[0]);
      Assoc(WireBytes(ws[0]), tail, rest);
      ElementsRead(ws[1..], depth, before + [elements[0]], elements[1..], rest);
      assert before + [elements[0]] + elements[1..] == before + elements;
    }
  }

  lemma FirstElement(w: ValueWire, ws: seq<ValueWire>, depth: nat, v: Value, elements: seq<Value>)
    requires |w.payload| <= 64 * 1024 * 1024 && FromWire(w, depth) == Known(v) && AreElements(ws, depth, elements)
    ensures AreElements([w] + ws, depth, [v] + elements)
    ensures WiresBytes([w] + ws) == WireBytes(w) + WiresBytes(ws)
  {
    hide FromWire, WireBytes;
    assert ([w] + ws)[1..] == ws;
  }

  /** One element that was taken stood there. */
  lemma ElementSound(t: Bytes, count: nat, depth: nat, before: seq<Value>) returns (w: ValueWire, v: Value, rest: Bytes)
    requires count > 0 && TakeElements(t, count, depth, before).Took?
    ensures |w.payload| <= 64 * 1024 * 1024 && FromWire(w, depth) == Known(v) && t == WireBytes(w) + rest
    ensures TakeElements(t, count, depth, before) == TakeElements(rest, count - 1, depth, before + [v])
  {
    WireSound(t);
    w, rest := TakeWire(t).value, TakeWire(t).rest;
    v := FromWire(w, depth).value;
  }

  lemma {:induction false} ElementsSound(t: Bytes, count: nat, depth: nat, before: seq<Value>)
    returns (ws: seq<ValueWire>, elements: seq<Value>)
    requires TakeElements(t, count, depth, before).Took?
    ensures |ws| == count && AreElements(ws, depth, elements)
    ensures t == WiresBytes(ws) + TakeElements(t, count, depth, before).rest
    ensures TakeElements(t, count, depth, before).value == before + elements
    decreases count
  {
    hide FromWire, WireBytes;
    if count == 0 {
      ws, elements := [], [];
      assert t == [] + t && before == before + [];
    } else {
      var all := TakeElements(t, count, depth, before);
      hide TakeElements, AreElements, WiresBytes;
      var w, v, r := ElementSound(t, count, depth, before);
      var ws', elements' := ElementsSound(r, count - 1, depth, before + [v]);
      FirstElement(w, ws', depth, v, elements');
      ws, elements := [w] + ws', [v] + elements';
      Assoc(WireBytes(w), WiresBytes(ws'), all.rest);
      Assoc(before, [v], elements');
    }
  }

  /** These bytes are the count and the wire values `ws`, which are read as `elements` in an array met at this depth. */
  ghost predicate IsArray(t: Bytes, ws: seq<ValueWire>, depth: nat, elements: seq<Value>) {
    |ws| < TWO_64 && t == BigEndian(|ws|, 8) + WiresBytes(ws) && AreElements(ws, depth + 1, elements)
  }

  lemma ArrayReads(t: Bytes, ws: seq<ValueWire>, depth: nat, elements: seq<Value>)
    requires IsArray(t, ws, depth, elements)
    ensures |t| >= 8 && TakeElements(t[8..], FromBigEndian(t[..8]), depth + 1, []) == Took(elements, [])
  {
    PowerOfEight();
    IntegerReads(|ws|, 8, WiresBytes(ws));
    ElementsRead(ws, depth + 1, [], elements, []);
    hide BigEndian, FromBigEndian, WiresBytes, TakeElements, AreElements;
    assert WiresBytes(ws) + [] == WiresBytes(ws) && [] + elements == elements;
  }

  lemma ArraySound(t: Bytes, depth: nat) returns (ws: seq<ValueWire>)
    requires |t| >= 8
    requires var r := TakeElements(t[8..], FromBigEndian(t[..8]), depth + 1, []);
             r.Took? && r.rest == []
    ensures IsArray(t, ws, depth, TakeElements(t[8..], FromBigEndian(t[..8]), depth + 1, []).value)
  {
    WritesBack(t[..8]);
    EightBytes(t[..8]);
    var elements;
    ws, elements := ElementsSound(t[8..], FromBigEndian(t[..8]), depth + 1, []);
    hide BigEndian, FromBigEndian, WiresBytes, TakeElements, AreElements;
    assert WiresBytes(ws) + [] == WiresBytes(ws) && [] + elements == elements;
    assert t == t[..8] + t[8..];
  }

  /** And of an array: a count and exactly so many wire values, each of a known tag and read as its element. */
  lemma ArrayIsExact(w: ValueWire, depth: nat, elements: seq<Value>)
    ensures FromWire(w, depth) == Known(Arr(elements)) <==>
            depth < 128 && w.tag == 7 && exists ws :: IsArray(w.payload, ws, depth, elements)
  {
    TagsDecide(w, depth);
    hide TakeElements, IsArray, FromBigEndian;
    if depth < 128 && w.tag == 7 {
      if FromWire(w, depth) == Known(Arr(elements)) {
        var ws := ArraySound(w.payload, depth);
      }
      forall ws | IsArray(w.payload, ws, depth, elements)
        ensures |w.payload| >= 8
        ensures TakeElements(w.payload[8..], FromBigEndian(w.payload[..8]), depth + 1, []) == Took(elements, [])
      {
        ArrayReads(w.payload, ws, depth, elements);
      }
    }
  }
}
