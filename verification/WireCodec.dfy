/**
 * valueToWire, wireToValue and Object::serialize as they are written (src/Value.cpp,
 * include/common/Value.h): archives moved by loops, and one nesting counter for the thread,
 * which is restored on every path.
 */
module WireCodec {
  import opened ByteStrings
  import opened FiFoMaps
  import opened Values
  import opened WireArchive
  import F = WireFormat

  /** valueToWire. */
  method ValueToWire(v: Value, littleEndian: bool) returns (w: F.ValueWire)
    ensures w == F.ToWire(v)
    decreases v, 1
  {
    var ar := new OutputArchive(littleEndian);
    match v
    case Null =>
      w := F.ValueWire(F.TAG_NULL, []);
    case I64(i) =>
      ar.WriteInteger(F.TwosComplement(i), 8);
      w := F.ValueWire(F.TAG_I64, ar.out);
    case U64(u) =>
      ar.WriteInteger(u, 8);
      w := F.ValueWire(F.TAG_U64, ar.out);
    case Bool(b) =>
      w := F.ValueWire(F.TAG_BOOL, [if b then 1 else 0]);
    case Double(bits) =>
      ar.WriteInteger(bits, 8);
      w := F.ValueWire(F.TAG_DOUBLE, ar.out);
    case Str(s) =>
      ar.WriteString(s);
      w := F.ValueWire(F.TAG_STRING, ar.out);
    case Obj(fields) =>
      SerializeFields(fields, ar);
      w := F.ValueWire(F.TAG_OBJECT, ar.out);
    case Arr(elements) =>
      SerializeElements(elements, ar);
      w := F.ValueWire(F.TAG_ARRAY, ar.out);
  }

  /** Object::serialize on an output archive. */
  method SerializeFields(fields: Fields, ar: OutputArchive)
    modifies ar
    ensures ar.out == old(ar.out) + (F.BigEndian(|fields|, 8) + F.FieldsBytes(fields))
    decreases fields, 0
  {
    ar.WriteInteger(|fields|, 8);
    ghost var done := F.BigEndian(|fields|, 8);
    assert fields[0..] == fields;
    for i := 0 to |fields|
      invariant ar.out == old(ar.out) + done
      invariant F.BigEndian(|fields|, 8) + F.FieldsBytes(fields) == done + F.FieldsBytes(fields[i..])
    {
      ghost var here := fields[i..];
      assert here[0] == fields[i] && here[1..] == fields[i + 1..];
      Smaller(fields, i);
      var w := ValueToWire(fields[i].value, ar.littleEndian);
      ar.WriteString(fields[i].key);
      ar.WriteWire(w);
      ghost var entry := F.EntryBytes(fields[i].key, w);
      Assoc(old(ar.out) + done, F.StringBytes(fields[i].key), F.WireBytes(w));
      Assoc(old(ar.out), done, entry);
      Assoc(done, entry, F.FieldsBytes(fields[i + 1..]));
      done := done + entry;
    }
  }

  method SerializeElements(elements: seq<Value>, ar: OutputArchive)
    modifies ar
    ensures ar.out == old(ar.out) + (F.BigEndian(|elements|, 8) + F.ElementsBytes(elements))
    decreases elements, 0
  {
    ar.WriteInteger(|elements|, 8);
    ghost var done := F.BigEndian(|elements|, 8);
    assert elements[0..] == elements;
    for i := 0 to |elements|
      invariant ar.out == old(ar.out) + done
      invariant F.BigEndian(|elements|, 8) + F.ElementsBytes(elements) == done + F.ElementsBytes(elements[i..])
    {
      ghost var here := elements[i..];
      assert here[0] == elements[i] && here[1..] == elements[i + 1..];
      var w := ValueToWire(elements[i], ar.littleEndian);
      ar.WriteWire(w);
      Assoc(old(ar.out), done, F.WireBytes(w));
      Assoc(done, F.WireBytes(w), F.ElementsBytes(elements[i + 1..]));
      done := done + F.WireBytes(w);
    }
  }

  /** The state of one thread while it decodes: how deep wireToValue is nested. */
  class WireDecoder {
    var wireDepth: nat
    const littleEndian: bool

    constructor (littleEndian: bool)
      ensures wireDepth == 0 && this.littleEndian == littleEndian
    {
      this.littleEndian := littleEndian;
      wireDepth := 0;
    }

    static ghost predicate Is(spec: F.Decoded, ok: bool, out: Option<Value>) {
      match spec
      case Malformed => !ok
      case Skipped => ok && out == None
      case Known(v) => ok && out == Some(v)
    }

    /** false on a malformed value; an unknown tag is no value, and no error. */
    method WireToValue(w: F.ValueWire) returns (ok: bool, out: Option<Value>)
      modifies this
      ensures wireDepth == old(wireDepth)
      ensures Is(F.FromWire(w, old(wireDepth)), ok, out)
      decreases |w.payload|, 2
    {
      if wireDepth >= F.MAX_WIRE_DEPTH {
        return false, None;
      }
      wireDepth := wireDepth + 1;
      ok, out := DecodePayload(w);
      wireDepth := wireDepth - 1;
    }

    /** The switch over the tags, inside the depth guard. */
    method DecodePayload(w: F.ValueWire) returns (ok: bool, out: Option<Value>)
      requires 0 < wireDepth <= F.MAX_WIRE_DEPTH
      modifies this
      ensures wireDepth == old(wireDepth)
      ensures Is(F.FromWire(w, old(wireDepth) - 1), ok, out)
      decreases |w.payload|, 1
    {
      if w.tag == F.TAG_NULL {
        return true, Some(Null);
      }
      var ar := new InputArchive(w.payload, littleEndian);
      if w.tag == F.TAG_I64 || w.tag == F.TAG_U64 || w.tag == F.TAG_DOUBLE {
        var n := ar.ReadInteger(8);
        ok := ar.ExactEnd();
        if !ok {
          return false, None;
        }
        assert w.payload[..8] == w.payload;
        F.EightBytes(w.payload);
        out := Some(if w.tag == F.TAG_I64 then I64(F.FromTwosComplement(n)) else if w.tag == F.TAG_U64 then U64(n) else Double(n));
      } else if w.tag == F.TAG_BOOL {
        var b := ar.ReadBool();
        ok := ar.ExactEnd();
        out := Some(Bool(b));
      } else if w.tag == F.TAG_STRING {
        var s := ar.ReadString();
        ok := ar.ExactEnd();
        out := Some(Str(s));
      } else if w.tag == F.TAG_OBJECT {
        if w.payload == [] {
          return true, Some(Obj([]));
        }
        var fields := SerializeObject(ar);
        ok := ar.ExactEnd();
        out := Some(Obj(fields));
      } else if w.tag == F.TAG_ARRAY {
        ok, out := DecodeArray(ar);
      } else {
        ok, out := true, None;
      }
    }

    method DecodeArray(ar: InputArchive) returns (ok: bool, out: Option<Value>)
      requires ar.Healthy() && ar.pos == 0
      requires 0 < wireDepth <= F.MAX_WIRE_DEPTH
      modifies this, ar
      ensures wireDepth == old(wireDepth)
      ensures Is(F.FromWire(F.ValueWire(F.TAG_ARRAY, ar.data), old(wireDepth) - 1), ok, out)
      decreases |ar.data|, 0
    {
      assert ar.Rest() == ar.data;
      out := None;
      var n := ar.ReadInteger(8);
      if ar.failed {
        return false, None;
      }
      var elements: seq<Value> := [];
      ghost var spec := F.TakeElements(ar.data[8..], n, wireDepth, []);
      var i := 0;
      while i < n
        invariant 0 <= i <= n && ar.Healthy() && ar.pos >= 8 && wireDepth == old(wireDepth)
        invariant spec == F.TakeElements(ar.Rest(), n - i, wireDepth, elements)
      {
        var w := ar.ReadWire();
        if ar.failed {
          return false, None;
        }
        var decoded: Option<Value>;
        ok, decoded := WireToValue(w);
        if !ok || decoded.None? {
          return false, None;
        }
        elements := elements + [decoded.value];
        i := i + 1;
      }
      ok := ar.ExactEnd();
      out := Some(Arr(elements));
    }

    /** Object::serialize on an input archive: on any failure the fields are cleared. */
    method SerializeObject(ar: InputArchive) returns (fields: Fields)
      requires ar.Healthy()
      modifies this, ar
      ensures wireDepth == old(wireDepth)
      ensures ar.Reads(F.TakeObject(old(ar.Rest()), old(wireDepth)), fields)
      decreases |ar.Rest()|, 0
    {
      var count := ar.ReadInteger(8);
      if ar.failed {
        return [];
      }
      var entries := new FiFoMap<Bytes, Value>();
      ghost var spec := F.TakeEntries(ar.Rest(), count, wireDepth, []);
      var i := 0;
      while i < count
        invariant 0 <= i <= count && ar.Healthy() && ar.pos >= old(ar.pos) + 8 && wireDepth == old(wireDepth)
        invariant entries.Valid() && fresh(entries)
        invariant spec == F.TakeEntries(ar.Rest(), count - i, wireDepth, entries.entries)
      {
        var ok := SerializeEntry(ar, entries);
        if !ok {
          ar.SetFailed();
          return [];
        }
        i := i + 1;
      }
      fields := entries.entries;
    }

    /** One turn of that loop. */
    method SerializeEntry(ar: InputArchive, fields: FiFoMap<Bytes, Value>) returns (ok: bool)
      requires ar.Healthy() && fields.Valid()
      modifies this, ar, fields
      ensures wireDepth == old(wireDepth) && ar.Valid() && ar.pos >= old(ar.pos) && fields.Valid()
      ensures match F.TakeEntry(old(ar.Rest()), old(wireDepth), old(fields.entries))
              case Short => !ok
              case Took(es, rest) => ok && ar.Healthy() && fields.entries == es && ar.Rest() == rest
      decreases |ar.Rest()|, 0
    {
      var key := ar.ReadString();
      var w := ar.ReadWire();
      if ar.failed {
        return false;
      }
      var duplicate := fields.Contains(key);
      if duplicate {
        return false;
      }
      var decoded: Option<Value>;
      ok, decoded := WireToValue(w);
      if !ok {
        return false;
      }
      if decoded.Some? {
        fields.Set(key, decoded.value);
      }
    }
  }

  /** binaryUnpack of an Object on a thread that is not decoding anything. */
  method UnpackObject(data: Bytes, littleEndian: bool) returns (r: Option<Fields>)
    ensures r == F.UnpackObject(data)
  {
    var decoder := new WireDecoder(littleEndian);
    var ar := new InputArchive(data, littleEndian);
    var fields := decoder.SerializeObject(ar);
    var end := ar.ExactEnd();
    r := if end then Some(fields) else None;
  }
}
