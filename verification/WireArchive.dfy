/**
 * The output and input archives of include/common/Serialize.hpp over byte strings: a growing
 * output, and a cursor with a stream state and a sticky failure flag.
 *
 * Integers go through the host's memory. `littleEndian` says how the host lays them out;
 * what is written and read does not depend on it.
 */
module WireArchive {
  import opened ByteStrings
  import F = WireFormat

  function Reversed(s: Bytes): (r: Bytes)
    ensures |r| == |s|
  {
    if s == [] then [] else Reversed(s[1..]) + [s[0]]
  }

  lemma {:induction false} ReversedAt(s: Bytes, k: nat)
    requires k < |s|
    ensures Reversed(s)[k] == s[|s| - 1 - k]
  {
    if k < |s| - 1 {
      ReversedAt(s[1..], k);
    }
  }

  lemma ReversedTwice(s: Bytes)
    ensures Reversed(Reversed(s)) == s
  {
    forall k | 0 <= k < |s|
      ensures Reversed(Reversed(s))[k] == s[k]
    {
      ReversedAt(Reversed(s), k);
      ReversedAt(s, |s| - 1 - k);
    }
  }

  /** swapBytes, on the bytes of the value. */
  method SwapBytes(bytes: array<Byte>)
    modifies bytes
    ensures bytes[..] == Reversed(old(bytes[..]))
  {
    var size := bytes.Length;
    var i := 0;
    while i < size / 2
      invariant 0 <= i <= size / 2
      invariant forall k :: 0 <= k < i ==> bytes[k] == old(bytes[size - 1 - k]) && bytes[size - 1 - k] == old(bytes[k])
      invariant forall k :: i <= k < size - i ==> bytes[k] == old(bytes[k])
    {
      bytes[i], bytes[size - 1 - i] := bytes[size - 1 - i], bytes[i];
      i := i + 1;
    }
    ghost var was := old(bytes[..]);
    forall k | 0 <= k < size
      ensures bytes[..][k] == Reversed(was)[k]
    {
      ReversedAt(was, k);
    }
  }

  /** The bytes of an integer as they lie in the memory of the host. */
  function InMemory(n: nat, k: nat, littleEndian: bool): Bytes {
    if littleEndian then Reversed(F.BigEndian(n, k)) else F.BigEndian(n, k)
  }

  /** The integer those bytes are. */
  function OfMemory(bytes: Bytes, littleEndian: bool): nat {
    F.FromBigEndian(if littleEndian then Reversed(bytes) else bytes)
  }

  /** toBigEndian, then the bytes of the result. */
  method ToBigEndian(n: nat, k: nat, littleEndian: bool) returns (bytes: Bytes)
    ensures bytes == F.BigEndian(n, k)
  {
    var memory := InMemory(n, k, littleEndian);
    var value := new Byte[|memory|](i requires 0 <= i < |memory| => memory[i]);
    assert value[..] == memory;
    if littleEndian {
      SwapBytes(value);
      ReversedTwice(F.BigEndian(n, k));
    }
    bytes := value[..];
  }

  /** fromBigEndian on bytes read from the stream. */
  method FromBigEndian(bytes: Bytes, littleEndian: bool) returns (n: nat)
    ensures n == F.FromBigEndian(bytes)
  {
    var value := new Byte[|bytes|](i requires 0 <= i < |bytes| => bytes[i]);
    assert value[..] == bytes;
    if littleEndian {
      SwapBytes(value);
      ReversedTwice(bytes);
    }
    n := OfMemory(value[..], littleEndian);
  }

  class OutputArchive {
    var out: Bytes
    const littleEndian: bool

    constructor (littleEndian: bool)
      ensures out == [] && this.littleEndian == littleEndian
    {
      this.littleEndian := littleEndian;
      out := [];
    }

    method WriteInteger(n: nat, k: nat)
      modifies this
      ensures out == old(out) + F.BigEndian(n, k)
    {
      var bytes := ToBigEndian(n, k, littleEndian);
      out := out + bytes;
    }

    method WriteString(value: Bytes)
      modifies this
      ensures out == old(out) + F.StringBytes(value)
    {
      WriteInteger(|value|, 8);
      if |value| > 0 {
        out := out + value;
      }
    }

    method WriteWire(w: F.ValueWire)
      modifies this
      ensures out == old(out) + F.WireBytes(w)
    {
      WriteInteger(w.tag, 2);
      WriteString(w.payload);
    }
  }

  class InputArchive {
    const data: Bytes
    const littleEndian: bool
    var pos: nat
    /** The stream hit the end of its data. */
    var bad: bool
    var failed: bool

    constructor (data: Bytes, littleEndian: bool)
      ensures this.data == data && this.littleEndian == littleEndian
      ensures Healthy() && Rest() == data
    {
      this.data, this.littleEndian := data, littleEndian;
      pos, bad, failed := 0, false, false;
    }

    ghost predicate Valid()
      reads this
    {
      pos <= |data| && (bad ==> failed)
    }

    ghost predicate Healthy()
      reads this
    {
      Valid() && !failed
    }

    ghost function Rest(): Bytes
      requires Valid()
      reads this
    {
      data[pos..]
    }

    /** From a healthy archive `got` is what `spec` takes; a failed one stays failed. */
    twostate predicate Reads<T>(new spec: F.Taken<T>, new got: T)
      reads this
    {
      && Valid() && pos >= old(pos)
      && (old(failed) ==> failed)
      && (!old(failed) ==> match spec
                           case Short => failed
                           case Took(value, rest) => !failed && got == value && Rest() == rest)
    }

    /** istream::read: all of the bytes or the failed state. */
    method ReadRaw(n: nat) returns (ok: bool, bytes: Bytes)
      requires Valid()
      modifies this
      ensures Valid() && pos >= old(pos) && (old(failed) ==> failed)
      ensures ok ==> |bytes| == n && failed == old(failed)
      ensures ok ==> n <= |old(Rest())| && bytes == old(Rest())[..n] && Rest() == old(Rest())[n..]
      ensures !ok ==> failed && (!old(failed) ==> |old(Rest())| < n)
    {
      bytes := [];
      if bad || |data| - pos < n {
        pos := if bad then pos else |data|;
        bad := true;
        failed := true;
        return false, bytes;
      }
      bytes := data[pos..pos + n];
      pos := pos + n;
      ok := true;
    }

    method ReadInteger(k: nat) returns (value: nat)
      requires Valid()
      modifies this
      ensures Reads(F.TakeInteger(old(Rest()), k), value)
    {
      value := 0;
      var ok, bytes := ReadRaw(k);
      if ok {
        value := FromBigEndian(bytes, littleEndian);
      }
    }

    method ReadBool() returns (value: bool)
      requires Valid()
      modifies this
      ensures Reads(F.TakeBool(old(Rest())), value)
    {
      value := false;
      var ok, bytes := ReadRaw(1);
      if !ok {
        return;
      }
      if bytes[0] != 0 && bytes[0] != 1 {
        failed := true;
        return;
      }
      value := bytes[0] != 0;
    }

    /** The declared length is checked, then the bytes are read chunk by chunk. */
    method ReadString() returns (value: Bytes)
      requires Valid()
      modifies this
      ensures Reads(F.TakeString(old(Rest())), value)
    {
      value := [];
      var size := ReadInteger(8);
      if failed || size > F.MAX_STRING_SIZE {
        failed := true;
        return;
      }
      ghost var body := Rest();
      value := ReadChunks(size);
      if !failed {
        assert body[..size] == old(Rest())[8..8 + size];
        assert body[size..] == old(Rest())[8 + size..];
      }
    }

    method ReadChunks(size: nat) returns (value: Bytes)
      requires Healthy()
      modifies this
      ensures Valid() && pos >= old(pos)
      ensures failed <==> size > |old(Rest())|
      ensures !failed ==> value == old(Rest())[..size] && Rest() == old(Rest())[size..]
    {
      ghost var body := Rest();
      value := [];
      var chunk := 64 * 1024;
      var done := 0;
      while done < size
        invariant Healthy() && pos >= old(pos) && |value| == done <= size
        invariant done <= |body| && value == body[..done] && Rest() == body[done..]
      {
        var n := if chunk < size - done then chunk else size - done;
        var ok, bytes := ReadRaw(n);
        if !ok {
          return;
        }
        assert body[done..][..n] == body[done..done + n];
        value := value + bytes;
        done := done + n;
      }
    }

    method ReadWire() returns (w: F.ValueWire)
      requires Valid()
      modifies this
      ensures Reads(F.TakeWire(old(Rest())), w)
    {
      w := F.ValueWire(0, []);
      var tag := ReadInteger(2);
      var healthy := !failed;
      var payload := ReadString();
      if healthy && !failed {
        F.TwoBytes(old(Rest())[..2]);
        w := F.ValueWire(tag, payload);
      }
    }

    method SetFailed()
      requires Valid()
      modifies this`failed
      ensures Valid() && failed
    {
      failed := true;
    }

    /** No failure, and no bytes left. */
    method ExactEnd() returns (end: bool)
      requires Valid()
      ensures end <==> Healthy() && Rest() == []
    {
      end := !failed && pos == |data|;
    }
  }
}
