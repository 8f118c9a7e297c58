/**
 * DeepMergeObject (include/common/ValueJson.h): overlay objects are merged into base
 * objects, everything else replaces.
 */
module DeepMerge {
  import opened ByteStrings
  import opened FiFoMaps
  import opened Values

  function Merge(base: Fields, overlay: Fields): Fields
    decreases overlay, 1
  {
    if overlay == [] then base
    else
      Smaller(overlay, 0);
      Merge(SetEntry(base, overlay[0].key, MergedValue(Lookup(base, overlay[0].key), overlay[0].value)), overlay[1..])
  }

  /** What a key holds after an overlay value came onto what it held before. */
  function MergedValue(before: Option<Value>, over: Value): Value
    decreases over, 0
  {
    if over.Obj? && before.Some? && before.value.Obj? then Obj(Merge(before.value.fields, over.fields)) else over
  }

  method DeepMergeObject(base: FiFoMap<Bytes, Value>, overlay: Fields)
    requires base.Valid() && WellFormedFields(base.entries)
    requires WellFormedFields(overlay)
    modifies base
    ensures base.Valid() && base.entries == Merge(old(base.entries), overlay)
    ensures WellFormedFields(base.entries)
    decreases overlay
  {
    for i := 0 to |overlay|
      invariant base.Valid() && WellFormedFields(base.entries)
      invariant Merge(old(base.entries), overlay) == Merge(base.entries, overlay[i..])
    {
      var key, value := overlay[i].key, overlay[i].value;
      ghost var here := base.entries;
      MergeOne(here, overlay, i);
      LookupWellFormed(here, key);
      hide Merge, SetEntry, Lookup, DistinctKeys;
      if value.Obj? {
        var child := base.TryGet(key);
        if child.Some? && child.value.Obj? {
          var merged := new FiFoMap.Copy(child.value.fields);
          Smaller(overlay, i);
          DeepMergeObject(merged, value.fields);
          SetWellFormed(here, key, Obj(merged.entries));
          base.Set(key, Obj(merged.entries));
          continue;
        }
        SetWellFormed(here, key, value);
        base.Set(key, value);
        continue;
      }
      SetWellFormed(here, key, value);
      base.Set(key, value);
    }
  }

  /** One turn of the loop. */
  lemma MergeOne(base: Fields, overlay: Fields, i: nat)
    requires i < |overlay|
    ensures Merge(base, overlay[i..]) ==
            Merge(SetEntry(base, overlay[i].key, MergedValue(Lookup(base, overlay[i].key), overlay[i].value)), overlay[i + 1..])
  {
    assert overlay[i..][0] == overlay[i] && overlay[i..][1..] == overlay[i + 1..];
  }

  lemma LookupWellFormed(fields: Fields, key: Bytes)
    requires WellFormedFields(fields)
    ensures Lookup(fields, key).Some? ==> WellFormed(Lookup(fields, key).value)
  {}

  lemma SetWellFormed(fields: Fields, key: Bytes, value: Value)
    requires WellFormedFields(fields) && WellFormed(value)
    ensures WellFormedFields(SetEntry(fields, key, value))
  {
    SetLaws(fields, key, value);
  }

  // ---- What the merged object holds ----

  /** The keys of `overlay` that are not keys of `base`, in overlay order. */
  function NewKeys(base: Fields, overlay: Fields): seq<Bytes> {
    if overlay == [] then []
    else (if HasKey(base, overlay[0].key) then [] else [overlay[0].key]) + NewKeys(base, overlay[1..])
  }

  /** Base keys in their order, then the new keys in theirs; and each key merges by itself. */
  lemma MergeLaws(base: Fields, overlay: Fields)
    requires DistinctKeys(base) && DistinctKeys(overlay)
    ensures DistinctKeys(Merge(base, overlay))
    ensures Keys(Merge(base, overlay)) == Keys(base) + NewKeys(base, overlay)
    ensures forall k :: Lookup(Merge(base, overlay), k) ==
                        match Lookup(overlay, k)
                        case None => Lookup(base, k)
                        case Some(v) => Some(MergedValue(Lookup(base, k), v))
  {
    MergeKeys(base, overlay);
    forall k
      ensures Lookup(Merge(base, overlay), k) ==
              match Lookup(overlay, k)
              case None => Lookup(base, k)
              case Some(v) => Some(MergedValue(Lookup(base, k), v))
    {
      MergeLookup(base, overlay, k);
    }
  }

  lemma {:induction false} MergeKeys(base: Fields, overlay: Fields)
    requires DistinctKeys(base) && DistinctKeys(overlay)
    ensures DistinctKeys(Merge(base, overlay))
    ensures Keys(Merge(base, overlay)) == Keys(base) + NewKeys(base, overlay)
    decreases overlay
  {
    if overlay != [] {
      var key, rest := overlay[0].key, overlay[1..];
      var value := MergedValue(Lookup(base, key), overlay[0].value);
      hide MergedValue, Lookup, SetEntry, DistinctKeys, HasKey;
      SetLaws(base, key, value);
      FirstIsAlone(overlay);
      MergeKeys(SetEntry(base, key, value), rest);
      NewKeysAfterSet(base, key, value, rest);
      hide Keys;
      Assoc(Keys(base), [key], NewKeys(base, rest));
      assert [] + NewKeys(base, rest) == NewKeys(base, rest);
    }
  }

  lemma {:induction false} MergeLookup(base: Fields, overlay: Fields, k: Bytes)
    requires DistinctKeys(base) && DistinctKeys(overlay)
    ensures Lookup(Merge(base, overlay), k) ==
            match Lookup(overlay, k)
            case None => Lookup(base, k)
            case Some(v) => Some(MergedValue(Lookup(base, k), v))
    decreases overlay
  {
    if overlay != [] {
      var key, rest := overlay[0].key, overlay[1..];
      var value := MergedValue(Lookup(base, key), overlay[0].value);
      hide MergedValue, Lookup, SetEntry, DistinctKeys;
      SetLaws(base, key, value);
      FirstIsAlone(overlay);
      MergeLookup(SetEntry(base, key, value), rest, k);
    }
  }

  lemma FirstIsAlone(fields: Fields)
    requires fields != [] && DistinctKeys(fields)
    ensures DistinctKeys(fields[1..]) && !HasKey(fields[1..], fields[0].key) && Lookup(fields[1..], fields[0].key) == None
    ensures forall k :: Lookup(fields, k) == if k == fields[0].key then Some(fields[0].value) else Lookup(fields[1..], k)
  {
    assert forall i :: 0 <= i < |fields[1..]| ==> fields[1..][i] == fields[i + 1];
  }

  lemma {:induction false} NewKeysAfterSet(base: Fields, key: Bytes, value: Value, rest: Fields)
    requires DistinctKeys(base) && !HasKey(rest, key)
    ensures NewKeys(SetEntry(base, key, value), rest) == NewKeys(base, rest)
    decreases rest
  {
    if rest != [] {
      SetLaws(base, key, value);
      assert HasKey(SetEntry(base, key, value), rest[0].key) <==> HasKey(base, rest[0].key) by {
        var r := SetEntry(base, key, value);
        assert Lookup(r, rest[0].key) == Lookup(base, rest[0].key);
      }
      NewKeysAfterSet(base, key, value, rest[1..]);
    }
  }

  /** Two objects with the same keys in the same order and the same value under each key are equal. */
  lemma SameFields(a: Fields, b: Fields)
    requires DistinctKeys(a) && DistinctKeys(b) && Keys(a) == Keys(b)
    requires forall k :: HasKey(a, k) ==> Lookup(a, k) == Lookup(b, k)
    ensures a == b
  {
    assert |a| == |b| by { assert |Keys(a)| == |Keys(b)|; }
    forall i | 0 <= i < |a|
      ensures a[i] == b[i]
    {
      assert Keys(a)[i] == Keys(b)[i];
      IndexOfUnique(a, i);
      IndexOfUnique(b, i);
      assert HasKey(a, a[i].key);
    }
  }

  lemma {:induction false} NoNewKeys(base: Fields, overlay: Fields)
    requires forall i :: 0 <= i < |overlay| ==> HasKey(base, overlay[i].key)
    ensures NewKeys(base, overlay) == []
    decreases overlay
  {
    if overlay != [] {
      NoNewKeys(base, overlay[1..]);
    }
  }

  lemma {:induction false} NewKeysComeFromOverlay(base: Fields, overlay: Fields, key: Bytes)
    ensures key in NewKeys(base, overlay) <==> HasKey(overlay, key) && !HasKey(base, key)
    decreases overlay
  {
    if overlay != [] {
      NewKeysComeFromOverlay(base, overlay[1..], key);
    }
  }

  lemma KeysMembership(fields: Fields, key: Bytes)
    ensures key in Keys(fields) <==> HasKey(fields, key)
  {
    if HasKey(fields, key) {
      assert Keys(fields)[IndexOf(fields, key)] == key;
    }
  }

  /** Merging an object into itself changes nothing. */
  lemma {:induction false} MergeSelf(a: Fields)
    requires WellFormedFields(a)
    ensures Merge(a, a) == a
    decreases a
  {
    MergeLaws(a, a);
    forall i | 0 <= i < |a|
      ensures HasKey(a, a[i].key)
    {
      IndexOfUnique(a, i);
    }
    NoNewKeys(a, a);
    forall k | HasKey(a, k)
      ensures Lookup(Merge(a, a), k) == Lookup(a, k)
    {
      var v := a[IndexOf(a, k)].value;
      if v.Obj? {
        Smaller(a, IndexOf(a, k));
        MergeSelf(v.fields);
      }
    }
    SameFields(a, Merge(a, a));
  }

  /** Merging the same overlay a second time changes nothing. */
  lemma {:induction false} MergeIdempotent(base: Fields, overlay: Fields)
    requires WellFormedFields(base) && WellFormedFields(overlay)
    ensures Merge(Merge(base, overlay), overlay) == Merge(base, overlay)
    decreases overlay
  {
    var once := Merge(base, overlay);
    MergeLaws(base, overlay);
    MergeLaws(once, overlay);
    forall i | 0 <= i < |overlay|
      ensures HasKey(once, overlay[i].key)
    {
      IndexOfUnique(overlay, i);
      NewKeysComeFromOverlay(base, overlay, overlay[i].key);
      KeysMembership(base, overlay[i].key);
      KeysMembership(once, overlay[i].key);
    }
    NoNewKeys(once, overlay);
    forall k | HasKey(once, k)
      ensures Lookup(Merge(once, overlay), k) == Lookup(once, k)
    {
      if HasKey(overlay, k) {
        var v := overlay[IndexOf(overlay, k)].value;
        LookupWellFormed(base, k);
        Smaller(overlay, IndexOf(overlay, k));
        MergedTwice(Lookup(base, k), v);
      }
    }
    SameFields(once, Merge(once, overlay));
  }

  lemma MergedTwice(before: Option<Value>, over: Value)
    requires WellFormed(over) && (before.Some? ==> WellFormed(before.value))
    ensures MergedValue(Some(MergedValue(before, over)), over) == MergedValue(before, over)
    decreases over, 0
  {
    if over.Obj? {
      if before.Some? && before.value.Obj? {
        MergeIdempotent(before.value.fields, over.fields);
      } else {
        MergeSelf(over.fields);
      }
    }
  }

  // ---- Lookup along a path ----

  function At(v: Value, path: seq<Bytes>): Option<Value>
    decreases |path|
  {
    if path == [] then Some(v)
    else if !v.Obj? || !HasKey(v.fields, path[0]) then None
    else At(Lookup(v.fields, path[0]).value, path[1..])
  }

  predicate IsObject(v: Option<Value>) {
    v.Some? && v.value.Obj?
  }

  /** The overlay replaces what the base holds at `path` or above it: it has a value there, and not both sides an object. */
  ghost predicate Replaced(base: Value, overlay: Value, path: seq<Bytes>) {
    exists n :: 0 <= n <= |path| && ReplacedAt(base, overlay, path[..n])
  }

  predicate ReplacedAt(base: Value, overlay: Value, path: seq<Bytes>) {
    At(overlay, path).Some? && !(IsObject(At(overlay, path)) && IsObject(At(base, path)))
  }

  /** Objects recurse, others replace, at every depth. */
  lemma {:induction false} MergeAtPath(base: Value, overlay: Value, path: seq<Bytes>)
    requires WellFormed(base) && WellFormed(overlay)
    ensures At(MergedValue(Some(base), overlay), path) ==
            if Replaced(base, overlay, path) then At(overlay, path)
            else if IsObject(At(base, path)) && IsObject(At(overlay, path)) then
              Some(Obj(Merge(At(base, path).value.fields, At(overlay, path).value.fields)))
            else At(base, path)
    decreases |path|
  {
    if !(base.Obj? && overlay.Obj?) {
      assert path[..0] == [] && ReplacedAt(base, overlay, path[..0]);
    } else if path == [] {
      assert forall n :: 0 <= n <= |path| ==> path[..n] == [];
    } else {
      MergeLaws(base.fields, overlay.fields);
      var key, rest := path[0], path[1..];
      if !HasKey(overlay.fields, key) {
        NotReplaced(base, overlay, path);
      } else if !HasKey(base.fields, key) {
        assert path[..1] == [key] && ReplacedAt(base, overlay, path[..1]);
      } else {
        LookupWellFormed(overlay.fields, key);
        LookupWellFormed(base.fields, key);
        MergeAtPath(Lookup(base.fields, key).value, Lookup(overlay.fields, key).value, rest);
        ReplacedBelow(base, overlay, path);
      }
    }
  }

  lemma NotReplaced(base: Value, overlay: Value, path: seq<Bytes>)
    requires base.Obj? && overlay.Obj? && path != [] && !HasKey(overlay.fields, path[0])
    ensures !Replaced(base, overlay, path) && At(overlay, path).None?
  {
    forall n | 0 <= n <= |path|
      ensures !ReplacedAt(base, overlay, path[..n])
    {
      if n > 0 {
        assert path[..n][0] == path[0];
      }
    }
  }

  /** Where both sides hold an object, replacement is decided below it. */
  lemma ReplacedBelow(base: Value, overlay: Value, path: seq<Bytes>)
    requires base.Obj? && overlay.Obj? && path != []
    requires HasKey(base.fields, path[0]) && HasKey(overlay.fields, path[0])
    ensures Replaced(base, overlay, path) <==>
            Replaced(Lookup(base.fields, path[0]).value, Lookup(overlay.fields, path[0]).value, path[1..])
  {
    var under, over := Lookup(base.fields, path[0]).value, Lookup(overlay.fields, path[0]).value;
    assert path[..0] == [];
    forall n | 0 < n <= |path|
      ensures ReplacedAt(base, overlay, path[..n]) <==> ReplacedAt(under, over, path[1..][..n - 1])
    {
      assert path[..n][0] == path[0] && path[..n][1..] == path[1..][..n - 1];
    }
    if Replaced(under, over, path[1..]) {
      var m :| 0 <= m <= |path[1..]| && ReplacedAt(under, over, path[1..][..m]);
      assert ReplacedAt(base, overlay, path[..m + 1]);
    }
  }
}
