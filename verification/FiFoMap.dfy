/**
 * The insertion-ordered map under every Object (include/common/FiFoMap.h): a vector of
 * entries, and an index from each key to its position.
 *
 * The specification is the list of entries alone, searched from the front.
 */
module FiFoMaps {
  import opened ByteStrings

  datatype Entry<+K, +V> = Entry(key: K, value: V)

  /** Position of the first entry with `key`; the length of the list when there is none. */
  function IndexOf<K(==), V>(es: seq<Entry<K, V>>, key: K): (i: nat)
    ensures i <= |es|
    ensures i < |es| ==> es[i].key == key
    ensures forall j :: 0 <= j < i ==> es[j].key != key
  {
    if es == [] then 0
    else if es[0].key == key then 0
    else 1 + IndexOf(es[1..], key)
  }

  predicate HasKey<K(==), V>(es: seq<Entry<K, V>>, key: K) {
    IndexOf(es, key) < |es|
  }

  predicate DistinctKeys<K(==), V>(es: seq<Entry<K, V>>) {
    forall i, j :: 0 <= i < j < |es| ==> es[i].key != es[j].key
  }

  function Lookup<K(==), V>(es: seq<Entry<K, V>>, key: K): Option<V> {
    var i := IndexOf(es, key);
    if i < |es| then Some(es[i].value) else None
  }

  /** Insert or assign: an existing key keeps its position, a new one goes last. */
  function SetEntry<K(==), V>(es: seq<Entry<K, V>>, key: K, value: V): seq<Entry<K, V>> {
    var i := IndexOf(es, key);
    if i < |es| then es[i := Entry(key, value)] else es + [Entry(key, value)]
  }

  function EraseEntry<K(==), V>(es: seq<Entry<K, V>>, key: K): seq<Entry<K, V>> {
    var i := IndexOf(es, key);
    if i < |es| then es[..i] + es[i + 1..] else es
  }

  function Keys<K, V>(es: seq<Entry<K, V>>): (ks: seq<K>)
    ensures |ks| == |es|
    ensures forall i :: 0 <= i < |es| ==> ks[i] == es[i].key
  {
    if es == [] then [] else [es[0].key] + Keys(es[1..])
  }

  lemma IndexOfUnique<K, V>(es: seq<Entry<K, V>>, i: nat)
    requires DistinctKeys(es) && i < |es|
    ensures IndexOf(es, es[i].key) == i
  {}

  /** What one assignment does to every lookup, to the key order and to the distinctness of the keys. */
  lemma SetLaws<K, V>(es: seq<Entry<K, V>>, key: K, value: V)
    requires DistinctKeys(es)
    ensures var r := SetEntry(es, key, value);
            && DistinctKeys(r)
            && Keys(r) == (if HasKey(es, key) then Keys(es) else Keys(es) + [key])
            && forall k :: Lookup(r, k) == if k == key then Some(value) else Lookup(es, k)
  {
    var r := SetEntry(es, key, value);
    assert DistinctKeys(r);
    forall k
      ensures Lookup(r, k) == if k == key then Some(value) else Lookup(es, k)
    {
      var i := IndexOf(es, k);
      if k == key {
        IndexOfUnique(r, i);
      } else if i < |es| {
        assert r[i] == es[i];
        IndexOfUnique(r, i);
      }
    }
  }

  /** Where a key stands once `key` is erased. */
  lemma ErasedPosition<K, V>(es: seq<Entry<K, V>>, key: K, k: K)
    requires DistinctKeys(es)
    ensures var r := EraseEntry(es, key);
            var i := IndexOf(es, k);
            IndexOf(r, k) == if k == key || i == |es| then |r| else if i < IndexOf(es, key) then i else i - 1
  {
    var r := EraseEntry(es, key);
    var n := IndexOf(es, key);
    assert forall j :: 0 <= j < |r| ==> r[j] == es[if j < n then j else j + 1];
    var i := IndexOf(es, k);
    if k != key && i < |es| {
      var j := if i < n then i else i - 1;
      assert r[j] == es[i];
      IndexOfUnique(r, j);
    }
  }

  /** Erasing removes one key from every lookup and keeps the order of the others. */
  lemma EraseLaws<K, V>(es: seq<Entry<K, V>>, key: K)
    requires DistinctKeys(es)
    ensures var r := EraseEntry(es, key);
            && DistinctKeys(r)
            && (forall k :: Lookup(r, k) == if k == key then None else Lookup(es, k))
            && (forall a, b :: HasKey(r, a) && HasKey(r, b) ==>
                  (IndexOf(r, a) < IndexOf(r, b) <==> IndexOf(es, a) < IndexOf(es, b)))
  {
    var r := EraseEntry(es, key);
    var n := IndexOf(es, key);
    assert forall j :: 0 <= j < |r| ==> r[j] == es[if j < n then j else j + 1];
    forall k
      ensures IndexOf(r, k) == if k == key || IndexOf(es, k) == |es| then |r|
                               else if IndexOf(es, k) < n then IndexOf(es, k) else IndexOf(es, k) - 1
    {
      ErasedPosition(es, key, k);
    }
  }

  /** `index` is exactly the inverse of the entry positions. */
  ghost predicate Inverse<K, V>(entries: seq<Entry<K, V>>, index: map<K, nat>) {
    && (forall i :: 0 <= i < |entries| ==> entries[i].key in index && index[entries[i].key] == i)
    && (forall k :: k in index ==> index[k] < |entries| && entries[index[k]].key == k)
  }

  lemma InverseAt<K, V>(entries: seq<Entry<K, V>>, index: map<K, nat>, key: K)
    requires Inverse(entries, index)
    ensures IndexOf(entries, key) == if key in index then index[key] else |entries|
  {}

  /** The position of an entry once the one at `idx` is gone. */
  function Shifted(i: nat, idx: nat): nat {
    if i > idx then i - 1 else i
  }

  /** Erasing one entry and shifting the positions behind it keeps the index an inverse. */
  lemma EraseInverse<K, V>(es: seq<Entry<K, V>>, ix: map<K, nat>, key: K, ix': map<K, nat>)
    requires Inverse(es, ix) && key in ix
    requires ix'.Keys == ix.Keys - {key}
    requires forall k :: k in ix' ==> ix'[k] == Shifted(ix[k], ix[key])
    ensures Inverse(es[..ix[key]] + es[ix[key] + 1..], ix')
  {
    var n := ix[key];
    var es' := es[..n] + es[n + 1..];
    forall i | 0 <= i < |es'|
      ensures es'[i].key in ix' && ix'[es'[i].key] == i
    {
      var j := if i < n then i else i + 1;
      assert es'[i] == es[j] && ix[es[j].key] == j;
    }
    forall k | k in ix'
      ensures ix'[k] < |es'| && es'[ix'[k]].key == k
    {
      assert k in ix && es[ix[k]].key == k;
    }
  }

  class FiFoMap<K(==), V> {
    var entries: seq<Entry<K, V>>
    var index: map<K, nat>

    ghost predicate Valid()
      reads this
    {
      Inverse(entries, index)
    }

    /** In a valid map the keys are distinct, and the index answers as a search of the list does. */
    lemma ValidIndex()
      requires Valid()
      ensures DistinctKeys(entries)
      ensures forall k :: k in index <==> HasKey(entries, k)
      ensures forall k :: k in index ==> index[k] == IndexOf(entries, k)
    {
      forall i, j | 0 <= i < j < |entries|
        ensures entries[i].key != entries[j].key
      {
        assert index[entries[i].key] == i && index[entries[j].key] == j;
      }
    }

    constructor ()
      ensures Valid() && entries == []
    {
      entries, index := [], map[];
    }

    /** A copy of a map that holds `es` (the copy construction of an Object). */
    constructor Copy(es: seq<Entry<K, V>>)
      requires DistinctKeys(es)
      ensures Valid() && entries == es
    {
      entries := es;
      index := map k | k in Keys(es) :: IndexOf(es, k);
      new;
      forall i | 0 <= i < |es|
        ensures es[i].key in index && index[es[i].key] == i
      {
        assert Keys(es)[i] == es[i].key;
        IndexOfUnique(es, i);
      }
    }

    method Clear()
      modifies this
      ensures Valid() && entries == []
    {
      entries, index := [], map[];
    }

    method Contains(key: K) returns (found: bool)
      requires Valid()
      ensures found == HasKey(entries, key)
    {
      InverseAt(entries, index, key);
      found := key in index;
    }

    method TryGet(key: K) returns (value: Option<V>)
      requires Valid()
      ensures value == Lookup(entries, key)
    {
      InverseAt(entries, index, key);
      value := if key in index then Some(entries[index[key]].value) else None;
    }

    method Set(key: K, value: V)
      requires Valid()
      modifies this
      ensures Valid() && entries == SetEntry(old(entries), key, value)
    {
      InverseAt(entries, index, key);
      if key in index {
        entries := entries[index[key] := Entry(key, value)];
      } else {
        index := index[key := |entries|];
        entries := entries + [Entry(key, value)];
      }
    }

    method Erase(key: K) returns (erased: bool)
      requires Valid()
      modifies this
      ensures Valid() && entries == EraseEntry(old(entries), key)
      ensures erased == HasKey(old(entries), key)
    {
      InverseAt(entries, index, key);
      if key !in index {
        return false;
      }
      var idx := index[key];
      index := index - {key};
      entries := entries[..idx] + entries[idx + 1..];
      Reindex(idx);
      EraseInverse(old(entries), old(index), key, index);
      erased := true;
    }

    /** The entries behind position `idx` moved up by one. */
    method Reindex(idx: nat)
      modifies this`index
      ensures index.Keys == old(index.Keys)
      ensures forall k :: k in index ==> index[k] == Shifted(old(index)[k], idx)
    {
      var todo := index.Keys;
      while todo != {}
        invariant todo <= index.Keys == old(index.Keys)
        invariant forall k :: k in index ==>
                    index[k] == if k in todo then old(index)[k] else Shifted(old(index)[k], idx)
        decreases todo
      {
        var k :| k in todo;
        if index[k] > idx {
          index := index[k := index[k] - 1];
        }
        todo := todo - {k};
      }
    }
  }
}
