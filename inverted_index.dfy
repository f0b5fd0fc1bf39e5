/**
 * `InvertedIndex<T1, T2>`: a hash map from each key to the insertion-ordered set of
 * values filed under it. The map is the field `index`; a `LinkedHashSet` is a sequence
 * without duplicates, in insertion order.
 */
module Datastructures {
  import opened Wrappers
  import opened JavaUtil

  /** Every key's set is a duplicate-free, non-empty sequence (`put` is the only writer). */
  ghost predicate WellFormed<K, V>(index: map<K, seq<V>>) {
    forall k :: k in index ==> NoDuplicates(index[k]) && |index[k]| > 0
  }

  /** `Map.get`: the key's set, or null. */
  function Lookup<K, V>(index: map<K, seq<V>>, k: K): (r: Option<seq<V>>)
    ensures r.Some? <==> k in index
    ensures k in index ==> r.value == index[k]
  {
    if k in index then Some(index[k]) else None
  }

  /** The index after `put(k, v)`: `v` joins k's set, which is created when k is new. */
  function Inserted<K, V(==)>(index: map<K, seq<V>>, k: K, v: V): map<K, seq<V>> {
    if k in index then index[k := LinkedAdd(index[k], v)] else index[k := [v]]
  }

  /** The index after `putAll(keys, v)`: `put(key, v)` for each key in turn. */
  function InsertedAll<K, V(==)>(index: map<K, seq<V>>, keys: seq<K>, v: V): map<K, seq<V>>
    decreases |keys|
  {
    if |keys| == 0 then index else InsertedAll(Inserted(index, keys[0], v), keys[1..], v)
  }

  /** After `put(k, v)`, k is a key whose set holds `v`; every other key is as it was. */
  lemma InsertedFiles<K, V>(index: map<K, seq<V>>, k: K, v: V)
    ensures k in Inserted(index, k, v) && v in Inserted(index, k, v)[k]
    ensures forall j :: j != k ==> (j in Inserted(index, k, v) <==> j in index)
    ensures forall j :: j != k && j in index ==> Inserted(index, k, v)[j] == index[j]
    ensures k in index ==> Inserted(index, k, v)[k][..|index[k]|] == index[k]
  {
  }

  /** Putting a value that is already filed under the key changes nothing. */
  lemma InsertedPresent<K, V>(index: map<K, seq<V>>, k: K, v: V)
    requires k in index && v in index[k]
    ensures Inserted(index, k, v) == index
  {
  }

  /** `size()` counts keys: `put` raises it by one exactly when the key is new. */
  lemma InsertedSize<K, V>(index: map<K, seq<V>>, k: K, v: V)
    ensures |Inserted(index, k, v)| == if k in index then |index| else |index| + 1
  {
    if k !in index {
      assert Inserted(index, k, v).Keys == index.Keys + {k};
    } else {
      assert Inserted(index, k, v).Keys == index.Keys;
    }
  }

  lemma InsertedWellFormed<K, V>(index: map<K, seq<V>>, k: K, v: V)
    requires WellFormed(index)
    ensures WellFormed(Inserted(index, k, v))
  {
  }

  /**
   * After `putAll(keys, v)` every listed key is a key whose set holds `v`; a key that is
   * not listed is as it was.
   */
  lemma {:induction false} InsertedAllFiles<K, V>(index: map<K, seq<V>>, keys: seq<K>, v: V)
    ensures forall i :: 0 <= i < |keys| ==> keys[i] in InsertedAll(index, keys, v) && v in InsertedAll(index, keys, v)[keys[i]]
    ensures forall j :: j !in keys ==> (j in InsertedAll(index, keys, v) <==> j in index)
    ensures forall j :: j !in keys && j in index ==> InsertedAll(index, keys, v)[j] == index[j]
    ensures forall j :: j in index ==> j in InsertedAll(index, keys, v) && forall w :: w in index[j] ==> w in InsertedAll(index, keys, v)[j]
    decreases |keys|
  {
    if |keys| > 0 {
      var next := Inserted(index, keys[0], v);
      InsertedFiles(index, keys[0], v);
      InsertedAllFiles(next, keys[1..], v);
      forall i | 0 <= i < |keys| ensures keys[i] in InsertedAll(index, keys, v) && v in InsertedAll(index, keys, v)[keys[i]] {
        if i > 0 {
          assert keys[i] == keys[1..][i - 1];
        }
      }
    }
  }

  /**
   * After `putAll(keys, v)` the keys are the old ones and the listed ones, and a key's
   * set holds exactly its old values, plus `v` when the key is listed.
   */
  lemma {:induction false} InsertedAllExactly<K, V>(index: map<K, seq<V>>, keys: seq<K>, v: V, j: K, w: V)
    ensures j in InsertedAll(index, keys, v) <==> j in index || j in keys
    ensures j in InsertedAll(index, keys, v) ==>
      (w in InsertedAll(index, keys, v)[j] <==> (j in index && w in index[j]) || (j in keys && w == v))
    decreases |keys|
  {
    if |keys| > 0 {
      var next := Inserted(index, keys[0], v);
      InsertedAllExactly(next, keys[1..], v, j, w);
      assert j in keys <==> j == keys[0] || j in keys[1..];
      if j in next {
        var before := if keys[0] in index then index[keys[0]] else [];
        assert j == keys[0] ==> next[j] == LinkedAdd(before, v);
        assert w in next[j] <==> (j in index && w in index[j]) || (j == keys[0] && w == v);
      }
    }
  }

  lemma {:induction false} InsertedAllWellFormed<K, V>(index: map<K, seq<V>>, keys: seq<K>, v: V)
    requires WellFormed(index)
    ensures WellFormed(InsertedAll(index, keys, v))
    decreases |keys|
  {
    if |keys| > 0 {
      InsertedWellFormed(index, keys[0], v);
      InsertedAllWellFormed(Inserted(index, keys[0], v), keys[1..], v);
    }
  }

  class InvertedIndex<K(==), V(==)> {
    var index: map<K, seq<V>>

    ghost predicate Valid()
      reads this
    {
      WellFormed(index)
    }

    constructor ()
      ensures Valid() && index == map[]
    {
      index := map[];
    }

    /** `size()`: the number of keys (not of values). */
    method Size() returns (n: nat)
      ensures n == |index.Keys|
    {
      n := |index|;
    }

    method IsEmpty() returns (b: bool)
      ensures b <==> forall k :: k !in index
    {
      b := |index| == 0;
      if !b {
        var k :| k in index;
      }
    }

    method ContainsKey(k: K) returns (b: bool)
      ensures b <==> k in index
    {
      b := k in index;
    }

    /** `containsValue(v)`: a scan of the keys, stopping at the first set that holds `v`. */
    method ContainsValue(v: V) returns (b: bool)
      ensures b <==> exists k :: k in index && v in index[k]
    {
      var remaining := index.Keys;
      while remaining != {}
        invariant remaining <= index.Keys
        invariant forall k :: k in index && k !in remaining ==> v !in index[k]
        decreases remaining
      {
        var k :| k in remaining;
        if v in index[k] {
          return true;
        }
        remaining := remaining - {k};
      }
      return false;
    }

    method Get(k: K) returns (r: Option<seq<V>>)
      ensures r == Lookup(index, k)
    {
      if k in index {
        r := Some(index[k]);
      } else {
        r := None;
      }
    }

    method Put(k: K, v: V)
      requires Valid()
      modifies this
      ensures Valid() && index == Inserted(old(index), k, v)
    {
      if k in index {
        index := index[k := LinkedAdd(index[k], v)];
      } else {
        index := index[k := [v]];
      }
    }

    method PutAll(keys: seq<K>, v: V)
      requires Valid()
      modifies this
      ensures Valid() && index == InsertedAll(old(index), keys, v)
    {
      for i := 0 to |keys|
        invariant Valid()
        invariant InsertedAll(old(index), keys, v) == InsertedAll(index, keys[i..], v)
      {
        assert keys[i..][1..] == keys[i + 1..];
        Put(keys[i], v);
      }
    }

    /** `remove(k)`: k's previous set (null when k was no key); k is no longer a key. */
    method Remove(k: K) returns (r: Option<seq<V>>)
      requires Valid()
      modifies this
      ensures Valid()
      ensures r == Lookup(old(index), k)
      ensures index == old(index) - {k}
    {
      r := Lookup(index, k);
      index := index - {k};
    }

    method Clear()
      modifies this
      ensures Valid() && index == map[]
      ensures |index| == 0 && forall k :: k !in index
    {
      index := map[];
    }

    method KeySet() returns (keys: set<K>)
      ensures keys == index.Keys
    {
      keys := index.Keys;
    }

    /** `values()`: the union of every key's set, without duplicates, in map iteration order. */
    method Values() returns (vs: seq<V>)
      ensures NoDuplicates(vs)
      ensures forall v :: v in vs <==> exists k :: k in index && v in index[k]
    {
      vs := [];
      var remaining := index.Keys;
      while remaining != {}
        invariant remaining <= index.Keys
        invariant NoDuplicates(vs)
        invariant forall v :: v in vs <==> exists k :: k in index && k !in remaining && v in index[k]
        decreases remaining
      {
        var k :| k in remaining;
        ghost var before := vs;
        vs := LinkedAddAll(vs, index[k]);
        remaining := remaining - {k};
        forall v | v in vs ensures exists j :: j in index && j !in remaining && v in index[j] {
          var i :| 0 <= i < |vs| && vs[i] == v;
          if v !in before {
            assert v in index[k];
          }
        }
        forall v | (exists j :: j in index && j !in remaining && v in index[j]) ensures v in vs {
          var j :| j in index && j !in remaining && v in index[j];
          if j == k {
            var i :| 0 <= i < |index[k]| && index[k][i] == v;
          } else {
            assert v in before;
            var i :| 0 <= i < |before| && before[i] == v;
            assert vs[..|before|] == before;
            assert vs[i] == v;
          }
        }
      }
    }
  }
}
