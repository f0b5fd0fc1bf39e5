/** The parts of java.util whose semantics the model needs: insertion-ordered sets. */
module JavaUtil {

  predicate NoDuplicates<T(==)>(s: seq<T>) {
    forall i, j :: 0 <= i < j < |s| ==> s[i] != s[j]
  }

  /** `LinkedHashSet.add`: appends `x` unless it is already present. */
  function LinkedAdd<T(==)>(s: seq<T>, x: T): (r: seq<T>)
    ensures NoDuplicates(s) ==> NoDuplicates(r)
    ensures x in r && forall i :: 0 <= i < |r| ==> r[i] in s || r[i] == x
    ensures |s| <= |r| && r[..|s|] == s
  {
    if x in s then s else s + [x]
  }

  /** `LinkedHashSet.addAll` of an ordered collection: `LinkedAdd` of each element in turn. */
  function LinkedAddAll<T(==)>(s: seq<T>, xs: seq<T>): (r: seq<T>)
    ensures NoDuplicates(s) ==> NoDuplicates(r)
    ensures forall i :: 0 <= i < |xs| ==> xs[i] in r
    ensures forall i :: 0 <= i < |r| ==> r[i] in s || r[i] in xs
    ensures |s| <= |r| && r[..|s|] == s
    decreases |xs|
  {
    if |xs| == 0 then s else LinkedAddAll(LinkedAdd(s, xs[0]), xs[1..])
  }

  /** What `addAll` leaves in the set: its old elements and the added ones. */
  lemma LinkedAddAllMembers<T>(s: seq<T>, xs: seq<T>, x: T)
    ensures x in LinkedAddAll(s, xs) <==> x in s || x in xs
  {
    var r := LinkedAddAll(s, xs);
    if x in s {
      var i :| 0 <= i < |s| && s[i] == x;
      assert r[..|s|][i] == x;
    }
  }

  /** One `addAll` of each list in turn, from an empty set: their union in first-seen order. */
  function Unioned<T(==)>(lists: seq<seq<T>>): seq<T>
    decreases |lists|
  {
    if |lists| == 0 then [] else LinkedAddAll(Unioned(lists[..|lists| - 1]), lists[|lists| - 1])
  }

  /** The union is duplicate-free and holds exactly the elements of the lists. */
  lemma {:induction false} UnionedExactly<T>(lists: seq<seq<T>>, k: T)
    ensures NoDuplicates(Unioned(lists))
    ensures k in Unioned(lists) <==> exists i :: 0 <= i < |lists| && k in lists[i]
    decreases |lists|
  {
    if |lists| > 0 {
      var init := lists[..|lists| - 1];
      UnionedExactly(init, k);
      LinkedAddAllMembers(Unioned(init), lists[|lists| - 1], k);
      if k in Unioned(init) {
        var i :| 0 <= i < |init| && k in init[i];
        assert lists[i] == init[i];
      }
      if exists i :: 0 <= i < |lists| && k in lists[i] {
        var i :| 0 <= i < |lists| && k in lists[i];
        if i < |init| {
          assert init[i] == lists[i];
        }
      }
    }
  }

  /** `order` lists the keys of a map, each once: a `HashMap`'s iteration order. */
  ghost predicate IsListing<K(!new)>(order: seq<K>, keys: set<K>) {
    (forall i, j :: 0 <= i < j < |order| ==> order[i] != order[j])
    && (forall k :: k in order <==> k in keys)
  }

  /** A listing visits as many keys as the map has. */
  lemma {:induction false} ListingSize<K(!new)>(order: seq<K>, keys: set<K>)
    requires IsListing(order, keys)
    ensures |order| == |keys|
    decreases |order|
  {
    if |order| > 0 {
      var last := order[|order| - 1];
      var init := order[..|order| - 1];
      assert last !in init;
      forall k ensures k in init <==> k in keys - {last} {
        if k in init {
          var i :| 0 <= i < |init| && init[i] == k;
          assert order[i] == k;
        }
        if k in keys - {last} {
          var i :| 0 <= i < |order| && order[i] == k;
          assert i != |order| - 1;
          assert init[i] == k;
        }
      }
      ListingSize(init, keys - {last});
    } else {
      assert forall k :: k !in keys;
      assert keys == {};
    }
  }
}
