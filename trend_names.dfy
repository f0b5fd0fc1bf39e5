/**
 * The trimmed, lower-cased form under which the crawlers recognise a trend name, and the
 * skip-if-seen loop with which `StreamCrawler.crawlTrends` and `Crawler.crawlTrends`
 * visit each distinct trend once. The loop is stated for any key function and used with
 * `NameKey`.
 */
module TrendNames {
  import opened JavaLang

  /** `name.trim().toLowerCase()`. */
  function NameKey(name: string): string {
    ToLower(Trim(name))
  }

  /** The key of each name, in order. */
  function NameKeyList(names: seq<string>): (r: seq<string>)
    ensures |r| == |names| && forall i :: 0 <= i < |names| ==> r[i] == NameKey(names[i])
  {
    seq(|names|, i requires 0 <= i < |names| => NameKey(names[i]))
  }

  /** The keys of a sequence of names: the `trendNames` set after visiting them. */
  function KeysOf(names: seq<string>, keyOf: string -> string): set<string>
    decreases |names|
  {
    if |names| == 0 then {} else KeysOf(names[..|names| - 1], keyOf) + {keyOf(names[|names| - 1])}
  }

  /**
   * The trends the loop visits, in order: a name is skipped when a name with the same
   * key was met before it.
   */
  function FirstOfEach(names: seq<string>, keyOf: string -> string): seq<string>
    decreases |names|
  {
    if |names| == 0 then []
    else
      var kept := FirstOfEach(names[..|names| - 1], keyOf);
      var name := names[|names| - 1];
      if keyOf(name) in KeysOf(kept, keyOf) then kept else kept + [name]
  }

  /** A key is in the set exactly when some name has it. */
  lemma {:induction false} KeysOfExactly(names: seq<string>, keyOf: string -> string, k: string)
    ensures k in KeysOf(names, keyOf) <==> exists i :: 0 <= i < |names| && keyOf(names[i]) == k
    decreases |names|
  {
    if |names| > 0 {
      var init := names[..|names| - 1];
      KeysOfExactly(init, keyOf, k);
      if k in KeysOf(init, keyOf) {
        var i :| 0 <= i < |init| && keyOf(init[i]) == k;
        assert names[i] == init[i];
      }
      if exists i :: 0 <= i < |names| && keyOf(names[i]) == k {
        var i :| 0 <= i < |names| && keyOf(names[i]) == k;
        if i < |init| {
          assert init[i] == names[i];
        }
      }
    }
  }

  /** The visited names have the same keys as all the names: no key is missed. */
  lemma {:induction false} FirstOfEachKeys(names: seq<string>, keyOf: string -> string)
    ensures KeysOf(FirstOfEach(names, keyOf), keyOf) == KeysOf(names, keyOf)
    decreases |names|
  {
    if |names| > 0 {
      var init := names[..|names| - 1];
      var name := names[|names| - 1];
      var kept := FirstOfEach(init, keyOf);
      FirstOfEachKeys(init, keyOf);
      if keyOf(name) !in KeysOf(kept, keyOf) {
        assert (kept + [name])[..|kept|] == kept;
      }
    }
  }

  /** No two of the names have the same key. */
  ghost predicate KeysDistinct(names: seq<string>, keyOf: string -> string) {
    forall i, j :: 0 <= i < j < |names| ==> keyOf(names[i]) != keyOf(names[j])
  }

  /** The visited names have pairwise distinct keys: no key is visited twice. */
  lemma {:induction false} FirstOfEachDistinct(names: seq<string>, keyOf: string -> string)
    ensures KeysDistinct(FirstOfEach(names, keyOf), keyOf)
    decreases |names|
  {
    if |names| > 0 {
      var init := names[..|names| - 1];
      var name := names[|names| - 1];
      var kept := FirstOfEach(init, keyOf);
      FirstOfEachDistinct(init, keyOf);
      if keyOf(name) !in KeysOf(kept, keyOf) {
        var r := kept + [name];
        assert FirstOfEach(names, keyOf) == r;
        KeysOfExactly(kept, keyOf, keyOf(name));
        assert forall m :: 0 <= m < |kept| ==> keyOf(kept[m]) != keyOf(name);
        forall i, j | 0 <= i < j < |r| ensures keyOf(r[i]) != keyOf(r[j]) {
          assert r[i] == kept[i];
          if j < |kept| {
            assert r[j] == kept[j];
          } else {
            assert r[j] == name;
          }
        }
        assert KeysDistinct(r, keyOf);
      }
    }
  }

  /** `names[i]` is the first name with its key. */
  ghost predicate FirstWithKey(names: seq<string>, keyOf: string -> string, i: int) {
    0 <= i < |names| && forall j :: 0 <= j < i ==> keyOf(names[j]) != keyOf(names[i])
  }

  /** Each visited name is the first of the names with its key. */
  lemma {:induction false} FirstOfEachFirsts(names: seq<string>, keyOf: string -> string, i: int)
    requires 0 <= i < |FirstOfEach(names, keyOf)|
    ensures exists n :: FirstWithKey(names, keyOf, n) && names[n] == FirstOfEach(names, keyOf)[i]
    decreases |names|
  {
    var init := names[..|names| - 1];
    var name := names[|names| - 1];
    var kept := FirstOfEach(init, keyOf);
    if i < |kept| {
      FirstOfEachFirsts(init, keyOf, i);
      var n :| FirstWithKey(init, keyOf, n) && init[n] == kept[i];
      assert names[n] == init[n];
      assert FirstWithKey(names, keyOf, n);
    } else {
      FirstOfEachKeys(init, keyOf);
      forall j | 0 <= j < |init| ensures keyOf(names[j]) != keyOf(name) {
        KeysOfExactly(init, keyOf, keyOf(name));
        assert names[j] == init[j];
      }
      assert FirstWithKey(names, keyOf, |names| - 1);
    }
  }

  /** One more name: the loop skips it when its key was seen, and adds its key either way. */
  lemma FirstOfEachStep(names: seq<string>, keyOf: string -> string, i: int)
    requires 0 <= i < |names|
    ensures var kept := FirstOfEach(names[..i], keyOf);
      && FirstOfEach(names[..i + 1], keyOf)
         == (if keyOf(names[i]) in KeysOf(kept, keyOf) then kept else kept + [names[i]])
      && KeysOf(FirstOfEach(names[..i + 1], keyOf), keyOf) == KeysOf(kept, keyOf) + {keyOf(names[i])}
  {
    var kept := FirstOfEach(names[..i], keyOf);
    assert names[..i + 1][..i] == names[..i];
    if keyOf(names[i]) !in KeysOf(kept, keyOf) {
      assert (kept + [names[i]])[..|kept|] == kept;
    }
  }
}
