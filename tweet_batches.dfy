/**
 * What the `NewsCrawler` and `ContinuousCrawler` stream listeners keep between two
 * stores, and how they keep it: a status counter `tweetsCrawled`, one tweet list per
 * matched trend id (`tweetsByTrendId`) and the set of authors (`users`). Both listeners
 * declare these three fields and the same `insertTweets` and `insertUsers`; the filing of
 * a tweet and the threshold test of `onStatus` are the same in both too. They are written
 * once here: `Listener` and the functions on it say what one step does, and the class
 * `Batches` holds the fields and is proved against them.
 *
 * A store (`TweetDAO.insertTweets`, `UserDAO.insertUsers`) is a parameter that says
 * whether it succeeds for a given batch.
 */
module TweetBatches {
  import opened Wrappers
  import opened Twitter
  import opened DomainTweet
  import opened DomainUser
  import opened JavaUtil
  import TweetFactory

  /** A batch is submitted once it holds this many tweets or users. */
  const FlushSize: int := 250

  /** The listener's fields as a value. The user set is listed in insertion order. */
  datatype Listener = Listener(
    tweetsCrawled: int,
    tweetsByTrendId: map<int, seq<TwitNewsTweet>>,
    users: seq<TwitNewsUser>)

  const EmptyListener := Listener(0, map[], [])

  /** The state the listener keeps whatever happens. */
  ghost predicate Invariant(s: Listener) {
    s.tweetsCrawled >= 0 && DistinctUsers(s.users)
  }

  /**
   * Filing a status's tweet under trend `id` (the branch on `containsKey` and the
   * counter and set updates after it). The second component is false when building the
   * retweeted original throws (its status has no user). By then an existing list
   * already holds the tweet, while a new list is never put in the map; the counter and
   * the user set are not reached.
   */
  function Filed(s: Listener, status: Status, tweet: TwitNewsTweet, user: TwitNewsUser, id: int)
    : (Listener, bool)
  {
    var m := s.tweetsByTrendId;
    var original := if IsRetweet(status)
                    then TweetFactory.FromStatus(status.retweetedStatus.value, id) else None;
    if id in m then
      var tweetsForTrend := m[id] + [tweet];
      if IsRetweet(status) && original.None? then (s.(tweetsByTrendId := m[id := tweetsForTrend]), false)
      else
        var tweetsForTrend := if IsRetweet(status) then tweetsForTrend + [original.value] else tweetsForTrend;
        (Listener(s.tweetsCrawled + 1, m[id := tweetsForTrend], HashSetAdd(s.users, user)), true)
    else
      if IsRetweet(status) && original.None? then (s, false)
      else
        var tweetsForTrend := if IsRetweet(status) then [tweet] + [original.value] else [tweet];
        (Listener(s.tweetsCrawled + 1, m[id := tweetsForTrend], HashSetAdd(s.users, user)), true)
  }

  /**
   * What filing does: on success the trend's list gains the tweet and, for a retweet,
   * the original, the counter rises by one and the user joins the set; on the exception
   * only an existing list has gained the tweet. No other trend's list changes.
   */
  lemma FiledMeaning(s: Listener, status: Status, tweet: TwitNewsTweet, user: TwitNewsUser, id: int)
    ensures var (r, ok) := Filed(s, status, tweet, user, id);
            var original := if IsRetweet(status)
                            then TweetFactory.FromStatus(status.retweetedStatus.value, id) else None;
            var before := if id in s.tweetsByTrendId then s.tweetsByTrendId[id] else [];
            && (ok <==> !IsRetweet(status) || original.Some?)
            && (ok ==>
                  && r.tweetsByTrendId.Keys == s.tweetsByTrendId.Keys + {id}
                  && r.tweetsByTrendId[id] == before + [tweet] + (if IsRetweet(status) then [original.value] else [])
                  && r.tweetsCrawled == s.tweetsCrawled + 1
                  && r.users == HashSetAdd(s.users, user))
            && (!ok ==>
                  && r.tweetsByTrendId.Keys == s.tweetsByTrendId.Keys
                  && (id in s.tweetsByTrendId ==> r.tweetsByTrendId[id] == before + [tweet])
                  && r.tweetsCrawled == s.tweetsCrawled && r.users == s.users)
            && (forall k :: k in s.tweetsByTrendId && k != id ==>
                  k in r.tweetsByTrendId && r.tweetsByTrendId[k] == s.tweetsByTrendId[k])
  {
  }

  /** Each trend's list after `insertTweets` was called on it: emptied when its store succeeded. */
  function FlushedLists(m: map<int, seq<TwitNewsTweet>>, stored: (int, seq<TwitNewsTweet>) -> bool)
    : map<int, seq<TwitNewsTweet>>
  {
    map k | k in m :: if stored(k, m[k]) then [] else m[k]
  }

  /** Some trend's store succeeded, which resets `tweetsCrawled`. */
  predicate AnyStored(m: map<int, seq<TwitNewsTweet>>, stored: (int, seq<TwitNewsTweet>) -> bool) {
    exists k :: k in m && stored(k, m[k])
  }

  /**
   * The end of `onStatus`: with `tweetsCrawled` at 250 or more every trend's list is
   * submitted; then, with 250 or more users, the user set is.
   */
  function Flushed(s: Listener, tweetsStored: (int, seq<TwitNewsTweet>) -> bool,
                   usersStored: seq<TwitNewsUser> -> bool): Listener
  {
    var s := if s.tweetsCrawled >= FlushSize
             then Listener(if AnyStored(s.tweetsByTrendId, tweetsStored) then 0 else s.tweetsCrawled,
                           FlushedLists(s.tweetsByTrendId, tweetsStored), s.users)
             else s;
    if |s.users| >= FlushSize && usersStored(s.users) then s.(users := []) else s
  }

  /**
   * Submitting keeps every trend and loses no tweet: a list is either emptied, because
   * its store succeeded, or left as it was; the counter is reset exactly when a store
   * succeeded; users are dropped only by a successful user store.
   */
  lemma FlushedKeepsUnstored(s: Listener, tweetsStored: (int, seq<TwitNewsTweet>) -> bool,
                             usersStored: seq<TwitNewsUser> -> bool)
    ensures var r := Flushed(s, tweetsStored, usersStored);
      && r.tweetsByTrendId.Keys == s.tweetsByTrendId.Keys
      && (forall k :: k in s.tweetsByTrendId ==>
            if s.tweetsCrawled >= FlushSize && tweetsStored(k, s.tweetsByTrendId[k])
            then r.tweetsByTrendId[k] == [] else r.tweetsByTrendId[k] == s.tweetsByTrendId[k])
      && (r.tweetsCrawled == 0 <==>
            s.tweetsCrawled == 0 || (s.tweetsCrawled >= FlushSize && AnyStored(s.tweetsByTrendId, tweetsStored)))
      && (r.users == [] || r.users == s.users)
      && (r.users != s.users ==> usersStored(s.users))
  {
  }

  /** A step keeps the invariant: the counter is never negative and the user set stays a set. */
  lemma StepKeepsInvariant(s: Listener, status: Status, tweet: TwitNewsTweet, user: TwitNewsUser, id: int,
                           tweetsStored: (int, seq<TwitNewsTweet>) -> bool, usersStored: seq<TwitNewsUser> -> bool)
    requires Invariant(s)
    ensures Invariant(Filed(s, status, tweet, user, id).0)
    ensures Invariant(Flushed(Filed(s, status, tweet, user, id).0, tweetsStored, usersStored))
  {
    HashSetAddDistinct(s.users, user);
  }

  /**
   * When every store succeeds, no batch ever reaches 250 after a step: the step that
   * brings the counter or the user set to 250 submits it. (The trend just filed always
   * has a list, so some store runs.)
   */
  lemma StoredBatchesStaySmall(s: Listener, status: Status, tweet: TwitNewsTweet, user: TwitNewsUser, id: int,
                               tweetsStored: (int, seq<TwitNewsTweet>) -> bool, usersStored: seq<TwitNewsUser> -> bool)
    requires s.tweetsCrawled < FlushSize && |s.users| < FlushSize
    requires forall k, ts :: tweetsStored(k, ts)
    requires forall us :: usersStored(us)
    ensures var r := Flushed(Filed(s, status, tweet, user, id).0, tweetsStored, usersStored);
            r.tweetsCrawled < FlushSize && |r.users| < FlushSize
  {
    var (f, ok) := Filed(s, status, tweet, user, id);
    HashSetAddGrows(s.users, user);
    if ok && f.tweetsCrawled >= FlushSize {
      assert id in f.tweetsByTrendId && tweetsStored(id, f.tweetsByTrendId[id]);
    }
  }

  /** The lists once the trends in `done` have been submitted. */
  ghost function FlushedFor(m: map<int, seq<TwitNewsTweet>>, done: seq<int>,
                            stored: (int, seq<TwitNewsTweet>) -> bool): map<int, seq<TwitNewsTweet>>
  {
    map k | k in m :: if k in done && stored(k, m[k]) then [] else m[k]
  }

  /** Some trend in `done` was stored. */
  ghost predicate StoredFor(m: map<int, seq<TwitNewsTweet>>, done: seq<int>,
                            stored: (int, seq<TwitNewsTweet>) -> bool) {
    exists k :: k in done && k in m && stored(k, m[k])
  }

  /** One more trend submitted, one not submitted before: only its list may change, and it is still the original. */
  lemma FlushedForStep(m: map<int, seq<TwitNewsTweet>>, keys: seq<int>, i: int,
                       stored: (int, seq<TwitNewsTweet>) -> bool)
    requires 0 <= i < |keys| && keys[i] in m && keys[i] !in keys[..i]
    ensures var k := keys[i];
      && k in FlushedFor(m, keys[..i], stored) && FlushedFor(m, keys[..i], stored)[k] == m[k]
      && FlushedFor(m, keys[..i + 1], stored)
         == FlushedFor(m, keys[..i], stored)[k := if stored(k, m[k]) then [] else m[k]]
      && (StoredFor(m, keys[..i + 1], stored) <==> StoredFor(m, keys[..i], stored) || stored(k, m[k]))
  {
    var k := keys[i];
    var before, after := keys[..i], keys[..i + 1];
    assert after == before + [k];
    var f0, f1 := FlushedFor(m, before, stored), FlushedFor(m, after, stored);
    var updated := f0[k := if stored(k, m[k]) then [] else m[k]];
    forall x | x in m ensures f1[x] == updated[x] {
      if x != k {
        assert x in after <==> x in before;
      }
    }
    assert f1.Keys == updated.Keys;
    if StoredFor(m, after, stored) && !stored(k, m[k]) {
      var x :| x in after && x in m && stored(x, m[x]);
      assert x in before;
    }
    if StoredFor(m, before, stored) {
      var x :| x in before && x in m && stored(x, m[x]);
      assert x in after;
    }
  }

  /** The next key of a listing is a key not listed before. */
  lemma ListingStep(keys: seq<int>, ks: set<int>, i: int)
    requires IsListing(keys, ks) && 0 <= i < |keys|
    ensures keys[i] in ks && keys[i] !in keys[..i]
  {
    forall j | 0 <= j < i ensures keys[..i][j] != keys[i] {
      assert keys[..i][j] == keys[j];
    }
  }

  /** With every trend of the listing submitted, the lists are the flushed ones. */
  lemma FlushedForAll(m: map<int, seq<TwitNewsTweet>>, keys: seq<int>,
                      stored: (int, seq<TwitNewsTweet>) -> bool)
    requires IsListing(keys, m.Keys)
    ensures FlushedFor(m, keys[..|keys|], stored) == FlushedLists(m, stored)
    ensures StoredFor(m, keys[..|keys|], stored) == AnyStored(m, stored)
  {
    assert keys[..|keys|] == keys;
  }

  /** The listener fields, updated in place by `onStatus` and the two store helpers. */
  class Batches {
    var tweetsCrawled: int
    var tweetsByTrendId: map<int, seq<TwitNewsTweet>>
    var users: seq<TwitNewsUser>

    function State(): Listener
      reads this
    {
      Listener(tweetsCrawled, tweetsByTrendId, users)
    }

    ghost predicate Valid()
      reads this
    {
      Invariant(State())
    }

    constructor ()
      ensures Valid() && State() == EmptyListener
    {
      tweetsCrawled := 0;
      tweetsByTrendId := map[];
      users := [];
    }

    /**
     * Files a status's tweet, and its retweeted original, under trend `id`; `ok` is
     * false when building the original throws, leaving the partial update `Filed` says.
     */
    method File(status: Status, tweet: TwitNewsTweet, user: TwitNewsUser, id: int) returns (ok: bool)
      requires Valid()
      modifies this
      ensures Valid()
      ensures tweetsCrawled == Filed(old(State()), status, tweet, user, id).0.tweetsCrawled
      ensures users == Filed(old(State()), status, tweet, user, id).0.users
      ensures tweetsByTrendId == Filed(old(State()), status, tweet, user, id).0.tweetsByTrendId
      ensures ok == Filed(old(State()), status, tweet, user, id).1
    {
      HashSetAddDistinct(users, user);
      if id in tweetsByTrendId {
        // The list is updated in place, so the tweet stays added if the original throws.
        var tweetsForTrend := tweetsByTrendId[id] + [tweet];
        if IsRetweet(status) {
          var original := TweetFactory.FromStatus(status.retweetedStatus.value, id);
          if original.None? {
            tweetsByTrendId := tweetsByTrendId[id := tweetsForTrend];
            return false;
          }
          tweetsForTrend := tweetsForTrend + [original.value];
        }
        tweetsByTrendId := tweetsByTrendId[id := tweetsForTrend];
      } else {
        var tweetsForTrend := [tweet];
        if IsRetweet(status) {
          var original := TweetFactory.FromStatus(status.retweetedStatus.value, id);
          if original.None? {
            return false;
          }
          tweetsForTrend := tweetsForTrend + [original.value];
        }
        tweetsByTrendId := tweetsByTrendId[id := tweetsForTrend];
      }
      tweetsCrawled := tweetsCrawled + 1;
      users := HashSetAdd(users, user);
      ok := true;
    }

    /** `insertTweets(list, id)`: a successful store clears that list and resets the counter. */
    method InsertTweets(id: int, stored: (int, seq<TwitNewsTweet>) -> bool)
      requires id in tweetsByTrendId
      modifies this
      ensures tweetsByTrendId == old(tweetsByTrendId)[id := if stored(id, old(tweetsByTrendId[id])) then []
                                                           else old(tweetsByTrendId[id])]
      ensures tweetsCrawled == if stored(id, old(tweetsByTrendId[id])) then 0 else old(tweetsCrawled)
      ensures users == old(users)
    {
      if stored(id, tweetsByTrendId[id]) {
        tweetsByTrendId := tweetsByTrendId[id := []];
        tweetsCrawled := 0;
      } else {
        tweetsByTrendId := tweetsByTrendId[id := tweetsByTrendId[id]];
      }
    }

    /** `insertUsers()`: a successful store clears the user set. */
    method InsertUsers(stored: seq<TwitNewsUser> -> bool)
      modifies this
      ensures users == if stored(old(users)) then [] else old(users)
      ensures tweetsCrawled == old(tweetsCrawled) && tweetsByTrendId == old(tweetsByTrendId)
    {
      if stored(users) {
        users := [];
      }
    }

    /**
     * The loop over `tweetsByTrendId.keySet()` calling `insertTweets` on every trend;
     * `keys` is the map's iteration order.
     */
    method InsertAllTweets(keys: seq<int>, stored: (int, seq<TwitNewsTweet>) -> bool)
      requires IsListing(keys, tweetsByTrendId.Keys)
      modifies this
      ensures tweetsByTrendId == FlushedLists(old(tweetsByTrendId), stored)
      ensures tweetsCrawled == if AnyStored(old(tweetsByTrendId), stored) then 0 else old(tweetsCrawled)
      ensures users == old(users)
    {
      ghost var lists := tweetsByTrendId;
      for i := 0 to |keys|
        invariant tweetsByTrendId == FlushedFor(lists, keys[..i], stored)
        invariant tweetsCrawled == if StoredFor(lists, keys[..i], stored) then 0 else old(tweetsCrawled)
        invariant users == old(users)
      {
        ListingStep(keys, lists.Keys, i);
        FlushedForStep(lists, keys, i, stored);
        InsertTweets(keys[i], stored);
      }
      FlushedForAll(lists, keys, stored);
    }

    /** The two threshold tests at the end of `onStatus`. */
    method Flush(keys: seq<int>, tweetsStored: (int, seq<TwitNewsTweet>) -> bool,
                 usersStored: seq<TwitNewsUser> -> bool)
      requires Valid() && IsListing(keys, tweetsByTrendId.Keys)
      modifies this
      ensures Valid()
      ensures State() == Flushed(old(State()), tweetsStored, usersStored)
    {
      if tweetsCrawled >= FlushSize {
        InsertAllTweets(keys, tweetsStored);
      }
      if |users| >= FlushSize {
        InsertUsers(usersStored);
      }
    }
  }
}
