/**
 * `ContinuousCrawler`: a stream crawler that tracks the current US trends, refreshed
 * every hour. Each streamed status is matched to a trend by a case- and
 * space-insensitive substring test against the trend names (`getCorrespondingTrendId`)
 * and filed in the batches of `TweetBatches`, unmatched statuses under id 0.
 *
 * The iteration orders of `trendNameToId` and `tweetsByTrendId` are the parameters
 * `keyOrder` and `order`; the stores are `tweetsStored` and `usersStored`.
 */
module ContinuousCrawling {
  import opened Wrappers
  import opened JavaLang
  import opened JavaUtil
  import opened Twitter
  import opened DomainTweet
  import opened DomainTrend
  import opened DomainUser
  import opened TweetBatches
  import opened TrendNames
  import TweetFactory
  import UserFactory

  // ------------------------------------------------------------ getCorrespondingTrendId

  /** The form both sides of the match are brought to: spaces removed, trimmed, lower-cased. */
  function Squeezed(s: string): string {
    ToLower(Trim(RemoveChar(s, ' ')))
  }

  /** The status text mentions the trend key. */
  predicate Mentions(text: string, key: string) {
    Contains(Squeezed(text), Squeezed(key))
  }

  /** The id of the first key of `keys` the text mentions; 0 when it mentions none. */
  function TrendIdFor(text: string, trendNameToId: map<string, int>, keys: seq<string>): int
    requires forall k :: k in keys ==> k in trendNameToId
    decreases |keys|
  {
    if |keys| == 0 then 0
    else if Mentions(text, keys[0]) then trendNameToId[keys[0]]
    else TrendIdFor(text, trendNameToId, keys[1..])
  }

  /** A text that mentions no key gets id 0. */
  lemma {:induction false} TrendIdForWithoutMention(text: string, trendNameToId: map<string, int>, keys: seq<string>)
    requires forall k :: k in keys ==> k in trendNameToId
    requires forall i :: 0 <= i < |keys| ==> !Mentions(text, keys[i])
    ensures TrendIdFor(text, trendNameToId, keys) == 0
    decreases |keys|
  {
    if |keys| > 0 {
      assert !Mentions(text, keys[0]);
      TrendIdForWithoutMention(text, trendNameToId, keys[1..]);
    }
  }

  /** A text gets the id of the first key, in iteration order, that it mentions. */
  lemma {:induction false} TrendIdForFirstMention(text: string, trendNameToId: map<string, int>, keys: seq<string>, i: int)
    requires forall k :: k in keys ==> k in trendNameToId
    requires 0 <= i < |keys| && Mentions(text, keys[i])
    requires forall j :: 0 <= j < i ==> !Mentions(text, keys[j])
    ensures TrendIdFor(text, trendNameToId, keys) == trendNameToId[keys[i]]
    decreases |keys|
  {
    if i > 0 {
      var rest := keys[1..];
      assert !Mentions(text, keys[0]);
      assert rest[i - 1] == keys[i];
      forall k | k in rest ensures k in trendNameToId {
        var j :| 0 <= j < |rest| && rest[j] == k;
        assert keys[j + 1] == k;
      }
      forall j | 0 <= j < i - 1 ensures !Mentions(text, rest[j]) {
        assert rest[j] == keys[j + 1];
      }
      TrendIdForFirstMention(text, trendNameToId, rest, i - 1);
    }
  }

  /** Lower-casing either side first does not change the squeezed form. */
  lemma SqueezedIgnoresCase(s: string)
    ensures Squeezed(ToLower(s)) == Squeezed(s)
  {
    RemoveSpaceLower(s);
    TrimLower(RemoveChar(s, ' '));
    ToLowerIdempotent(Trim(RemoveChar(s, ' ')));
  }

  /** Removing the spaces of either side first does not change the squeezed form. */
  lemma SqueezedIgnoresSpaces(s: string)
    ensures Squeezed(RemoveChar(s, ' ')) == Squeezed(s)
  {
    RemoveCharTwice(s, ' ');
  }

  /** Matching ignores case and ' ' characters, in the text and in the key alike. */
  lemma MentionsIgnoresCaseAndSpaces(text: string, key: string)
    ensures Mentions(ToLower(text), key) == Mentions(text, key)
    ensures Mentions(RemoveChar(text, ' '), key) == Mentions(text, key)
    ensures Mentions(text, ToLower(key)) == Mentions(text, key)
    ensures Mentions(text, RemoveChar(key, ' ')) == Mentions(text, key)
  {
    SqueezedIgnoresCase(text);
    SqueezedIgnoresSpaces(text);
    SqueezedIgnoresCase(key);
    SqueezedIgnoresSpaces(key);
  }

  /** So a status gets the same trend id whatever the case and spacing of its text. */
  lemma {:induction false} TrendIdForIgnoresCaseAndSpaces(text: string, trendNameToId: map<string, int>, keys: seq<string>)
    requires forall k :: k in keys ==> k in trendNameToId
    ensures TrendIdFor(ToLower(text), trendNameToId, keys) == TrendIdFor(text, trendNameToId, keys)
    ensures TrendIdFor(RemoveChar(text, ' '), trendNameToId, keys) == TrendIdFor(text, trendNameToId, keys)
    decreases |keys|
  {
    if |keys| > 0 {
      MentionsIgnoresCaseAndSpaces(text, keys[0]);
      TrendIdForIgnoresCaseAndSpaces(text, trendNameToId, keys[1..]);
    }
  }

  // ------------------------------------------------------------ onStatus

  /**
   * One `onStatus`, given the status's trend id: a status without a user throws in the
   * factory and changes nothing; every other status, matched or not, is filed and the
   * batches are submitted if full.
   */
  function ContinuousStep(s: Listener, status: Status, trendId: int,
                          tweetsStored: (int, seq<TwitNewsTweet>) -> bool, usersStored: seq<TwitNewsUser> -> bool)
    : (r: Listener)
    ensures status.user.None? ==> r == s
  {
    match TweetFactory.FromStatus(status, trendId)
    case None => s
    case Some(t) =>
      var (f, ok) := Filed(s, status, t, UserFactory.FromStatus(status), trendId);
      if ok then Flushed(f, tweetsStored, usersStored) else f
  }

  /**
   * Unlike the news crawler's, this listener drops nothing: below the threshold every
   * status with a user, under any trend id and id 0 included, raises `tweetsCrawled` by
   * one and appends its tweet, and then the retweeted original, to that id's list.
   */
  lemma ContinuousStepFilesEveryStatus(s: Listener, status: Status, trendId: int,
                                       tweetsStored: (int, seq<TwitNewsTweet>) -> bool,
                                       usersStored: seq<TwitNewsUser> -> bool)
    requires status.user.Some?
    requires IsRetweet(status) ==> status.retweetedStatus.value.user.Some?
    requires s.tweetsCrawled + 1 < FlushSize
    ensures var r := ContinuousStep(s, status, trendId, tweetsStored, usersStored);
      var before := if trendId in s.tweetsByTrendId then s.tweetsByTrendId[trendId] else [];
      var original := if IsRetweet(status)
                      then [TweetFactory.FromStatus(status.retweetedStatus.value, trendId).value] else [];
      && r.tweetsCrawled == s.tweetsCrawled + 1
      && trendId in r.tweetsByTrendId
      && r.tweetsByTrendId[trendId] == before + [TweetFactory.FromStatus(status, trendId).value] + original
  {
    var t := TweetFactory.FromStatus(status, trendId).value;
    FiledMeaning(s, status, t, UserFactory.FromStatus(status), trendId);
  }

  // ------------------------------------------------------------ refreshStreamApiTrackKeywords

  /** The map after putting `ids[i]` under `keys[i]`, for each `i` in turn. */
  function Registered(trendNameToId: map<string, int>, keys: seq<string>, ids: seq<int>): map<string, int>
    requires |keys| == |ids|
    decreases |keys|
  {
    if |keys| == 0 then trendNameToId
    else Registered(trendNameToId, keys[..|keys| - 1], ids[..|ids| - 1])[keys[|keys| - 1] := ids[|ids| - 1]]
  }

  /**
   * The map after the refresh: each fetched trend stored, and its id put under the
   * trend's trimmed, lower-cased name.
   */
  function Refreshed(trendNameToId: map<string, int>, names: seq<string>, insertTrend: TwitNewsTrend -> int)
    : map<string, int>
  {
    Registered(trendNameToId, NameKeyList(names), TrendIds(names, insertTrend))
  }

  /** One more fetched trend: its id put under its key. */
  lemma RefreshedStep(trendNameToId: map<string, int>, names: seq<string>, insertTrend: TwitNewsTrend -> int, i: int)
    requires 0 <= i < |names|
    ensures Refreshed(trendNameToId, names[..i + 1], insertTrend)
         == Refreshed(trendNameToId, names[..i], insertTrend)[NameKey(names[i]) := insertTrend(Named(names[i]))]
  {
    var keys, ids := NameKeyList(names[..i + 1]), TrendIds(names[..i + 1], insertTrend);
    assert names[..i + 1][..i] == names[..i];
    assert keys[..i] == NameKeyList(names[..i]);
    assert ids[..i] == TrendIds(names[..i], insertTrend);
  }

  /** Putting adds exactly the keys put, and the last put of a key wins. */
  lemma {:induction false} RegisteredExactly(trendNameToId: map<string, int>, keys: seq<string>, ids: seq<int>, k: string)
    requires |keys| == |ids|
    ensures k in Registered(trendNameToId, keys, ids) <==> k in trendNameToId || k in keys
    ensures k !in keys && k in trendNameToId ==> Registered(trendNameToId, keys, ids)[k] == trendNameToId[k]
    ensures forall i :: 0 <= i < |keys| && keys[i] == k && (forall j :: i < j < |keys| ==> keys[j] != k) ==>
      Registered(trendNameToId, keys, ids)[k] == ids[i]
    decreases |keys|
  {
    if |keys| > 0 {
      var init, initIds := keys[..|keys| - 1], ids[..|ids| - 1];
      RegisteredExactly(trendNameToId, init, initIds, k);
      assert keys == init + [keys[|keys| - 1]];
      forall i | 0 <= i < |keys| - 1 && keys[i] == k && (forall j :: i < j < |keys| ==> keys[j] != k)
        ensures Registered(trendNameToId, keys, ids)[k] == ids[i]
      {
        assert init[i] == k && initIds[i] == ids[i];
        assert forall j :: i < j < |init| ==> init[j] == keys[j];
      }
    }
  }

  /** The refresh adds exactly the keys of the fetched names and leaves every other entry as it was. */
  lemma RefreshedKeys(trendNameToId: map<string, int>, names: seq<string>, insertTrend: TwitNewsTrend -> int,
                      k: string)
    ensures k in Refreshed(trendNameToId, names, insertTrend) <==>
      k in trendNameToId || exists i :: 0 <= i < |names| && NameKey(names[i]) == k
    ensures (forall i :: 0 <= i < |names| ==> NameKey(names[i]) != k) && k in trendNameToId ==>
      Refreshed(trendNameToId, names, insertTrend)[k] == trendNameToId[k]
  {
    var keys := NameKeyList(names);
    RegisteredExactly(trendNameToId, keys, TrendIds(names, insertTrend), k);
    if k in keys {
      var i :| 0 <= i < |keys| && keys[i] == k;
      assert NameKey(names[i]) == k;
    }
    if exists i :: 0 <= i < |names| && NameKey(names[i]) == k {
      var i :| 0 <= i < |names| && NameKey(names[i]) == k;
      assert keys[i] == k;
    }
  }

  /** A key fetched more than once keeps the id of the last trend with that key. */
  lemma RefreshedLastWins(trendNameToId: map<string, int>, names: seq<string>, insertTrend: TwitNewsTrend -> int,
                          i: int)
    requires 0 <= i < |names|
    requires forall j :: i < j < |names| ==> NameKey(names[j]) != NameKey(names[i])
    ensures NameKey(names[i]) in Refreshed(trendNameToId, names, insertTrend)
    ensures Refreshed(trendNameToId, names, insertTrend)[NameKey(names[i])] == insertTrend(Named(names[i]))
  {
    var keys, ids := NameKeyList(names), TrendIds(names, insertTrend);
    RegisteredExactly(trendNameToId, keys, ids, keys[i]);
  }

  // ------------------------------------------------------------ the crawler

  /**
   * The crawler's state: the listener's batches, the static name-to-id map and the
   * trend names last handed to the stream filter.
   */
  class ContinuousCrawler {
    const listener: Batches
    var trendNameToId: map<string, int>
    var trendStrings: seq<string>

    ghost predicate Valid()
      reads this, listener
    {
      listener.Valid()
    }

    constructor ()
      ensures Valid() && fresh(listener)
      ensures listener.State() == EmptyListener && trendNameToId == map[] && trendStrings == []
    {
      listener := new Batches();
      trendNameToId := map[];
      trendStrings := [];
    }

    /** `getCorrespondingTrendId`: the loop over the keys with its early return. */
    method GetCorrespondingTrendId(text: string, keys: seq<string>) returns (trendId: int)
      requires IsListing(keys, trendNameToId.Keys)
      ensures trendId == TrendIdFor(text, trendNameToId, keys)
    {
      var squeezedText := ToLower(Trim(RemoveChar(text, ' ')));
      for i := 0 to |keys|
        invariant TrendIdFor(text, trendNameToId, keys[i..]) == TrendIdFor(text, trendNameToId, keys)
      {
        assert keys[i..][1..] == keys[i + 1..];
        var key := keys[i];
        if Contains(squeezedText, ToLower(Trim(RemoveChar(key, ' ')))) {
          return trendNameToId[key];
        }
      }
      return 0;
    }

    /** The listener's `onStatus`. */
    method OnStatus(status: Status, keyOrder: set<string> -> seq<string>, order: set<int> -> seq<int>,
                    tweetsStored: (int, seq<TwitNewsTweet>) -> bool, usersStored: seq<TwitNewsUser> -> bool)
      requires Valid()
      requires forall ks :: IsListing(keyOrder(ks), ks)
      requires forall ks :: IsListing(order(ks), ks)
      modifies listener
      ensures Valid()
      ensures IsListing(keyOrder(trendNameToId.Keys), trendNameToId.Keys)
      ensures listener.State()
        == ContinuousStep(old(listener.State()), status,
                          TrendIdFor(status.text, trendNameToId, keyOrder(trendNameToId.Keys)),
                          tweetsStored, usersStored)
    {
      var keys := keyOrder(trendNameToId.Keys);
      assert IsListing(keys, trendNameToId.Keys);
      var correspondingTrendId := GetCorrespondingTrendId(status.text, keys);
      var built := TweetFactory.FromStatus(status, correspondingTrendId);
      if built.None? {
        return;
      }
      var twitNewsTweet := built.value;
      var twitNewsUser := UserFactory.FromStatus(status);
      var ok := listener.File(status, twitNewsTweet, twitNewsUser, correspondingTrendId);
      if ok {
        listener.Flush(order(listener.tweetsByTrendId.Keys), tweetsStored, usersStored);
      }
    }

    /**
     * `refreshStreamApiTrackKeywords`, given the fetched trend names (`insertTrend` is
     * the id the retry loop of `attemptToInsertTrend` ends with). The map is not
     * cleared first: the main loop clears it at the end of each cycle.
     */
    method Refresh(names: seq<string>, insertTrend: TwitNewsTrend -> int)
      modifies this
      ensures trendNameToId == Refreshed(old(trendNameToId), names, insertTrend)
      ensures trendStrings == names
    {
      ghost var before := trendNameToId;
      var strings: seq<string> := [];
      for i := 0 to |names|
        invariant trendNameToId == Refreshed(before, names[..i], insertTrend)
        invariant strings == names[..i]
      {
        RefreshedStep(before, names, insertTrend, i);
        var trend := names[i];
        var trendId := insertTrend(Named(trend));
        trendNameToId := trendNameToId[NameKey(trend) := trendId];
        strings := strings + [trend];
      }
      assert names[..|names|] == names;
      trendStrings := strings;
    }

    /** The end of a cycle of the main loop: the name-to-id map is cleared. */
    method EndCycle()
      modifies this
      ensures trendNameToId == map[] && trendStrings == old(trendStrings)
    {
      trendNameToId := map[];
    }
  }
}
