/**
 * `NewsCrawler`: a stream crawler that tracks the keywords of the latest @breakingnews
 * headlines. `refreshStreamApiTrackKeywords` rebuilds the inverted index from keyword to
 * headline (trend) ids; the listener matches each streamed status to the trend sharing
 * most keywords with it (`searchInvertedIndex`), ranks it and files it in the batches of
 * `TweetBatches`.
 *
 * The HashMaps `counters` and `tweetsByTrendId` are iterated in the order `order` gives
 * for their key sets; the stores are the parameters `tweetsStored` and `usersStored`.
 */
module NewsCrawling {
  import opened Wrappers
  import opened JavaLang
  import opened JavaUtil
  import opened Twitter
  import opened DomainTweet
  import opened DomainTrend
  import opened DomainUser
  import opened TextUtils
  import opened Datastructures
  import opened TweetBatches
  import TweetFactory
  import UserFactory
  import NewsRanker

  // ------------------------------------------------------------ searchInvertedIndex

  /** A trend's counter, 0 when it has none yet. */
  function CountOf(c: map<int, int>, id: int): int {
    if id in c then c[id] else 0
  }

  /** One more hit for trend `id`: its counter is raised, or created at 1. */
  function Bump(c: map<int, int>, id: int): (r: map<int, int>)
    ensures r.Keys == c.Keys + {id}
  {
    if id in c then c[id := c[id] + 1] else c[id := 1]
  }

  /** The counters after one hit for each trend of `ids`, in order (the inner loop). */
  function Counted(c: map<int, int>, ids: seq<int>): map<int, int>
    decreases |ids|
  {
    if |ids| == 0 then c else Bump(Counted(c, ids[..|ids| - 1]), ids[|ids| - 1])
  }

  /** The counters after the loop over the text's keywords (the outer loop). */
  function Counters(keywords: seq<string>, index: map<string, seq<int>>): map<int, int>
    decreases |keywords|
  {
    if |keywords| == 0 then map[]
    else
      var c := Counters(keywords[..|keywords| - 1], index);
      var keyword := keywords[|keywords| - 1];
      if keyword in index then Counted(c, index[keyword]) else c
  }

  /**
   * The reference count: how many of the keywords have trend `id` in their index set.
   * The keywords of a text are duplicate-free, so this is a number of distinct keywords.
   */
  function Hits(keywords: seq<string>, index: map<string, seq<int>>, id: int): nat
    decreases |keywords|
  {
    if |keywords| == 0 then 0
    else
      var keyword := keywords[|keywords| - 1];
      Hits(keywords[..|keywords| - 1], index, id) + (if keyword in index && id in index[keyword] then 1 else 0)
  }

  lemma {:induction false} CountedCounts(c: map<int, int>, ids: seq<int>, id: int)
    requires NoDuplicates(ids)
    ensures id in Counted(c, ids) <==> id in c || id in ids
    ensures CountOf(Counted(c, ids), id) == CountOf(c, id) + (if id in ids then 1 else 0)
    decreases |ids|
  {
    if |ids| > 0 {
      var init, last := ids[..|ids| - 1], ids[|ids| - 1];
      assert ids == init + [last];
      CountedCounts(c, init, id);
      assert last !in init by {
        forall i | 0 <= i < |init| ensures init[i] != last {
          assert init[i] == ids[i];
        }
      }
    }
  }

  /**
   * Each trend's counter is the number of keywords whose index set holds the trend, and
   * a trend has a counter exactly when that number is positive.
   */
  lemma {:induction false} CountersAreHits(keywords: seq<string>, index: map<string, seq<int>>, id: int)
    requires WellFormed(index)
    ensures id in Counters(keywords, index) <==> Hits(keywords, index, id) > 0
    ensures CountOf(Counters(keywords, index), id) == Hits(keywords, index, id)
    decreases |keywords|
  {
    if |keywords| > 0 {
      var init := keywords[..|keywords| - 1];
      var keyword := keywords[|keywords| - 1];
      CountersAreHits(init, index, id);
      if keyword in index {
        CountedCounts(Counters(init, index), index[keyword], id);
      }
    }
  }

  /** Every counter is positive. */
  lemma CountersPositive(keywords: seq<string>, index: map<string, seq<int>>)
    requires WellFormed(index)
    ensures forall id :: id in Counters(keywords, index) ==> Counters(keywords, index)[id] > 0
  {
    forall id | id in Counters(keywords, index) ensures Counters(keywords, index)[id] > 0 {
      CountersAreHits(keywords, index, id);
    }
  }

  /**
   * The max scan over the counters' keys `ids`: the first trend whose counter is
   * strictly above every counter before it, from the start value (0, 0). The result is
   * (`highestRankedTrendId`, `highestRank`).
   */
  function Best(ids: seq<int>, counters: map<int, int>): (int, int)
    requires forall i :: 0 <= i < |ids| ==> ids[i] in counters
    decreases |ids|
  {
    if |ids| == 0 then (0, 0)
    else
      var (id, rank) := Best(ids[..|ids| - 1], counters);
      var next := ids[|ids| - 1];
      if counters[next] > rank then (next, counters[next]) else (id, rank)
  }

  /** Position `i` holds the highest counter of `ids`, and every counter before it is lower. */
  ghost predicate FirstMax(ids: seq<int>, counters: map<int, int>, i: int)
    requires forall j :: 0 <= j < |ids| ==> ids[j] in counters
  {
    && 0 <= i < |ids|
    && (forall j :: 0 <= j < |ids| ==> counters[ids[j]] <= counters[ids[i]])
    && (forall j :: 0 <= j < i ==> counters[ids[j]] < counters[ids[i]])
  }

  /**
   * The scan finds the maximum: no counter exceeds the rank found; a positive rank is
   * the counter of the first trend that reaches it, and a zero rank leaves the id at 0.
   */
  lemma {:induction false} BestIsFirstMax(ids: seq<int>, counters: map<int, int>)
    requires forall i :: 0 <= i < |ids| ==> ids[i] in counters
    ensures Best(ids, counters).1 >= 0
    ensures forall i :: 0 <= i < |ids| ==> counters[ids[i]] <= Best(ids, counters).1
    ensures Best(ids, counters).1 == 0 ==> Best(ids, counters).0 == 0
    ensures Best(ids, counters).1 > 0 ==>
      exists i :: FirstMax(ids, counters, i) && ids[i] == Best(ids, counters).0
        && counters[ids[i]] == Best(ids, counters).1
    decreases |ids|
  {
    if |ids| > 0 {
      var n := |ids| - 1;
      var init := ids[..n];
      var next := ids[n];
      BestIsFirstMax(init, counters);
      var best := Best(init, counters);
      forall i | 0 <= i < n ensures ids[i] == init[i] {
      }
      if counters[next] > best.1 {
        assert FirstMax(ids, counters, n);
      } else if best.1 > 0 {
        var i :| FirstMax(init, counters, i) && init[i] == best.0 && counters[init[i]] == best.1;
        assert FirstMax(ids, counters, i);
      }
    }
  }

  /** What `searchInvertedIndex` returns for the keywords of a text: {trend id, score}. */
  function Match(keywords: seq<string>, index: map<string, seq<int>>, order: set<int> -> seq<int>): (int, int)
    requires forall ks :: IsListing(order(ks), ks)
  {
    var counters := Counters(keywords, index);
    var ids := order(counters.Keys);
    assert IsListing(ids, counters.Keys);
    var (highestRankedTrendId, highestRank) := Best(ids, counters);
    (highestRankedTrendId, if highestRankedTrendId in counters then counters[highestRankedTrendId] else 0)
  }

  /** A text none of whose keywords is in the index matches nothing: {0, 0}. */
  lemma MatchWithoutHits(keywords: seq<string>, index: map<string, seq<int>>, order: set<int> -> seq<int>)
    requires forall ks :: IsListing(order(ks), ks)
    requires WellFormed(index)
    requires forall i :: 0 <= i < |keywords| ==> keywords[i] !in index
    ensures Match(keywords, index, order) == (0, 0)
  {
    var counters := Counters(keywords, index);
    forall id | id in counters ensures false {
      CountersAreHits(keywords, index, id);
      HitsWithoutKeys(keywords, index, id);
    }
    assert counters.Keys == {};
    ListingSize(order(counters.Keys), counters.Keys);
  }

  lemma {:induction false} HitsWithoutKeys(keywords: seq<string>, index: map<string, seq<int>>, id: int)
    requires forall i :: 0 <= i < |keywords| ==> keywords[i] !in index
    ensures Hits(keywords, index, id) == 0
    decreases |keywords|
  {
    if |keywords| > 0 {
      HitsWithoutKeys(keywords[..|keywords| - 1], index, id);
    }
  }

  /**
   * The match is the best trend: the score is its number of keyword hits and no trend
   * has more; a score of 0 means no trend has any hit, and then the id is 0. Otherwise
   * the trend is the first, in the counters' iteration order, with that many hits.
   */
  lemma MatchIsBest(keywords: seq<string>, index: map<string, seq<int>>, order: set<int> -> seq<int>)
    requires forall ks :: IsListing(order(ks), ks)
    requires WellFormed(index)
    ensures var (id, score) := Match(keywords, index, order);
      && (forall t :: Hits(keywords, index, t) <= score)
      && (score == 0 ==> id == 0 && forall t :: Hits(keywords, index, t) == 0)
      && (score > 0 ==> Hits(keywords, index, id) == score)
    ensures var counters := Counters(keywords, index);
      var ids := order(counters.Keys);
      var (id, score) := Match(keywords, index, order);
      score > 0 ==> exists i :: FirstMax(ids, counters, i) && ids[i] == id
  {
    var counters := Counters(keywords, index);
    var ids := order(counters.Keys);
    assert IsListing(ids, counters.Keys);
    BestIsFirstMax(ids, counters);
    CountersPositive(keywords, index);
    var (id, rank) := Best(ids, counters);
    forall t ensures Hits(keywords, index, t) <= rank {
      CountersAreHits(keywords, index, t);
      if t in counters {
        var i :| 0 <= i < |ids| && ids[i] == t;
      }
    }
    if rank > 0 {
      var i :| FirstMax(ids, counters, i) && ids[i] == id && counters[ids[i]] == rank;
      CountersAreHits(keywords, index, id);
    }
  }

  // ------------------------------------------------------------ onStatus

  /**
   * The tweet `onStatus` files for a status matched to (`trendId`, `tfidf`): the
   * factory's tweet with the match score as tfidf and the news rank of the result as
   * rank. `None` is the NullPointerException of a status without a user.
   */
  function RankedTweet(status: Status, trendId: int, tfidf: int, logRatio: int -> real): (r: Option<TwitNewsTweet>)
    ensures r.Some? <==> status.user.Some?
    ensures r.Some? ==>
      && r.value.(tfidf := 0, rank := 0) == TweetFactory.FromStatus(status, trendId).value
      && r.value.tfidf == tfidf
      && NewsRanker.ComputeRank(r.value, logRatio) == Some(r.value.rank)
  {
    match TweetFactory.FromStatus(status, trendId)
    case None => None
    case Some(t) =>
      var t := t.(tfidf := tfidf);
      var rank := NewsRanker.ComputeRank(t, logRatio);
      NewsRanker.ComputeRankIgnoresRank(t, rank.value, logRatio);
      Some(t.(rank := rank.value))
  }

  /**
   * One `onStatus`, given the status's match: an unmatched status (id 0) and one whose
   * tweet cannot be built change nothing; otherwise the ranked tweet is filed and, when
   * filing completes, the batches are submitted if full.
   */
  function NewsStep(s: Listener, status: Status, matched: (int, int), logRatio: int -> real,
                    tweetsStored: (int, seq<TwitNewsTweet>) -> bool, usersStored: seq<TwitNewsUser> -> bool)
    : (r: Listener)
    ensures matched.0 == 0 || status.user.None? ==> r == s
  {
    var (trendId, tfidf) := matched;
    if trendId == 0 then s
    else
      match RankedTweet(status, trendId, tfidf, logRatio)
      case None => s
      case Some(t) =>
        var (f, ok) := Filed(s, status, t, UserFactory.FromStatus(status), trendId);
        if ok then Flushed(f, tweetsStored, usersStored) else f
  }

  /**
   * Below the threshold a matched status raises `tweetsCrawled` by exactly one, even
   * when it appends two tweets (itself, then the original it retweets).
   */
  lemma NewsStepCountsStatuses(s: Listener, status: Status, trendId: int, tfidf: int, logRatio: int -> real,
                               tweetsStored: (int, seq<TwitNewsTweet>) -> bool,
                               usersStored: seq<TwitNewsUser> -> bool)
    requires trendId != 0 && status.user.Some?
    requires IsRetweet(status) ==> status.retweetedStatus.value.user.Some?
    requires s.tweetsCrawled + 1 < FlushSize
    ensures var r := NewsStep(s, status, (trendId, tfidf), logRatio, tweetsStored, usersStored);
      var before := if trendId in s.tweetsByTrendId then s.tweetsByTrendId[trendId] else [];
      var original := if IsRetweet(status)
                      then [TweetFactory.FromStatus(status.retweetedStatus.value, trendId).value] else [];
      && r.tweetsCrawled == s.tweetsCrawled + 1
      && trendId in r.tweetsByTrendId
      && r.tweetsByTrendId[trendId] == before + [RankedTweet(status, trendId, tfidf, logRatio).value] + original
  {
    var t := RankedTweet(status, trendId, tfidf, logRatio).value;
    FiledMeaning(s, status, t, UserFactory.FromStatus(status), trendId);
  }

  // ------------------------------------------------------------ refreshStreamApiTrackKeywords

  /** `getTrendsFromRestAPI`: the trimmed timeline texts as an insertion-ordered set. */
  function TrendTexts(timeline: seq<string>): seq<string>
    decreases |timeline|
  {
    if |timeline| == 0 then [] else LinkedAdd(TrendTexts(timeline[..|timeline| - 1]), Trim(timeline[|timeline| - 1]))
  }

  /** Each trend's keywords, in the trends' order. */
  function KeywordLists(trends: seq<string>, stopWords: set<string>, cc: CharClasses): (r: seq<seq<string>>)
    ensures |r| == |trends| && forall i :: 0 <= i < |trends| ==> r[i] == Keywords(trends[i], stopWords, cc)
  {
    seq(|trends|, i requires 0 <= i < |trends| => Keywords(trends[i], stopWords, cc))
  }

  /** The filter keywords: the union of every trend's keywords, in first-seen order. */
  function TrackKeywords(trends: seq<string>, stopWords: set<string>, cc: CharClasses): seq<string> {
    Unioned(KeywordLists(trends, stopWords, cc))
  }

  /** From an empty index, the keywords of `lists[i]` filed under `ids[i]`, for each `i` in turn. */
  function Indexed(lists: seq<seq<string>>, ids: seq<int>): map<string, seq<int>>
    requires |lists| == |ids|
    decreases |lists|
  {
    if |lists| == 0 then map[]
    else InsertedAll(Indexed(lists[..|lists| - 1], ids[..|ids| - 1]), lists[|lists| - 1], ids[|ids| - 1])
  }

  /** One more trend: the index and the union grow by its list. */
  lemma IndexedStep(lists: seq<seq<string>>, ids: seq<int>, i: int)
    requires |lists| == |ids| && 0 <= i < |lists|
    ensures Indexed(lists[..i + 1], ids[..i + 1]) == InsertedAll(Indexed(lists[..i], ids[..i]), lists[i], ids[i])
    ensures Unioned(lists[..i + 1]) == LinkedAddAll(Unioned(lists[..i]), lists[i])
  {
    assert lists[..i + 1][..i] == lists[..i] && ids[..i + 1][..i] == ids[..i];
  }

  /** The rebuilt index: each trend's keywords filed under its stored id. */
  function TrendIndex(trends: seq<string>, stopWords: set<string>, cc: CharClasses,
                      insertTrend: TwitNewsTrend -> int): map<string, seq<int>>
  {
    Indexed(KeywordLists(trends, stopWords, cc), TrendIds(trends, insertTrend))
  }

  /** The headlines are each trimmed timeline text once. */
  lemma {:induction false} TrendTextsExactly(timeline: seq<string>, t: string)
    ensures NoDuplicates(TrendTexts(timeline))
    ensures t in TrendTexts(timeline) <==> exists i :: 0 <= i < |timeline| && t == Trim(timeline[i])
    decreases |timeline|
  {
    if |timeline| > 0 {
      var n := |timeline| - 1;
      var init := timeline[..n];
      TrendTextsExactly(init, t);
      if exists i :: 0 <= i < n && t == Trim(init[i]) {
        var i :| 0 <= i < n && t == Trim(init[i]);
        assert timeline[i] == init[i];
      }
      if exists i :: 0 <= i <= n && t == Trim(timeline[i]) {
        var i :| 0 <= i <= n && t == Trim(timeline[i]);
        if i < n {
          assert init[i] == timeline[i];
        }
      }
    }
  }

  /** The filter keywords are duplicate-free and are exactly the keywords of some trend. */
  lemma TrackKeywordsExactly(trends: seq<string>, stopWords: set<string>, cc: CharClasses, k: string)
    ensures NoDuplicates(TrackKeywords(trends, stopWords, cc))
    ensures k in TrackKeywords(trends, stopWords, cc) <==>
      exists i :: 0 <= i < |trends| && k in Keywords(trends[i], stopWords, cc)
  {
    var lists := KeywordLists(trends, stopWords, cc);
    UnionedExactly(lists, k);
    if exists i :: 0 <= i < |trends| && k in Keywords(trends[i], stopWords, cc) {
      var i :| 0 <= i < |trends| && k in Keywords(trends[i], stopWords, cc);
      assert k in lists[i];
    }
  }

  /** An index built from lists is well formed: no keyword maps to an empty set. */
  lemma {:induction false} IndexedWellFormed(lists: seq<seq<string>>, ids: seq<int>)
    requires |lists| == |ids|
    ensures WellFormed(Indexed(lists, ids))
    decreases |lists|
  {
    if |lists| > 0 {
      IndexedWellFormed(lists[..|lists| - 1], ids[..|ids| - 1]);
      InsertedAllWellFormed(Indexed(lists[..|lists| - 1], ids[..|ids| - 1]), lists[|lists| - 1], ids[|ids| - 1]);
    }
  }

  /** An index built from lists has exactly their keywords, each with exactly the ids of its lists. */
  lemma {:induction false} IndexedExactly(lists: seq<seq<string>>, ids: seq<int>, k: string, id: int)
    requires |lists| == |ids|
    ensures k in Indexed(lists, ids) <==> exists i :: 0 <= i < |lists| && k in lists[i]
    ensures k in Indexed(lists, ids) ==>
      (id in Indexed(lists, ids)[k] <==> exists i :: 0 <= i < |lists| && k in lists[i] && ids[i] == id)
    decreases |lists|
  {
    if |lists| > 0 {
      var init, initIds := lists[..|lists| - 1], ids[..|ids| - 1];
      var before := Indexed(init, initIds);
      IndexedExactly(init, initIds, k, id);
      InsertedAllExactly(before, lists[|lists| - 1], ids[|ids| - 1], k, id);
      if k in before {
        var i :| 0 <= i < |init| && k in init[i];
        assert lists[i] == init[i];
        if id in before[k] {
          var i :| 0 <= i < |init| && k in init[i] && initIds[i] == id;
          assert lists[i] == init[i] && ids[i] == initIds[i];
        }
      }
      if exists i :: 0 <= i < |lists| && k in lists[i] {
        var i :| 0 <= i < |lists| && k in lists[i];
        if i < |init| {
          assert init[i] == lists[i];
        }
      }
      if exists i :: 0 <= i < |lists| && k in lists[i] && ids[i] == id {
        var i :| 0 <= i < |lists| && k in lists[i] && ids[i] == id;
        if i < |init| {
          assert init[i] == lists[i] && initIds[i] == ids[i];
        }
      }
    }
  }

  /**
   * The rebuilt index holds exactly the trends' keywords, and a keyword's set holds
   * exactly the ids stored for the trends it is a keyword of: nothing of the index from
   * before the refresh survives.
   */
  lemma TrendIndexExactly(trends: seq<string>, stopWords: set<string>, cc: CharClasses,
                          insertTrend: TwitNewsTrend -> int, k: string, id: int)
    ensures WellFormed(TrendIndex(trends, stopWords, cc, insertTrend))
    ensures k in TrendIndex(trends, stopWords, cc, insertTrend) <==>
      exists i :: 0 <= i < |trends| && k in Keywords(trends[i], stopWords, cc)
    ensures k in TrendIndex(trends, stopWords, cc, insertTrend) ==>
      (id in TrendIndex(trends, stopWords, cc, insertTrend)[k] <==>
         exists i :: 0 <= i < |trends| && k in Keywords(trends[i], stopWords, cc)
                     && insertTrend(Named(trends[i])) == id)
  {
    var lists, ids := KeywordLists(trends, stopWords, cc), TrendIds(trends, insertTrend);
    IndexedWellFormed(lists, ids);
    IndexedExactly(lists, ids, k, id);
    if exists i :: 0 <= i < |trends| && k in Keywords(trends[i], stopWords, cc) {
      var i :| 0 <= i < |trends| && k in Keywords(trends[i], stopWords, cc);
      assert k in lists[i];
    }
    if exists i :: 0 <= i < |trends| && k in Keywords(trends[i], stopWords, cc)
                   && insertTrend(Named(trends[i])) == id {
      var i :| 0 <= i < |trends| && k in Keywords(trends[i], stopWords, cc)
               && insertTrend(Named(trends[i])) == id;
      assert k in lists[i] && ids[i] == id;
    }
  }

  /** The index's keywords are exactly the filter keywords. */
  lemma IndexKeysAreTrackKeywords(trends: seq<string>, stopWords: set<string>, cc: CharClasses,
                                  insertTrend: TwitNewsTrend -> int)
    ensures forall k :: k in TrendIndex(trends, stopWords, cc, insertTrend) <==> k in TrackKeywords(trends, stopWords, cc)
  {
    forall k ensures k in TrendIndex(trends, stopWords, cc, insertTrend) <==> k in TrackKeywords(trends, stopWords, cc) {
      TrendIndexExactly(trends, stopWords, cc, insertTrend, k, 0);
      TrackKeywordsExactly(trends, stopWords, cc, k);
    }
  }

  // ------------------------------------------------------------ the crawler

  /**
   * The crawler's state: the listener's batches, the static inverted index and the
   * keywords last handed to the stream filter. The stop words, the character classes
   * and the follower ratio of the rank are fixed for the run.
   */
  class NewsCrawler {
    const listener: Batches
    const invertedIndex: InvertedIndex<string, int>
    var trendStrings: seq<string>
    const stopWords: set<string>
    const cc: CharClasses
    const logRatio: int -> real

    ghost predicate Valid()
      reads this, listener, invertedIndex
    {
      listener.Valid() && invertedIndex.Valid()
    }

    constructor (stopWords: set<string>, cc: CharClasses, logRatio: int -> real)
      ensures Valid() && fresh(listener) && fresh(invertedIndex)
      ensures listener.State() == EmptyListener && invertedIndex.index == map[] && trendStrings == []
      ensures this.stopWords == stopWords && this.cc == cc && this.logRatio == logRatio
    {
      listener := new Batches();
      invertedIndex := new InvertedIndex<string, int>();
      trendStrings := [];
      this.stopWords := stopWords;
      this.cc := cc;
      this.logRatio := logRatio;
    }

    /** `searchInvertedIndex(text)`: the counting loops and the max scan. */
    method SearchInvertedIndex(text: string, order: set<int> -> seq<int>) returns (trendId: int, score: int)
      requires forall ks :: IsListing(order(ks), ks)
      ensures (trendId, score) == Match(Keywords(text, stopWords, cc), invertedIndex.index, order)
    {
      var keywords := ParseKeywordsFromTweetText(text, stopWords, cc);
      ghost var index := invertedIndex.index;
      var counters: map<int, int> := map[];
      for i := 0 to |keywords|
        invariant counters == Counters(keywords[..i], index)
      {
        assert keywords[..i + 1][..i] == keywords[..i];
        var keyword := keywords[i];
        var present := invertedIndex.ContainsKey(keyword);
        if present {
          var matchingTrendIds := invertedIndex.Get(keyword);
          var ids := matchingTrendIds.value;
          ghost var before := counters;
          for j := 0 to |ids|
            invariant counters == Counted(before, ids[..j])
          {
            assert ids[..j + 1][..j] == ids[..j];
            var matchingTrendId := ids[j];
            if matchingTrendId in counters {
              var count := counters[matchingTrendId];
              count := count + 1;
              counters := counters[matchingTrendId := count];
            } else {
              counters := counters[matchingTrendId := 1];
            }
          }
          assert ids[..|ids|] == ids;
        }
      }
      assert keywords[..|keywords|] == keywords;
      var highestRank := 0;
      var highestRankedTrendId := 0;
      var ids := order(counters.Keys);
      assert IsListing(ids, counters.Keys);
      for i := 0 to |ids|
        invariant (highestRankedTrendId, highestRank) == Best(ids[..i], counters)
      {
        assert ids[..i + 1][..i] == ids[..i];
        var rank := counters[ids[i]];
        if rank > highestRank {
          highestRank := rank;
          highestRankedTrendId := ids[i];
        }
      }
      assert ids[..|ids|] == ids;
      score := 0;
      if highestRankedTrendId in counters {
        score := counters[highestRankedTrendId];
      }
      trendId := highestRankedTrendId;
    }

    /** The listener's `onStatus`. */
    method OnStatus(status: Status, order: set<int> -> seq<int>,
                    tweetsStored: (int, seq<TwitNewsTweet>) -> bool, usersStored: seq<TwitNewsUser> -> bool)
      requires Valid() && forall ks :: IsListing(order(ks), ks)
      modifies listener
      ensures Valid()
      ensures listener.State()
        == NewsStep(old(listener.State()), status, Match(Keywords(status.text, stopWords, cc), invertedIndex.index, order),
                    logRatio, tweetsStored, usersStored)
    {
      var correspondingTrendId, tfidf := SearchInvertedIndex(status.text, order);
      if correspondingTrendId == 0 {
        return;
      }
      var built := TweetFactory.FromStatus(status, correspondingTrendId);
      if built.None? {
        return;
      }
      var twitNewsTweet := built.value.(tfidf := tfidf);
      var rank := NewsRanker.ComputeRank(twitNewsTweet, logRatio);
      twitNewsTweet := twitNewsTweet.(rank := rank.value);
      var twitNewsUser := UserFactory.FromStatus(status);
      var ok := listener.File(status, twitNewsTweet, twitNewsUser, correspondingTrendId);
      if ok {
        listener.Flush(order(listener.tweetsByTrendId.Keys), tweetsStored, usersStored);
      }
    }

    /** `getTrendsFromRestAPI`, given the fetched timeline (empty when the fetch failed). */
    method GetTrendsFromRestApi(timeline: seq<string>) returns (trends: seq<string>)
      ensures trends == TrendTexts(timeline)
    {
      trends := [];
      for i := 0 to |timeline|
        invariant trends == TrendTexts(timeline[..i])
      {
        assert timeline[..i + 1][..i] == timeline[..i];
        var tweet := Trim(timeline[i]);
        trends := LinkedAdd(trends, tweet);
      }
      assert timeline[..|timeline|] == timeline;
    }

    /**
     * `refreshStreamApiTrackKeywords`: clears the index and rebuilds it from the latest
     * headlines, storing each as a trend (`insertTrend` is the id the retry loop of
     * `attemptToInsertTrend` ends with).
     */
    method Refresh(timeline: seq<string>, insertTrend: TwitNewsTrend -> int)
      requires Valid()
      modifies this, invertedIndex
      ensures Valid()
      ensures invertedIndex.index == TrendIndex(TrendTexts(timeline), stopWords, cc, insertTrend)
      ensures trendStrings == TrackKeywords(TrendTexts(timeline), stopWords, cc)
    {
      invertedIndex.Clear();
      var trends := GetTrendsFromRestApi(timeline);
      ghost var lists, ids := KeywordLists(trends, stopWords, cc), TrendIds(trends, insertTrend);
      var keywords: seq<string> := [];
      for i := 0 to |trends|
        invariant invertedIndex.Valid()
        invariant invertedIndex.index == Indexed(lists[..i], ids[..i])
        invariant keywords == Unioned(lists[..i])
      {
        IndexedStep(lists, ids, i);
        var trendText := trends[i];
        var trend := Named(trendText);
        var trendId := insertTrend(trend);
        var keywordsForTrend := ParseKeywordsFromTweetText(trendText, stopWords, cc);
        keywords := LinkedAddAll(keywords, keywordsForTrend);
        invertedIndex.PutAll(keywordsForTrend, trendId);
      }
      assert lists[..|trends|] == lists && ids[..|trends|] == ids;
      trendStrings := keywords;
    }
  }
}
