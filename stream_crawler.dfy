/**
 * `StreamCrawler`: a stream crawler that follows the current trends one at a time. The
 * listener files each status under the current trend, watches the gaps between
 * arrivals, and asks for a switch to the next trend once enough statuses were crawled
 * or the stream has become too slow. `crawlTrends` visits each distinct trend once,
 * storing it first.
 *
 * The stores are the parameters `tweetsStored` and `usersStored`; `attempt(trend, k)`
 * is the outcome of the `k`-th try to store a trend.
 */
module StreamCrawling {
  import opened Wrappers
  import opened Twitter
  import opened DomainTweet
  import opened DomainTrend
  import opened DomainUser
  import opened TrendNames
  import TweetFactory
  import UserFactory

  /** A gap above this many milliseconds is slow ... */
  const SwitchRateThreshold: int := 2000
  /** ... and above this many, very slow. */
  const SwitchRateThresholdHigh: int := 15000
  /** Any batch reaching this size has all three submitted. */
  const BatchSize: int := 250
  /** `attemptToInsertTrend` tries at most this many times. */
  const MaxTries: nat := 3

  // ------------------------------------------------------------ the gap monitor

  /** The listener's arrival-gap monitor: the last status time and the two slow-gap counters. */
  datatype Monitor = Monitor(timeOfLastTweet: int, numTweetsOverThreshold: int, numTweetsOverHighThreshold: int)

  /** The monitor of a fresh listener: `timeOfLastTweet` starts at 0, so the first gap is the timestamp itself. */
  const StartMonitor := Monitor(0, 0, 0)

  /** The monitor after a status created at `createdAt`. */
  function Observed(m: Monitor, createdAt: int): Monitor {
    var millisSinceLastTweet := createdAt - m.timeOfLastTweet;
    if millisSinceLastTweet > SwitchRateThresholdHigh then
      Monitor(createdAt, m.numTweetsOverThreshold + 1, m.numTweetsOverHighThreshold + 1)
    else if millisSinceLastTweet > SwitchRateThreshold then
      Monitor(createdAt, m.numTweetsOverThreshold + 1, m.numTweetsOverHighThreshold)
    else
      Monitor(createdAt, 0, 0)
  }

  /** The monitor after statuses created at `times`, in order. */
  function ObservedAll(m: Monitor, times: seq<int>): Monitor
    decreases |times|
  {
    if |times| == 0 then m else Observed(ObservedAll(m, times[..|times| - 1]), times[|times| - 1])
  }

  /** Every gap of the run, the first measured from the monitor's last time, exceeds `bound`. */
  ghost predicate GapsAbove(m: Monitor, times: seq<int>, bound: int) {
    forall i :: 0 <= i < |times| ==> times[i] - (if i == 0 then m.timeOfLastTweet else times[i - 1]) > bound
  }

  /** One gap of such a run. */
  lemma GapAbove(m: Monitor, times: seq<int>, bound: int, i: int)
    requires GapsAbove(m, times, bound) && 0 <= i < |times|
    ensures times[i] - (if i == 0 then m.timeOfLastTweet else times[i - 1]) > bound
  {
  }

  /** Both counters start at 0 and never go below it. */
  ghost predicate MonitorValid(m: Monitor) {
    m.numTweetsOverThreshold >= 0 && m.numTweetsOverHighThreshold >= 0
  }

  /**
   * The time of the last status is kept; a fast gap (2 s or less) resets both counters;
   * the counters never go below 0.
   */
  lemma ObservedKeepsTime(m: Monitor, createdAt: int)
    requires MonitorValid(m)
    ensures var r := Observed(m, createdAt);
      && r.timeOfLastTweet == createdAt
      && MonitorValid(r)
      && (createdAt - m.timeOfLastTweet <= SwitchRateThreshold ==>
            r.numTweetsOverThreshold == 0 && r.numTweetsOverHighThreshold == 0)
      && (createdAt - m.timeOfLastTweet > SwitchRateThreshold ==>
            r.numTweetsOverThreshold == m.numTweetsOverThreshold + 1)
      && (createdAt - m.timeOfLastTweet > SwitchRateThresholdHigh <==>
            r.numTweetsOverHighThreshold == m.numTweetsOverHighThreshold + 1)
  {
  }

  /** A run of slow gaps raises `numTweetsOverThreshold` by one per status. */
  lemma {:induction false} SlowRunCounts(m: Monitor, times: seq<int>)
    requires GapsAbove(m, times, SwitchRateThreshold)
    ensures ObservedAll(m, times).numTweetsOverThreshold == m.numTweetsOverThreshold + |times|
    ensures |times| > 0 ==> ObservedAll(m, times).timeOfLastTweet == times[|times| - 1]
    decreases |times|
  {
    if |times| > 0 {
      var init := times[..|times| - 1];
      assert GapsAbove(m, init, SwitchRateThreshold) by {
        forall i | 0 <= i < |init| ensures init[i] - (if i == 0 then m.timeOfLastTweet else init[i - 1]) > SwitchRateThreshold {
          GapAbove(m, times, SwitchRateThreshold, i);
          assert init[i] == times[i];
          if i > 0 {
            assert init[i - 1] == times[i - 1];
          }
        }
      }
      SlowRunCounts(m, init);
      var last := |times| - 1;
      GapAbove(m, times, SwitchRateThreshold, last);
      if |init| > 0 {
        assert times[|times| - 2] == init[|init| - 1];
      }
    }
  }

  /** A run of very slow gaps raises `numTweetsOverHighThreshold` by one per status. */
  lemma {:induction false} VerySlowRunCounts(m: Monitor, times: seq<int>)
    requires GapsAbove(m, times, SwitchRateThresholdHigh)
    ensures ObservedAll(m, times).numTweetsOverHighThreshold == m.numTweetsOverHighThreshold + |times|
    ensures |times| > 0 ==> ObservedAll(m, times).timeOfLastTweet == times[|times| - 1]
    decreases |times|
  {
    if |times| > 0 {
      var init := times[..|times| - 1];
      assert GapsAbove(m, init, SwitchRateThresholdHigh) by {
        forall i | 0 <= i < |init| ensures init[i] - (if i == 0 then m.timeOfLastTweet else init[i - 1]) > SwitchRateThresholdHigh {
          GapAbove(m, times, SwitchRateThresholdHigh, i);
          assert init[i] == times[i];
          if i > 0 {
            assert init[i - 1] == times[i - 1];
          }
        }
      }
      VerySlowRunCounts(m, init);
      var last := |times| - 1;
      GapAbove(m, times, SwitchRateThresholdHigh, last);
      if |init| > 0 {
        assert times[|times| - 2] == init[|init| - 1];
      }
    }
  }

  /** `onStatus`'s switch test, after the counter update. */
  predicate ShouldSwitch(tweetsCrawledForTrend: int, tweetsToCrawlForTrend: int, m: Monitor) {
    || tweetsCrawledForTrend >= tweetsToCrawlForTrend
    || m.numTweetsOverThreshold > 10
    || m.numTweetsOverHighThreshold > 1
  }

  /**
   * A stream gone slow forces a switch whatever the crawl count: eleven slow gaps in a
   * row, or two very slow ones.
   */
  lemma SlowStreamSwitches(m: Monitor, times: seq<int>, crawled: int, toCrawl: int)
    requires MonitorValid(m)
    requires (|times| == 11 && GapsAbove(m, times, SwitchRateThreshold))
          || (|times| == 2 && GapsAbove(m, times, SwitchRateThresholdHigh))
    ensures ShouldSwitch(crawled, toCrawl, ObservedAll(m, times))
  {
    if |times| == 11 && GapsAbove(m, times, SwitchRateThreshold) {
      SlowRunCounts(m, times);
    } else {
      VerySlowRunCounts(m, times);
    }
  }

  // ------------------------------------------------------------ the batches

  /** The listener's three collections; the user set and the identity set of originals are listed in insertion order. */
  datatype Batch = Batch(tweets: seq<TwitNewsTweet>, users: seq<TwitNewsUser>, originalTweets: seq<TwitNewsTweet>)

  const EmptyBatch := Batch([], [], [])

  /** Some collection has reached the batch size. */
  predicate Full(b: Batch) {
    |b.tweets| >= BatchSize || |b.users| >= BatchSize || |b.originalTweets| >= BatchSize
  }

  /** `insertTrendsAndUsers`: three stores, each clearing its own collection when it succeeds. */
  function InsertedAll(b: Batch, currentTrendId: int, tweetsStored: (int, seq<TwitNewsTweet>) -> bool,
                       usersStored: seq<TwitNewsUser> -> bool): Batch
  {
    Batch(if tweetsStored(currentTrendId, b.tweets) then [] else b.tweets,
          if usersStored(b.users) then [] else b.users,
          if tweetsStored(currentTrendId, b.originalTweets) then [] else b.originalTweets)
  }

  /**
   * The three stores are independent: each collection is cleared exactly when its own
   * store succeeds, whatever the other two do, and is otherwise kept whole.
   */
  lemma InsertedAllIndependently(b: Batch, id: int, tweetsStored: (int, seq<TwitNewsTweet>) -> bool,
                                 usersStored: seq<TwitNewsUser> -> bool,
                                 otherTweetsStored: (int, seq<TwitNewsTweet>) -> bool,
                                 otherUsersStored: seq<TwitNewsUser> -> bool)
    ensures var r := InsertedAll(b, id, tweetsStored, usersStored);
      && (r.tweets == [] || r.tweets == b.tweets)
      && (r.users == [] || r.users == b.users)
      && (r.originalTweets == [] || r.originalTweets == b.originalTweets)
      && (|b.tweets| > 0 ==> (r.tweets == [] <==> tweetsStored(id, b.tweets)))
      && (|b.users| > 0 ==> (r.users == [] <==> usersStored(b.users)))
      && (|b.originalTweets| > 0 ==> (r.originalTweets == [] <==> tweetsStored(id, b.originalTweets)))
    ensures InsertedAll(b, id, tweetsStored, otherUsersStored).tweets == InsertedAll(b, id, tweetsStored, usersStored).tweets
    ensures InsertedAll(b, id, tweetsStored, otherUsersStored).originalTweets
         == InsertedAll(b, id, tweetsStored, usersStored).originalTweets
    ensures InsertedAll(b, id, otherTweetsStored, usersStored).users == InsertedAll(b, id, tweetsStored, usersStored).users
  {
  }

  // ------------------------------------------------------------ onStatus

  /**
   * The crawler's state as a value: the statics `tweetsCrawledForTrend`,
   * `timeToSwitchTrends` and `currentTrendId`, and the listener's monitor and batches.
   */
  datatype Stream = Stream(
    tweetsCrawledForTrend: int,
    timeToSwitchTrends: bool,
    currentTrendId: int,
    monitor: Monitor,
    batch: Batch)

  const StartStream := Stream(0, false, 0, StartMonitor, EmptyBatch)

  ghost predicate StreamValid(s: Stream) {
    s.tweetsCrawledForTrend >= 0 && MonitorValid(s.monitor) && DistinctUsers(s.batch.users)
  }

  /**
   * One `onStatus`. A status without a user throws at once and changes nothing. The
   * tweet and the user are added next; a retweet whose original has no user then throws,
   * leaving only those two additions. Otherwise: the original joins its set, a full
   * collection sends all three to the stores, the crawl count and the monitor advance,
   * and the switch test may ask for a switch and store all three again.
   */
  function StreamStep(s: Stream, tweetsToCrawlForTrend: int, status: Status,
                      tweetsStored: (int, seq<TwitNewsTweet>) -> bool, usersStored: seq<TwitNewsUser> -> bool)
    : Stream
  {
    match TweetFactory.FromStatus(status, s.currentTrendId)
    case None => s
    case Some(t) =>
      var added := s.batch.(tweets := s.batch.tweets + [t],
                            users := HashSetAdd(s.batch.users, UserFactory.FromStatus(status)));
      if !IsRetweet(status) then Advanced(s.(batch := added), tweetsToCrawlForTrend, status.createdAt, tweetsStored, usersStored)
      else match TweetFactory.FromStatus(status.retweetedStatus.value, s.currentTrendId)
        case None => s.(batch := added)
        case Some(original) =>
          Advanced(s.(batch := added.(originalTweets := added.originalTweets + [original])),
                   tweetsToCrawlForTrend, status.createdAt, tweetsStored, usersStored)
  }

  /**
   * The rest of `onStatus` once the status is filed: a full collection sends all three
   * to the stores, the crawl count and the monitor advance, and the switch test may ask
   * for a switch and store all three again.
   */
  function Advanced(s: Stream, tweetsToCrawlForTrend: int, createdAt: int,
                    tweetsStored: (int, seq<TwitNewsTweet>) -> bool, usersStored: seq<TwitNewsUser> -> bool)
    : Stream
  {
    var b := if Full(s.batch) then InsertedAll(s.batch, s.currentTrendId, tweetsStored, usersStored) else s.batch;
    var crawled := s.tweetsCrawledForTrend + 1;
    var m := Observed(s.monitor, createdAt);
    if ShouldSwitch(crawled, tweetsToCrawlForTrend, m) then
      Stream(crawled, true, s.currentTrendId, m, InsertedAll(b, s.currentTrendId, tweetsStored, usersStored))
    else Stream(crawled, s.timeToSwitchTrends, s.currentTrendId, m, b)
  }

  /** What `onStatus` always does: it keeps the state valid. */
  lemma StreamStepKeepsValid(s: Stream, toCrawl: int, status: Status,
                             tweetsStored: (int, seq<TwitNewsTweet>) -> bool, usersStored: seq<TwitNewsUser> -> bool)
    requires StreamValid(s)
    ensures StreamValid(StreamStep(s, toCrawl, status, tweetsStored, usersStored))
  {
    var built := TweetFactory.FromStatus(status, s.currentTrendId);
    if built.Some? {
      var u := UserFactory.FromStatus(status);
      HashSetAddDistinct(s.batch.users, u);
      var added := s.(batch := s.batch.(tweets := s.batch.tweets + [built.value], users := HashSetAdd(s.batch.users, u)));
      assert StreamValid(added);
      if !IsRetweet(status) {
        AdvancedKeepsValid(added, toCrawl, status.createdAt, tweetsStored, usersStored);
      } else {
        var original := TweetFactory.FromStatus(status.retweetedStatus.value, s.currentTrendId);
        if original.Some? {
          var withOriginal := added.(batch := added.batch.(originalTweets := added.batch.originalTweets + [original.value]));
          AdvancedKeepsValid(withOriginal, toCrawl, status.createdAt, tweetsStored, usersStored);
        }
      }
    }
  }

  /** The rest of `onStatus` keeps the state valid. */
  lemma AdvancedKeepsValid(s: Stream, toCrawl: int, createdAt: int,
                           tweetsStored: (int, seq<TwitNewsTweet>) -> bool, usersStored: seq<TwitNewsUser> -> bool)
    requires StreamValid(s)
    ensures StreamValid(Advanced(s, toCrawl, createdAt, tweetsStored, usersStored))
  {
    ObservedKeepsTime(s.monitor, createdAt);
  }

  /**
   * A complete status advances the crawl count by one and the monitor by its time, and
   * asks for a switch exactly when the switch test holds (a request already made stays).
   * The current trend does not change.
   */
  lemma StreamStepCountsAndSwitches(s: Stream, toCrawl: int, status: Status,
                                    tweetsStored: (int, seq<TwitNewsTweet>) -> bool,
                                    usersStored: seq<TwitNewsUser> -> bool)
    requires status.user.Some?
    requires IsRetweet(status) ==> status.retweetedStatus.value.user.Some?
    ensures var r := StreamStep(s, toCrawl, status, tweetsStored, usersStored);
      && r.tweetsCrawledForTrend == s.tweetsCrawledForTrend + 1
      && r.monitor == Observed(s.monitor, status.createdAt)
      && r.currentTrendId == s.currentTrendId
      && (r.timeToSwitchTrends <==>
            s.timeToSwitchTrends || ShouldSwitch(s.tweetsCrawledForTrend + 1, toCrawl, r.monitor))
  {
  }

  /**
   * Nothing is lost while the stores fail: every status's tweet is appended, its user
   * added, and a retweet's original appended, under the current trend.
   */
  lemma StreamStepKeepsUnstored(s: Stream, toCrawl: int, status: Status,
                                tweetsStored: (int, seq<TwitNewsTweet>) -> bool,
                                usersStored: seq<TwitNewsUser> -> bool)
    requires status.user.Some?
    requires IsRetweet(status) ==> status.retweetedStatus.value.user.Some?
    requires forall id, ts :: !tweetsStored(id, ts)
    requires forall us :: !usersStored(us)
    ensures var r := StreamStep(s, toCrawl, status, tweetsStored, usersStored);
      var id := s.currentTrendId;
      && r.batch.tweets == s.batch.tweets + [TweetFactory.FromStatus(status, id).value]
      && r.batch.users == HashSetAdd(s.batch.users, UserFactory.FromStatus(status))
      && r.batch.originalTweets == s.batch.originalTweets
           + (if IsRetweet(status) then [TweetFactory.FromStatus(status.retweetedStatus.value, id).value] else [])
  {
  }

  /**
   * A retweet whose original cannot be built leaves its tweet and user added but skips
   * the rest: no store, no count, no monitor update.
   */
  lemma StreamStepOriginalThrows(s: Stream, toCrawl: int, status: Status,
                                 tweetsStored: (int, seq<TwitNewsTweet>) -> bool,
                                 usersStored: seq<TwitNewsUser> -> bool)
    requires status.user.Some? && IsRetweet(status) && status.retweetedStatus.value.user.None?
    ensures var r := StreamStep(s, toCrawl, status, tweetsStored, usersStored);
      && r.batch.tweets == s.batch.tweets + [TweetFactory.FromStatus(status, s.currentTrendId).value]
      && r.batch.users == HashSetAdd(s.batch.users, UserFactory.FromStatus(status))
      && r.batch.originalTweets == s.batch.originalTweets
      && r.(batch := s.batch) == s
  {
  }

  // ------------------------------------------------------------ attemptToInsertTrend

  /** The first of tries `k`..3 that stores the trend, with the id it got. */
  function FirstSuccess(trend: TwitNewsTrend, attempt: (TwitNewsTrend, nat) -> Option<int>, k: nat)
    : Option<(nat, int)>
    decreases MaxTries + 1 - k
  {
    if k > MaxTries then None
    else match attempt(trend, k)
      case Some(id) => Some((k, id))
      case None => FirstSuccess(trend, attempt, k + 1)
  }

  /**
   * The retry loop makes at most three tries: a success is the first try that stores the
   * trend, all tries before it having failed; no success means all three failed.
   */
  lemma {:induction false} FirstSuccessIsFirst(trend: TwitNewsTrend, attempt: (TwitNewsTrend, nat) -> Option<int>, k: nat)
    requires 1 <= k
    ensures match FirstSuccess(trend, attempt, k)
      case Some((n, id)) =>
        && k <= n <= MaxTries && attempt(trend, n) == Some(id)
        && forall j :: k <= j < n ==> attempt(trend, j).None?
      case None => forall j :: k <= j <= MaxTries ==> attempt(trend, j).None?
    decreases MaxTries + 1 - k
  {
    if k <= MaxTries && attempt(trend, k).None? {
      FirstSuccessIsFirst(trend, attempt, k + 1);
    }
  }

  /** The state after `attemptToInsertTrend`: the new current trend, or a switch request. */
  function Attempted(s: Stream, trend: TwitNewsTrend, attempt: (TwitNewsTrend, nat) -> Option<int>): Stream {
    match FirstSuccess(trend, attempt, 1)
    case Some((_, id)) => s.(currentTrendId := id)
    case None => s.(timeToSwitchTrends := true)
  }

  /**
   * When all three tries fail, the current trend id stays the previous trend's, so the
   * statuses streamed next are filed under that trend.
   */
  lemma FailedInsertKeepsTrendId(s: Stream, trend: TwitNewsTrend, attempt: (TwitNewsTrend, nat) -> Option<int>)
    requires forall j :: 1 <= j <= MaxTries ==> attempt(trend, j).None?
    ensures Attempted(s, trend, attempt) == s.(timeToSwitchTrends := true)
  {
    assert attempt(trend, 1).None? && attempt(trend, 2).None? && attempt(trend, 3).None?;
  }

  // ------------------------------------------------------------ crawlTrends

  /**
   * One visited trend: stored (the stream filter and the wait for a switch request are
   * not modelled), then the switch request and the crawl count reset.
   */
  function CrawledOne(s: Stream, name: string, attempt: (TwitNewsTrend, nat) -> Option<int>): Stream {
    Attempted(s, Named(name), attempt).(timeToSwitchTrends := false, tweetsCrawledForTrend := 0)
  }

  /** The visited trends, in order. */
  function CrawledAll(s: Stream, visited: seq<string>, attempt: (TwitNewsTrend, nat) -> Option<int>): Stream
    decreases |visited|
  {
    if |visited| == 0 then s
    else CrawledOne(CrawledAll(s, visited[..|visited| - 1], attempt), visited[|visited| - 1], attempt)
  }

  /**
   * After each visited trend the switch request and the crawl count are reset, while the
   * monitor (its time and both gap counters) and the batches are left as they were.
   */
  lemma {:induction false} CrawlResetsOnlyTheSwitch(s: Stream, visited: seq<string>,
                                                    attempt: (TwitNewsTrend, nat) -> Option<int>)
    ensures var r := CrawledAll(s, visited, attempt);
      && r.monitor == s.monitor && r.batch == s.batch
      && (|visited| > 0 ==> !r.timeToSwitchTrends && r.tweetsCrawledForTrend == 0)
    decreases |visited|
  {
    if |visited| > 0 {
      CrawlResetsOnlyTheSwitch(s, visited[..|visited| - 1], attempt);
    }
  }

  /** The current trend after the crawl is the last trend stored, if any was. */
  lemma {:induction false} CrawlEndsOnLastStoredTrend(s: Stream, visited: seq<string>,
                                                      attempt: (TwitNewsTrend, nat) -> Option<int>)
    ensures var r := CrawledAll(s, visited, attempt);
      (forall i :: 0 <= i < |visited| ==> FirstSuccess(Named(visited[i]), attempt, 1).None?) ==>
        r.currentTrendId == s.currentTrendId
    ensures var r := CrawledAll(s, visited, attempt);
      |visited| > 0 && FirstSuccess(Named(visited[|visited| - 1]), attempt, 1).Some? ==>
        r.currentTrendId == FirstSuccess(Named(visited[|visited| - 1]), attempt, 1).value.1
    decreases |visited|
  {
    if |visited| > 0 {
      var init := visited[..|visited| - 1];
      CrawlEndsOnLastStoredTrend(s, init, attempt);
      if forall i :: 0 <= i < |visited| ==> FirstSuccess(Named(visited[i]), attempt, 1).None? {
        forall i | 0 <= i < |init| ensures FirstSuccess(Named(init[i]), attempt, 1).None? {
          assert init[i] == visited[i];
        }
      }
    }
  }

  // ------------------------------------------------------------ the crawler

  /** The crawler's statics and its listener's fields. */
  class StreamCrawler {
    var trends: set<string>
    const tweetsToCrawlForTrend: int
    var tweetsCrawledForTrend: int
    var timeToSwitchTrends: bool
    var currentTrendId: int
    var timeOfLastTweet: int
    var numTweetsOverThreshold: int
    var numTweetsOverHighThreshold: int
    var tweets: seq<TwitNewsTweet>
    var users: seq<TwitNewsUser>
    var originalTweets: seq<TwitNewsTweet>

    function State(): Stream
      reads this
    {
      Stream(tweetsCrawledForTrend, timeToSwitchTrends, currentTrendId,
             Monitor(timeOfLastTweet, numTweetsOverThreshold, numTweetsOverHighThreshold),
             Batch(tweets, users, originalTweets))
    }

    ghost predicate Valid()
      reads this
    {
      StreamValid(State())
    }

    constructor (tweetsToCrawlForTrend: int)
      ensures Valid() && State() == StartStream && trends == {}
      ensures this.tweetsToCrawlForTrend == tweetsToCrawlForTrend
    {
      this.tweetsToCrawlForTrend := tweetsToCrawlForTrend;
      trends := {};
      tweetsCrawledForTrend := 0;
      timeToSwitchTrends := false;
      currentTrendId := 0;
      timeOfLastTweet := 0;
      numTweetsOverThreshold := 0;
      numTweetsOverHighThreshold := 0;
      tweets := [];
      users := [];
      originalTweets := [];
    }

    /** `insertTrendsAndUsers`. */
    method InsertTrendsAndUsers(tweetsStored: (int, seq<TwitNewsTweet>) -> bool, usersStored: seq<TwitNewsUser> -> bool)
      modifies this
      ensures State() == old(State()).(batch := InsertedAll(old(State()).batch, currentTrendId, tweetsStored, usersStored))
      ensures trends == old(trends)
    {
      if tweetsStored(currentTrendId, tweets) {
        tweets := [];
      }
      if usersStored(users) {
        users := [];
      }
      if tweetsStored(currentTrendId, originalTweets) {
        originalTweets := [];
      }
    }

    /** The monitor update of `onStatus`. */
    method Observe(createdAt: int)
      modifies this
      ensures State() == old(State()).(monitor := Observed(old(State()).monitor, createdAt))
      ensures trends == old(trends)
    {
      var millisSinceLastTweet := createdAt - timeOfLastTweet;
      timeOfLastTweet := createdAt;
      if millisSinceLastTweet > SwitchRateThresholdHigh {
        numTweetsOverThreshold := numTweetsOverThreshold + 1;
        numTweetsOverHighThreshold := numTweetsOverHighThreshold + 1;
      } else if millisSinceLastTweet > SwitchRateThreshold {
        numTweetsOverThreshold := numTweetsOverThreshold + 1;
      } else {
        numTweetsOverThreshold := 0;
        numTweetsOverHighThreshold := 0;
      }
    }

    /** The listener's `onStatus`. */
    method OnStatus(status: Status, tweetsStored: (int, seq<TwitNewsTweet>) -> bool,
                    usersStored: seq<TwitNewsUser> -> bool)
      requires Valid()
      modifies this
      ensures Valid()
      ensures State() == StreamStep(old(State()), tweetsToCrawlForTrend, status, tweetsStored, usersStored)
      ensures trends == old(trends)
    {
      ghost var s := State();
      StreamStepKeepsValid(s, tweetsToCrawlForTrend, status, tweetsStored, usersStored);
      var built := TweetFactory.FromStatus(status, currentTrendId);
      if built.None? {
        return;
      }
      var twitNewsUser := UserFactory.FromStatus(status);
      tweets := tweets + [built.value];
      users := HashSetAdd(users, twitNewsUser);
      ghost var added := s.batch.(tweets := s.batch.tweets + [built.value], users := HashSetAdd(s.batch.users, twitNewsUser));
      assert State() == s.(batch := added);
      if IsRetweet(status) {
        var original := TweetFactory.FromStatus(status.retweetedStatus.value, currentTrendId);
        if original.None? {
          return;
        }
        originalTweets := originalTweets + [original.value];
        assert State() == s.(batch := added.(originalTweets := added.originalTweets + [original.value]));
      }
      Advance(status.createdAt, tweetsStored, usersStored);
    }

    /** The part of `onStatus` after the status is filed. */
    method Advance(createdAt: int, tweetsStored: (int, seq<TwitNewsTweet>) -> bool,
                   usersStored: seq<TwitNewsUser> -> bool)
      modifies this
      ensures State() == Advanced(old(State()), tweetsToCrawlForTrend, createdAt, tweetsStored, usersStored)
      ensures trends == old(trends)
    {
      if |tweets| >= BatchSize || |users| >= BatchSize || |originalTweets| >= BatchSize {
        InsertTrendsAndUsers(tweetsStored, usersStored);
      }
      tweetsCrawledForTrend := tweetsCrawledForTrend + 1;
      Observe(createdAt);
      if ShouldSwitch(tweetsCrawledForTrend, tweetsToCrawlForTrend, State().monitor) {
        timeToSwitchTrends := true;
        InsertTrendsAndUsers(tweetsStored, usersStored);
      }
    }

    /** `attemptToInsertTrend`: the retry loop; `tries` is the number of tries made. */
    method AttemptToInsertTrend(trend: TwitNewsTrend, attempt: (TwitNewsTrend, nat) -> Option<int>)
      returns (tries: nat)
      modifies this
      ensures State() == Attempted(old(State()), trend, attempt)
      ensures trends == old(trends)
      ensures tries == match FirstSuccess(trend, attempt, 1) case Some((n, _)) => n case None => MaxTries
    {
      tries := 0;
      var successfullyInsertedTrend := false;
      while tries < MaxTries && !successfullyInsertedTrend
        invariant tries <= MaxTries
        invariant successfullyInsertedTrend ==> 1 <= tries && FirstSuccess(trend, attempt, 1) == Some((tries, currentTrendId))
        invariant !successfullyInsertedTrend ==>
          FirstSuccess(trend, attempt, 1) == FirstSuccess(trend, attempt, tries + 1) && State() == old(State())
        invariant successfullyInsertedTrend ==> State() == old(State()).(currentTrendId := currentTrendId)
        invariant trends == old(trends)
        decreases MaxTries - tries, !successfullyInsertedTrend
      {
        tries := tries + 1;
        var inserted := attempt(trend, tries);
        if inserted.Some? {
          currentTrendId := inserted.value;
          successfullyInsertedTrend := true;
        }
      }
      if !successfullyInsertedTrend {
        timeToSwitchTrends := true;
      }
    }

    /** The body of `crawlTrends` for a trend whose key is new. */
    method Visit(name: string, attempt: (TwitNewsTrend, nat) -> Option<int>)
      modifies this
      ensures State() == CrawledOne(old(State()), name, attempt)
      ensures trends == old(trends) + {name}
    {
      var twitNewsTrend := Named(name);
      trends := trends + {name};
      var _ := AttemptToInsertTrend(twitNewsTrend, attempt);
      timeToSwitchTrends := false;
      tweetsCrawledForTrend := 0;
    }

    /**
     * `crawlTrends` over the fetched trend names: each name whose key is new is recorded,
     * stored, and (after the wait, not modelled) followed by the reset.
     */
    method CrawlTrends(names: seq<string>, attempt: (TwitNewsTrend, nat) -> Option<int>)
      modifies this
      ensures State() == CrawledAll(old(State()), FirstOfEach(names, NameKey), attempt)
      ensures trends == old(trends) + set name | name in FirstOfEach(names, NameKey)
    {
      var trendNames: set<string> := {};
      for i := 0 to |names|
        invariant trendNames == KeysOf(FirstOfEach(names[..i], NameKey), NameKey)
        invariant State() == CrawledAll(old(State()), FirstOfEach(names[..i], NameKey), attempt)
        invariant trends == old(trends) + set name | name in FirstOfEach(names[..i], NameKey)
      {
        FirstOfEachStep(names, NameKey, i);
        ghost var kept := FirstOfEach(names[..i], NameKey);
        assert (kept + [names[i]])[..|kept|] == kept;
        var trendName := NameKey(names[i]);
        if trendName !in trendNames {
          trendNames := trendNames + {trendName};
          Visit(names[i], attempt);
        }
      }
      assert names[..|names|] == names;
    }
  }
}
