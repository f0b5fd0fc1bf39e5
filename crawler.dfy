/**
 * `Crawler`: the REST crawler. For each distinct trend name it searches recent tweets,
 * stores the trend when the search found any, and stores one record per tweet, built
 * from the tweet's text tokens, its geolocation, its author (through a user cache) and
 * its retweet count.
 *
 * Twitter is reached only through parameters: `searched(name)` is the search result for
 * a trend (None when the search throws), `showUser(screenName)` the user lookup (None
 * when it throws), `retweets(id)` the number of retweets (None when the lookup throws),
 * and `insertTrend(trend)` the id the trend store returns.
 */
module RestCrawling {
  import opened Wrappers
  import opened JavaLang
  import opened Twitter
  import opened DomainTweet
  import opened DomainTrend
  import opened DomainUser
  import opened TrendNames
  import UserFactory

  const LinkPrefix := "http://"
  const RetweetMarker := "RT"

  // ------------------------------------------------------------ text features

  /** The tokens `text.split(" ")`. */
  function Tokens(text: string): seq<string> {
    Split(text, ' ')
  }

  /** Some token starts with "http://". */
  predicate HasLink(tokens: seq<string>) {
    exists i :: 0 <= i < |tokens| && StartsWith(tokens[i], LinkPrefix)
  }

  /** The trimmed last token that starts with "http://", if any. */
  function LastLink(tokens: seq<string>): Option<string>
    decreases |tokens|
  {
    if |tokens| == 0 then None
    else if StartsWith(tokens[|tokens| - 1], LinkPrefix) then Some(Trim(tokens[|tokens| - 1]))
    else LastLink(tokens[..|tokens| - 1])
  }

  /** Some token, trimmed, is "RT". */
  predicate IsRetweetText(tokens: seq<string>) {
    exists i :: 0 <= i < |tokens| && Trim(tokens[i]) == RetweetMarker
  }

  /** `tokens[i]` starts with "http://" and no later token does. */
  ghost predicate LastLinkAt(tokens: seq<string>, i: int) {
    0 <= i < |tokens| && StartsWith(tokens[i], LinkPrefix)
    && forall j :: i < j < |tokens| ==> !StartsWith(tokens[j], LinkPrefix)
  }

  /** The link is null exactly when no token starts with "http://". */
  lemma {:induction false} LastLinkIsNullWithoutLink(tokens: seq<string>)
    ensures LastLink(tokens).None? <==> !HasLink(tokens)
    decreases |tokens|
  {
    if |tokens| > 0 {
      var n := |tokens| - 1;
      var init := tokens[..n];
      if !StartsWith(tokens[n], LinkPrefix) {
        LastLinkIsNullWithoutLink(init);
        if HasLink(tokens) {
          var i :| 0 <= i < |tokens| && StartsWith(tokens[i], LinkPrefix);
          assert init[i] == tokens[i];
        }
        if HasLink(init) {
          var i :| 0 <= i < n && StartsWith(init[i], LinkPrefix);
          assert tokens[i] == init[i];
        }
      }
    }
  }

  /** A link is the trimmed form of a token that starts with "http://" with none after it. */
  lemma {:induction false} LastLinkIsLast(tokens: seq<string>)
    requires LastLink(tokens).Some?
    ensures exists i :: LastLinkAt(tokens, i) && LastLink(tokens).value == Trim(tokens[i])
    decreases |tokens|
  {
    var n := |tokens| - 1;
    var init := tokens[..n];
    if StartsWith(tokens[n], LinkPrefix) {
      assert LastLinkAt(tokens, n);
    } else {
      LastLinkIsLast(init);
      var i :| LastLinkAt(init, i) && LastLink(init).value == Trim(init[i]);
      assert tokens[i] == init[i];
      forall j | i < j < |tokens| ensures !StartsWith(tokens[j], LinkPrefix) {
        if j < n {
          assert tokens[j] == init[j];
        }
      }
      assert LastLinkAt(tokens, i);
    }
  }

  /** The flags and the link after one more token. */
  lemma TokenStep(tokens: seq<string>, i: int)
    requires 0 <= i < |tokens|
    ensures HasLink(tokens[..i + 1]) <==> HasLink(tokens[..i]) || StartsWith(tokens[i], LinkPrefix)
    ensures IsRetweetText(tokens[..i + 1]) <==> IsRetweetText(tokens[..i]) || Trim(tokens[i]) == RetweetMarker
    ensures LastLink(tokens[..i + 1])
         == if StartsWith(tokens[i], LinkPrefix) then Some(Trim(tokens[i])) else LastLink(tokens[..i])
  {
    var left, right := tokens[..i], tokens[..i + 1];
    assert right[..i] == left;
    assert right[i] == tokens[i];
    if HasLink(right) && !StartsWith(tokens[i], LinkPrefix) {
      var k :| 0 <= k < i + 1 && StartsWith(right[k], LinkPrefix);
      assert left[k] == right[k];
    }
    if HasLink(left) {
      var k :| 0 <= k < i && StartsWith(left[k], LinkPrefix);
      assert right[k] == left[k];
    }
    if IsRetweetText(right) && Trim(tokens[i]) != RetweetMarker {
      var k :| 0 <= k < i + 1 && Trim(right[k]) == RetweetMarker;
      assert left[k] == right[k];
    }
    if IsRetweetText(left) {
      var k :| 0 <= k < i && Trim(left[k]) == RetweetMarker;
      assert right[k] == left[k];
    }
  }

  /** The token loop of `crawlTrends`: link and retweet flags of a tweet text. */
  method ParseText(text: string) returns (hasLink: bool, link: Option<string>, isRetweet: bool)
    ensures hasLink == HasLink(Tokens(text))
    ensures link == LastLink(Tokens(text))
    ensures isRetweet == IsRetweetText(Tokens(text))
  {
    var tweetTokens := Tokens(text);
    hasLink := false;
    isRetweet := false;
    link := None;
    for i := 0 to |tweetTokens|
      invariant hasLink == HasLink(tweetTokens[..i])
      invariant link == LastLink(tweetTokens[..i])
      invariant isRetweet == IsRetweetText(tweetTokens[..i])
    {
      var token := tweetTokens[i];
      TokenStep(tweetTokens, i);
      if StartsWith(token, LinkPrefix) {
        hasLink := true;
        link := Some(Trim(token));
      }
      if Trim(token) == RetweetMarker {
        isRetweet := true;
      }
    }
    assert tweetTokens[..|tweetTokens|] == tweetTokens;
  }

  // ------------------------------------------------------------ the record of a tweet

  /** The user `getUserInformation` makes up when the lookup fails. */
  function FallbackUser(screenName: string): TwitNewsUser {
    DefaultUser.(isVerifiedUser := false, numFollowers := 0, userName := Some(screenName))
  }

  /**
   * The record `crawlTrends` stores for a search result: the tweet's own fields, the
   * author's verified flag and follower count, the text features, -1.0 coordinates
   * without a geolocation and -1 retweets when the lookup failed; the remaining fields
   * keep their defaults.
   */
  function TweetRecord(tweet: Tweet, trendId: int, user: TwitNewsUser, retweets: Option<nat>): (t: TwitNewsTweet)
    ensures t.tweetId == tweet.id && t.trendId == trendId && t.text == Some(tweet.text)
    ensures t.userId == tweet.fromUserId && t.userName == Some(tweet.fromUser)
    ensures t.isVerifiedUser == user.isVerifiedUser && t.numFollowers == user.numFollowers
    ensures t.timestamp == Some(tweet.createdAt) && t.locationName == tweet.location
    ensures tweet.geoLocation.None? ==> t.latitude == -1.0 && t.longitude == -1.0
    ensures tweet.geoLocation.Some? ==>
      t.latitude == tweet.geoLocation.value.latitude && t.longitude == tweet.geoLocation.value.longitude
    ensures t.hasLink == HasLink(Tokens(tweet.text)) && t.link == LastLink(Tokens(tweet.text))
    ensures t.isRetweet == IsRetweetText(Tokens(tweet.text))
    ensures retweets.None? ==> t.retweetCount == -1
    ensures retweets.Some? ==> t.retweetCount == retweets.value
    ensures t.numTrendsContained == 0 && t.tfidf == 0 && t.rank == 0
  {
    var tokens := Tokens(tweet.text);
    var latitude := if tweet.geoLocation.Some? then tweet.geoLocation.value.latitude else -1.0;
    var longitude := if tweet.geoLocation.Some? then tweet.geoLocation.value.longitude else -1.0;
    var numRetweets := if retweets.Some? then retweets.value else -1;
    DefaultTweet.(tweetId := tweet.id, trendId := trendId, text := Some(tweet.text),
                  userId := tweet.fromUserId, userName := Some(tweet.fromUser),
                  isVerifiedUser := user.isVerifiedUser, numFollowers := user.numFollowers,
                  timestamp := Some(tweet.createdAt), locationName := tweet.location,
                  latitude := latitude, longitude := longitude,
                  hasLink := HasLink(tokens), link := LastLink(tokens), isRetweet := IsRetweetText(tokens),
                  retweetCount := numRetweets)
  }

  // ------------------------------------------------------------ the user cache

  /** `getUserInformation`: the author's record and the cache after the call. */
  function UserInformation(cache: map<string, TwitNewsUser>, screenName: string, showUser: string -> Option<User>)
    : (TwitNewsUser, map<string, TwitNewsUser>)
  {
    if screenName in cache then (cache[screenName], cache)
    else match showUser(screenName)
      case Some(user) => (UserFactory.FromUser(Some(user)), cache)
      case None => (FallbackUser(screenName), cache[screenName := FallbackUser(screenName)])
  }

  /** Every cached user is the fallback made up for its own screen name. */
  ghost predicate HoldsFallbacks(cache: map<string, TwitNewsUser>) {
    forall k :: k in cache ==> cache[k] == FallbackUser(k)
  }

  /**
   * A cached user is returned with no lookup; a user fetched from Twitter is returned but
   * not cached; only the fallback of a failed lookup is cached. So the cache holds nothing
   * but fallbacks, and a screen name whose lookup once failed never gets its real record.
   */
  lemma UserInformationCachesOnlyFallbacks(cache: map<string, TwitNewsUser>, screenName: string,
                                           showUser: string -> Option<User>, otherShowUser: string -> Option<User>)
    requires HoldsFallbacks(cache)
    ensures var (u, c) := UserInformation(cache, screenName, showUser);
      && HoldsFallbacks(c)
      && (screenName in cache ==> UserInformation(cache, screenName, otherShowUser) == (u, c) && u == FallbackUser(screenName))
      && (screenName !in cache && showUser(screenName).Some? ==>
            c == cache && u == UserFactory.FromUser(showUser(screenName)))
      && (screenName !in cache && showUser(screenName).None? ==>
            c.Keys == cache.Keys + {screenName} && u == FallbackUser(screenName)
            && !u.isVerifiedUser && u.numFollowers == 0)
  {
  }

  // ------------------------------------------------------------ crawlTrends

  /**
   * The records of one trend's search results, in order, with the cache threaded
   * through: the i-th record is the i-th tweet's, under the trend's id.
   */
  function TrendRecords(cache: map<string, TwitNewsUser>, tweets: seq<Tweet>, trendId: int,
                        showUser: string -> Option<User>, retweets: int -> Option<nat>)
    : (r: (seq<TwitNewsTweet>, map<string, TwitNewsUser>))
    ensures |r.0| == |tweets|
    ensures forall i :: 0 <= i < |tweets| ==> r.0[i].tweetId == tweets[i].id && r.0[i].trendId == trendId
    decreases |tweets|
  {
    if |tweets| == 0 then ([], cache)
    else
      var (records, c) := TrendRecords(cache, tweets[..|tweets| - 1], trendId, showUser, retweets);
      var tweet := tweets[|tweets| - 1];
      var (user, c') := UserInformation(c, tweet.fromUser, showUser);
      (records + [TweetRecord(tweet, trendId, user, retweets(tweet.id))], c')
  }

  /**
   * The records of the visited trends, in order. A trend whose search throws or finds
   * nothing is not stored and adds no record.
   */
  function CrawledRecords(cache: map<string, TwitNewsUser>, visited: seq<string>,
                          searched: string -> Option<seq<Tweet>>, insertTrend: TwitNewsTrend -> int,
                          showUser: string -> Option<User>, retweets: int -> Option<nat>)
    : (seq<TwitNewsTweet>, map<string, TwitNewsUser>)
    decreases |visited|
  {
    if |visited| == 0 then ([], cache)
    else
      var (records, c) := CrawledRecords(cache, visited[..|visited| - 1], searched, insertTrend, showUser, retweets);
      var name := visited[|visited| - 1];
      match searched(name)
      case None => (records, c)
      case Some(tweets) =>
        if |tweets| == 0 then (records, c)
        else
          var (more, c') := TrendRecords(c, tweets, insertTrend(Named(name)), showUser, retweets);
          (records + more, c')
  }

  /** One record per tweet found for a visited trend. */
  function TotalFound(visited: seq<string>, searched: string -> Option<seq<Tweet>>): nat
    decreases |visited|
  {
    if |visited| == 0 then 0
    else
      TotalFound(visited[..|visited| - 1], searched)
        + match searched(visited[|visited| - 1]) case None => 0 case Some(tweets) => |tweets|
  }

  /**
   * The crawl hands exactly one record per found tweet to the tweet store, and leaves a
   * cache of fallbacks holding only fallbacks.
   */
  lemma {:induction false} CrawledRecordsCount(cache: map<string, TwitNewsUser>, visited: seq<string>,
                                               searched: string -> Option<seq<Tweet>>,
                                               insertTrend: TwitNewsTrend -> int,
                                               showUser: string -> Option<User>, retweets: int -> Option<nat>)
    requires HoldsFallbacks(cache)
    ensures var (records, c) := CrawledRecords(cache, visited, searched, insertTrend, showUser, retweets);
      |records| == TotalFound(visited, searched) && HoldsFallbacks(c)
    decreases |visited|
  {
    if |visited| > 0 {
      var init := visited[..|visited| - 1];
      CrawledRecordsCount(cache, init, searched, insertTrend, showUser, retweets);
      var (records, c) := CrawledRecords(cache, init, searched, insertTrend, showUser, retweets);
      var name := visited[|visited| - 1];
      if searched(name).Some? && |searched(name).value| > 0 {
        TrendRecordsKeepFallbacks(c, searched(name).value, insertTrend(Named(name)), showUser, retweets);
      }
    }
  }

  /** The cache keeps holding only fallbacks across one trend's tweets. */
  lemma {:induction false} TrendRecordsKeepFallbacks(cache: map<string, TwitNewsUser>, tweets: seq<Tweet>, trendId: int,
                                                     showUser: string -> Option<User>, retweets: int -> Option<nat>)
    requires HoldsFallbacks(cache)
    ensures HoldsFallbacks(TrendRecords(cache, tweets, trendId, showUser, retweets).1)
    decreases |tweets|
  {
    if |tweets| > 0 {
      TrendRecordsKeepFallbacks(cache, tweets[..|tweets| - 1], trendId, showUser, retweets);
      var c := TrendRecords(cache, tweets[..|tweets| - 1], trendId, showUser, retweets).1;
      UserInformationCachesOnlyFallbacks(c, tweets[|tweets| - 1].fromUser, showUser, showUser);
    }
  }

  /** The crawler's user cache, the one static it updates. */
  class Crawler {
    var userCache: map<string, TwitNewsUser>

    ghost predicate Valid()
      reads this
    {
      HoldsFallbacks(userCache)
    }

    constructor ()
      ensures Valid() && userCache == map[]
    {
      userCache := map[];
    }

    /** `getUserInformation`. */
    method GetUserInformation(tweet: Tweet, showUser: string -> Option<User>) returns (twitNewsUser: TwitNewsUser)
      modifies this
      ensures (twitNewsUser, userCache) == UserInformation(old(userCache), tweet.fromUser, showUser)
    {
      if tweet.fromUser in userCache {
        twitNewsUser := userCache[tweet.fromUser];
      } else {
        var user := showUser(tweet.fromUser);
        if user.Some? {
          twitNewsUser := UserFactory.FromUser(user);
        } else {
          twitNewsUser := FallbackUser(tweet.fromUser);
          userCache := userCache[tweet.fromUser := twitNewsUser];
        }
      }
    }

    /** The body of the loop over one trend's search results, once the author is known. */
    static method MakeRecord(tweet: Tweet, trendId: int, twitNewsUser: TwitNewsUser, found: Option<nat>)
      returns (twitNewsTweet: TwitNewsTweet)
      ensures twitNewsTweet == TweetRecord(tweet, trendId, twitNewsUser, found)
    {
      var hasLink, link, isRetweet := ParseText(tweet.text);
      var latitude := -1.0;
      var longitude := -1.0;
      if tweet.geoLocation.Some? {
        latitude := tweet.geoLocation.value.latitude;
        longitude := tweet.geoLocation.value.longitude;
      }
      var numRetweets: int := -1;
      if found.Some? {
        numRetweets := found.value;
      }
      twitNewsTweet := DefaultTweet.(
        tweetId := tweet.id, trendId := trendId, text := Some(tweet.text),
        userId := tweet.fromUserId, userName := Some(tweet.fromUser),
        isVerifiedUser := twitNewsUser.isVerifiedUser, numFollowers := twitNewsUser.numFollowers,
        timestamp := Some(tweet.createdAt), locationName := tweet.location,
        latitude := latitude, longitude := longitude,
        hasLink := hasLink, link := link, isRetweet := isRetweet, retweetCount := numRetweets);
    }

    /** The loop over one trend's search results. */
    method CrawlTweets(tweets: seq<Tweet>, trendId: int, showUser: string -> Option<User>,
                       retweets: int -> Option<nat>) returns (records: seq<TwitNewsTweet>)
      modifies this
      ensures (records, userCache) == TrendRecords(old(userCache), tweets, trendId, showUser, retweets)
    {
      records := [];
      for i := 0 to |tweets|
        invariant (records, userCache) == TrendRecords(old(userCache), tweets[..i], trendId, showUser, retweets)
      {
        assert tweets[..i + 1][..i] == tweets[..i];
        var tweet := tweets[i];
        var twitNewsUser := GetUserInformation(tweet, showUser);
        var twitNewsTweet := MakeRecord(tweet, trendId, twitNewsUser, retweets(tweet.id));
        records := records + [twitNewsTweet];
      }
      assert tweets[..|tweets|] == tweets;
    }

    /**
     * `crawlTrends` over the fetched trend names: the records handed to the tweet store,
     * in order. A name is marked seen before its search, so a trend whose search throws
     * is not searched again for a later name with the same key.
     */
    method CrawlTrends(names: seq<string>, searched: string -> Option<seq<Tweet>>,
                       insertTrend: TwitNewsTrend -> int, showUser: string -> Option<User>,
                       retweets: int -> Option<nat>) returns (records: seq<TwitNewsTweet>)
      modifies this
      ensures (records, userCache)
           == CrawledRecords(old(userCache), FirstOfEach(names, NameKey), searched, insertTrend, showUser, retweets)
    {
      records := [];
      var trendNames: set<string> := {};
      for i := 0 to |names|
        invariant trendNames == KeysOf(FirstOfEach(names[..i], NameKey), NameKey)
        invariant (records, userCache)
               == CrawledRecords(old(userCache), FirstOfEach(names[..i], NameKey), searched, insertTrend, showUser, retweets)
      {
        FirstOfEachStep(names, NameKey, i);
        ghost var kept := FirstOfEach(names[..i], NameKey);
        assert (kept + [names[i]])[..|kept|] == kept;
        var trendName := NameKey(names[i]);
        var twitNewsTrend := Named(names[i]);
        if trendName !in trendNames {
          trendNames := trendNames + {trendName};
          var queryResult := searched(names[i]);
          if queryResult.Some? && |queryResult.value| > 0 {
            var trendId := insertTrend(twitNewsTrend);
            var more := CrawlTweets(queryResult.value, trendId, showUser, retweets);
            records := records + more;
          }
        }
      }
      assert names[..|names|] == names;
    }
  }
}
