/**
 * `TwitNewsTweet`: the record a crawler stores for one tweet. Java's `long` and `int`
 * fields are `int` here, doubles are reals, the `Timestamp` is its millisecond value and
 * a reference that may be null is an `Option`. A setter `setX(v)` is the record update
 * `t.(x := v)` and the matching getter reads the field back, so each setter writes its
 * own field alone.
 */
module DomainTweet {
  import opened Wrappers
  import opened JavaLang

  datatype TwitNewsTweet = TwitNewsTweet(
    tweetId: int,
    trendId: int,
    text: Option<string>,
    userId: int,
    userName: Option<string>,
    isVerifiedUser: bool,
    numFollowers: int,
    timestamp: Option<int>,
    locationName: Option<string>,
    latitude: real,
    longitude: real,
    hasLink: bool,
    link: Option<string>,
    isRetweet: bool,
    retweetCount: int,
    numTrendsContained: int,
    tfidf: int,
    rank: int)

  /** A freshly constructed tweet: Java's defaults, 0, false and null, for every field. */
  const DefaultTweet := TwitNewsTweet(0, 0, None, 0, None, false, 0, None, None, 0.0, 0.0,
                                      false, None, false, 0, 0, 0, 0)

  /**
   * `TwitNewsTweet.toString`: `TwitNewsTweet{tweetId=..., trendId=..., text='...', userId=...,
   * userName='...', isVerifiedUser=..., numFollowers=..., link='...', retweetCount=...,
   * numTrendsContained=..., isRetweet=..., hasLink=...}`.
   */
  function ToString(t: TwitNewsTweet): (s: string)
    ensures StartsWith(s, "TwitNewsTweet{tweetId=") && s[|s| - 1] == '}'
  {
    "TwitNewsTweet{tweetId=" + (IntToString(t.tweetId) + (", trendId=" + (Fields(t) + "}")))
  }

  /** What `toString` prints between `, trendId=` and the closing brace. */
  function Fields(t: TwitNewsTweet): string {
    IntToString(t.trendId)
      + ", text='" + RefToString(t.text) + "'"
      + ", userId=" + IntToString(t.userId)
      + ", userName='" + RefToString(t.userName) + "'"
      + ", isVerifiedUser=" + BoolToString(t.isVerifiedUser)
      + ", numFollowers=" + IntToString(t.numFollowers)
      + ", link='" + RefToString(t.link) + "'"
      + ", retweetCount=" + IntToString(t.retweetCount)
      + ", numTrendsContained=" + IntToString(t.numTrendsContained)
      + ", isRetweet=" + BoolToString(t.isRetweet)
      + ", hasLink=" + BoolToString(t.hasLink)
  }

  /** The timestamp, location, coordinates, tfidf and rank are not printed. */
  lemma ToStringOmits(t: TwitNewsTweet, timestamp: Option<int>, locationName: Option<string>,
                      latitude: real, longitude: real, tfidf: int, rank: int)
    ensures ToString(t) == ToString(t.(timestamp := timestamp, locationName := locationName,
      latitude := latitude, longitude := longitude, tfidf := tfidf, rank := rank))
  {
    var u := t.(timestamp := timestamp, locationName := locationName,
      latitude := latitude, longitude := longitude, tfidf := tfidf, rank := rank);
    assert Fields(u) == Fields(t);
  }

  /** The printed form gives the tweet id back. */
  lemma ToStringDeterminesTweetId(t: TwitNewsTweet, u: TwitNewsTweet)
    requires ToString(t) == ToString(u)
    ensures t.tweetId == u.tweetId
  {
    var x, y := ", trendId=" + (Fields(t) + "}"), ", trendId=" + (Fields(u) + "}");
    assert x[0] == ',' && y[0] == ',';
    PrefixedIntToString("TwitNewsTweet{tweetId=", t.tweetId, x, u.tweetId, y);
  }
}
