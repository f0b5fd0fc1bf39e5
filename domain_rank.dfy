/**
 * `TwitNewsRank`: the rank a tweet earned in a trend, with `equals` and `toString`.
 * The setters are the record updates `r.(rankId := v)`, `r.(trendId := v)`, and so on.
 */
module DomainRank {
  import opened Wrappers
  import opened JavaLang

  datatype TwitNewsRank = TwitNewsRank(rankId: int, trendId: int, tweetId: int, rank: int)

  /** A freshly constructed rank: every field 0. */
  const DefaultRank := TwitNewsRank(0, 0, 0, 0)

  /** `TwitNewsRank.equals(o)`: another rank whose four fields are all equal. */
  function Equals(r: TwitNewsRank, o: ObjectRef<TwitNewsRank>): (b: bool)
    ensures b <==> o == Of(r)
  {
    match o
    case Null => false
    case OfOtherClass => false
    case Of(that) =>
      if r.rank != that.rank then false
      else if r.rankId != that.rankId then false
      else if r.trendId != that.trendId then false
      else r.tweetId == that.tweetId
  }

  /** `TwitNewsRank.toString`: the four fields in declaration order inside `TwitNewsRank{...}`. */
  function ToString(r: TwitNewsRank): (s: string)
    ensures StartsWith(s, "TwitNewsRank{rankId=") && s[|s| - 1] == '}'
  {
    "TwitNewsRank{rankId=" + (IntToString(r.rankId) + AfterRankId(r))
  }

  function AfterRankId(r: TwitNewsRank): (s: string)
    ensures StartsWith(s, ", trendId=") && s[|s| - 1] == '}'
  {
    ", trendId=" + (IntToString(r.trendId) + AfterTrendId(r))
  }

  function AfterTrendId(r: TwitNewsRank): (s: string)
    ensures StartsWith(s, ", tweetId=") && s[|s| - 1] == '}'
  {
    ", tweetId=" + (IntToString(r.tweetId) + AfterTweetId(r))
  }

  function AfterTweetId(r: TwitNewsRank): (s: string)
    ensures StartsWith(s, ", rank=") && s[|s| - 1] == '}'
  {
    ", rank=" + (IntToString(r.rank) + "}")
  }

  /** The printed form determines the rank: `toString` is injective. */
  lemma ToStringInjective(r: TwitNewsRank, q: TwitNewsRank)
    requires ToString(r) == ToString(q)
    ensures r == q
  {
    PrefixedIntToString("TwitNewsRank{rankId=", r.rankId, AfterRankId(r), q.rankId, AfterRankId(q));
    PrefixedIntToString(", trendId=", r.trendId, AfterTrendId(r), q.trendId, AfterTrendId(q));
    PrefixedIntToString(", tweetId=", r.tweetId, AfterTweetId(r), q.tweetId, AfterTweetId(q));
    PrefixedIntToString(", rank=", r.rank, "}", q.rank, "}");
  }

  /** Consequently two ranks print alike exactly when `equals` holds between them. */
  lemma ToStringAgreesWithEquals(r: TwitNewsRank, q: TwitNewsRank)
    ensures ToString(r) == ToString(q) <==> Equals(r, Of(q))
  {
    if ToString(r) == ToString(q) {
      ToStringInjective(r, q);
    }
  }
}
