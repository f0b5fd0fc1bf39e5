/**
 * The terms both `computeRank` functions share, written once: the link test with its
 * "(cont)" exception, the retweet count a retweet does not get and the integer-divided
 * retweet term. The log-scaled follower term
 * `Math.log(numFollowers) / Math.log(MAX_TWITTER_FOLLOWERS)` is the parameter
 * `logRatio(numFollowers)` of both rank functions.
 */
module RankTerms {
  import opened JavaLang
  import opened TwitNewsConstants
  import opened DomainTweet

  /** `computeRank` reads the text only when the tweet has a link; a null text then throws. */
  predicate CanRank(t: TwitNewsTweet) {
    t.hasLink ==> t.text.Some?
  }

  /** The link term applies: a link, and no "(cont)" (in any case) in the text. */
  predicate LinkCounts(t: TwitNewsTweet)
    requires CanRank(t)
  {
    t.hasLink && !Contains(ToLower(t.text.value), "(cont)")
  }

  /** The retweet count the rank uses: none for a tweet that is itself a retweet. */
  function RetweetsUsed(t: TwitNewsTweet): (n: int)
    ensures t.isRetweet ==> n == 0
    ensures !t.isRetweet ==> n == t.retweetCount
  {
    if t.isRetweet then 0 else t.retweetCount
  }

  /** `retweets / MAX_RETWEENT_COUNT`, Java's truncating long division. */
  function RetweetTerm(t: TwitNewsTweet): int {
    Quotient(RetweetsUsed(t), MaxRetweetCount)
  }

  /**
   * The retweet term is 0 for every count strictly between -101 and 101 (the -1 that
   * marks a failed lookup included) and for every retweet.
   */
  lemma RetweetTermSmall(t: TwitNewsTweet)
    ensures -MaxRetweetCount < RetweetsUsed(t) < MaxRetweetCount ==> RetweetTerm(t) == 0
    ensures t.isRetweet ==> RetweetTerm(t) == 0
  {
    QuotientBounds(RetweetsUsed(t), MaxRetweetCount);
  }

  /**
   * Above the zero cases, the retweet term counts whole groups of 101 retweets: it is the
   * number of complete groups in the count, so 101 retweets are the first to earn 1.
   */
  lemma RetweetTermGroups(t: TwitNewsTweet)
    requires 0 <= RetweetsUsed(t)
    ensures RetweetTerm(t) * MaxRetweetCount <= RetweetsUsed(t) < (RetweetTerm(t) + 1) * MaxRetweetCount
    ensures MaxRetweetCount <= RetweetsUsed(t) ==> 1 <= RetweetTerm(t)
  {
    QuotientBounds(RetweetsUsed(t), MaxRetweetCount);
  }

  /** More retweets never give a smaller retweet term. */
  lemma RetweetTermMonotone(t: TwitNewsTweet, n: int)
    requires !t.isRetweet && 0 <= t.retweetCount <= n
    ensures RetweetTerm(t) <= RetweetTerm(t.(retweetCount := n))
  {
    QuotientMonotone(t.retweetCount, n, MaxRetweetCount);
  }
}
