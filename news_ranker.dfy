/**
 * `NewsRanker`: the news rank of a stored tweet, a weighted sum of its keyword score
 * (tfidf), its link, its retweets, its followers and its verified flag, scaled by a
 * million and cast to `int`; and the loop of `main` that re-ranks the tweets of a trend.
 */
module NewsRanker {
  import opened Wrappers
  import opened JavaLang
  import opened TwitNewsConstants
  import opened DomainTweet
  import opened RankTerms

  /** `keywordMatchScore + linkScore + trustScore` with the weights 0.5, 0.05, 0.15, 0.1 and 0.2. */
  function NewsScore(t: TwitNewsTweet, logRatio: int -> real): real
    requires CanRank(t)
  {
    var keywordMatchScore := t.tfidf as real * 0.5;
    var linkScore := if LinkCounts(t) then 0.05 else 0.0;
    var trustScore := 0.15 * RetweetTerm(t) as real + 0.1 * logRatio(t.numFollowers)
                      + (if t.isVerifiedUser then 0.2 else 0.0);
    keywordMatchScore + linkScore + trustScore
  }

  /**
   * `NewsRanker.computeRank(tweet)`; `None` is the NullPointerException of a tweet that
   * has a link but no text. There is no spam term.
   */
  function ComputeRank(t: TwitNewsTweet, logRatio: int -> real): (r: Option<int>)
    ensures r.None? <==> t.hasLink && t.text.None?
    ensures r.Some? ==> IsInt(r.value)
  {
    if CanRank(t) then Some(DoubleToInt(1000000.0 * NewsScore(t, logRatio))) else None
  }

  /**
   * The rank reads seven fields and nothing else: tweets that agree on the tfidf, the
   * link flag, the text, the retweet count and flag, the followers and the verified flag
   * get the same rank.
   */
  lemma RankDependsOnlyOn(t: TwitNewsTweet, u: TwitNewsTweet, logRatio: int -> real)
    requires t.tfidf == u.tfidf && t.hasLink == u.hasLink && t.text == u.text
    requires t.retweetCount == u.retweetCount && t.isRetweet == u.isRetweet
    requires t.numFollowers == u.numFollowers && t.isVerifiedUser == u.isVerifiedUser
    ensures ComputeRank(t, logRatio) == ComputeRank(u, logRatio)
  {
    assert CanRank(t) == CanRank(u);
    if CanRank(t) {
      assert LinkCounts(t) == LinkCounts(u);
      assert RetweetTerm(t) == RetweetTerm(u);
    }
  }

  /** Re-ranking is idempotent: the old rank does not enter the new one. */
  lemma ComputeRankIgnoresRank(t: TwitNewsTweet, rank: int, logRatio: int -> real)
    ensures ComputeRank(t.(rank := rank), logRatio) == ComputeRank(t, logRatio)
  {
    RankDependsOnlyOn(t.(rank := rank), t, logRatio);
  }

  /** The keyword term is the tfidf times 0.5. */
  lemma KeywordTerm(t: TwitNewsTweet, logRatio: int -> real)
    requires CanRank(t)
    ensures NewsScore(t, logRatio) == t.tfidf as real * 0.5 + NewsScore(t.(tfidf := 0), logRatio)
  {
    assert LinkCounts(t) == LinkCounts(t.(tfidf := 0));
    assert RetweetTerm(t) == RetweetTerm(t.(tfidf := 0));
  }

  /** The link term is 0.05 for a link, unless the text contains "(cont)" in any case. */
  lemma LinkTerm(t: TwitNewsTweet, logRatio: int -> real)
    requires CanRank(t)
    ensures NewsScore(t, logRatio) == (if LinkCounts(t) then 0.05 else 0.0) + NewsScore(t.(hasLink := false), logRatio)
  {
    assert RetweetTerm(t) == RetweetTerm(t.(hasLink := false));
  }

  /** A "(cont)" link, the mark of a tweet-lengthening service, ranks like no link at all. */
  lemma ContIsNoLink(t: TwitNewsTweet, logRatio: int -> real)
    requires t.text.Some? && Contains(ToLower(t.text.value), "(cont)")
    ensures ComputeRank(t, logRatio) == ComputeRank(t.(hasLink := false), logRatio)
  {
    LinkTerm(t, logRatio);
  }

  /** A verified user adds 0.2 to the score, so verification never lowers the rank. */
  lemma VerifiedTerm(t: TwitNewsTweet, logRatio: int -> real)
    requires CanRank(t)
    ensures NewsScore(t.(isVerifiedUser := true), logRatio) == NewsScore(t.(isVerifiedUser := false), logRatio) + 0.2
    ensures ComputeRank(t.(isVerifiedUser := false), logRatio).value <= ComputeRank(t.(isVerifiedUser := true), logRatio).value
  {
    var f, v := t.(isVerifiedUser := false), t.(isVerifiedUser := true);
    assert LinkCounts(f) == LinkCounts(v);
    assert RetweetTerm(f) == RetweetTerm(v);
    DoubleToIntMonotone(1000000.0 * NewsScore(f, logRatio), 1000000.0 * NewsScore(v, logRatio));
  }

  /** A retweet's own retweet count is ignored. */
  lemma RetweetCountIgnoredForRetweets(t: TwitNewsTweet, n: int, logRatio: int -> real)
    requires t.isRetweet
    ensures ComputeRank(t.(retweetCount := n), logRatio) == ComputeRank(t, logRatio)
  {
    var u := t.(retweetCount := n);
    if CanRank(t) {
      assert LinkCounts(t) == LinkCounts(u);
      assert RetweetTerm(u) == 0 == RetweetTerm(t);
    }
  }

  /**
   * The retweet term is an integer quotient: any count from -100 to 100 ranks like 0,
   * and 101 retweets are the first to add 0.15.
   */
  lemma SmallRetweetCountsIgnored(t: TwitNewsTweet, logRatio: int -> real)
    requires -MaxRetweetCount < t.retweetCount < MaxRetweetCount
    ensures ComputeRank(t, logRatio) == ComputeRank(t.(retweetCount := 0), logRatio)
  {
    var u := t.(retweetCount := 0);
    RetweetTermSmall(t);
    RetweetTermSmall(u);
    if CanRank(t) {
      assert LinkCounts(t) == LinkCounts(u);
    }
  }

  /** The retweet term is 0.15 for every whole group of 101 retweets a tweet that is not a retweet has. */
  lemma RetweetCountTerm(t: TwitNewsTweet, logRatio: int -> real)
    requires CanRank(t)
    ensures NewsScore(t, logRatio) == 0.15 * RetweetTerm(t) as real + NewsScore(t.(retweetCount := 0), logRatio)
  {
    var u := t.(retweetCount := 0);
    assert LinkCounts(t) == LinkCounts(u);
    RetweetTermSmall(u);
  }

  /** More retweets never give a lower rank. */
  lemma RetweetsMonotone(t: TwitNewsTweet, n: int, logRatio: int -> real)
    requires CanRank(t) && !t.isRetweet && 0 <= t.retweetCount <= n
    ensures ComputeRank(t, logRatio).value <= ComputeRank(t.(retweetCount := n), logRatio).value
  {
    var u := t.(retweetCount := n);
    RetweetCountTerm(t, logRatio);
    RetweetCountTerm(u, logRatio);
    assert t.(retweetCount := 0) == u.(retweetCount := 0);
    RetweetTermMonotone(t, n);
    DoubleToIntMonotone(1000000.0 * NewsScore(t, logRatio), 1000000.0 * NewsScore(u, logRatio));
  }

  /** The follower term is 0.1 times the log ratio of the follower count. */
  lemma FollowerTerm(t: TwitNewsTweet, m: int, logRatio: int -> real)
    requires CanRank(t)
    ensures NewsScore(t.(numFollowers := m), logRatio)
            == NewsScore(t, logRatio) + 0.1 * (logRatio(m) - logRatio(t.numFollowers))
  {
    var u := t.(numFollowers := m);
    assert LinkCounts(t) == LinkCounts(u);
    assert RetweetTerm(t) == RetweetTerm(u);
  }

  /** A higher tfidf never gives a lower rank. */
  lemma TfidfMonotone(t: TwitNewsTweet, x: int, y: int, logRatio: int -> real)
    requires CanRank(t)
    requires x <= y
    ensures ComputeRank(t.(tfidf := x), logRatio).value <= ComputeRank(t.(tfidf := y), logRatio).value
  {
    var tx, ty := t.(tfidf := x), t.(tfidf := y);
    KeywordTerm(tx, logRatio);
    KeywordTerm(ty, logRatio);
    assert tx.(tfidf := 0) == ty.(tfidf := 0);
    DoubleToIntMonotone(1000000.0 * NewsScore(tx, logRatio), 1000000.0 * NewsScore(ty, logRatio));
  }

  /**
   * The loop of `main` over one trend's fetched tweets: each tweet's rank is replaced,
   * in place and in order, by `computeRank`. An exception stops the program at the
   * first tweet that cannot be ranked: `done` is its index, the tweets before it carry
   * their new ranks and it and the ones after it are untouched (`updateRanks` is then
   * never reached). `done == a.Length` means every tweet was re-ranked.
   */
  method ReRank(a: array<TwitNewsTweet>, logRatio: int -> real) returns (done: nat)
    modifies a
    ensures done <= a.Length
    ensures forall i :: 0 <= i < done ==>
      ComputeRank(old(a[i]), logRatio).Some? && a[i] == old(a[i]).(rank := ComputeRank(old(a[i]), logRatio).value)
    ensures forall i :: done <= i < a.Length ==> a[i] == old(a[i])
    ensures done < a.Length ==> ComputeRank(a[done], logRatio).None?
  {
    done := 0;
    while done < a.Length
      invariant done <= a.Length
      invariant forall i :: 0 <= i < done ==>
        ComputeRank(old(a[i]), logRatio).Some? && a[i] == old(a[i]).(rank := ComputeRank(old(a[i]), logRatio).value)
      invariant forall i :: done <= i < a.Length ==> a[i] == old(a[i])
    {
      var newRankScore := ComputeRank(a[done], logRatio);
      if newRankScore.None? {
        return;
      }
      a[done] := a[done].(rank := newRankScore.value);
      done := done + 1;
    }
  }
}
