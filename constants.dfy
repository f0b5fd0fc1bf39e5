/** The numeric constants the rankers and crawlers share (`TwitNewsConstants`). */
module TwitNewsConstants {
  /** The most retweets the Twitter API reports for one status. */
  const MaxRetweetCount: int := 101

  /** The follower count the follower term is normalised against. */
  const MaxTwitterFollowers: int := 15000000
}
