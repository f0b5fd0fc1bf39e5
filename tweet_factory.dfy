/** `TwitNewsTweetFactory.fromStatus`: the stored record for a status and the trend it matched. */
module TweetFactory {
  import opened Wrappers
  import opened Twitter
  import opened DomainTweet

  /** The link a status carries: its first media item, else its first URL entity, else none. */
  function LinkOf(status: Status): (link: Option<string>)
    ensures |status.mediaEntities| > 0 ==> link == Some(status.mediaEntities[0].expandedUrl)
    ensures |status.mediaEntities| == 0 && |status.urlEntities| > 0 ==>
      link == Some(match status.urlEntities[0].expandedUrl
                   case Some(u) => u
                   case None => status.urlEntities[0].printed)
    ensures |status.mediaEntities| == 0 && |status.urlEntities| == 0 ==> link == None
  {
    if |status.mediaEntities| > 0 then Some(status.mediaEntities[0].expandedUrl)
    else if |status.urlEntities| > 0 then
      var url := status.urlEntities[0];
      if url.expandedUrl.Some? then Some(url.expandedUrl.value) else Some(url.printed)
    else None
  }

  /**
   * `fromStatus(status, trendId)`; `None` is the NullPointerException thrown when the
   * status has no user. The trend id ends up in `tweetId` (the second `setTweetId`
   * overwrites the status id) while `trendId` keeps its default 0.
   */
  function FromStatus(status: Status, trendId: int): (r: Option<TwitNewsTweet>)
    ensures r.Some? <==> status.user.Some?
    ensures r.Some? ==>
      var t := r.value;
      var user := status.user.value;
      && t.tweetId == trendId && t.trendId == 0
      && t.text == Some(status.text)
      && t.userId == user.id && t.userName == user.screenName
      && t.isVerifiedUser == user.isVerified && t.numFollowers == user.followersCount
      && t.timestamp == Some(status.createdAt)
      && (status.place.Some? ==> t.locationName == status.place.value.name)
      && (status.place.None? ==> t.locationName == None)
      && (status.geoLocation.Some? ==>
            t.latitude == status.geoLocation.value.latitude
            && t.longitude == status.geoLocation.value.longitude)
      && (status.geoLocation.None? ==> t.latitude == -1.0 && t.longitude == -1.0)
      && t.link == LinkOf(status)
      && (t.hasLink <==> |status.mediaEntities| > 0 || |status.urlEntities| > 0)
      && t.isRetweet == IsRetweet(status) && t.retweetCount == status.retweetCount
      && t.numTrendsContained == 0 && t.tfidf == 0 && t.rank == 0
  {
    match status.user
    case None => None
    case Some(user) =>
      var t := DefaultTweet.(tweetId := status.id);
      var t := t.(tweetId := trendId);
      var t := t.(text := Some(status.text));
      var t := t.(userId := user.id, userName := user.screenName,
                  isVerifiedUser := user.isVerified, numFollowers := user.followersCount);
      var t := t.(timestamp := Some(status.createdAt));
      var t := if status.place.Some? then t.(locationName := status.place.value.name) else t;
      var t := match status.geoLocation
               case Some(g) => t.(latitude := g.latitude, longitude := g.longitude)
               case None => t.(latitude := -1.0, longitude := -1.0);
      var t := t.(hasLink := |status.mediaEntities| > 0 || |status.urlEntities| > 0,
                  link := LinkOf(status));
      var t := t.(isRetweet := IsRetweet(status), retweetCount := status.retweetCount);
      Some(t.(tfidf := 0, rank := 0))
  }

  /** A built tweet has a link exactly when it is flagged as having one. */
  lemma HasLinkIffLink(status: Status, trendId: int)
    requires FromStatus(status, trendId).Some?
    ensures FromStatus(status, trendId).value.hasLink <==> FromStatus(status, trendId).value.link.Some?
  {
  }

  /** The status id is overwritten: statuses that differ only in their id give the same tweet. */
  lemma FromStatusIgnoresStatusId(status: Status, id: int, trendId: int)
    ensures FromStatus(status.(id := id), trendId) == FromStatus(status, trendId)
  {
  }
}
