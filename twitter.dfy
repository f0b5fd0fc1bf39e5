/**
 * The twitter4j records the crawlers read, reduced to the getters they call. A status or
 * user is what the streaming or REST client delivered; nothing here talks to Twitter.
 */
module Twitter {
  import opened Wrappers

  /** `twitter4j.User`: id, screen name, display name, verified flag, follower count. */
  datatype User = User(
    id: int,
    screenName: Option<string>,
    name: Option<string>,
    isVerified: bool,
    followersCount: int)

  /** `twitter4j.Place`, of which only the name is read. */
  datatype Place = Place(name: Option<string>)

  /** `twitter4j.GeoLocation`. */
  datatype GeoLocation = GeoLocation(latitude: real, longitude: real)

  /** A media entity of a status; its expanded URL, already turned into text. */
  datatype MediaEntity = MediaEntity(expandedUrl: string)

  /**
   * A URL entity of a status: its expanded URL (which twitter4j may leave null) and what
   * the entity's own `toString` prints.
   */
  datatype UrlEntity = UrlEntity(expandedUrl: Option<string>, printed: string)

  /**
   * `twitter4j.Status`. `createdAt` is the creation time in milliseconds since the epoch.
   * A missing media or URL array is the empty sequence, which the code treats alike.
   */
  datatype Status = Status(
    id: int,
    text: string,
    user: Option<User>,
    createdAt: int,
    place: Option<Place>,
    geoLocation: Option<GeoLocation>,
    mediaEntities: seq<MediaEntity>,
    urlEntities: seq<UrlEntity>,
    retweetedStatus: Option<Status>,
    retweetCount: int)

  /**
   * `twitter4j.Tweet`, a search result: its id, text, author id and screen name, creation
   * time in milliseconds, geolocation and free-text location.
   */
  datatype Tweet = Tweet(
    id: int,
    text: string,
    fromUserId: int,
    fromUser: string,
    createdAt: int,
    geoLocation: Option<GeoLocation>,
    location: Option<string>)

  /** `Status.isRetweet`: the status carries the status it retweets. */
  predicate IsRetweet(s: Status) {
    s.retweetedStatus.Some?
  }
}
