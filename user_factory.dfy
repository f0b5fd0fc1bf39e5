/** `TwitNewsUserFactory.fromUser` and `fromStatus`: the stored user for a Twitter user. */
module UserFactory {
  import opened Wrappers
  import opened Twitter
  import opened DomainUser

  /** `fromUser(user)`: the Twitter user's fields, or the default user when it is null. */
  function FromUser(user: Option<User>): (u: TwitNewsUser)
    ensures user.None? ==> u == DefaultUser
    ensures user.Some? ==>
      u.userName == user.value.screenName && u.name == user.value.name
      && u.isVerifiedUser == user.value.isVerified && u.numFollowers == user.value.followersCount
  {
    match user
    case None => DefaultUser
    case Some(x) =>
      DefaultUser.(userName := x.screenName, name := x.name,
                   isVerifiedUser := x.isVerified, numFollowers := x.followersCount)
  }

  /** `fromStatus(status)`: the same construction written out again for the status's user. */
  function FromStatus(status: Status): (u: TwitNewsUser)
    ensures status.user.None? ==> !u.isVerifiedUser && u.numFollowers == 0 && u.userName == None
  {
    var u := DefaultUser;
    if status.user.Some? then
      var user := status.user.value;
      u.(userName := user.screenName, name := user.name,
         isVerifiedUser := user.isVerified, numFollowers := user.followersCount)
    else u
  }

  /** Both factories agree, the null user included. */
  lemma FromStatusIsFromUser(status: Status)
    ensures FromStatus(status) == FromUser(status.user)
  {
  }
}
