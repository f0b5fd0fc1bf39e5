/**
 * `TwitNewsUser`: a user as stored by the crawlers, with its `equals` and `hashCode`.
 * A setter `setX(v)` is the record update `u.(x := v)`, which by construction changes
 * that field alone.
 */
module DomainUser {
  import opened Wrappers
  import opened JavaLang

  datatype TwitNewsUser = TwitNewsUser(
    userName: Option<string>,
    name: Option<string>,
    isVerifiedUser: bool,
    numFollowers: int)

  /** A freshly constructed user: null names, not verified, no followers. */
  const DefaultUser := TwitNewsUser(None, None, false, 0)

  /**
   * `TwitNewsUser.equals(o)`: false for null or an object of another class; otherwise
   * user name (null-safe), verified flag and follower count are compared, and the display
   * name is not.
   */
  function Equals(u: TwitNewsUser, o: ObjectRef<TwitNewsUser>): (b: bool)
    ensures o.Null? || o.OfOtherClass? ==> !b
    ensures o.Of? ==> (b <==>
      u.userName == o.value.userName && u.isVerifiedUser == o.value.isVerifiedUser
      && u.numFollowers == o.value.numFollowers)
  {
    match o
    case Null => false
    case OfOtherClass => false
    case Of(that) =>
      if u.isVerifiedUser != that.isVerifiedUser then false
      else if u.numFollowers != that.numFollowers then false
      else u.userName == that.userName
  }

  /** `TwitNewsUser.hashCode`, in 32-bit arithmetic; unlike `equals` it mixes in the display name. */
  function HashCode(u: TwitNewsUser): (h: int)
    ensures IsInt(h)
  {
    var result := NullableHashCode(u.userName);
    var result := ToInt(31 * result + NullableHashCode(u.name));
    var result := ToInt(31 * result + (if u.isVerifiedUser then 1 else 0));
    ToInt(31 * result + u.numFollowers)
  }

  /** `equals` is an equivalence on users. */
  lemma EqualsIsEquivalence(u: TwitNewsUser, v: TwitNewsUser, w: TwitNewsUser)
    ensures Equals(u, Of(u))
    ensures Equals(u, Of(v)) ==> Equals(v, Of(u))
    ensures Equals(u, Of(v)) && Equals(v, Of(w)) ==> Equals(u, Of(w))
  {
  }

  /** Changing the display name never changes what `equals` says. */
  lemma EqualsIgnoresName(u: TwitNewsUser, v: TwitNewsUser, n: Option<string>, m: Option<string>)
    ensures Equals(u.(name := n), Of(v.(name := m))) == Equals(u, Of(v))
  {
  }

  /**
   * `equals` and `hashCode` disagree: two users that are equal but carry different
   * display names get different hash codes.
   */
  lemma EqualUsersWithDifferentHashCodes()
    ensures var u := TwitNewsUser(Some("a"), Some("x"), false, 0);
            var v := TwitNewsUser(Some("a"), Some("y"), false, 0);
            Equals(u, Of(v)) && HashCode(u) != HashCode(v)
  {
    var u := TwitNewsUser(Some("a"), Some("x"), false, 0);
    var v := TwitNewsUser(Some("a"), Some("y"), false, 0);
    HashCodeOfBmpChar('a');
    HashCodeOfBmpChar('x');
    HashCodeOfBmpChar('y');
    assert HashCode(u) == 3005047;
    assert HashCode(v) == 3006008;
  }

  /**
   * `HashSet<TwitNewsUser>.add`: the user is added unless the set already holds an
   * element with the same hash code that `equals` it (hash buckets are searched by hash
   * first). The set is listed in insertion order.
   */
  function HashSetAdd(users: seq<TwitNewsUser>, u: TwitNewsUser): (r: seq<TwitNewsUser>)
    ensures (exists i :: 0 <= i < |users| && HashCode(users[i]) == HashCode(u) && Equals(u, Of(users[i])))
      ==> r == users
    ensures (forall i :: 0 <= i < |users| ==> !(HashCode(users[i]) == HashCode(u) && Equals(u, Of(users[i]))))
      ==> r == users + [u]
  {
    if exists i :: 0 <= i < |users| && HashCode(users[i]) == HashCode(u) && Equals(u, Of(users[i])) then users
    else users + [u]
  }

  /** Because of that disagreement the crawlers' user sets can hold two users that are `equals`. */
  lemma UserSetHoldsEqualUsers()
    ensures var u := TwitNewsUser(Some("a"), Some("x"), false, 0);
            var v := TwitNewsUser(Some("a"), Some("y"), false, 0);
            HashSetAdd(HashSetAdd([], u), v) == [u, v] && Equals(u, Of(v))
  {
    EqualUsersWithDifferentHashCodes();
  }

  /** Adding to the user set never drops a user and adds at most one. */
  lemma HashSetAddGrows(users: seq<TwitNewsUser>, u: TwitNewsUser)
    ensures var r := HashSetAdd(users, u);
            |users| <= |r| <= |users| + 1 && r[..|users|] == users
            && exists i :: 0 <= i < |r| && Equals(u, Of(r[i]))
  {
    var r := HashSetAdd(users, u);
    if r == users {
      assert exists i :: 0 <= i < |users| && HashCode(users[i]) == HashCode(u) && Equals(u, Of(users[i]));
    } else {
      assert r[|users|] == u;
    }
  }

  /**
   * The user set as a `HashSet` keeps it: no two of its users have the same hash code
   * and are `equals`.
   */
  ghost predicate DistinctUsers(users: seq<TwitNewsUser>) {
    forall i, j :: 0 <= i < j < |users| ==>
      !(HashCode(users[i]) == HashCode(users[j]) && Equals(users[j], Of(users[i])))
  }

  /** `add` keeps the user set duplicate-free in that sense. */
  lemma HashSetAddDistinct(users: seq<TwitNewsUser>, u: TwitNewsUser)
    requires DistinctUsers(users)
    ensures DistinctUsers(HashSetAdd(users, u))
  {
    var r := HashSetAdd(users, u);
    if r != users {
      forall i, j | 0 <= i < j < |r|
        ensures !(HashCode(r[i]) == HashCode(r[j]) && Equals(r[j], Of(r[i])))
      {
        if j == |users| {
          assert r[j] == u && r[i] == users[i];
        } else {
          assert r[i] == users[i] && r[j] == users[j];
        }
      }
    }
  }
}
