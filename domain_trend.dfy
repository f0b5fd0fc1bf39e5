/**
 * `TwitNewsTrend`: a trend id and its name, with `equals`, `hashCode` and `toString`.
 * The setters are the record updates `t.(trendId := v)` and `t.(name := v)`.
 */
module DomainTrend {
  import opened Wrappers
  import opened JavaLang

  datatype TwitNewsTrend = TwitNewsTrend(trendId: int, name: Option<string>)

  /** A freshly constructed trend: id 0 and a null name. */
  const DefaultTrend := TwitNewsTrend(0, None)

  /** A fresh trend given a name by `setName`, as the crawlers build one for each trend they store. */
  function Named(name: string): TwitNewsTrend {
    DefaultTrend.(name := Some(name))
  }

  /** The id each named trend is stored under, in order, by the store `insertTrend`. */
  function TrendIds(names: seq<string>, insertTrend: TwitNewsTrend -> int): (r: seq<int>)
    ensures |r| == |names| && forall i :: 0 <= i < |names| ==> r[i] == insertTrend(Named(names[i]))
  {
    seq(|names|, i requires 0 <= i < |names| => insertTrend(Named(names[i])))
  }

  /** `TwitNewsTrend.equals(o)`: another trend with the same id and the same (null-safe) name. */
  function Equals(t: TwitNewsTrend, o: ObjectRef<TwitNewsTrend>): (b: bool)
    ensures b <==> o == Of(t)
  {
    match o
    case Null => false
    case OfOtherClass => false
    case Of(that) =>
      if t.trendId != that.trendId then false
      else t.name == that.name
  }

  /** `TwitNewsTrend.hashCode`: `31 * trendId + hash(name)` in 32-bit arithmetic. */
  function HashCode(t: TwitNewsTrend): (h: int)
    ensures IsInt(h)
  {
    ToInt(31 * t.trendId + NullableHashCode(t.name))
  }

  /** Unlike `TwitNewsUser`, equal trends always have equal hash codes. */
  lemma EqualTrendsHaveEqualHashCodes(t: TwitNewsTrend, o: TwitNewsTrend)
    requires Equals(t, Of(o))
    ensures HashCode(t) == HashCode(o)
  {
  }

  /** `TwitNewsTrend.toString`: `TwitNewsTrend{trendId=<id>, name='<name>'}`, a null name printing as `null`. */
  function ToString(t: TwitNewsTrend): (s: string)
    ensures StartsWith(s, "TwitNewsTrend{trendId=") && s[|s| - 2..] == "'}"
  {
    "TwitNewsTrend{trendId=" + (IntToString(t.trendId) + (", name='" + RefToString(t.name) + "'}"))
  }

  /** The printed form gives the trend id back. */
  lemma ToStringDeterminesId(t: TwitNewsTrend, u: TwitNewsTrend)
    requires ToString(t) == ToString(u)
    ensures t.trendId == u.trendId
  {
    PrefixedIntToString("TwitNewsTrend{trendId=", t.trendId, ", name='" + RefToString(t.name) + "'}",
      u.trendId, ", name='" + RefToString(u.name) + "'}");
  }

  /** ... but not always the name: a null name and the name "null" print alike. */
  lemma NullNamePrintsLikeNullString(id: int)
    ensures ToString(TwitNewsTrend(id, None)) == ToString(TwitNewsTrend(id, Some("null")))
    ensures !Equals(TwitNewsTrend(id, None), Of(TwitNewsTrend(id, Some("null"))))
  {
  }
}
