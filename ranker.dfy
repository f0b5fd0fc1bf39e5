/**
 * `Ranker`: the rank of every stored tweet of every trend, with a spam penalty,
 * keeping one rank per distinct text and handing the ranks to the store in groups.
 */
module Ranker {
  import opened Wrappers
  import opened JavaLang
  import opened JavaUtil
  import opened TwitNewsConstants
  import opened DomainTweet
  import opened DomainTrend
  import opened DomainRank
  import opened RankTerms

  // ---------------------------------------------------------------- spam score

  /** No trend name is null: `computeSpamScore` dereferences every one of them. */
  predicate NamesKnown(trends: seq<TwitNewsTrend>) {
    forall i :: 0 <= i < |trends| ==> trends[i].name.Some?
  }

  /** The first loop's share for one trend: the length of another trend's name found in the text. */
  function NameTerm(text: string, trendId: int, trend: TwitNewsTrend): nat {
    if trendId != trend.trendId && trend.name.Some? && Contains(ToLower(text), ToLower(trend.name.value))
    then Length(trend.name.value) else 0
  }

  function NamesPart(text: string, trendId: int, trends: seq<TwitNewsTrend>): nat
    decreases |trends|
  {
    if |trends| == 0 then 0
    else NamesPart(text, trendId, trends[..|trends| - 1]) + NameTerm(text, trendId, trends[|trends| - 1])
  }

  /**
   * One string of `split("")`. Java splits between code units, so a character outside
   * the Basic Multilingual Plane gives two strings, each holding half of its surrogate
   * pair; no Dafny string holds such a half, so only its code unit is kept.
   */
  datatype Token = Whole(s: string) | Half(unit: int)

  /** The string of one code unit. */
  function UnitToken(u: int): Token
    requires 0 <= u < 0x1_0000
  {
    if IsSurrogate(u) then Half(u) else Whole([u as char])
  }

  /** The one-code-unit strings of one character: itself, or the halves of its surrogate pair. */
  function CharTokensOf(c: char): (r: seq<Token>)
    ensures |r| == |CharUnits(c)|
    ensures forall i :: 0 <= i < |r| ==> r[i] == UnitToken(CharUnits(c)[i])
  {
    var u := CharUnits(c);
    if IsBmp(c) then [Whole([c])] else [Half(u[0]), Half(u[1])]
  }

  /** The one-code-unit strings of `s`, one per UTF-16 code unit, in order. */
  function CharTokens(s: string): (r: seq<Token>)
    ensures |r| == |Utf16Units(s)|
    ensures forall i :: 0 <= i < |r| ==> r[i] == UnitToken(Utf16Units(s)[i])
    decreases |s|
  {
    if |s| == 0 then [] else CharTokens(s[..|s| - 1]) + CharTokensOf(s[|s| - 1])
  }

  /**
   * `s.split("")` as Java 7 computes it: an empty string first (the empty match at
   * offset 0), then every code unit of `s` as a string of its own.
   */
  function Tokens(s: string): (r: seq<Token>)
    ensures |r| == Length(s) + 1 && r[0] == Whole("")
  {
    LengthIsUnits(s);
    [Whole("")] + CharTokens(s)
  }

  /**
   * The token loop's share for one token and one trend: the token's length when it
   * starts with '#' and differs, trimmed and lower-cased, from the trend's name. Half of
   * a surrogate pair never starts with '#'.
   */
  function TokenTerm(token: Token, trend: TwitNewsTrend): nat {
    match token
    case Whole(t) =>
      if trend.name.Some? && ToLower(Trim(t)) != ToLower(Trim(trend.name.value)) && StartsWith(t, "#")
      then Length(t) else 0
    case Half(_) => 0
  }

  function TokenPart(token: Token, trends: seq<TwitNewsTrend>): nat
    decreases |trends|
  {
    if |trends| == 0 then 0
    else TokenPart(token, trends[..|trends| - 1]) + TokenTerm(token, trends[|trends| - 1])
  }

  lemma TokenPartSnoc(token: Token, trends: seq<TwitNewsTrend>, trend: TwitNewsTrend)
    ensures TokenPart(token, trends + [trend]) == TokenPart(token, trends) + TokenTerm(token, trend)
  {
    assert (trends + [trend])[..|trends|] == trends;
  }

  /** One more trend of the inner token loop. */
  lemma TokenPartStep(token: Token, trends: seq<TwitNewsTrend>, j: nat)
    requires j < |trends|
    ensures TokenPart(token, trends[..j + 1]) == TokenPart(token, trends[..j]) + TokenTerm(token, trends[j])
  {
    assert trends[..j + 1][..j] == trends[..j];
  }

  function HashPart(tokens: seq<Token>, trends: seq<TwitNewsTrend>): nat
    decreases |tokens|
  {
    if |tokens| == 0 then 0
    else HashPart(tokens[..|tokens| - 1], trends) + TokenPart(tokens[|tokens| - 1], trends)
  }

  /** The bad-word loop's share for one word: its untrimmed length when it is a bad word. */
  function WordTerm(word: string, badWords: set<string>): nat {
    if ToLower(Trim(word)) in badWords then Length(word) else 0
  }

  function BadPart(words: seq<string>, badWords: set<string>): nat
    decreases |words|
  {
    if |words| == 0 then 0
    else BadPart(words[..|words| - 1], badWords) + WordTerm(words[|words| - 1], badWords)
  }

  /** `numUninterestingChars` once the three loops are done. */
  function SpamCount(text: string, trendId: int, trends: seq<TwitNewsTrend>, badWords: set<string>): nat {
    NamesPart(text, trendId, trends)
      + HashPart(Tokens(Trim(text)), trends)
      + BadPart(Split(Trim(text), ' '), badWords)
  }

  /**
   * `computeSpamScore` of a tweet with this text and trend id (the only fields it
   * reads): the integer quotient of the uninteresting characters by the length of the
   * (untrimmed) text, both counted in UTF-16 code units. `None` is the exception it throws: a null text or
   * a null trend name (NullPointerException) or an empty text (division by zero).
   */
  function SpamScore(text: Option<string>, trendId: int, trends: seq<TwitNewsTrend>, badWords: set<string>)
    : (r: Option<int>)
    ensures r.None? <==> text.None? || |text.value| == 0 || !NamesKnown(trends)
    ensures r.Some? ==> 0 <= r.value
    ensures r.Some? ==> (r.value == 0 <==> SpamCount(text.value, trendId, trends, badWords) < Length(text.value))
  {
    if text.None? || !NamesKnown(trends) || |text.value| == 0 then None
    else
      var count := SpamCount(text.value, trendId, trends, badWords);
      QuotientIsZero(count, Length(text.value));
      Some(Quotient(count, Length(text.value)))
  }

  /**
   * `computeSpamScore`, its three loops in the source's order, proved to compute
   * `SpamScore`.
   */
  method ComputeSpamScore(t: TwitNewsTweet, trends: seq<TwitNewsTrend>, badWords: set<string>)
    returns (r: Option<int>)
    ensures r == SpamScore(t.text, t.trendId, trends, badWords)
  {
    if t.text.None? {
      return None;
    }
    var text := t.text.value;
    var tokens := Tokens(Trim(text));
    var words := Split(Trim(text), ' ');
    var numChars := Length(text);
    var names := CountTrendNames(text, t.trendId, trends);
    if names.None? {
      return None;
    }
    var hashes := CountHashTokens(tokens, trends);
    if hashes.None? {
      return None;
    }
    var bad := CountBadWords(words, badWords);
    var numUninterestingChars := names.value + hashes.value + bad;
    if numChars == 0 {
      return None;
    }
    return Some(Quotient(numUninterestingChars, numChars));
  }

  /** The first loop: other trends' names found in the text. */
  method CountTrendNames(text: string, trendId: int, trends: seq<TwitNewsTrend>) returns (r: Option<nat>)
    ensures r.None? <==> exists i :: 0 <= i < |trends| && trends[i].trendId != trendId && trends[i].name.None?
    ensures r.Some? ==> r.value == NamesPart(text, trendId, trends)
  {
    var count := 0;
    for i := 0 to |trends|
      invariant count == NamesPart(text, trendId, trends[..i])
      invariant forall k :: 0 <= k < i ==> trends[k].trendId == trendId || trends[k].name.Some?
    {
      assert trends[..i + 1][..i] == trends[..i];
      var trend := trends[i];
      if trendId != trend.trendId {
        if trend.name.None? {
          return None;
        }
        if Contains(ToLower(text), ToLower(trend.name.value)) {
          count := count + Length(trend.name.value);
        }
      }
    }
    assert trends[..|trends|] == trends;
    return Some(count);
  }

  /** The nested token loop: each token against each trend's name. */
  method CountHashTokens(tokens: seq<Token>, trends: seq<TwitNewsTrend>) returns (r: Option<nat>)
    ensures r.None? <==> |tokens| > 0 && !NamesKnown(trends)
    ensures r.Some? ==> r.value == HashPart(tokens, trends)
  {
    var count := 0;
    for i := 0 to |tokens|
      invariant count == HashPart(tokens[..i], trends)
      invariant i > 0 ==> NamesKnown(trends)
    {
      assert tokens[..i + 1][..i] == tokens[..i];
      var forToken := CountTokenAgainstTrends(tokens[i], trends);
      if forToken.None? {
        return None;
      }
      count := count + forToken.value;
    }
    assert tokens[..|tokens|] == tokens;
    return Some(count);
  }

  /** The inner loop of the token loop, for one token. */
  method CountTokenAgainstTrends(token: Token, trends: seq<TwitNewsTrend>) returns (r: Option<nat>)
    ensures r.None? <==> !NamesKnown(trends)
    ensures r.Some? ==> r.value == TokenPart(token, trends)
  {
    var count := 0;
    for j := 0 to |trends|
      invariant count == TokenPart(token, trends[..j])
      invariant forall k :: 0 <= k < j ==> trends[k].name.Some?
    {
      var trend := trends[j];
      if trend.name.None? {
        return None;
      }
      TokenPartStep(token, trends, j);
      count := count + TokenTerm(token, trend);
    }
    assert trends[..|trends|] == trends;
    return Some(count);
  }

  /** The bad-word loop. */
  method CountBadWords(words: seq<string>, badWords: set<string>) returns (count: nat)
    ensures count == BadPart(words, badWords)
  {
    count := 0;
    for i := 0 to |words|
      invariant count == BadPart(words[..i], badWords)
    {
      assert words[..i + 1][..i] == words[..i];
      var word := words[i];
      if ToLower(Trim(word)) in badWords {
        count := count + Length(word);
      }
    }
    assert words[..|words|] == words;
  }

  /** `#` characters in `s`. */
  function CountChar(s: string, c: char): nat
    decreases |s|
  {
    if |s| == 0 then 0 else CountChar(s[..|s| - 1], c) + (if s[|s| - 1] == c then 1 else 0)
  }

  /** Trends whose trimmed, lower-cased name is something other than "#". */
  function NotHashNames(trends: seq<TwitNewsTrend>): nat
    decreases |trends|
  {
    if |trends| == 0 then 0
    else
      var last := trends[|trends| - 1];
      NotHashNames(trends[..|trends| - 1])
        + (if last.name.Some? && ToLower(Trim(last.name.value)) != "#" then 1 else 0)
  }

  lemma {:induction false} CharTokenPart(c: char, trends: seq<TwitNewsTrend>)
    ensures TokenPart(Whole([c]), trends) == if c == '#' then NotHashNames(trends) else 0
    decreases |trends|
  {
    if |trends| > 0 {
      CharTokenPart(c, trends[..|trends| - 1]);
      if c == '#' {
        assert Trim([c]) == "#";
        assert ToLower("#") == "#";
        assert IsBmp(c) && Length([c]) == 1;
      }
    }
  }

  lemma {:induction false} HalfTokenPart(u: int, trends: seq<TwitNewsTrend>)
    ensures TokenPart(Half(u), trends) == 0
    decreases |trends|
  {
    if |trends| > 0 {
      HalfTokenPart(u, trends[..|trends| - 1]);
    }
  }

  lemma {:induction false} EmptyTokenPart(trends: seq<TwitNewsTrend>)
    ensures TokenPart(Whole(""), trends) == 0
    decreases |trends|
  {
    if |trends| > 0 {
      EmptyTokenPart(trends[..|trends| - 1]);
    }
  }

  /**
   * The token loop adds one for every `#` character and every trend whose name is not
   * "#" itself; no other character, no half of a surrogate pair and not the leading
   * empty token adds anything.
   */
  lemma {:induction false} HashPartCount(s: string, trends: seq<TwitNewsTrend>)
    ensures HashPart(Tokens(s), trends) == CountChar(s, '#') * NotHashNames(trends)
    decreases |s|
  {
    if |s| == 0 {
      EmptyTokenPart(trends);
      HashPartSnoc([], Whole(""), trends);
    } else {
      var init, c := s[..|s| - 1], s[|s| - 1];
      HashPartCount(init, trends);
      TokensSnoc(init, c);
      assert init + [c] == s;
      var k, n := CountChar(init, '#'), NotHashNames(trends);
      assert CountChar(s, '#') == k + (if c == '#' then 1 else 0);
      if IsBmp(c) {
        HashPartSnoc(Tokens(init), Whole([c]), trends);
        CharTokenPart(c, trends);
        assert HashPart(Tokens(s), trends) == k * n + TokenPart(Whole([c]), trends);
        if c == '#' {
          MultiplySucc(k, n);
        }
      } else {
        var halves := CharTokensOf(c);
        HashPartSnoc(Tokens(init), halves[0], trends);
        HashPartSnoc(Tokens(init) + [halves[0]], halves[1], trends);
        assert Tokens(s) == Tokens(init) + [halves[0]] + [halves[1]];
        HalfTokenPart(halves[0].unit, trends);
        HalfTokenPart(halves[1].unit, trends);
      }
    }
  }

  /** With no bad words, the bad-word loop adds nothing. */
  lemma {:induction false} BadPartOfNoBadWords(words: seq<string>)
    ensures BadPart(words, {}) == 0
    decreases |words|
  {
    if |words| > 0 {
      BadPartOfNoBadWords(words[..|words| - 1]);
    }
  }

  /**
   * `length()` counts a character outside the Basic Multilingual Plane twice: in "#\U{1F600}",
   * checked against two other trends named "a" and "b", the '#' token costs 2 of its 3
   * code units, so the spam score is 0, not 1.
   */
  lemma SupplementaryCharacterCountsTwice()
    ensures SpamScore(Some("#\U{1F600}"), 0, [TwitNewsTrend(1, Some("a")), TwitNewsTrend(2, Some("b"))], {}) == Some(0)
  {
    var text := "#\U{1F600}";
    var trends := [TwitNewsTrend(1, Some("a")), TwitNewsTrend(2, Some("b"))];
    SampleText();
    SampleNames(text, trends);
    HashPartCount(text, trends);
    BadPartOfNoBadWords(Split(Trim(text), ' '));
    assert SpamCount(text, 0, trends, {}) == 2;
  }

  lemma SampleText()
    ensures var text := "#\U{1F600}";
      && Length(text) == 3 && Trim(text) == text && CountChar(text, '#') == 1
      && !Contains(ToLower(text), "a") && !Contains(ToLower(text), "b")
  {
    var text := "#\U{1F600}";
    assert text[..1] == "#" && text[..1][..0] == "";
    assert Length(text[..1]) == 1;
    assert TrimStart(text) == text;
    assert TrimEnd(text) == text;
    assert ToLower(text) == text;
    assert text[1..] == "\U{1F600}" && text[1..][1..] == "";
    assert !Contains(text[1..][1..], "a") && !Contains(text[1..][1..], "b");
    assert !StartsWith(text[1..], "a") && !StartsWith(text[1..], "b");
    assert !StartsWith(text, "a") && !StartsWith(text, "b");
  }

  lemma SampleNames(text: string, trends: seq<TwitNewsTrend>)
    requires trends == [TwitNewsTrend(1, Some("a")), TwitNewsTrend(2, Some("b"))]
    requires !Contains(ToLower(text), "a") && !Contains(ToLower(text), "b")
    ensures NamesPart(text, 0, trends) == 0 && NotHashNames(trends) == 2
  {
    assert trends[..1] == [trends[0]] && trends[..1][..0] == [];
    assert ToLower("a") == "a" by { assert ToLower("a")[0] == 'a'; }
    assert ToLower("b") == "b" by { assert ToLower("b")[0] == 'b'; }
    assert NameTerm(text, 0, trends[0]) == 0 && NameTerm(text, 0, trends[1]) == 0;
    assert NamesPart(text, 0, trends[..1]) == 0;
    assert TrimStart("a") == "a" && TrimEnd("a") == "a" && TrimStart("b") == "b" && TrimEnd("b") == "b";
    assert NotHashNames(trends[..1]) == 1;
  }

  lemma MultiplySucc(k: int, n: int)
    ensures (k + 1) * n == k * n + n
  {
  }

  lemma HashPartSnoc(tokens: seq<Token>, token: Token, trends: seq<TwitNewsTrend>)
    ensures HashPart(tokens + [token], trends) == HashPart(tokens, trends) + TokenPart(token, trends)
  {
    assert (tokens + [token])[..|tokens|] == tokens;
  }

  lemma TokensSnoc(s: string, c: char)
    ensures Tokens(s + [c]) == Tokens(s) + CharTokensOf(c)
  {
    assert (s + [c])[..|s|] == s;
  }

  /** A larger list of bad words never counts fewer characters. */
  lemma {:induction false} BadPartMonotone(words: seq<string>, fewer: set<string>, more: set<string>)
    requires fewer <= more
    ensures BadPart(words, fewer) <= BadPart(words, more)
    decreases |words|
  {
    if |words| > 0 {
      BadPartMonotone(words[..|words| - 1], fewer, more);
    }
  }

  // ---------------------------------------------------------------- tweet rank

  /** `linkScore + trustScore` with the weights 0.1, 0.3, 0.2 and 0.4. */
  function TweetScore(t: TwitNewsTweet, logRatio: int -> real): real
    requires CanRank(t)
  {
    var linkScore := if LinkCounts(t) then 0.1 else 0.0;
    var trustScore := 0.3 * RetweetTerm(t) as real + 0.2 * logRatio(t.numFollowers)
                      + (if t.isVerifiedUser then 0.4 else 0.0);
    linkScore + trustScore
  }

  /**
   * `Ranker.computeRank(tweet, trends, badWordSet)`: a million times the weighted sum
   * less the spam score, cast to `int`; `None` when the spam score throws.
   */
  function ComputeRank(t: TwitNewsTweet, trends: seq<TwitNewsTrend>, badWords: set<string>, logRatio: int -> real)
    : (r: Option<int>)
    ensures r.None? <==> t.text.None? || |t.text.value| == 0 || !NamesKnown(trends)
    ensures r.Some? ==> IsInt(r.value)
  {
    match SpamScore(t.text, t.trendId, trends, badWords)
    case None => None
    case Some(spam) => Some(DoubleToInt(1000000.0 * (TweetScore(t, logRatio) - spam as real)))
  }

  /** The link term is 0.1 for a link, unless the text contains "(cont)" in any case. */
  lemma LinkTerm(t: TwitNewsTweet, logRatio: int -> real)
    requires CanRank(t)
    ensures TweetScore(t, logRatio) == (if LinkCounts(t) then 0.1 else 0.0) + TweetScore(t.(hasLink := false), logRatio)
  {
    assert RetweetTerm(t) == RetweetTerm(t.(hasLink := false));
  }

  /** A "(cont)" link ranks like no link at all. */
  lemma ContIsNoLink(t: TwitNewsTweet, trends: seq<TwitNewsTrend>, badWords: set<string>, logRatio: int -> real)
    requires t.text.Some? && Contains(ToLower(t.text.value), "(cont)")
    ensures ComputeRank(t, trends, badWords, logRatio) == ComputeRank(t.(hasLink := false), trends, badWords, logRatio)
  {
    LinkTerm(t, logRatio);
  }

  /**
   * The retweet count a retweet carries is ignored, and any count from -100 to 100
   * ranks like 0 (integer division by 101).
   */
  lemma RetweetCountIgnored(t: TwitNewsTweet, n: int, trends: seq<TwitNewsTrend>, badWords: set<string>, logRatio: int -> real)
    requires t.isRetweet || (-MaxRetweetCount < t.retweetCount < MaxRetweetCount && -MaxRetweetCount < n < MaxRetweetCount)
    ensures ComputeRank(t.(retweetCount := n), trends, badWords, logRatio) == ComputeRank(t, trends, badWords, logRatio)
  {
    var u := t.(retweetCount := n);
    RetweetTermSmall(t);
    RetweetTermSmall(u);
    assert RetweetTerm(u) == RetweetTerm(t);
    SameScoresSameRank(t, u, trends, badWords, logRatio);
  }

  /** Two tweets with the same text, trend and weighted sum get the same rank. */
  lemma SameScoresSameRank(t: TwitNewsTweet, u: TwitNewsTweet, trends: seq<TwitNewsTrend>, badWords: set<string>,
                           logRatio: int -> real)
    requires t.text == u.text && t.trendId == u.trendId && t.hasLink == u.hasLink
    requires t.numFollowers == u.numFollowers && t.isVerifiedUser == u.isVerifiedUser
    requires RetweetTerm(t) == RetweetTerm(u)
    ensures ComputeRank(u, trends, badWords, logRatio) == ComputeRank(t, trends, badWords, logRatio)
  {
    if CanRank(t) {
      assert TweetScore(u, logRatio) == TweetScore(t, logRatio);
    }
  }

  /** A verified user adds 0.4 to the weighted sum, so verification never lowers the rank. */
  lemma VerifiedTerm(t: TwitNewsTweet, trends: seq<TwitNewsTrend>, badWords: set<string>, logRatio: int -> real)
    requires CanRank(t)
    ensures TweetScore(t.(isVerifiedUser := true), logRatio) == TweetScore(t.(isVerifiedUser := false), logRatio) + 0.4
    ensures ComputeRank(t.(isVerifiedUser := false), trends, badWords, logRatio).Some? ==>
      ComputeRank(t.(isVerifiedUser := false), trends, badWords, logRatio).value
        <= ComputeRank(t.(isVerifiedUser := true), trends, badWords, logRatio).value
  {
    var f, v := t.(isVerifiedUser := false), t.(isVerifiedUser := true);
    assert LinkCounts(f) == LinkCounts(v);
    assert RetweetTerm(f) == RetweetTerm(v);
    if ComputeRank(f, trends, badWords, logRatio).Some? {
      var spam := SpamScore(t.text, t.trendId, trends, badWords).value as real;
      DoubleToIntMonotone(1000000.0 * (TweetScore(f, logRatio) - spam), 1000000.0 * (TweetScore(v, logRatio) - spam));
    }
  }

  /** The retweet term is 0.3 for every whole group of 101 retweets a tweet that is not a retweet has. */
  lemma RetweetCountTerm(t: TwitNewsTweet, logRatio: int -> real)
    requires CanRank(t)
    ensures TweetScore(t, logRatio) == 0.3 * RetweetTerm(t) as real + TweetScore(t.(retweetCount := 0), logRatio)
  {
    var u := t.(retweetCount := 0);
    assert LinkCounts(t) == LinkCounts(u);
    RetweetTermSmall(u);
  }

  /** More retweets never give a lower rank. */
  lemma RetweetsMonotone(t: TwitNewsTweet, n: int, trends: seq<TwitNewsTrend>, badWords: set<string>, logRatio: int -> real)
    requires CanRank(t) && !t.isRetweet && 0 <= t.retweetCount <= n
    requires ComputeRank(t, trends, badWords, logRatio).Some?
    ensures ComputeRank(t.(retweetCount := n), trends, badWords, logRatio).Some?
    ensures ComputeRank(t, trends, badWords, logRatio).value <= ComputeRank(t.(retweetCount := n), trends, badWords, logRatio).value
  {
    var u := t.(retweetCount := n);
    RetweetCountTerm(t, logRatio);
    RetweetCountTerm(u, logRatio);
    assert t.(retweetCount := 0) == u.(retweetCount := 0);
    RetweetTermMonotone(t, n);
    var spam := SpamScore(t.text, t.trendId, trends, badWords).value as real;
    DoubleToIntMonotone(1000000.0 * (TweetScore(t, logRatio) - spam), 1000000.0 * (TweetScore(u, logRatio) - spam));
  }

  /** The follower term is 0.2 times the log ratio of the follower count. */
  lemma FollowerTerm(t: TwitNewsTweet, m: int, logRatio: int -> real)
    requires CanRank(t)
    ensures TweetScore(t.(numFollowers := m), logRatio)
            == TweetScore(t, logRatio) + 0.2 * (logRatio(m) - logRatio(t.numFollowers))
  {
    var u := t.(numFollowers := m);
    assert LinkCounts(t) == LinkCounts(u);
    assert RetweetTerm(t) == RetweetTerm(u);
  }

  /** Without trends, no token loop iteration adds anything. */
  lemma {:induction false} HashPartOfNoTrends(tokens: seq<Token>)
    ensures HashPart(tokens, []) == 0
    decreases |tokens|
  {
    if |tokens| > 0 {
      HashPartOfNoTrends(tokens[..|tokens| - 1]);
    }
  }

  /**
   * The spam score is subtracted unweighted: the rank is a million times the weighted sum
   * less the spam score, and the same tweet ranked against no trends and no bad words
   * scores no spam, so spam only lowers the rank.
   */
  lemma SpamTerm(t: TwitNewsTweet, trends: seq<TwitNewsTrend>, badWords: set<string>, logRatio: int -> real)
    requires ComputeRank(t, trends, badWords, logRatio).Some?
    ensures SpamScore(t.text, t.trendId, [], {}) == Some(0)
    ensures ComputeRank(t, [], {}, logRatio) == Some(DoubleToInt(1000000.0 * TweetScore(t, logRatio)))
    ensures ComputeRank(t, trends, badWords, logRatio).value
            == DoubleToInt(1000000.0 * TweetScore(t, logRatio)
                           - 1000000.0 * SpamScore(t.text, t.trendId, trends, badWords).value as real)
    ensures ComputeRank(t, trends, badWords, logRatio).value <= ComputeRank(t, [], {}, logRatio).value
  {
    var text := t.text.value;
    HashPartOfNoTrends(Tokens(Trim(text)));
    BadPartOfNoBadWords(Split(Trim(text), ' '));
    assert SpamCount(text, t.trendId, [], {}) == 0;
    var spam := SpamScore(t.text, t.trendId, trends, badWords).value as real;
    var score := TweetScore(t, logRatio);
    assert 1000000.0 * (score - spam) == 1000000.0 * score - 1000000.0 * spam;
    DoubleToIntMonotone(1000000.0 * (score - spam), 1000000.0 * score);
  }

  /** Spam only lowers a rank: more bad words never give a higher one. */
  lemma MoreBadWordsNeverRaise(t: TwitNewsTweet, trends: seq<TwitNewsTrend>, fewer: set<string>, more: set<string>,
                               logRatio: int -> real)
    requires fewer <= more
    requires ComputeRank(t, trends, fewer, logRatio).Some?
    ensures ComputeRank(t, trends, more, logRatio).Some?
    ensures ComputeRank(t, trends, more, logRatio).value <= ComputeRank(t, trends, fewer, logRatio).value
  {
    var text := t.text.value;
    BadPartMonotone(Split(Trim(text), ' '), fewer, more);
    var a, b := SpamCount(text, t.trendId, trends, fewer), SpamCount(text, t.trendId, trends, more);
    QuotientMonotone(a, b, Length(text));
    var s1, s2 := SpamScore(t.text, t.trendId, trends, fewer).value, SpamScore(t.text, t.trendId, trends, more).value;
    DoubleToIntMonotone(1000000.0 * (TweetScore(t, logRatio) - s2 as real), 1000000.0 * (TweetScore(t, logRatio) - s1 as real));
  }

  /**
   * `computeNewsRank`'s hashtag penalty: 0.05 for a trend whose name starts with '#',
   * else 0; `None` is the NullPointerException of a null name.
   */
  function HashtagPenalty(name: Option<string>): (p: Option<real>)
    ensures p.None? <==> name.None?
    ensures p.Some? ==> (p.value == 0.05 <==> StartsWith(name.value, "#"))
    ensures p.Some? ==> (p.value == 0.0 <==> !StartsWith(name.value, "#"))
  {
    match name
    case None => None
    case Some(n) => Some(if StartsWith(n, "#") then 0.05 else 0.0)
  }

  // ---------------------------------------------------------------- one trend

  /** The rank record `main` builds for a tweet: the trend's id, the tweet id cast to `int`, the score. */
  function RankOf(trend: TwitNewsTrend, t: TwitNewsTweet, score: int): (r: TwitNewsRank)
    ensures r.rankId == 0 && r.trendId == trend.trendId && r.tweetId == ToInt(t.tweetId) && r.rank == score
  {
    DefaultRank.(trendId := trend.trendId, tweetId := ToInt(t.tweetId), rank := score)
  }

  /** `computeRank` with the trend list, the bad words and the follower term fixed. */
  function Ranking(trends: seq<TwitNewsTrend>, badWords: set<string>, logRatio: int -> real)
    : TwitNewsTweet -> Option<int>
  {
    t => ComputeRank(t, trends, badWords, logRatio)
  }

  /** The scores of a trend's tweets, in order; `None` when some tweet cannot be ranked. */
  function Scores<T>(xs: seq<T>, rank: T -> Option<int>): (r: Option<seq<int>>)
    ensures r.Some? ==> |r.value| == |xs|
    decreases |xs|
  {
    if |xs| == 0 then Some([])
    else
      match Scores(xs[..|xs| - 1], rank)
      case None => None
      case Some(ss) =>
        match rank(xs[|xs| - 1])
        case None => None
        case Some(s) => Some(ss + [s])
  }

  /** The scores exist exactly when no element's rank throws, and are those ranks in order. */
  lemma {:induction false} ScoresMeaning<T>(xs: seq<T>, rank: T -> Option<int>)
    ensures Scores(xs, rank).None? <==> exists i :: 0 <= i < |xs| && rank(xs[i]).None?
    ensures Scores(xs, rank).Some? ==> forall i :: 0 <= i < |xs| ==> rank(xs[i]) == Some(Scores(xs, rank).value[i])
    decreases |xs|
  {
    if |xs| > 0 {
      var init := xs[..|xs| - 1];
      ScoresMeaning(init, rank);
      assert forall i :: 0 <= i < |init| ==> xs[i] == init[i];
    }
  }

  /** The `tweetMap` keys of a trend's tweets: their texts, in order. */
  function Texts(tweets: seq<TwitNewsTweet>): (r: seq<Option<string>>)
    ensures |r| == |tweets| && forall i :: 0 <= i < |tweets| ==> r[i] == tweets[i].text
  {
    seq(|tweets|, i requires 0 <= i < |tweets| => tweets[i].text)
  }

  /** The rank records built for a trend's tweets, in order. */
  function RanksOf(trend: TwitNewsTrend, tweets: seq<TwitNewsTweet>, scores: seq<int>): (r: seq<TwitNewsRank>)
    requires |tweets| == |scores|
    ensures |r| == |tweets| && forall i :: 0 <= i < |tweets| ==> r[i] == RankOf(trend, tweets[i], scores[i])
  {
    seq(|tweets|, i requires 0 <= i < |tweets| => RankOf(trend, tweets[i], scores[i]))
  }

  /**
   * The `tweetMap` after the tweet loop: the rank under a key is replaced only by a
   * strictly higher one.
   */
  function Dedup<K(==)>(keys: seq<K>, ranks: seq<TwitNewsRank>): map<K, TwitNewsRank>
    requires |keys| == |ranks|
    decreases |keys|
  {
    if |keys| == 0 then map[]
    else
      var n := |keys| - 1;
      var m := Dedup(keys[..n], ranks[..n]);
      if keys[n] in m && ranks[n].rank <= m[keys[n]].rank then m else m[keys[n] := ranks[n]]
  }

  lemma DedupSnoc<K>(keys: seq<K>, ranks: seq<TwitNewsRank>, key: K, rank: TwitNewsRank)
    requires |keys| == |ranks|
    ensures var m := Dedup(keys, ranks);
      Dedup(keys + [key], ranks + [rank]) == if key in m && rank.rank <= m[key].rank then m else m[key := rank]
  {
    assert (keys + [key])[..|keys|] == keys;
    assert (ranks + [rank])[..|ranks|] == ranks;
  }

  /**
   * `ranks[i]` is the first of the greatest ranks filed under `key`: no rank under it
   * is greater, and each one before it is smaller.
   */
  ghost predicate FirstBest<K>(keys: seq<K>, ranks: seq<TwitNewsRank>, key: K, i: int)
    requires |keys| == |ranks|
  {
    0 <= i < |keys| && keys[i] == key
    && (forall j :: 0 <= j < |keys| && keys[j] == key ==> ranks[j].rank <= ranks[i].rank)
    && (forall j :: 0 <= j < i && keys[j] == key ==> ranks[j].rank < ranks[i].rank)
  }

  /** The keys of the kept map are the distinct keys. */
  lemma {:induction false} DedupKeys<K>(keys: seq<K>, ranks: seq<TwitNewsRank>, key: K)
    requires |keys| == |ranks|
    ensures key in Dedup(keys, ranks) <==> key in keys
    decreases |keys|
  {
    if |keys| > 0 {
      var n := |keys| - 1;
      DedupKeys(keys[..n], ranks[..n], key);
      assert keys == keys[..n] + [keys[n]];
    }
  }

  /** Every distinct key keeps exactly one rank: the first of the greatest ranks filed under it. */
  lemma {:induction false} DedupKeepsFirstBest<K>(keys: seq<K>, ranks: seq<TwitNewsRank>, key: K)
    requires |keys| == |ranks| && key in keys
    ensures key in Dedup(keys, ranks)
    ensures exists i :: FirstBest(keys, ranks, key, i) && Dedup(keys, ranks)[key] == ranks[i]
    decreases |keys|
  {
    DedupKeys(keys, ranks, key);
    var n := |keys| - 1;
    var ks, rs := keys[..n], ranks[..n];
    var m := Dedup(ks, rs);
    DedupKeys(ks, rs, key);
    if key in ks {
      DedupKeepsFirstBest(ks, rs, key);
      var i :| FirstBest(ks, rs, key, i) && m[key] == rs[i];
      if keys[n] == key && ranks[n].rank > m[key].rank {
        FirstBestNew(keys, ranks, key, i);
      } else {
        FirstBestKept(keys, ranks, key, i);
      }
    } else {
      assert keys[n] == key by {
        assert keys == ks + [keys[n]];
      }
      FirstBestOnly(keys, ranks, key);
    }
  }

  /** A last rank that is not greater leaves the earlier first-best rank in place. */
  lemma FirstBestKept<K>(keys: seq<K>, ranks: seq<TwitNewsRank>, key: K, i: int)
    requires |keys| == |ranks| > 0
    requires FirstBest(keys[..|keys| - 1], ranks[..|keys| - 1], key, i)
    requires keys[|keys| - 1] != key || ranks[|keys| - 1].rank <= ranks[i].rank
    ensures FirstBest(keys, ranks, key, i)
  {
    var n := |keys| - 1;
    assert forall j :: 0 <= j < n ==> keys[j] == keys[..n][j] && ranks[j] == ranks[..n][j];
  }

  /** A last rank greater than the earlier first-best one is the new first-best. */
  lemma FirstBestNew<K>(keys: seq<K>, ranks: seq<TwitNewsRank>, key: K, i: int)
    requires |keys| == |ranks| > 0
    requires FirstBest(keys[..|keys| - 1], ranks[..|keys| - 1], key, i)
    requires keys[|keys| - 1] == key && ranks[|keys| - 1].rank > ranks[i].rank
    ensures FirstBest(keys, ranks, key, |keys| - 1)
  {
    var n := |keys| - 1;
    assert forall j :: 0 <= j < n ==> keys[j] == keys[..n][j] && ranks[j] == ranks[..n][j];
  }

  /** A key that first appears last is filed with its only rank. */
  lemma FirstBestOnly<K>(keys: seq<K>, ranks: seq<TwitNewsRank>, key: K)
    requires |keys| == |ranks| > 0
    requires key !in keys[..|keys| - 1] && keys[|keys| - 1] == key
    ensures FirstBest(keys, ranks, key, |keys| - 1)
  {
    var n := |keys| - 1;
    assert forall j :: 0 <= j < n ==> keys[j] == keys[..n][j];
  }

  /** The number of tweets satisfying `p` whose score is positive. */
  function CountScored(tweets: seq<TwitNewsTweet>, scores: seq<int>, p: TwitNewsTweet -> bool): (n: nat)
    requires |tweets| == |scores|
    ensures n <= |tweets|
    ensures (forall i :: 0 <= i < |tweets| ==> scores[i] <= 0) ==> n == 0
    decreases |tweets|
  {
    if |tweets| == 0 then 0
    else
      var k := |tweets| - 1;
      CountScored(tweets[..k], scores[..k], p) + (if p(tweets[k]) && scores[k] > 0 then 1 else 0)
  }

  predicate HasLink(t: TwitNewsTweet) { t.hasLink }

  predicate IsRetweet(t: TwitNewsTweet) { t.isRetweet }

  /** `ranks.size() > 100` triggers a submission, so every submitted group holds 101 ranks. */
  const RankBatchSize: int := 101

  /**
   * The groups the loop over the map's values submits: the first 101 values, then the
   * groups of what follows; a tail of 100 or fewer is never submitted.
   */
  function Batches<T>(vals: seq<T>): (r: seq<seq<T>>)
    ensures forall k :: 0 <= k < |r| ==> |r[k]| == RankBatchSize
    decreases |vals|
  {
    if |vals| < RankBatchSize then [] else [vals[..RankBatchSize]] + Batches(vals[RankBatchSize..])
  }

  function Flatten<T>(groups: seq<seq<T>>): seq<T>
    decreases |groups|
  {
    if |groups| == 0 then [] else groups[0] + Flatten(groups[1..])
  }

  /**
   * The submitted groups, put end to end, are the values in iteration order up to a
   * tail of at most 100 that is never submitted.
   */
  lemma {:induction false} BatchesCover<T>(vals: seq<T>)
    ensures |Flatten(Batches(vals))| <= |vals|
    ensures Flatten(Batches(vals)) == vals[..|Flatten(Batches(vals))|]
    ensures |vals| - |Flatten(Batches(vals))| < RankBatchSize
    decreases |vals|
  {
    if |vals| >= RankBatchSize {
      var rest := vals[RankBatchSize..];
      BatchesCover(rest);
      var bs := Batches(vals);
      assert bs[0] == vals[..RankBatchSize] && bs[1..] == Batches(rest);
      var f := Flatten(Batches(rest));
      assert Flatten(bs) == vals[..RankBatchSize] + f;
      assert vals == vals[..RankBatchSize] + rest;
    }
  }

  /** The kept ranks in the order the map's values are visited. */
  function ValuesIn(m: map<Option<string>, TwitNewsRank>, order: seq<Option<string>>): (vals: seq<TwitNewsRank>)
    requires forall k :: k in order ==> k in m
    ensures |vals| == |order|
  {
    seq(|order|, i requires 0 <= i < |order| => m[order[i]])
  }

  /** What one trend's pass leaves behind: the submitted groups and the two counters. */
  datatype TrendRanking = TrendRanking(submitted: seq<seq<TwitNewsRank>>, numTweetsWithLinks: nat, numRetweets: nat)

  /**
   * One pass of `main`'s trend loop, up to `computeNewsRank`, with `rank` as the tweet
   * rank; `None` when a tweet's rank throws.
   */
  function RankedTrend(trend: TwitNewsTrend, tweets: seq<TwitNewsTweet>, rank: TwitNewsTweet -> Option<int>,
                       order: set<Option<string>> -> seq<Option<string>>)
    : (r: Option<TrendRanking>)
    requires forall ks :: IsListing(order(ks), ks)
    ensures r.None? <==> exists i :: 0 <= i < |tweets| && rank(tweets[i]).None?
  {
    ScoresMeaning(tweets, rank);
    match Scores(tweets, rank)
    case None => None
    case Some(scores) =>
      var m := Dedup(Texts(tweets), RanksOf(trend, tweets, scores));
      assert IsListing(order(m.Keys), m.Keys);
      Some(TrendRanking(Batches(ValuesIn(m, order(m.Keys))),
                        CountScored(tweets, scores, HasLink), CountScored(tweets, scores, IsRetweet)))
  }

  /**
   * Every rank submitted for a trend is the kept rank of one of its texts, and is
   * submitted once: the groups are a duplicate-free listing of kept ranks, cut at 101.
   */
  lemma RankedTrendSubmitsKeptRanks(trend: TwitNewsTrend, tweets: seq<TwitNewsTweet>, rank: TwitNewsTweet -> Option<int>,
                                    order: set<Option<string>> -> seq<Option<string>>)
    requires forall ks :: IsListing(order(ks), ks)
    requires RankedTrend(trend, tweets, rank, order).Some?
    ensures var scores := Scores(tweets, rank).value;
      var m := Dedup(Texts(tweets), RanksOf(trend, tweets, scores));
      var keys := order(m.Keys);
      var sent := Flatten(RankedTrend(trend, tweets, rank, order).value.submitted);
      |keys| == |m.Keys| && |sent| <= |keys| && sent == ValuesIn(m, keys)[..|sent|]
      && |keys| - |sent| < RankBatchSize
  {
    var scores := Scores(tweets, rank).value;
    var m := Dedup(Texts(tweets), RanksOf(trend, tweets, scores));
    var keys := order(m.Keys);
    ListingSize(keys, m.Keys);
    BatchesCover(ValuesIn(m, keys));
  }

  /**
   * The trend loop's body for one trend: rank every tweet, keep the best rank per text,
   * then walk the kept ranks in the map's iteration order `order(keys)`, submitting
   * each time more than 100 are pending.
   */
  method RankTrend(trend: TwitNewsTrend, tweets: seq<TwitNewsTweet>, rank: TwitNewsTweet -> Option<int>,
                   order: set<Option<string>> -> seq<Option<string>>)
    returns (r: Option<TrendRanking>)
    requires forall ks :: IsListing(order(ks), ks)
    ensures r == RankedTrend(trend, tweets, rank, order)
  {
    var kept := RankTweets(trend, tweets, rank);
    if kept.None? {
      return None;
    }
    var (tweetMap, numTweetsWithLinks, numRetweetsForTrend) := kept.value;
    var keys := order(tweetMap.Keys);
    assert IsListing(keys, tweetMap.Keys);
    var submitted := SubmitRanks(tweetMap, keys);
    return Some(TrendRanking(submitted, numTweetsWithLinks, numRetweetsForTrend));
  }

  /**
   * The tweet loop: the best rank per text and the two counters of positively ranked
   * tweets with links and retweets; `None` when a tweet's rank throws. `rank` is
   * `computeRank` with its other arguments fixed, `rank`.
   */
  method RankTweets(trend: TwitNewsTrend, tweets: seq<TwitNewsTweet>, rank: TwitNewsTweet -> Option<int>)
    returns (r: Option<(map<Option<string>, TwitNewsRank>, nat, nat)>)
    ensures r.None? <==> Scores(tweets, rank).None?
    ensures r.Some? ==>
      var scores := Scores(tweets, rank).value;
      r.value == (Dedup(Texts(tweets), RanksOf(trend, tweets, scores)),
                  CountScored(tweets, scores, HasLink), CountScored(tweets, scores, IsRetweet))
  {
    var tweetMap: map<Option<string>, TwitNewsRank> := map[];
    var numTweetsWithLinks, numRetweetsForTrend := 0, 0;
    ghost var scores: seq<int> := [];
    for i := 0 to |tweets|
      invariant Scores(tweets[..i], rank) == Some(scores)
      invariant |scores| == i
      invariant (tweetMap, numTweetsWithLinks, numRetweetsForTrend) == Tally(trend, tweets[..i], scores)
    {
      var tweet := tweets[i];
      var rankScore := rank(tweet);
      ScoresStep(tweets, i, rank);
      if rankScore.None? {
        ScoresThrow(tweets, i, rank);
        return None;
      }
      TallyStep(trend, tweets, scores, i, rankScore.value);
      var rankRecord := RankOf(trend, tweet, rankScore.value);
      if tweet.hasLink && rankScore.value > 0 {
        numTweetsWithLinks := numTweetsWithLinks + 1;
      }
      if tweet.isRetweet && rankScore.value > 0 {
        numRetweetsForTrend := numRetweetsForTrend + 1;
      }
      if tweet.text in tweetMap {
        var highestRank := tweetMap[tweet.text];
        if rankRecord.rank > highestRank.rank {
          tweetMap := tweetMap[tweet.text := rankRecord];
        }
      } else {
        tweetMap := tweetMap[tweet.text := rankRecord];
      }
      scores := scores + [rankScore.value];
    }
    assert tweets[..|tweets|] == tweets;
    return Some((tweetMap, numTweetsWithLinks, numRetweetsForTrend));
  }

  /** What the tweet loop has built from the tweets so far and their scores. */
  ghost function Tally(trend: TwitNewsTrend, tweets: seq<TwitNewsTweet>, scores: seq<int>)
    : (map<Option<string>, TwitNewsRank>, nat, nat)
    requires |tweets| == |scores|
  {
    (Dedup(Texts(tweets), RanksOf(trend, tweets, scores)),
     CountScored(tweets, scores, HasLink), CountScored(tweets, scores, IsRetweet))
  }

  /** The tally after one more tweet. */
  lemma TallyStep(trend: TwitNewsTrend, tweets: seq<TwitNewsTweet>, scores: seq<int>, i: nat, score: int)
    requires i < |tweets| && |scores| == i
    ensures var m := Tally(trend, tweets[..i], scores).0;
      var r := RankOf(trend, tweets[i], score);
      Tally(trend, tweets[..i + 1], scores + [score]).0
        == if tweets[i].text in m && r.rank <= m[tweets[i].text].rank then m else m[tweets[i].text := r]
    ensures Tally(trend, tweets[..i + 1], scores + [score]).1
         == Tally(trend, tweets[..i], scores).1 + (if tweets[i].hasLink && score > 0 then 1 else 0)
    ensures Tally(trend, tweets[..i + 1], scores + [score]).2
         == Tally(trend, tweets[..i], scores).2 + (if tweets[i].isRetweet && score > 0 then 1 else 0)
  {
    TweetStep(trend, tweets, scores, i, score);
    DedupSnoc(Texts(tweets[..i]), RanksOf(trend, tweets[..i], scores), tweets[i].text, RankOf(trend, tweets[i], score));
    CountScoredStep(tweets, scores, i, score, HasLink);
    CountScoredStep(tweets, scores, i, score, IsRetweet);
  }

  /** The scores of one more element: `None` as soon as one throws. */
  lemma ScoresStep<T>(xs: seq<T>, i: nat, rank: T -> Option<int>)
    requires i < |xs| && Scores(xs[..i], rank).Some?
    ensures Scores(xs[..i + 1], rank)
      == if rank(xs[i]).None? then None else Some(Scores(xs[..i], rank).value + [rank(xs[i]).value])
  {
    assert xs[..i + 1][..i] == xs[..i];
  }

  /** One element whose rank throws leaves no scores. */
  lemma ScoresThrow<T>(xs: seq<T>, i: nat, rank: T -> Option<int>)
    requires i < |xs| && rank(xs[i]).None?
    ensures Scores(xs, rank).None?
  {
    ScoresMeaning(xs, rank);
  }

  /** The texts and rank records of one more tweet. */
  lemma TweetStep(trend: TwitNewsTrend, tweets: seq<TwitNewsTweet>, scores: seq<int>, i: nat, score: int)
    requires i < |tweets| && |scores| == i
    ensures Texts(tweets[..i + 1]) == Texts(tweets[..i]) + [tweets[i].text]
    ensures RanksOf(trend, tweets[..i + 1], scores + [score])
         == RanksOf(trend, tweets[..i], scores) + [RankOf(trend, tweets[i], score)]
  {
    assert tweets[..i + 1][..i] == tweets[..i];
    assert (scores + [score])[..i] == scores;
  }

  /** The counter of one more tweet. */
  lemma CountScoredStep(tweets: seq<TwitNewsTweet>, scores: seq<int>, i: nat, score: int, p: TwitNewsTweet -> bool)
    requires i < |tweets| && |scores| == i
    ensures CountScored(tweets[..i + 1], scores + [score], p)
         == CountScored(tweets[..i], scores, p) + (if p(tweets[i]) && score > 0 then 1 else 0)
  {
    assert tweets[..i + 1][..i] == tweets[..i];
    assert (scores + [score])[..i] == scores;
  }

  /** The loop over the map's values, visited in the order `keys`: a submission per 101 pending ranks. */
  method SubmitRanks(tweetMap: map<Option<string>, TwitNewsRank>, keys: seq<Option<string>>)
    returns (submitted: seq<seq<TwitNewsRank>>)
    requires forall k :: k in keys ==> k in tweetMap
    ensures submitted == Batches(ValuesIn(tweetMap, keys))
  {
    ghost var vals := ValuesIn(tweetMap, keys);
    var ranks: seq<TwitNewsRank> := [];
    submitted := [];
    for i := 0 to |keys|
      invariant |ranks| < RankBatchSize && |ranks| <= i
      invariant ranks == vals[i - |ranks|..i]
      invariant Batches(vals) == submitted + Batches(vals[i - |ranks|..])
    {
      ranks := ranks + [tweetMap[keys[i]]];
      assert ranks == vals[i + 1 - |ranks|..i + 1];
      if |ranks| > 100 {
        ghost var from := vals[i + 1 - |ranks|..];
        assert from[..RankBatchSize] == ranks && from[RankBatchSize..] == vals[i + 1..];
        submitted := submitted + [ranks];
        ranks := [];
      }
    }
  }

  // ---------------------------------------------------------------- all trends

  /** Everything submitted so far, and whether the program is still running. */
  datatype RunOutcome = RunOutcome(submitted: seq<seq<TwitNewsRank>>, running: bool)

  /**
   * One pass of the trend loop for each trend: `RankedTrend` over the tweets the store
   * holds for it, `tweetsOf(trendId)`.
   */
  function TrendPass(tweetsOf: int -> seq<TwitNewsTweet>, rank: TwitNewsTweet -> Option<int>,
                     order: set<Option<string>> -> seq<Option<string>>): TwitNewsTrend -> Option<TrendRanking>
    requires forall ks :: IsListing(order(ks), ks)
  {
    (trend: TwitNewsTrend) => RankedTrend(trend, tweetsOf(trend.trendId), rank, order)
  }

  /**
   * `main`'s loop over the trends `done` (a prefix of the fetched trends), `pass` being
   * one pass of its body (`TrendPass` over the fetched trends' ranking). A tweet that
   * cannot be ranked stops the program before its trend submits anything; a null trend
   * name stops it in `computeNewsRank`, after.
   */
  function Run(done: seq<TwitNewsTrend>, pass: TwitNewsTrend -> Option<TrendRanking>): (r: RunOutcome)
    decreases |done|
  {
    if |done| == 0 then RunOutcome([], true)
    else
      var before := Run(done[..|done| - 1], pass);
      var trend := done[|done| - 1];
      if !before.running then before
      else match pass(trend)
        case None => RunOutcome(before.submitted, false)
        case Some(tr) => RunOutcome(before.submitted + tr.submitted, HashtagPenalty(trend.name).Some?)
  }

  /** A run that completes has ranked every tweet of every trend, and every trend has a name. */
  lemma {:induction false} RunCompletes(done: seq<TwitNewsTrend>, pass: TwitNewsTrend -> Option<TrendRanking>)
    ensures Run(done, pass).running <==>
      forall i :: 0 <= i < |done| ==>
        done[i].name.Some? && pass(done[i]).Some?
    decreases |done|
  {
    if |done| > 0 {
      var init := done[..|done| - 1];
      RunCompletes(init, pass);
      assert forall i :: 0 <= i < |init| ==> done[i] == init[i];
    }
  }

  /** Once the program has stopped, the trends after it change nothing. */
  lemma {:induction false} RunStaysStopped(done: seq<TwitNewsTrend>, k: nat, pass: TwitNewsTrend -> Option<TrendRanking>)
    requires k <= |done| && !Run(done[..k], pass).running
    ensures Run(done, pass) == Run(done[..k], pass)
    decreases |done|
  {
    if k < |done| {
      var init := done[..|done| - 1];
      assert init[..k] == done[..k];
      RunStaysStopped(init, k, pass);
    } else {
      assert done[..k] == done;
    }
  }

  /** `Ranker.main` over the fetched trends. */
  method RankAll(trends: seq<TwitNewsTrend>, tweetsOf: int -> seq<TwitNewsTweet>, badWords: set<string>,
                 logRatio: int -> real, order: set<Option<string>> -> seq<Option<string>>)
    returns (outcome: RunOutcome)
    requires forall ks :: IsListing(order(ks), ks)
    ensures outcome == Run(trends, TrendPass(tweetsOf, Ranking(trends, badWords, logRatio), order))
  {
    ghost var pass := TrendPass(tweetsOf, Ranking(trends, badWords, logRatio), order);
    var submitted: seq<seq<TwitNewsRank>> := [];
    for i := 0 to |trends|
      invariant Run(trends[..i], pass) == RunOutcome(submitted, true)
    {
      assert trends[..i + 1][..i] == trends[..i];
      var trend := trends[i];
      var ranking := RankTrend(trend, tweetsOf(trend.trendId), Ranking(trends, badWords, logRatio), order);
      if ranking.None? {
        RunStaysStopped(trends, i + 1, pass);
        return RunOutcome(submitted, false);
      }
      submitted := submitted + ranking.value.submitted;
      var penalty := HashtagPenalty(trend.name);
      if penalty.None? {
        RunStaysStopped(trends, i + 1, pass);
        return RunOutcome(submitted, false);
      }
    }
    assert trends[..|trends|] == trends;
    return RunOutcome(submitted, true);
  }
}
