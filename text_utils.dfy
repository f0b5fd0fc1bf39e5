/**
 * Keyword extraction from tweet or trend text (TextUtils.parseKeywordsFromTweetText):
 * the text is split on single spaces, @mentions and stop words are dropped, every other
 * piece is stripped down to its letters and digits, and the piece is kept when that
 * cleaned form starts with an upper-case character. The result is an insertion-ordered
 * set.
 */
module TextUtils {
  import opened Wrappers
  import opened JavaLang
  import opened JavaUtil

  /**
   * The two Unicode character tests the tokenizer uses, left abstract: membership of the
   * general categories L or N (the `[^\p{L}\p{N}]` pattern), and `Character.isUpperCase`.
   */
  datatype CharClasses = CharClasses(isLetterOrDigit: char -> bool, isUpperCase: char -> bool)

  /** The word with every character outside the letter and number categories removed. */
  function Cleaned(word: string, cc: CharClasses): string {
    KeepWhere(word, cc.isLetterOrDigit)
  }

  /** Stop-word test: the raw piece or its cleaned form, trimmed and lower-cased, is listed. */
  predicate IsStopWord(word: string, stopWords: set<string>, cc: CharClasses) {
    ToLower(Trim(word)) in stopWords || ToLower(Trim(Cleaned(word, cc))) in stopWords
  }

  /**
   * `Character.isUpperCase(s.charAt(0))`. The char `charAt(0)` is the first UTF-16 code
   * unit, so a first character outside the Basic Multilingual Plane is tested by its high
   * surrogate, which is never upper case.
   */
  predicate StartsUpperCase(s: string, cc: CharClasses)
    requires |s| > 0
  {
    IsBmp(s[0]) && cc.isUpperCase(s[0])
  }

  /** The keyword one piece of the text contributes, if any. */
  function KeywordOf(word: string, stopWords: set<string>, cc: CharClasses): Option<string> {
    if !StartsWith(word, "@") && |word| > 0 && !IsStopWord(word, stopWords, cc) then
      var cleanedWord := Cleaned(word, cc);
      if |cleanedWord| > 0 && StartsUpperCase(cleanedWord, cc) then Some(cleanedWord) else None
    else
      None
  }

  /**
   * The values a partial map yields on the pieces, each added in turn to an
   * insertion-ordered set (a LinkedHashSet filled by a loop).
   */
  function Collect(words: seq<string>, f: string -> Option<string>): seq<string> {
    if |words| == 0 then []
    else
      var acc := Collect(words[..|words| - 1], f);
      match f(words[|words| - 1])
      case Some(k) => LinkedAdd(acc, k)
      case None => acc
  }

  /** The keywords of a text: what `parseKeywordsFromTweetText(text, stopWords)` returns. */
  function Keywords(text: string, stopWords: set<string>, cc: CharClasses): seq<string> {
    Collect(Split(text, ' '), w => KeywordOf(w, stopWords, cc))
  }

  /** The loop of `parseKeywordsFromTweetText`, filling a LinkedHashSet. */
  method ParseKeywordsFromTweetText(text: string, stopWords: set<string>, cc: CharClasses)
    returns (keywords: seq<string>)
    ensures keywords == Keywords(text, stopWords, cc)
  {
    keywords := [];
    var words := Split(text, ' ');
    ghost var f := w => KeywordOf(w, stopWords, cc);
    for i := 0 to |words|
      invariant keywords == Collect(words[..i], f)
    {
      assert words[..i + 1][..i] == words[..i];
      var word := words[i];
      if !StartsWith(word, "@") && |word| > 0 {
        var cleanedWord := Cleaned(word, cc);
        if !(ToLower(Trim(word)) in stopWords || ToLower(Trim(cleanedWord)) in stopWords) {
          if |cleanedWord| > 0 && StartsUpperCase(cleanedWord, cc) {
            keywords := LinkedAdd(keywords, cleanedWord);
          }
        }
      }
    }
    assert words[..|words|] == words;
  }

  // ---------------------------------------------------------------- the collection loop

  /** Index of the first piece on which `f` yields `k`, or the number of pieces when none does. */
  function FirstYield(words: seq<string>, f: string -> Option<string>, k: string): (n: nat)
    ensures n <= |words|
  {
    if |words| == 0 then 0
    else if f(words[0]) == Some(k) then 0
    else 1 + FirstYield(words[1..], f, k)
  }

  lemma {:induction false} FirstYieldIsFirst(words: seq<string>, f: string -> Option<string>, k: string, i: nat)
    requires i < |words|
    ensures f(words[i]) == Some(k) ==> FirstYield(words, f, k) <= i
    ensures FirstYield(words, f, k) == i ==> f(words[i]) == Some(k)
  {
    if i > 0 && f(words[0]) != Some(k) {
      FirstYieldIsFirst(words[1..], f, k, i - 1);
    }
  }

  /** Appending a piece leaves the first yielding index alone unless none was found before. */
  lemma {:induction false} FirstYieldSnoc(init: seq<string>, last: string, f: string -> Option<string>, k: string)
    ensures FirstYield(init, f, k) < |init| ==> FirstYield(init + [last], f, k) == FirstYield(init, f, k)
    ensures FirstYield(init, f, k) == |init| ==>
      FirstYield(init + [last], f, k) == if f(last) == Some(k) then |init| else |init| + 1
  {
    if |init| > 0 {
      assert (init + [last])[1..] == init[1..] + [last];
      FirstYieldSnoc(init[1..], last, f, k);
    }
  }

  /** A value is collected exactly when some piece yields it. */
  lemma {:induction false} CollectMembers(words: seq<string>, f: string -> Option<string>, k: string)
    ensures k in Collect(words, f) <==> FirstYield(words, f, k) < |words|
  {
    if |words| > 0 {
      var init := words[..|words| - 1];
      var last := words[|words| - 1];
      assert words == init + [last];
      CollectMembers(init, f, k);
      FirstYieldSnoc(init, last, f, k);
    }
  }

  lemma {:induction false} CollectNoDuplicates(words: seq<string>, f: string -> Option<string>)
    ensures NoDuplicates(Collect(words, f))
  {
    if |words| > 0 {
      CollectNoDuplicates(words[..|words| - 1], f);
    }
  }

  /** The collected values appear in the order of their first yielding pieces. */
  lemma {:induction false} CollectOrder(words: seq<string>, f: string -> Option<string>, i: nat, j: nat)
    requires i < j < |Collect(words, f)|
    ensures FirstYield(words, f, Collect(words, f)[i]) < FirstYield(words, f, Collect(words, f)[j])
  {
    var init := words[..|words| - 1];
    var last := words[|words| - 1];
    assert words == init + [last];
    var acc := Collect(init, f);
    var r := Collect(words, f);
    assert r[..|acc|] == acc;
    CollectMembers(init, f, r[i]);
    CollectMembers(init, f, r[j]);
    FirstYieldSnoc(init, last, f, r[i]);
    FirstYieldSnoc(init, last, f, r[j]);
    if j < |acc| {
      CollectOrder(init, f, i, j);
    } else {
      CollectNoDuplicates(words, f);
      assert r[j] !in acc;
    }
  }

  lemma {:induction false} CollectOfNothing(words: seq<string>, f: string -> Option<string>)
    requires forall i :: 0 <= i < |words| ==> f(words[i]) == None
    ensures Collect(words, f) == []
  {
    if |words| > 0 {
      CollectOfNothing(words[..|words| - 1], f);
    }
  }

  // ---------------------------------------------------------------- properties

  /** What it takes for a piece to yield keyword `k`, written out. */
  predicate Yields(word: string, k: string, stopWords: set<string>, cc: CharClasses) {
    && !StartsWith(word, "@")
    && |word| > 0
    && !IsStopWord(word, stopWords, cc)
    && Cleaned(word, cc) == k
    && |k| > 0
    && StartsUpperCase(k, cc)
  }

  lemma KeywordOfYields(word: string, k: string, stopWords: set<string>, cc: CharClasses)
    ensures KeywordOf(word, stopWords, cc) == Some(k) <==> Yields(word, k, stopWords, cc)
  {
  }

  /**
   * A piece whose cleaned form starts outside the Basic Multilingual Plane yields no
   * keyword, whatever `isUpperCase` says of that character.
   */
  lemma SupplementaryFirstLetterYieldsNothing(word: string, stopWords: set<string>, cc: CharClasses)
    requires |Cleaned(word, cc)| > 0 && !IsBmp(Cleaned(word, cc)[0])
    ensures KeywordOf(word, stopWords, cc) == None
  {
  }

  /**
   * "\U{1D400}x" (U+1D400 is an upper-case letter) is no keyword, even when every
   * character counts as a letter and as upper case.
   */
  lemma SupplementaryCapitalIsNoKeyword()
    ensures KeywordOf("\U{1D400}x", {}, CharClasses(c => true, c => true)) == None
  {
    var cc := CharClasses(c => true, c => true);
    SupplementaryFirstLetterYieldsNothing("\U{1D400}x", {}, cc);
  }

  /**
   * A string is a keyword of the text exactly when some space-separated piece does not
   * start with '@', is not a stop word (raw or cleaned), and cleans to that string with an
   * upper-case first character.
   */
  lemma KeywordsExactly(text: string, k: string, stopWords: set<string>, cc: CharClasses)
    ensures k in Keywords(text, stopWords, cc) <==>
      exists w :: w in Split(text, ' ') && Yields(w, k, stopWords, cc)
  {
    var words := Split(text, ' ');
    var f := w => KeywordOf(w, stopWords, cc);
    CollectMembers(words, f, k);
    var n := FirstYield(words, f, k);
    if n < |words| {
      FirstYieldIsFirst(words, f, k, n);
      KeywordOfYields(words[n], k, stopWords, cc);
    } else {
      forall w | w in words ensures !Yields(w, k, stopWords, cc) {
        var i :| 0 <= i < |words| && words[i] == w;
        FirstYieldIsFirst(words, f, k, i);
        KeywordOfYields(w, k, stopWords, cc);
      }
    }
  }

  predicate WellFormedKeyword(k: string, stopWords: set<string>, cc: CharClasses) {
    && |k| > 0
    && (forall i :: 0 <= i < |k| ==> cc.isLetterOrDigit(k[i]))
    && StartsUpperCase(k, cc)
    && ToLower(Trim(k)) !in stopWords
  }

  lemma KeywordOfWellFormed(word: string, stopWords: set<string>, cc: CharClasses)
    requires KeywordOf(word, stopWords, cc).Some?
    ensures WellFormedKeyword(KeywordOf(word, stopWords, cc).value, stopWords, cc)
  {
  }

  /**
   * Every keyword is non-empty, made of letters and digits only, starts with an upper-case
   * character and is not itself a stop word; no keyword occurs twice.
   */
  lemma KeywordsWellFormed(text: string, stopWords: set<string>, cc: CharClasses)
    ensures NoDuplicates(Keywords(text, stopWords, cc))
    ensures forall k :: k in Keywords(text, stopWords, cc) ==> WellFormedKeyword(k, stopWords, cc)
  {
    var words := Split(text, ' ');
    var f := w => KeywordOf(w, stopWords, cc);
    CollectNoDuplicates(words, f);
    forall k | k in Keywords(text, stopWords, cc) ensures WellFormedKeyword(k, stopWords, cc) {
      CollectMembers(words, f, k);
      var n := FirstYield(words, f, k);
      FirstYieldIsFirst(words, f, k, n);
      KeywordOfWellFormed(words[n], stopWords, cc);
    }
  }

  /**
   * The keywords keep first-occurrence order: of two keywords, the one listed first is the
   * one whose first yielding piece comes first in the text.
   */
  lemma KeywordsInFirstOccurrenceOrder(text: string, stopWords: set<string>, cc: CharClasses, i: nat, j: nat)
    requires i < j < |Keywords(text, stopWords, cc)|
    ensures var f := w => KeywordOf(w, stopWords, cc);
      FirstYield(Split(text, ' '), f, Keywords(text, stopWords, cc)[i])
        < FirstYield(Split(text, ' '), f, Keywords(text, stopWords, cc)[j])
  {
    CollectOrder(Split(text, ' '), w => KeywordOf(w, stopWords, cc), i, j);
  }

  lemma {:induction false} BlankPieces(s: string)
    requires forall i :: 0 <= i < |s| ==> s[i] == ' '
    ensures forall i :: 0 <= i < |Pieces(s, ' ')| ==> Pieces(s, ' ')[i] == ""
    decreases |s|
  {
    if |s| > 0 {
      BlankPieces(s[1..]);
    }
  }

  /** A text that is empty or made only of spaces has no keywords. */
  lemma BlankTextHasNoKeywords(text: string, stopWords: set<string>, cc: CharClasses)
    requires forall i :: 0 <= i < |text| ==> text[i] == ' '
    ensures Keywords(text, stopWords, cc) == []
  {
    var words := Split(text, ' ');
    if |text| > 0 {
      assert text[0] in text;
      BlankPieces(text);
      var ps := Pieces(text, ' ');
      assert words == DropTrailingEmpty(ps);
      forall i | 0 <= i < |words| ensures words[i] == "" {
        assert words[i] == ps[i];
      }
    }
    CollectOfNothing(words, w => KeywordOf(w, stopWords, cc));
  }
}
