# TwitNews ingestion and ranking core, modelled in Dafny

TwitNews crawls Twitter for the current trends, stores the tweets and authors it collects
for each trend, and ranks the stored tweets. This project models the logic at the centre of
it and proves properties of that model:

- **Keyword extraction.** `TextUtils.parseKeywordsFromTweetText` turns a tweet text into an
  ordered, duplicate-free set of capitalised alphanumeric keywords (module `TextUtils`).
- **The inverted index.** `InvertedIndex` maps each keyword to an insertion-ordered set of
  trend ids (module `Datastructures`, class `InvertedIndex`).
- **Trend matching.**
  - `NewsCrawler.searchInvertedIndex` counts keyword hits per trend and picks a strict-max
    winner (module `NewsCrawling`).
  - `ContinuousCrawler.getCorrespondingTrendId` is a case- and space-insensitive substring
    match (module `ContinuousCrawling`).
- **The stream listeners.** These are the `onStatus` methods of `NewsCrawler`,
  `ContinuousCrawler` and `StreamCrawler`, with their batches, counters and store helpers.
  - The batches the first two share are in module `TweetBatches`.
  - `StreamCrawler`'s gap monitor, switch rule, three-collection flush, retry loop and
    trend loop are in module `StreamCrawling`.
- **The REST crawler.** `Crawler.crawlTrends` does trend dedup, token-based link and retweet
  parsing, geolocation defaults and record building; `getUserInformation` is its user
  cache. Both are in module `RestCrawling`.
- **The skip-if-seen trend loop.** `StreamCrawler` and `Crawler` share it (module `TrendNames`).
- **Ranking.**
  - `Ranker.computeRank` with its spam score, the dedup of ranks per text, and the submission
    of ranks in groups (module `Ranker`).
  - `NewsRanker.computeRank` and its re-rank loop (module `NewsRanker`).
  - The terms the two share (module `RankTerms`).
- **Domain records.**
  - `TwitNewsTweet`, `TwitNewsUser`, `TwitNewsTrend` and `TwitNewsRank` are datatypes. A
    setter is a datatype update, so it changes only its own field.
  - Their `equals`, `hashCode` and `toString` are functions.
  - The two factories are modules `TweetFactory` and `UserFactory`.
- **Library semantics.** Modules `JavaLang` and `JavaUtil` give the Java library behaviour the
  code relies on:
  - A Java `String` is a sequence of UTF-16 code units, a Dafny string one of Unicode
    scalar values. So `length()` (`JavaLang.Length`), `hashCode`, `split("")` and the
    `charAt(0)` of the keyword test (`TextUtils.StartsUpperCase`) are written over the code
    units, and a character outside the Basic Multilingual Plane counts twice. Substring tests, `trim`, `split(" ")` and equality give the same results
    on either view of a string.
  - `String.trim` drops characters at or below U+0020.
  - `split(" ")` drops trailing empty pieces; Java 7's `split("")` starts with an empty string.
  - `String.hashCode` and the `int` casts are 32-bit.
  - `/` truncates toward zero.
  - `LinkedHashSet` keeps insertion order.

Twitter and the database appear only as parameters:
- A status, a user or a search result is a value of module `Twitter`.
- The outcome of a store call is a function argument. Examples: `tweetsStored(id, tweets)`
  says whether `TweetDAO.insertTweets` succeeds for that batch, `insertTrend(trend)` is the
  id `TrendDAO.insertTrend` returns, and `attempt(trend, k)` is the outcome of the k-th try.
- The iteration order of a `HashMap` is a parameter `order` that lists each key once
  (`JavaUtil.IsListing`). Every property is proved for every such order.
- The character classes `Character.isLetterOrDigit` and `Character.isUpperCase` are abstract
  predicates (`TextUtils.CharClasses`).
- The follower term `Math.log(numFollowers) / Math.log(MAX_TWITTER_FOLLOWERS)` of both rank
  functions is a parameter `logRatio: int -> real`.

The crawlers' objects that the source updates in place are classes. Each method is proved
to leave exactly the state a specification function computes from the old state, and the
properties are lemmas about those functions:
- `NewsCrawling.NewsCrawler`
- `ContinuousCrawling.ContinuousCrawler`
- `StreamCrawling.StreamCrawler`
- `RestCrawling.Crawler`
- `TweetBatches.Batches`
- `Datastructures.InvertedIndex`

A Java exception thrown by the code is a `None` result or the partial state change the
source makes before it throws. The model covers these exceptions:
- A NullPointerException for a status without a user, or a trend without a name.
- The ArithmeticException of the spam score on an empty text.
- The exception of building a retweeted original whose status has no user.
- The NullPointerException of either `computeRank` for a tweet with a link but no text,
  and of the spam score for a null text.

Other values the Twitter library delivers are modelled as never null. The fields concerned
are listed under "## Left out".

Where the code differs from its Javadoc and the intent its comments suggest, the model follows the code:
- Keyword extraction splits on the single space character, not on any whitespace.
- The upper-case test is made on the cleaned word, not on the original token: "#Apple"
  yields "Apple".
- The news crawler's max scan breaks ties by the iteration order of the counter map, not by
  the order in which keywords were scanned.
- A batch whose store fails is kept and keeps growing past 250. Batches stay below 250 only
  while every store succeeds (`TweetBatches.StoredBatchesStaySmall`).
- After a trend switch only `timeToSwitchTrends` and `tweetsCrawledForTrend` are reset. The
  gap counters and `timeOfLastTweet` carry over to the next trend
  (`StreamCrawling.CrawlResetsOnlyTheSwitch`).
- Only the news crawler ranks tweets as it ingests them. The other two listeners store them
  with rank 0.
- The spam score is subtracted unweighted, and `log(0)` for a user without followers is not
  guarded. The follower term is any function `logRatio`.
- `ContinuousCrawler` does not clear `trendNameToId` in its refresh, only at the end of each
  cycle of its main loop.

## Model

| member | source | states |
|---|---|---|
| Datastructures.Lookup | src/datastructures/InvertedIndex.java:38-40 | `get(k)` is k's set when k is a key and null otherwise |
| Datastructures.InsertedFiles | src/datastructures/InvertedIndex.java:42-52 | after `put(k, v)` k is a key whose set holds v; k's old set is a prefix of its new set; every other key and its set are unchanged |
| Datastructures.InsertedPresent | src/datastructures/InvertedIndex.java:43-45 | putting a value already in k's set leaves the index unchanged |
| Datastructures.InsertedSize | src/datastructures/InvertedIndex.java:42-52 | `size()` counts keys: `put` raises it by one exactly when the key is new |
| Datastructures.InsertedWellFormed | src/datastructures/InvertedIndex.java:42-52 | `put` keeps every key's set non-empty and duplicate-free |
| Datastructures.InsertedAllFiles | src/datastructures/InvertedIndex.java:54-58 | after `putAll(keys, v)` every listed key maps to a set containing v; unlisted keys are unchanged; no old value is lost |
| Datastructures.InsertedAllExactly | src/datastructures/InvertedIndex.java:54-58 | after `putAll` the keys are the old keys plus the listed ones, and w is in j's set iff it was before or j is listed and w is v |
| Datastructures.InsertedAllWellFormed | src/datastructures/InvertedIndex.java:54-58 | `putAll` keeps the sets non-empty and duplicate-free |
| Datastructures.InvertedIndex.constructor | src/datastructures/InvertedIndex.java:14 | a new index is empty |
| Datastructures.InvertedIndex.Size | src/datastructures/InvertedIndex.java:16-18 | the number of keys |
| Datastructures.InvertedIndex.IsEmpty | src/datastructures/InvertedIndex.java:20-22 | true iff there is no key |
| Datastructures.InvertedIndex.ContainsKey | src/datastructures/InvertedIndex.java:24-26 | true iff k is a key |
| Datastructures.InvertedIndex.ContainsValue | src/datastructures/InvertedIndex.java:28-36 | the early-return scan is true iff some key's set contains v |
| Datastructures.InvertedIndex.Get | src/datastructures/InvertedIndex.java:38-40 | returns `Lookup` of the current index |
| Datastructures.InvertedIndex.Put | src/datastructures/InvertedIndex.java:42-52 | the new index is `Inserted(old, k, v)` |
| Datastructures.InvertedIndex.PutAll | src/datastructures/InvertedIndex.java:54-58 | the loop leaves `InsertedAll(old, keys, v)`, one `put` per key in order |
| Datastructures.InvertedIndex.Remove | src/datastructures/InvertedIndex.java:60-62 | returns k's previous set or null; k is no longer a key; the other keys are unchanged |
| Datastructures.InvertedIndex.Clear | src/datastructures/InvertedIndex.java:64-66 | afterwards size is 0 and no key is contained |
| Datastructures.InvertedIndex.KeySet | src/datastructures/InvertedIndex.java:68-70 | the set of keys |
| Datastructures.InvertedIndex.Values | src/datastructures/InvertedIndex.java:72-78 | a duplicate-free sequence holding exactly the values of some key's set |
| TextUtils.ParseKeywordsFromTweetText | src/util/TextUtils.java:15-33 | the loop filling the LinkedHashSet returns `Keywords(text, stopWords)` |
| TextUtils.KeywordOfYields | src/util/TextUtils.java:20-29 | one piece yields keyword k iff it does not start with '@', is not a stop word raw or cleaned, and cleans to k whose first code unit is upper case |
| TextUtils.SupplementaryFirstLetterYieldsNothing | src/util/TextUtils.java:26 | a cleaned piece starting outside the Basic Multilingual Plane yields nothing, since `charAt(0)` is then a high surrogate |
| TextUtils.SupplementaryCapitalIsNoKeyword | src/util/TextUtils.java:26 | "\U{1D400}x" yields no keyword even when every character counts as an upper-case letter |
| TextUtils.KeywordsExactly | src/util/TextUtils.java:17-28 | k is a keyword of the text iff some space-separated piece yields it |
| TextUtils.KeywordOfWellFormed | src/util/TextUtils.java:22-27 | a yielded keyword is non-empty, only letters and digits, with an upper-case first code unit, and not a stop word |
| TextUtils.KeywordsWellFormed | src/util/TextUtils.java:16-28 | the keywords have no duplicates and are all well formed in that sense |
| TextUtils.KeywordsInFirstOccurrenceOrder | src/util/TextUtils.java:16-28 | of two keywords, the one listed first has its first yielding piece earlier in the text |
| TextUtils.BlankTextHasNoKeywords | src/util/TextUtils.java:17-20 | an empty or all-space text yields no keyword |
| TextUtils.BlankPieces | src/util/TextUtils.java:17 | splitting an all-space text gives only empty pieces |
| TextUtils.FirstYield | src/util/TextUtils.java:18-31 | the first piece yielding a keyword is at most the number of pieces |
| TextUtils.FirstYieldIsFirst | src/util/TextUtils.java:18-31 | no piece before the first yielding piece yields the keyword, and the first yielding piece does |
| TextUtils.FirstYieldSnoc | src/util/TextUtils.java:18-31 | one more piece moves the first yielding piece only when none yielded before |
| TextUtils.CollectMembers | src/util/TextUtils.java:16-31 | a value is collected iff some piece yields it |
| TextUtils.CollectNoDuplicates | src/util/TextUtils.java:16-27 | the LinkedHashSet never holds a value twice |
| TextUtils.CollectOrder | src/util/TextUtils.java:16-27 | collected values are in the order of their first yielding pieces |
| TextUtils.CollectOfNothing | src/util/TextUtils.java:16-31 | pieces that yield nothing give the empty set |
| JavaLang.Split | src/util/TextUtils.java:17 | `split(" ")`: no piece contains the separator |
| JavaLang.PiecesAvoidSeparator | src/util/TextUtils.java:17 | no piece of the split contains the separator |
| JavaLang.Pieces | src/util/TextUtils.java:17 | splitting always yields at least one piece before trailing empties are dropped |
| JavaLang.JoinPieces | src/util/TextUtils.java:17 | the pieces joined with the separator give the text back |
| JavaLang.DropTrailingEmpty | src/util/TextUtils.java:17 | drops exactly the trailing empty pieces |
| JavaLang.Trim | src/util/TextUtils.java:24 | `trim()` never lengthens a string |
| JavaLang.TrimStart | src/util/TextUtils.java:24 | drops exactly the leading characters at or below U+0020 |
| JavaLang.TrimEnd | src/util/TextUtils.java:24 | drops exactly the trailing characters at or below U+0020 |
| JavaLang.ToLower | src/util/TextUtils.java:24 | lower-cases each character in place, keeping the length |
| JavaLang.LowerChar | src/util/TextUtils.java:24 | lower-casing leaves trimmable characters and spaces as they were |
| JavaLang.TrimLower | src/util/TextUtils.java:24 | trimming and lower-casing commute |
| JavaLang.TrimStartLower | src/util/TextUtils.java:24 | dropping leading trimmable characters commutes with lower-casing |
| JavaLang.TrimEndLower | src/util/TextUtils.java:24 | dropping trailing trimmable characters commutes with lower-casing |
| JavaLang.KeepWhere | src/util/TextUtils.java:22 | the `replaceAll` keeps only characters of the class, never lengthening |
| JavaLang.RemoveChar | src/crawler/ContinuousCrawler.java:106 | `replace(" ", "")` leaves no space and never lengthens |
| JavaLang.RemoveCharTwice | src/crawler/ContinuousCrawler.java:106-108 | removing the spaces twice is removing them once |
| JavaLang.RemoveSpaceLower | src/crawler/ContinuousCrawler.java:106-108 | removing spaces commutes with lower-casing |
| JavaLang.Quotient | src/ranker/Ranker.java:172 | Java's `/`: the sign of the quotient follows the dividend |
| JavaLang.QuotientBounds | src/ranker/Ranker.java:122 | proof step for the retweet term: the quotient truncates toward zero, `q*b <= a < q*b + b` for a non-negative dividend and mirrored for a negative one |
| JavaLang.QuotientIsZero | src/ranker/Ranker.java:172 | a non-negative quotient is 0 iff the dividend is below the divisor |
| JavaLang.QuotientMonotone | src/ranker/Ranker.java:172 | the quotient never falls as a non-negative dividend grows |
| JavaLang.Truncate | src/ranker/Ranker.java:130 | the cast of a double truncates toward zero |
| JavaLang.DoubleToInt | src/ranker/Ranker.java:130 | `(int)` of a double truncates and saturates at the int range |
| JavaLang.DoubleToIntMonotone | src/ranker/Ranker.java:130 | the `(int)` cast preserves order |
| JavaLang.ToInt | src/ranker/Ranker.java:58 | the `(int)` cast of a long is an int, and the identity on ints |
| JavaLang.NatToString | src/domain/TwitNewsRank.java:91 | decimal digits only, at least one |
| JavaLang.IntToString | src/domain/TwitNewsRank.java:91 | an optional sign and digits, at least one character |
| JavaLang.NatToStringInjective | src/domain/TwitNewsRank.java:91-94 | distinct naturals print differently |
| JavaLang.IntToStringSign | src/domain/TwitNewsRank.java:91 | the printed form starts with '-' iff the number is negative |
| JavaLang.IntToStringInjective | src/domain/TwitNewsRank.java:91-94 | distinct ints print differently |
| JavaLang.IntToStringPrefix | src/domain/TwitNewsRank.java:91-94 | a printed int followed by a non-digit text can be read back, number and rest |
| JavaLang.PrefixedIntToString | src/domain/TwitNewsRank.java:91-94 | the same behind a common prefix |
| JavaLang.CharUnits | src/ranker/Ranker.java:144 | a character of the Basic Multilingual Plane is its own code unit; any other is a high surrogate followed by a low one |
| JavaLang.Utf16Units | src/ranker/Ranker.java:144 | the code units of a string: at least one and at most two per character, each below 0x10000 |
| JavaLang.Length | src/ranker/Ranker.java:144 | `length()` is between the number of characters and twice that, and equals it when every character is in the Basic Multilingual Plane |
| JavaLang.LengthIsUnits | src/ranker/Ranker.java:144 | `length()` counts exactly the code units |
| JavaLang.UnitsHashCode | src/domain/TwitNewsTrend.java:54 | the `31 * h + unit` fold is a 32-bit int |
| JavaLang.StringHashCode | src/domain/TwitNewsTrend.java:54 | `String.hashCode`, folded over the code units, is a 32-bit int and 0 for the empty string |
| JavaLang.HashCodeOfBmpChar | src/domain/TwitNewsTrend.java:54 | a one-character string of the Basic Multilingual Plane hashes to that character |
| JavaLang.SupplementaryIsSurrogatePair | src/domain/TwitNewsTrend.java:54 | U+1F600 has length 2, is the pair D83D DE00, and hashes as that pair |
| JavaLang.NullableHashCode | src/domain/TwitNewsTrend.java:54 | the hash of a null name is 0 and every hash is an int |
| JavaUtil.LinkedAdd | src/datastructures/InvertedIndex.java:45 | `LinkedHashSet.add` keeps the old elements in order, adds x, and keeps the set duplicate-free |
| JavaUtil.LinkedAddAll | src/crawler/NewsCrawler.java:252 | `addAll` keeps the old elements in order and adds the new ones, without duplicates |
| JavaUtil.LinkedAddAllMembers | src/crawler/NewsCrawler.java:252 | an element is in the result iff it was in the set or in the added list |
| JavaUtil.UnionedExactly | src/crawler/NewsCrawler.java:246-252 | the union of the lists is duplicate-free and holds exactly their elements |
| JavaUtil.ListingSize | src/crawler/NewsCrawler.java:152 | an iteration order visits as many keys as the map has |
| DomainTweet.ToString | src/domain/TwitNewsTweet.java:178-193 | starts with `TwitNewsTweet{tweetId=` and ends with `}` |
| DomainTweet.ToStringOmits | src/domain/TwitNewsTweet.java:180-192 | changing the timestamp, location, coordinates, tfidf or rank never changes the printed form |
| DomainTweet.ToStringDeterminesTweetId | src/domain/TwitNewsTweet.java:178-181 | tweets that print alike have the same tweet id |
| DomainRank.Equals | src/domain/TwitNewsRank.java:49-73 | true exactly for another rank with all four fields equal; false for null and other classes |
| DomainRank.ToString | src/domain/TwitNewsRank.java:87-97 | starts with `TwitNewsRank{rankId=` and ends with `}` |
| DomainRank.AfterRankId | src/domain/TwitNewsRank.java:92-96 | the rest after the rank id starts with `, trendId=` and ends with `}` |
| DomainRank.AfterTrendId | src/domain/TwitNewsRank.java:93-96 | the rest after the trend id starts with `, tweetId=` and ends with `}` |
| DomainRank.AfterTweetId | src/domain/TwitNewsRank.java:94-96 | the rest after the tweet id starts with `, rank=` and ends with `}` |
| DomainRank.ToStringInjective | src/domain/TwitNewsRank.java:87-97 | ranks that print alike are equal: the four fields appear in order |
| DomainRank.ToStringAgreesWithEquals | src/domain/TwitNewsRank.java:49-97 | two ranks print alike iff `equals` holds between them |
| DomainTrend.Equals | src/domain/TwitNewsTrend.java:31-49 | true exactly for another trend with the same id and (null-safe) name |
| DomainTrend.HashCode | src/domain/TwitNewsTrend.java:51-56 | `31 * trendId + hash(name)` is a 32-bit int |
| DomainTrend.EqualTrendsHaveEqualHashCodes | src/domain/TwitNewsTrend.java:31-56 | equal trends have equal hash codes |
| DomainTrend.ToString | src/domain/TwitNewsTrend.java:58-66 | starts with `TwitNewsTrend{trendId=` and ends with `'}` |
| DomainTrend.ToStringDeterminesId | src/domain/TwitNewsTrend.java:58-66 | trends that print alike have the same id |
| DomainTrend.NullNamePrintsLikeNullString | src/domain/TwitNewsTrend.java:58-66 | a null name and the name "null" print alike but are not `equals` |
| DomainTrend.TrendIds | src/crawler/NewsCrawler.java:247-250 | the id stored for each named trend, in order |
| DomainUser.Equals | src/domain/TwitNewsUser.java:49-71 | false for null or another class; otherwise compares userName (null-safe), the verified flag and followers, not the name |
| DomainUser.HashCode | src/domain/TwitNewsUser.java:73-80 | a 32-bit int that mixes in the name too |
| DomainUser.EqualsIsEquivalence | src/domain/TwitNewsUser.java:49-71 | `equals` is reflexive, symmetric and transitive |
| DomainUser.EqualsIgnoresName | src/domain/TwitNewsUser.java:58-71 | changing either display name never changes `equals` |
| DomainUser.EqualUsersWithDifferentHashCodes | src/domain/TwitNewsUser.java:49-80 | two users differing only in name are `equals` but hash differently |
| DomainUser.HashSetAdd | src/crawler/StreamCrawler.java:87 | `HashSet.add` keeps the set when an element has the same hash and is `equals`, and appends otherwise |
| DomainUser.UserSetHoldsEqualUsers | src/crawler/StreamCrawler.java:80-87 | so a user set can hold two users that are `equals` |
| DomainUser.HashSetAddGrows | src/crawler/StreamCrawler.java:87 | `add` keeps every user, adds at most one, and leaves one `equals` to the added user in the set |
| DomainUser.HashSetAddDistinct | src/crawler/StreamCrawler.java:87 | `add` keeps the set free of same-hash `equals` pairs |
| TweetFactory.LinkOf | src/domain/TwitNewsTweetFactory.java:79-98 | the first media URL; otherwise the first URL entity's expanded URL, or its printed form when that is null; otherwise null |
| TweetFactory.FromStatus | src/domain/TwitNewsTweetFactory.java:49-107 | null user throws; otherwise the tweet id is the trendId argument and the trendId field is 0; text, user fields and time are copied; place and geolocation copied or defaulted to null and -1.0; link as `LinkOf`; hasLink iff media or URLs; retweet flag and count copied; tfidf and rank 0 |
| TweetFactory.HasLinkIffLink | src/domain/TwitNewsTweetFactory.java:82-98 | a built tweet has a link iff it is flagged as having one |
| TweetFactory.FromStatusIgnoresStatusId | src/domain/TwitNewsTweetFactory.java:51-52 | the status id is overwritten: statuses differing only in id give the same tweet |
| UserFactory.FromUser | src/domain/TwitNewsUserFactory.java:36-45 | a null user gives the default user; otherwise screen name, name, verified flag and followers are copied |
| UserFactory.FromStatus | src/domain/TwitNewsUserFactory.java:53-63 | a status without a user gives a user with null name, unverified, with 0 followers |
| UserFactory.FromStatusIsFromUser | src/domain/TwitNewsUserFactory.java:36-63 | `fromStatus(s)` equals `fromUser(s.getUser())`, the null case included |
| TrendNames.NameKeyList | src/crawler/StreamCrawler.java:222 | each name's trimmed, lower-cased key, in order |
| TrendNames.KeysOfExactly | src/crawler/Crawler.java:93-95 | the seen-names set holds a key iff some name has it |
| TrendNames.FirstOfEachKeys | src/crawler/Crawler.java:87-95 | the visited trends cover every key |
| TrendNames.FirstOfEachDistinct | src/crawler/Crawler.java:87-95 | no two visited trends have the same key |
| TrendNames.FirstOfEachFirsts | src/crawler/Crawler.java:87-95 | each visited trend is the first name with its key |
| TrendNames.FirstOfEachStep | src/crawler/Crawler.java:93-95 | one more name is visited iff its key is new, and its key joins the set either way |
| TweetBatches.FiledMeaning | src/crawler/NewsCrawler.java:89-107 | filing appends the tweet, and a retweet's original, to the trend's list; raises the counter by one and adds the user; an original that throws leaves only an existing list grown by the tweet; other lists are untouched |
| TweetBatches.FlushedKeepsUnstored | src/crawler/NewsCrawler.java:111-118 | submitting keeps every trend; a list is emptied iff the count reached 250 and its store succeeded; the counter is reset iff some store succeeded; users are dropped only by a successful store |
| TweetBatches.StepKeepsInvariant | src/crawler/NewsCrawler.java:89-118 | the counter stays non-negative and the user set stays free of same-hash `equals` pairs |
| TweetBatches.StoredBatchesStaySmall | src/crawler/NewsCrawler.java:105-118 | while every store succeeds, neither the counter nor the user set reaches 250 after a step |
| TweetBatches.FlushedForStep | src/crawler/NewsCrawler.java:112-114 | one more `insertTweets` call changes only that trend's list and adds its success to the reset condition |
| TweetBatches.ListingStep | src/crawler/NewsCrawler.java:112 | the next key of an iteration order is a key not visited before |
| TweetBatches.FlushedForAll | src/crawler/NewsCrawler.java:112-114 | once every key is visited, the lists and the reset are those of `FlushedLists` and `AnyStored` |
| TweetBatches.Batches.constructor | src/crawler/NewsCrawler.java:66-68 | no tweets counted, no lists and no users |
| TweetBatches.Batches.File | src/crawler/NewsCrawler.java:89-107 | the fields become `Filed(old state)`; `ok` is false iff building the original threw |
| TweetBatches.Batches.InsertTweets | src/crawler/NewsCrawler.java:172-183 | a successful store empties that list and resets the counter; a failed one changes nothing |
| TweetBatches.Batches.InsertUsers | src/crawler/NewsCrawler.java:188-198 | a successful store empties the user set; a failed one changes nothing |
| TweetBatches.Batches.InsertAllTweets | src/crawler/NewsCrawler.java:111-115 | the loop over the key set empties exactly the stored lists and resets the counter iff some store succeeded, in any iteration order |
| TweetBatches.Batches.Flush | src/crawler/NewsCrawler.java:111-118 | the two threshold tests leave `Flushed(old state)` |
| NewsCrawling.Bump | src/crawler/NewsCrawler.java:139-146 | one hit adds the trend to the counters' keys |
| NewsCrawling.CountedCounts | src/crawler/NewsCrawler.java:138-147 | the inner loop raises by one exactly the counters of the keyword's trends |
| NewsCrawling.CountersAreHits | src/crawler/NewsCrawler.java:133-149 | each trend's counter is the number of distinct text keywords whose index set holds it, and it has a counter iff that is positive |
| NewsCrawling.CountersPositive | src/crawler/NewsCrawler.java:139-146 | every counter is positive |
| NewsCrawling.BestIsFirstMax | src/crawler/NewsCrawler.java:150-158 | the max scan's rank bounds every counter; a rank of 0 leaves the id 0; a positive rank is the counter of the first trend in iteration order reaching the maximum |
| NewsCrawling.MatchWithoutHits | src/crawler/NewsCrawler.java:150-163 | no text keyword in the index gives {0, 0} |
| NewsCrawling.HitsWithoutKeys | src/crawler/NewsCrawler.java:133-149 | keywords absent from the index give no trend a hit |
| NewsCrawling.MatchIsBest | src/crawler/NewsCrawler.java:132-164 | the score is the winner's hit count and no trend has more; score 0 means no trend has a hit and id 0; ties go to the first trend in the counters' iteration order |
| NewsCrawling.RankedTweet | src/crawler/NewsCrawler.java:81-85 | the factory's tweet with tfidf set to the match score and rank set to its own news rank |
| NewsCrawling.NewsStep | src/crawler/NewsCrawler.java:71-119 | an unmatched status (id 0), or one without a user, changes nothing |
| NewsCrawling.NewsStepCountsStatuses | src/crawler/NewsCrawler.java:89-105 | below the threshold a matched status raises the counter by exactly one and appends its ranked tweet, then the original of a retweet |
| NewsCrawling.KeywordLists | src/crawler/NewsCrawler.java:251 | each headline's keywords, in order |
| NewsCrawling.IndexedStep | src/crawler/NewsCrawler.java:247-254 | one more headline adds its keywords to the index under its id and to the union |
| NewsCrawling.TrendTextsExactly | src/crawler/NewsCrawler.java:275-288 | the headlines are each trimmed timeline text, once |
| NewsCrawling.TrackKeywordsExactly | src/crawler/NewsCrawler.java:246-262 | the filter keywords are duplicate-free and are exactly the keywords of some headline |
| NewsCrawling.IndexedWellFormed | src/crawler/NewsCrawler.java:253 | an index built by `putAll` has no empty set |
| NewsCrawling.IndexedExactly | src/crawler/NewsCrawler.java:247-254 | the built index holds exactly the lists' keywords, each with exactly the ids of the lists holding it |
| NewsCrawling.TrendIndexExactly | src/crawler/NewsCrawler.java:240-254 | after the refresh the index holds exactly the headlines' keywords, each with the ids stored for the headlines it belongs to; nothing older survives |
| NewsCrawling.IndexKeysAreTrackKeywords | src/crawler/NewsCrawler.java:246-262 | the index's keys are exactly the filter keywords |
| NewsCrawling.NewsCrawler.constructor | src/crawler/NewsCrawler.java:62-68 | empty batches, empty index, no filter keywords |
| NewsCrawling.NewsCrawler.SearchInvertedIndex | src/crawler/NewsCrawler.java:132-164 | the counting loops and the max scan return `Match` of the text's keywords |
| NewsCrawling.NewsCrawler.OnStatus | src/crawler/NewsCrawler.java:71-119 | the listener's state becomes `NewsStep` of the old state and the status's match |
| NewsCrawling.NewsCrawler.GetTrendsFromRestApi | src/crawler/NewsCrawler.java:275-288 | the trimmed timeline texts as an insertion-ordered set |
| NewsCrawling.NewsCrawler.Refresh | src/crawler/NewsCrawler.java:240-262 | the index becomes `TrendIndex` of the fetched headlines and the filter keywords their union |
| ContinuousCrawling.TrendIdForWithoutMention | src/crawler/ContinuousCrawler.java:112-113 | a text mentioning no key gets id 0 |
| ContinuousCrawling.TrendIdForFirstMention | src/crawler/ContinuousCrawler.java:105-111 | a text gets the id of the first key, in iteration order, that it mentions |
| ContinuousCrawling.SqueezedIgnoresCase | src/crawler/ContinuousCrawler.java:106-108 | lower-casing first does not change the squeezed form |
| ContinuousCrawling.SqueezedIgnoresSpaces | src/crawler/ContinuousCrawler.java:106-108 | removing spaces first does not change the squeezed form |
| ContinuousCrawling.MentionsIgnoresCaseAndSpaces | src/crawler/ContinuousCrawler.java:106-108 | matching ignores case and ' ' characters in both text and key |
| ContinuousCrawling.TrendIdForIgnoresCaseAndSpaces | src/crawler/ContinuousCrawler.java:105-114 | a status gets the same id whatever the case and spacing of its text |
| ContinuousCrawling.ContinuousStep | src/crawler/ContinuousCrawler.java:59-96 | a status without a user changes nothing |
| ContinuousCrawling.ContinuousStepFilesEveryStatus | src/crawler/ContinuousCrawler.java:61-82 | below the threshold every status with a user, id 0 included, raises the counter by one and appends its tweet and a retweet's original to its id's list |
| ContinuousCrawling.RefreshedStep | src/crawler/ContinuousCrawler.java:196-199 | one more fetched trend puts its stored id under its key |
| ContinuousCrawling.RegisteredExactly | src/crawler/ContinuousCrawler.java:199 | the puts add exactly the keys put, keep the rest, and the last put of a key wins |
| ContinuousCrawling.RefreshedKeys | src/crawler/ContinuousCrawler.java:195-201 | the refresh adds exactly the keys of the fetched names and leaves other entries as they were |
| ContinuousCrawling.RefreshedLastWins | src/crawler/ContinuousCrawler.java:196-199 | a key fetched twice keeps the id of the last trend with it |
| ContinuousCrawling.ContinuousCrawler.constructor | src/crawler/ContinuousCrawler.java:36 | empty batches, empty map, no trend strings |
| ContinuousCrawling.ContinuousCrawler.GetCorrespondingTrendId | src/crawler/ContinuousCrawler.java:105-114 | the loop with its early return computes `TrendIdFor` |
| ContinuousCrawling.ContinuousCrawler.OnStatus | src/crawler/ContinuousCrawler.java:59-96 | the listener's state becomes `ContinuousStep` under the status's trend id |
| ContinuousCrawling.ContinuousCrawler.Refresh | src/crawler/ContinuousCrawler.java:190-201 | the map becomes `Refreshed(old, names)` and the trend strings are the names in fetch order |
| ContinuousCrawling.ContinuousCrawler.EndCycle | src/crawler/ContinuousCrawler.java:175-176 | the map is cleared at the end of the cycle |
| StreamCrawling.ObservedKeepsTime | src/crawler/StreamCrawler.java:102-114 | the last time becomes the status time; a gap of 2000 or less resets both counters; a gap over 2000 raises the first; only a gap over 15000 raises the second; counters stay non-negative |
| StreamCrawling.SlowRunCounts | src/crawler/StreamCrawler.java:104-110 | a run of gaps over 2000 raises `numTweetsOverThreshold` by one per status |
| StreamCrawling.VerySlowRunCounts | src/crawler/StreamCrawler.java:104-107 | a run of gaps over 15000 raises `numTweetsOverHighThreshold` by one per status |
| StreamCrawling.SlowStreamSwitches | src/crawler/StreamCrawler.java:104-130 | eleven slow gaps in a row, or two very slow ones, force a switch whatever the crawl count |
| StreamCrawling.InsertedAllIndependently | src/crawler/StreamCrawler.java:133-166 | each of the three collections is emptied iff its own store succeeds and is otherwise kept whole, whatever the other stores do |
| StreamCrawling.StreamStepKeepsValid | src/crawler/StreamCrawler.java:83-131 | `onStatus` keeps the counters non-negative and the user set duplicate-free |
| StreamCrawling.AdvancedKeepsValid | src/crawler/StreamCrawler.java:97-131 | the part after filing keeps the state valid |
| StreamCrawling.StreamStepCountsAndSwitches | src/crawler/StreamCrawler.java:101-130 | a complete status raises the crawl count by one and updates the monitor; a switch is requested iff one was pending or the count reached the target or the counters exceed 10 or 1; the trend id is unchanged |
| StreamCrawling.StreamStepKeepsUnstored | src/crawler/StreamCrawler.java:84-99 | while stores fail, every status appends its tweet, adds its user and appends a retweet's original |
| StreamCrawling.StreamStepOriginalThrows | src/crawler/StreamCrawler.java:84-93 | a retweet whose original throws leaves its tweet and user added and nothing else changed |
| StreamCrawling.FirstSuccessIsFirst | src/crawler/StreamCrawler.java:326-343 | a success is the first of at most three tries that stores the trend, all earlier ones failing; no success means all three failed |
| StreamCrawling.FailedInsertKeepsTrendId | src/crawler/StreamCrawler.java:340-342 | three failed tries only request a switch, keeping the previous trend id |
| StreamCrawling.CrawlResetsOnlyTheSwitch | src/crawler/StreamCrawler.java:244-246 | after each visited trend the switch flag and crawl count are reset; monitor and batches are untouched |
| StreamCrawling.CrawlEndsOnLastStoredTrend | src/crawler/StreamCrawler.java:220-247 | after the crawl the current trend id is the last visited trend's when it was stored, and unchanged when none was |
| StreamCrawling.StreamCrawler.constructor | src/crawler/StreamCrawler.java:71-80 | counters, flags, time and collections start at 0, false and empty |
| StreamCrawling.StreamCrawler.InsertTrendsAndUsers | src/crawler/StreamCrawler.java:133-166 | the collections become `InsertedAll` of the old ones; nothing else changes |
| StreamCrawling.StreamCrawler.Observe | src/crawler/StreamCrawler.java:102-114 | the monitor becomes `Observed(old monitor, time)` |
| StreamCrawling.StreamCrawler.OnStatus | src/crawler/StreamCrawler.java:83-131 | the state becomes `StreamStep(old state, status)` |
| StreamCrawling.StreamCrawler.Advance | src/crawler/StreamCrawler.java:97-130 | the state becomes `Advanced(old state, time)` |
| StreamCrawling.StreamCrawler.AttemptToInsertTrend | src/crawler/StreamCrawler.java:326-343 | the state becomes `Attempted`; the number of tries is the first success's, or 3 |
| StreamCrawling.StreamCrawler.Visit | src/crawler/StreamCrawler.java:226-246 | the name joins `trends` and the state becomes `CrawledOne` |
| StreamCrawling.StreamCrawler.CrawlTrends | src/crawler/StreamCrawler.java:203-249 | visits exactly `FirstOfEach(names)` in order, records them in `trends` and leaves `CrawledAll` |
| RestCrawling.LastLinkIsNullWithoutLink | src/crawler/Crawler.java:139-146 | the link is null iff no token starts with "http://" |
| RestCrawling.LastLinkIsLast | src/crawler/Crawler.java:141-146 | a link is the trimmed last token starting with "http://" |
| RestCrawling.TokenStep | src/crawler/Crawler.java:142-150 | one more token sets the link flag, the last link and the retweet flag as the loop's body does |
| RestCrawling.ParseText | src/crawler/Crawler.java:137-150 | the token loop's flags and link are `HasLink`, `LastLink` and `IsRetweetText` of the tokens |
| RestCrawling.TweetRecord | src/crawler/Crawler.java:125-179 | the stored record: the tweet's fields and trend id, the author's flag and followers, the text features, -1.0 coordinates without a geolocation, -1 retweets on a failed lookup, other fields default |
| RestCrawling.UserInformationCachesOnlyFallbacks | src/crawler/Crawler.java:221-242 | a cached user is returned without a lookup; a fetched user is returned uncached; only the fallback (unverified, 0 followers) of a failed lookup is cached |
| RestCrawling.TrendRecords | src/crawler/Crawler.java:121-184 | one record per search result, in order, with the tweet's id and the trend's id |
| RestCrawling.CrawledRecordsCount | src/crawler/Crawler.java:87-184 | the crawl makes exactly one record per found tweet and the cache keeps holding only fallbacks |
| RestCrawling.TrendRecordsKeepFallbacks | src/crawler/Crawler.java:121-123 | one trend's tweets keep the cache holding only fallbacks |
| RestCrawling.Crawler.constructor | src/crawler/Crawler.java:31 | the user cache starts empty |
| RestCrawling.Crawler.GetUserInformation | src/crawler/Crawler.java:221-242 | returns the user and leaves the cache `UserInformation` says |
| RestCrawling.Crawler.MakeRecord | src/crawler/Crawler.java:125-179 | builds `TweetRecord` of the tweet |
| RestCrawling.Crawler.CrawlTweets | src/crawler/Crawler.java:121-184 | the loop over one trend's results returns `TrendRecords` |
| RestCrawling.Crawler.CrawlTrends | src/crawler/Crawler.java:70-188 | the records handed to the store and the cache are `CrawledRecords` of the distinct trend names |
| RankTerms.RetweetsUsed | src/ranker/Ranker.java:116-119 | a retweet's count is taken as 0, any other tweet's as is |
| RankTerms.RetweetTermSmall | src/ranker/Ranker.java:122 | the integer-divided retweet term is 0 for counts between -100 and 100 and for retweets |
| RankTerms.RetweetTermGroups | src/ranker/Ranker.java:122 | for a non-negative count, the retweet term is the number of whole groups of 101 retweets, so 101 is the first count to earn 1 |
| RankTerms.RetweetTermMonotone | src/ranker/Ranker.java:122 | more retweets never give a smaller retweet term |
| NewsRanker.ComputeRank | src/ranker/NewsRanker.java:56-87 | throws iff a linked tweet has no text; the result is an int |
| NewsRanker.RankDependsOnlyOn | src/ranker/NewsRanker.java:56-87 | tweets agreeing on tfidf, link flag, text, retweet count and flag, followers and verified flag get the same rank |
| NewsRanker.ComputeRankIgnoresRank | src/ranker/NewsRanker.java:56-87 | the old rank does not enter the new one |
| NewsRanker.KeywordTerm | src/ranker/NewsRanker.java:65 | the keyword term is tfidf × 0.5 |
| NewsRanker.LinkTerm | src/ranker/NewsRanker.java:67-71 | the link term is 0.05 for a link without "(cont)" in any case, else 0 |
| NewsRanker.ContIsNoLink | src/ranker/NewsRanker.java:69 | a "(cont)" link ranks like no link |
| NewsRanker.VerifiedTerm | src/ranker/NewsRanker.java:81-83 | verification adds 0.2 and never lowers the rank |
| NewsRanker.RetweetCountIgnoredForRetweets | src/ranker/NewsRanker.java:73-76 | a retweet's own retweet count is ignored |
| NewsRanker.SmallRetweetCountsIgnored | src/ranker/NewsRanker.java:79 | counts from -100 to 100 rank like 0 |
| NewsRanker.RetweetCountTerm | src/ranker/NewsRanker.java:73-79 | the retweet term adds exactly 0.15 per whole group of 101 retweets counted |
| NewsRanker.RetweetsMonotone | src/ranker/NewsRanker.java:73-86 | for a tweet that is not a retweet, more retweets never give a lower rank |
| NewsRanker.FollowerTerm | src/ranker/NewsRanker.java:80 | changing the follower count changes the score by exactly 0.1 times the change of the log ratio |
| NewsRanker.TfidfMonotone | src/ranker/NewsRanker.java:65-86 | a higher tfidf never gives a lower rank |
| NewsRanker.ReRank | src/ranker/NewsRanker.java:43-50 | every tweet's rank is replaced in place by `computeRank`; an exception stops at the first unrankable tweet, leaving it and the later ones as they were |
| Ranker.CharTokensOf | src/ranker/Ranker.java:142 | the one-code-unit strings of a character: itself, or the two halves of its surrogate pair |
| Ranker.CharTokens | src/ranker/Ranker.java:142 | one one-code-unit string per UTF-16 code unit of the text, in order |
| Ranker.Tokens | src/ranker/Ranker.java:142 | Java 7 `split("")`: an empty string, then `length()` one-code-unit strings |
| Ranker.TokensSnoc | src/ranker/Ranker.java:142 | one more character adds exactly its own one-code-unit strings |
| Ranker.TokenPartSnoc | src/ranker/Ranker.java:156-162 | one more trend adds its term to a token's share |
| Ranker.TokenPartStep | src/ranker/Ranker.java:156-162 | the inner token loop's share after one more trend |
| Ranker.HashPartSnoc | src/ranker/Ranker.java:155-163 | one more token adds its share |
| Ranker.CharTokenPart | src/ranker/Ranker.java:155-163 | a '#' token adds one per trend whose trimmed, lower-cased name is not "#"; any other one-code-unit token adds nothing |
| Ranker.EmptyTokenPart | src/ranker/Ranker.java:155-163 | the leading empty token adds nothing |
| Ranker.HalfTokenPart | src/ranker/Ranker.java:155-163 | half of a surrogate pair does not start with '#', so it adds nothing |
| Ranker.HashPartOfNoTrends | src/ranker/Ranker.java:155-163 | with no trends, the token loop adds nothing |
| Ranker.BadPartOfNoBadWords | src/ranker/Ranker.java:166-170 | with no bad words, the bad-word loop adds nothing |
| Ranker.HashPartCount | src/ranker/Ranker.java:155-163 | the token loop adds (number of '#') × (trends named other than "#") |
| Ranker.SupplementaryCharacterCountsTwice | src/ranker/Ranker.java:141-173 | for "#" followed by U+1F600, against two other trends "a" and "b", the count is 2 of 3 code units and the score is 0 |
| Ranker.BadPartMonotone | src/ranker/Ranker.java:166-170 | a larger bad-word set never counts fewer code units |
| Ranker.SpamScore | src/ranker/Ranker.java:141-173 | throws iff the text is null or empty or a trend name is null; otherwise a non-negative quotient that is 0 iff the uninteresting count is below the text's `length()` in code units |
| Ranker.ComputeSpamScore | src/ranker/Ranker.java:141-173 | the three loops compute `SpamScore` |
| Ranker.CountTrendNames | src/ranker/Ranker.java:147-153 | the sum of the `length()` of other trends' names found in the text; throws iff another trend's name is null |
| Ranker.CountHashTokens | src/ranker/Ranker.java:155-163 | the nested loop's count; throws iff there is a token and a null trend name |
| Ranker.CountTokenAgainstTrends | src/ranker/Ranker.java:156-162 | the inner loop's count for one token; throws iff a trend name is null |
| Ranker.CountBadWords | src/ranker/Ranker.java:166-170 | the sum of the `length()` of the bad words of the text |
| Ranker.ComputeRank | src/ranker/Ranker.java:101-131 | throws iff the spam score throws; otherwise an int |
| Ranker.LinkTerm | src/ranker/Ranker.java:110-114 | the link term is 0.1 for a link without "(cont)" in any case, else 0 |
| Ranker.ContIsNoLink | src/ranker/Ranker.java:112 | a "(cont)" link ranks like no link |
| Ranker.RetweetCountIgnored | src/ranker/Ranker.java:116-122 | a retweet's count is ignored and counts from -100 to 100 rank like 0 |
| Ranker.SameScoresSameRank | src/ranker/Ranker.java:101-131 | tweets with the same text, trend, link, followers, verified flag and retweet term get the same rank |
| Ranker.VerifiedTerm | src/ranker/Ranker.java:124-126 | verification adds exactly 0.4 to the weighted sum and never lowers the rank |
| Ranker.RetweetCountTerm | src/ranker/Ranker.java:116-122 | the retweet term adds exactly 0.3 per whole group of 101 retweets counted |
| Ranker.RetweetsMonotone | src/ranker/Ranker.java:116-130 | for a tweet that is not a retweet, more retweets never give a lower rank |
| Ranker.FollowerTerm | src/ranker/Ranker.java:123 | changing the follower count changes the weighted sum by exactly 0.2 times the change of the log ratio |
| Ranker.SpamTerm | src/ranker/Ranker.java:128-130 | the rank is the cast of a million times the weighted sum less a million times the spam score; with no trends and no bad words the spam score is 0, so spam never raises the rank |
| Ranker.MoreBadWordsNeverRaise | src/ranker/Ranker.java:128-130 | more bad words never give a higher rank |
| Ranker.HashtagPenalty | src/ranker/Ranker.java:183-187 | 0.05 iff the trend name starts with '#', else 0; a null name throws |
| Ranker.RankOf | src/ranker/Ranker.java:56-59 | the rank record has the trend's id, the tweet id cast to int and the score |
| Ranker.Scores | src/ranker/Ranker.java:54-55 | one score per tweet when none throws |
| Ranker.ScoresMeaning | src/ranker/Ranker.java:54-55 | the scores exist iff no tweet's rank throws, and then are those ranks in order |
| Ranker.ScoresStep | src/ranker/Ranker.java:54-55 | the scores of one more tweet |
| Ranker.ScoresThrow | src/ranker/Ranker.java:54-55 | one unrankable tweet leaves no scores |
| Ranker.Texts | src/ranker/Ranker.java:69 | the map keys are the tweets' texts, in order |
| Ranker.RanksOf | src/ranker/Ranker.java:54-59 | one rank record per tweet, in order |
| Ranker.TweetStep | src/ranker/Ranker.java:54-59 | the texts and records of one more tweet |
| Ranker.DedupSnoc | src/ranker/Ranker.java:69-77 | one more rank replaces the kept one under its text only when strictly higher |
| Ranker.DedupKeys | src/ranker/Ranker.java:68-78 | the kept map's keys are the distinct texts |
| Ranker.DedupKeepsFirstBest | src/ranker/Ranker.java:68-78 | each distinct text keeps the first of its highest-scoring ranks |
| Ranker.FirstBestKept | src/ranker/Ranker.java:71-73 | a rank that is not higher leaves the first-best in place |
| Ranker.FirstBestNew | src/ranker/Ranker.java:71-73 | a strictly higher rank becomes the first-best |
| Ranker.FirstBestOnly | src/ranker/Ranker.java:75-77 | a new text's only rank is its first-best |
| Ranker.CountScored | src/ranker/Ranker.java:61-66 | counts only positively ranked tweets: at most all, and 0 when no score is positive |
| Ranker.CountScoredStep | src/ranker/Ranker.java:61-66 | the counter after one more tweet |
| Ranker.TallyStep | src/ranker/Ranker.java:54-78 | the tweet loop's map and counters after one more tweet |
| Ranker.Batches | src/ranker/Ranker.java:79-88 | every submitted group holds 101 ranks |
| Ranker.BatchesCover | src/ranker/Ranker.java:79-88 | the groups end to end are the values in iteration order, up to a never-submitted tail of at most 100 |
| Ranker.ValuesIn | src/ranker/Ranker.java:81 | one kept rank per visited key |
| Ranker.RankedTrend | src/ranker/Ranker.java:54-88 | a trend's pass throws iff some tweet's rank throws |
| Ranker.RankedTrendSubmitsKeptRanks | src/ranker/Ranker.java:68-88 | each submitted rank is the kept rank of one distinct text, submitted once in iteration order, with at most 100 left unsubmitted |
| Ranker.RankTrend | src/ranker/Ranker.java:54-88 | the loop body for one trend computes `RankedTrend` |
| Ranker.RankTweets | src/ranker/Ranker.java:54-78 | the tweet loop returns the deduplicated map and the link and retweet counters of positively ranked tweets, or throws iff a rank throws |
| Ranker.SubmitRanks | src/ranker/Ranker.java:79-88 | the loop over the values submits `Batches` of the values in iteration order |
| Ranker.RunCompletes | src/ranker/Ranker.java:41-90 | the run completes iff every trend has a name and all its tweets can be ranked |
| Ranker.RunStaysStopped | src/ranker/Ranker.java:41-90 | once the program stops, later trends change nothing |
| Ranker.RankAll | src/ranker/Ranker.java:32-92 | `main` over the fetched trends computes `Run` |

## Left out

- SQL and JDBC: the DAOs, `MySQL_UI`, the schema scripts and `fromResultSet`. Every store
  call is a parameter that succeeds or fails, or that returns the id the store gives. The
  DAO defects (`TrendDAO` swallowing errors, `updateRank` binding one parameter twice, the
  wrong fallback column in `UserDAO`) are not part of this model.
- The Twitter4j calls are not modelled: `getLocationTrends`, `getUserTimeline`, `search`,
  `showUser`, `getRetweets`, `filter`, `cleanUp`, `shutdown` and listener registration. Their
  results are inputs. `TwitNewsTrendFactory.fromTrend` and `HelloWorld` are not part of this
  model.
- The lookups `showUser(screenName)` and `retweets(id)` of `RestCrawling` are fixed functions
  of their argument, so every lookup of one screen name, or of one tweet id, during a crawl
  gets the same answer. Java calls `showUser` again for each tweet of an author whose lookup
  succeeded, because only the fallback user is cached (`Crawler.java:227-238`). A later call
  that throws, for example on a rate limit, switches that author to the cached fallback. The
  model does not capture a lookup that first succeeds and then fails. Likewise each store
  outcome depends only on its arguments.
- Threads and timing: the listener thread, `waitOneHour`, `Crawler.hourLongSleep` and its
  `firstTime` flag, and the busy wait of `StreamCrawler.crawlTrends` on `timeToSwitchTrends`.
  Each `onStatus` is one sequential step.
- The statuses streamed while a trend is crawled are not tied to the `crawlTrends` loop.
  `StreamCrawling.CrawledOne` is the storing of one trend followed by the reset.
- Twitter values modelled as never null, so their NullPointerExceptions are not modelled:
  - `Status.getText()` (`Twitter.Status.text`), which `NewsCrawler.java:129` and `:280` and
    `ContinuousCrawler.java:106` dereference.
  - `Status.getCreatedAt()` (`Twitter.Status.createdAt`), dereferenced at
    `TwitNewsTweetFactory.java:61` and `StreamCrawler.java:102-103`.
  - `MediaEntity.getExpandedURL()` (`Twitter.MediaEntity.expandedUrl`), dereferenced at
    `TwitNewsTweetFactory.java:84`.
  - `Tweet.getText()`, `Tweet.getFromUser()` and `Tweet.getCreatedAt()` (`Twitter.Tweet.text`,
    `fromUser`, `createdAt`), used at `Crawler.java:125`, `:137` and `:223-238`.
  - Twitter4j `Trend.getName()`, so a fetched trend is its name (a `string` in
    `RestCrawling.Crawler.CrawlTrends`, `StreamCrawling.StreamCrawler.CrawlTrends` and
    `ContinuousCrawling.ContinuousCrawler.Refresh`). The code dereferences it at
    `Crawler.java:89-98`, `StreamCrawler.java:222-234` and `ContinuousCrawler.java:199-200`.
- A Java `String` holding an unpaired surrogate is not modelled, since a Dafny string holds
  only Unicode scalar values. Trend names, words and texts are well-formed UTF-16.
- `System.exit(1)` when the trend fetch of `Crawler` or `StreamCrawler` fails is not modelled.
  The fetched trends are an input.
- The unbounded retry loops `attemptToInsertTrend` of `NewsCrawler` and `ContinuousCrawler`
  are given by their final id, `insertTrend`, since the loop does not stop until a try succeeds.
- File I/O (`FileIO`, `FileConstants`): stop words and bad words are given as sets of
  trimmed, lower-cased strings.
- Floating point. Doubles are reals. `Math.log` is the uninterpreted ratio `logRatio`, so no
  IEEE infinity for 0 followers is modelled.
- The ratios `computeNewsRank` computes only for printing are left out.
  `Ranker.HashtagPenalty` is the one part of it with an effect: a null trend name throws.
- `TwitNewsRank.hashCode` is left out, because it uses `Double.doubleToLongBits`.
- Logging, `printStackTrace`, the console output and `createDbConnection`'s argument
  defaulting are left out.
- JavaLang.ToLower: `String.toLowerCase` is modelled for the ASCII letters only.
- `Character.isLetterOrDigit` and `Character.isUpperCase` are abstract predicates.
- The listener counters are never near overflow in practice. `tweetsCrawled`,
  `tweetsCrawledForTrend` and the gap counters are unbounded integers, and `numRetweetsForTrend`
  and `numTweetsWithLinks` are counts.
- Each `HashSet` is modelled as a sequence in insertion order.
  - `users` follows `add`'s real test of `hashCode` plus `equals`.
  - `originalTweets` is compared by object identity, so it is a sequence of every added tweet.
  - A store's outcome may depend on that order.
- The order in which a `HashMap` iterates is a parameter, the same for every call with the
  same keys.
- A TweetDAO store is modelled as succeeding or failing for a whole batch; partial inserts are
  not modelled.
- Setters and getters are not separate members. A record update `t.(field := v)` changes
  exactly one field.
- `NewsCrawling.NewsStep`: its own contract states only the no-change cases. Filing and
  flushing are stated by `TweetBatches.FiledMeaning`, `TweetBatches.FlushedKeepsUnstored`
  and `NewsCrawling.NewsStepCountsStatuses`.
- `ContinuousCrawling.ContinuousStep`: likewise, with `ContinuousCrawling.ContinuousStepFilesEveryStatus`.
- `NewsRanker.ComputeRank` and `Ranker.ComputeRank` state only the exception case and the
  int range in their own contracts. Each term is stated by its own lemma:
  - For `Ranker`: `LinkTerm`, `RetweetCountTerm`, `FollowerTerm`, `VerifiedTerm` and `SpamTerm`.
  - For `NewsRanker`: `KeywordTerm`, `LinkTerm`, `RetweetCountTerm`, `FollowerTerm` and
    `VerifiedTerm`.
  - The follower term is stated relative to the uninterpreted `logRatio`.
