# IndexedTokenMatcher in Dafny

IndexedTokenMatcher is a small Java library for autocomplete against a vocabulary.
The caller hands it a list of indexed objects. Each object has a unique key, an
optional term (its name), a list of synonyms, a payload and an optional comparator.
The matcher does three things.

1. It turns each object into match records, one for the term and one per synonym.
   This step is called denormalization.
2. It sorts the records once.
3. It builds three prefix indexes over the records' tokens:
   - the keystone maps a 1-, 2- or 3-character key to record positions;
   - the prefixes map sends a 1- or 2-character prefix to keystone keys;
   - termCount maps each key to an estimate of how many records it reaches.

To answer a query, the matcher tokenizes it into lowercase runs of `[a-z0-9]`. It
takes each token's best prefix, the first three characters or the whole token when
shorter. It bails out when some prefix is unknown. Otherwise it picks the prefix
with the smallest count and classifies only the records filed under that prefix.
The classes are:

- exact term;
- exact synonym;
- begins term;
- begins synonym;
- other, meaning every query token starts some token of the record.

The result lists those five bins in that order and is cut at `maxCount`.

The Dafny project models this core as pure functions over immutable datatypes:

| file | module | contents |
|---|---|---|
| `wrappers.dfy` | `Wrappers` | `Option`, `Result` |
| `tokenizer.dfy` | `Tokenizer` | `ITMUtils.tokenize` |
| | | the same pipeline of `replaceAll`/`trim`/`split` stages as the Java code |
| | | proved equal to an independent definition, the maximal alphanumeric runs (`Words`) |
| `match_record.dfy` | `MatchRecord` | `IndexedObject`, `IndexedResult`, the match codes |
| | | `getMatchType`, `getDisplayValue`, `IndexedResultComparator` |
| `sorting.dfy` | `Sorting` | `Collections.sort`, as an insertion sort |
| | | specified as a sorted permutation |
| `prefix_index.dfy` | `PrefixIndex` | `getBestPrefix`; the keystone/prefixes loops and termCount of `createIndexes` |
| | | the candidate lists `search` scans; reference definitions of the built maps |
| `matcher.dfy` | `Matcher` | `getIndexedResults`, `setIndexedObjects`, the constructors |
| | | `search` (token loop, candidates, bins, concatenation, truncation) |
| | | `asIndexedObjects`, `asRawObjects` |
| `search_spec.dfy` | `SearchSpec` | a brute-force reference search (`FullScan`) |
| | | lemmas relating the pruned search to it |
| `denormalize_spec.dfy` | `DenormalizeSpec` | filter-based reference definitions of what each denormalization mode indexes |
| `scenarios.dfy` | `Scenarios` | the repository's unit tests, stated as lemmas about the model |
| `sample_matcher.dfy` | `SampleMatcher` | the ten-item matcher of `IndexedTokenManagerTests` and what `search` returns on it for the tested queries |

Some source behaviours need a modelling choice:

- An object's comparator is an opaque name (`C`). What it computes is the parameter `interp`.
- Java `null` becomes `None`.
- A Java exception on a reachable path becomes `Failure`. The case is `subList` with a negative `maxCount`.
- Record positions are `nat` indexes into the sorted record list.

Some behaviours of the code are easy to miss. The model follows the code in each:

- **Null terms.** The default comparator sorts a record whose object has a term before one whose object has none: `IndexedResult.java:153-164` returns -1 when only `a` has a term.
- **String order.** `String.compareTo` (`IndexedResult.java:156`, `168`) compares UTF-16 code units, so the model encodes both strings as UTF-16 before comparing them. A character above U+FFFF therefore sorts by its high surrogate, which can put it before a character with a smaller code point (`MatchRecord.JavaCompareSurrogate`).
- **The denormalization flag.** The two-argument constructor ignores its `alreadyDenormalized` argument and always passes `true` (`IndexedTokenMatcher.java:55-57`). Only the one-argument constructor uses the non-deduplicating mode.
- **termCount.** For a 1- or 2-character key that is also a whole token, termCount is overwritten by that key's own keystone length (`IndexedTokenMatcher.java:424-426`). It can therefore undercount the records the search then scans, not only overcount them. `PrefixIndex.TermCountUnder` gives an instance.
- **Repeated keys.** A record with two tokens sharing a 3-character key is filed twice under it (`IndexedTokenMatcher.java:376`). A direct 3-character lookup then scans, and can return, that record twice: the single record "house houses" is returned twice for the query "hou" (`SearchSpec.RepeatedKeyTwice`). The exact agreement with the full scan (`SearchSpec.SearchIsFullScan`) is therefore stated for records without repeated keys. `SearchSpec.SearchAgainstFullScan` holds without that condition.
- **Queries without a letter or digit.** Such a query, for example "" or "?", tokenizes to `[""]`. That token has no best prefix, so search returns nothing (`SearchSpec.NoWordQuery`). The full scan may still list records that begin with the lowercased query: for "?" a term "?x" is a begins-term match (`SearchSpec.QuestionMarkQuery`).

## Model

| member | source | states |
|---|---|---|
| Tokenizer.Tokenize | src/org/jax/mgi/indexedtokenmatcher/ITMUtils.java:10-16 | the tokens are never an empty list; each is made of `[a-z0-9]` only; the result is `[""]` exactly when the lowercased text has no letter or digit, and otherwise it is the maximal alphanumeric runs of the lowercased text, left to right |
| Tokenizer.TokenizeIsWords | src/org/jax/mgi/indexedtokenmatcher/ITMUtils.java:13 | the replaceAll/trim/replaceAll/split pipeline, applied to lowercased text with a letter or digit, yields exactly its maximal `[a-z0-9]` runs |
| Tokenizer.WordsBlank | src/org/jax/mgi/indexedtokenmatcher/ITMUtils.java:13 | replacing every non-`[a-z0-9]` character by a space keeps the alphanumeric runs |
| Tokenizer.WordsCollapse | src/org/jax/mgi/indexedtokenmatcher/ITMUtils.java:13 | collapsing runs of spaces keeps the alphanumeric runs |
| Tokenizer.SplitNormalized | src/org/jax/mgi/indexedtokenmatcher/ITMUtils.java:13 | splitting a trimmed, single-spaced string on " " gives its runs |
| Tokenizer.TokenizeCaseInsensitive | src/org/jax/mgi/indexedtokenmatcher/ITMUtils.java:13 | tokens do not depend on the case of the input |
| Tokenizer.TokenizeJoin | src/org/jax/mgi/indexedtokenmatcher/ITMUtils.java:10-16 | the tokens joined by single spaces tokenize back to the same tokens (round trip) |
| Tokenizer.TokenizeIdempotent | src/org/jax/mgi/indexedtokenmatcher/ITMUtils.java:10-16 | tokenizing the joined tokens of any text gives the same tokens again |
| Tokenizer.TokensOfPrefix | src/org/jax/mgi/indexedtokenmatcher/IndexedResult.java:86-112 | when a lowercased string begins with a lowercased query, every query token starts some token of the string, so the begins tiers lie inside the token tier |
| MatchRecord.NewResult | src/org/jax/mgi/indexedtokenmatcher/IndexedResult.java:33-39 | a record keeps its object and its term flag; its string is the lowercased input, and its tokens are the tokens of that string |
| MatchRecord.TokenFound | src/org/jax/mgi/indexedtokenmatcher/IndexedResult.java:99-105 | the inner loop finds a token exactly when some record token starts with the query token |
| MatchRecord.AllTokensFound | src/org/jax/mgi/indexedtokenmatcher/IndexedResult.java:98-112 | the outer loop succeeds exactly when every query token starts some record token |
| MatchRecord.MatchType | src/org/jax/mgi/indexedtokenmatcher/IndexedResult.java:74-113 | the code is one of the six constants; term records never get synonym codes and vice versa; exact iff the strings are equal; begins iff the query is a proper prefix; other iff not a prefix but every query token starts a record token; no match iff neither |
| MatchRecord.MatchImpliesTokensCovered | src/org/jax/mgi/indexedtokenmatcher/IndexedResult.java:74-113 | every code except NO_MATCH implies that every query token starts a token of the record |
| MatchRecord.ExactMatchIgnoresCase | src/org/jax/mgi/indexedtokenmatcher/IndexedResult.java:86-91 | a string equal to the query up to case is an exact match, of the term or of a synonym as the record is |
| MatchRecord.MatchTypeOfCase | src/org/jax/mgi/indexedtokenmatcher/IndexedResult.java:66-68 | the one-argument form on a lowercase query agrees with the two-argument form; on a query with an upper-case letter it can only report NO_MATCH or OTHER_MATCH, because the raw query is compared with the lowercase string |
| MatchRecord.MatchTypeOf | src/org/jax/mgi/indexedtokenmatcher/IndexedResult.java:66-68 | the one-argument form, which tokenizes the query itself, gives one of the six codes: exact iff the record's string equals the query as given; begins iff the query is a proper prefix of it; other iff it is not a prefix but every query token starts a record token |
| MatchRecord.DisplayValue | src/org/jax/mgi/indexedtokenmatcher/IndexedResult.java:50-61 | a term shows its lowercased string; a synonym shows the lowercased term, then " (", the lowercased synonym and ")" |
| MatchRecord.DisplayValueTokens | src/org/jax/mgi/indexedtokenmatcher/IndexedResult.java:50-61 | the display value is lowercase; for a term it tokenizes to the record's tokens; for a synonym, when both the term and the synonym contain a letter or digit, its tokens are the term's tokens followed by the synonym's |
| MatchRecord.Utf16Injective | src/org/jax/mgi/indexedtokenmatcher/IndexedResult.java:156 | two strings with the same UTF-16 code units are the same string, so comparing code units loses nothing |
| MatchRecord.JavaCompareZero | src/org/jax/mgi/indexedtokenmatcher/IndexedResult.java:156 | String.compareTo, over UTF-16 code units, is zero exactly on equal strings |
| MatchRecord.JavaCompareFlip | src/org/jax/mgi/indexedtokenmatcher/IndexedResult.java:156 | String.compareTo is antisymmetric |
| MatchRecord.JavaCompareTrans | src/org/jax/mgi/indexedtokenmatcher/IndexedResult.java:156 | String.compareTo's "not greater" is transitive |
| MatchRecord.JavaCompareSurrogate | src/org/jax/mgi/indexedtokenmatcher/IndexedResult.java:156 | U+1F600 compares below U+FF21, by the difference of its high surrogate 0xD83D and 0xFF21, although its code point is larger |
| MatchRecord.DefaultCompare | src/org/jax/mgi/indexedtokenmatcher/IndexedResult.java:148-170 | the default comparison is zero exactly when the terms and the unique keys are equal; when the terms differ, the term order alone decides |
| MatchRecord.CompareResults | src/org/jax/mgi/indexedtokenmatcher/IndexedResult.java:139-172 | the object comparator decides when the first object has one; otherwise the result is zero exactly when the terms and the unique keys are equal |
| MatchRecord.CompareResultsCases | src/org/jax/mgi/indexedtokenmatcher/IndexedResult.java:139-172 | the object comparator decides when present; otherwise a present term sorts before an absent one, different terms compare by String.compareTo on their UTF-16 code units, and equal terms fall back to the unique keys |
| MatchRecord.DefaultCompareTrans | src/org/jax/mgi/indexedtokenmatcher/IndexedResult.java:148-170 | the default comparison (term, then key) is transitive when keys are present |
| MatchRecord.DefaultOrderIsComparator | src/org/jax/mgi/indexedtokenmatcher/IndexedResult.java:139-172 | without object comparators and with all unique keys present, the record comparator is a total preorder on the records, as Collections.sort requires |
| Sorting.InsertionSort | src/org/jax/mgi/indexedtokenmatcher/IndexedTokenMatcher.java:335-338 | the sorted records are a permutation of the input and no record compares greater than a later one |
| Sorting.SortNats | src/org/jax/mgi/indexedtokenmatcher/IndexedTokenMatcher.java:152 | sorting the unioned candidate positions gives an ascending permutation with the same members |
| PrefixIndex.BestPrefix | src/org/jax/mgi/indexedtokenmatcher/IndexedTokenMatcher.java:317-328 | there is a prefix exactly when the token is non-empty; it is a prefix of the token of length 1 to 3, the whole token when shorter than 3, and the same key the token is filed under |
| PrefixIndex.KeyPrefixes | src/org/jax/mgi/indexedtokenmatcher/IndexedTokenMatcher.java:347-369 | the three prefixes of a token are its first 1, 2 and 3 characters, each cut at the token's length |
| PrefixIndex.AddUnique | src/org/jax/mgi/indexedtokenmatcher/IndexedTokenMatcher.java:382-384 | the guarded add yields the old members plus the new one, keeps the list free of duplicates and extends it |
| PrefixIndex.Entries | src/org/jax/mgi/indexedtokenmatcher/IndexedTokenMatcher.java:344-346 | the two loops visit exactly the (position, token) pairs of the records, positions never decreasing |
| PrefixIndex.KeystoneSpec | src/org/jax/mgi/indexedtokenmatcher/IndexedTokenMatcher.java:371-377 | a keystone key exists exactly when some token is filed under it, and its list is the positions of those tokens in visiting order |
| PrefixIndex.PrefixesSpec | src/org/jax/mgi/indexedtokenmatcher/IndexedTokenMatcher.java:378-392 | a prefixes key exists exactly when it is the 1- or 2-character prefix of some token; its list holds exactly the keystone keys of those tokens, without duplicates |
| PrefixIndex.BuildIndex | src/org/jax/mgi/indexedtokenmatcher/IndexedTokenMatcher.java:340-426 | the built maps file only in-range positions, in ascending order; prefixes keys are shorter than 3 characters and fan out to keystone keys; short keystone keys are prefixes keys; termCount has exactly the keys of the other two maps |
| PrefixIndex.BuildFromShape | src/org/jax/mgi/indexedtokenmatcher/IndexedTokenMatcher.java:340-395 | keystone keys have 1 to 3 characters and non-empty ascending in-range lists; prefixes keys have 1 or 2 characters and fan out to keystone keys they begin; short keystone keys are prefixes keys |
| PrefixIndex.DistinctKeysStrict | src/org/jax/mgi/indexedtokenmatcher/IndexedTokenMatcher.java:376 | when no record has two tokens with the same key, every keystone list is strictly ascending |
| PrefixIndex.TermCount | src/org/jax/mgi/indexedtokenmatcher/IndexedTokenMatcher.java:402-426 | termCount has exactly the keys of the prefixes map and of the keystone |
| PrefixIndex.TermCountKeys | src/org/jax/mgi/indexedtokenmatcher/IndexedTokenMatcher.java:402-426 | a prefix of 1 to 3 characters has a termCount entry exactly when some token starts with it |
| PrefixIndex.TermCountExact | src/org/jax/mgi/indexedtokenmatcher/IndexedTokenMatcher.java:424-426 | for a 3-character key the count is exactly the length of the list search scans |
| PrefixIndex.TermCountOver | src/org/jax/mgi/indexedtokenmatcher/IndexedTokenMatcher.java:407-420 | for a 1- or 2-character key that is not itself a keystone key, the count is never below the number of candidates scanned (it may overcount) |
| PrefixIndex.TermCountUnder | src/org/jax/mgi/indexedtokenmatcher/IndexedTokenMatcher.java:424-426 | for tokens "a" and "ab", the count of "a" is 1 while search scans two candidates for it: the keystone loop overwrites the fan-out sum |
| PrefixIndex.Union | src/org/jax/mgi/indexedtokenmatcher/IndexedTokenMatcher.java:143-150 | the concatenated keystone lists hold exactly the positions filed under some fanned-out key, and their total length is the fan-out count |
| PrefixIndex.Candidates | src/org/jax/mgi/indexedtokenmatcher/IndexedTokenMatcher.java:131-157 | for a short prefix the candidates are strictly ascending and are exactly the positions under its fanned-out keys; for a 3-character prefix they are its keystone list |
| PrefixIndex.CandidatesSpec | src/org/jax/mgi/indexedtokenmatcher/IndexedTokenMatcher.java:131-157 | the candidates of a termCount key are exactly the positions of the records with a token starting with that key |
| Matcher.TermRecords | src/org/jax/mgi/indexedtokenmatcher/IndexedTokenMatcher.java:302-304 | an object gives one term record exactly when its term is not null |
| Matcher.SynonymRecords | src/org/jax/mgi/indexedtokenmatcher/IndexedTokenMatcher.java:307-309 | an object gives one synonym record per synonym, in order, each over the lowercased synonym |
| Matcher.ObjectRecords | src/org/jax/mgi/indexedtokenmatcher/IndexedTokenMatcher.java:283-313 | the records of one object all belong to it and are well formed; in denormalized mode its key is marked as seen (even with a null term), and otherwise the seen set is unchanged |
| Matcher.Denormalize | src/org/jax/mgi/indexedtokenmatcher/IndexedTokenMatcher.java:268-274 | every record belongs to one of the input objects and is well formed: its string is lowercase and its tokens are that string's tokens |
| Matcher.DenormalizeFrom | src/org/jax/mgi/indexedtokenmatcher/IndexedTokenMatcher.java:268-274 | every record belongs to some input object; in denormalized mode the keys seen are exactly the input's keys |
| Matcher.Build | src/org/jax/mgi/indexedtokenmatcher/IndexedTokenMatcher.java:268-278 | the matcher's records are a sorted permutation of the denormalized records, and its indexes are those of its records |
| Matcher.NewMatcher | src/org/jax/mgi/indexedtokenmatcher/IndexedTokenMatcher.java:51-53 | the one-argument constructor indexes every term and synonym without deduplication |
| Matcher.NewMatcherFlagged | src/org/jax/mgi/indexedtokenmatcher/IndexedTokenMatcher.java:55-57 | the two-argument constructor indexes the deduplicated records whatever its flag |
| Matcher.Rarest | src/org/jax/mgi/indexedtokenmatcher/IndexedTokenMatcher.java:103-119 | the token loop bails out exactly when some token has no best prefix in termCount; otherwise it keeps the first best prefix of least count |
| Matcher.Bin | src/org/jax/mgi/indexedtokenmatcher/IndexedTokenMatcher.java:160-177 | a bin holds exactly the candidates with its code, in scan order, so it is ascending when the candidates are |
| Matcher.BinCount | src/org/jax/mgi/indexedtokenmatcher/IndexedTokenMatcher.java:160-177 | a bin keeps every copy of each candidate it keeps |
| Matcher.Concatenate | src/org/jax/mgi/indexedtokenmatcher/IndexedTokenMatcher.java:180-184 | the concatenation starts with the exact-term bin and is a prefix of all five bins; it is all of them unless it already holds maxCount matches |
| Matcher.Truncate | src/org/jax/mgi/indexedtokenmatcher/IndexedTokenMatcher.java:186-189 | truncation fails with IllegalArgumentException exactly for a negative maxCount, and otherwise keeps the first maxCount matches |
| Matcher.AllBins | src/org/jax/mgi/indexedtokenmatcher/IndexedTokenMatcher.java:160-184 | the five bins together hold exactly the matching candidates, grouped by code in code order and ascending within a code |
| Matcher.Scan | src/org/jax/mgi/indexedtokenmatcher/IndexedTokenMatcher.java:159-189 | the candidate scan fails exactly for a negative maxCount; otherwise it returns at most maxCount matching candidates, grouped by code, a prefix of all the bins and all of them when fewer than maxCount |
| Matcher.SearchPositions | src/org/jax/mgi/indexedtokenmatcher/IndexedTokenMatcher.java:93-190 | search returns at most maxCount positions of matching records grouped by match code; once the token loop has not bailed out it fails exactly when maxCount is negative, and a bail-out (a token with no prefix, or whose prefix has no termCount entry) returns an empty success for every maxCount |
| Matcher.Search | src/org/jax/mgi/indexedtokenmatcher/IndexedTokenMatcher.java:93-190 | search returns records of the matcher that match the query, one per selected position, in order |
| Matcher.SearchDefault | src/org/jax/mgi/indexedtokenmatcher/IndexedTokenMatcher.java:80-82 | the one-argument search is the search with maxCount 200 and returns at most 200 records |
| Matcher.AsIndexedObjects | src/org/jax/mgi/indexedtokenmatcher/IndexedTokenMatcher.java:62-68 | one object per record, in record order: position k holds record k's object |
| Matcher.AsRawObjects | src/org/jax/mgi/indexedtokenmatcher/IndexedTokenMatcher.java:71-77 | one raw object per record, in record order: position k holds the payload of record k's object |
| Matcher.ProjectionsAppend | src/org/jax/mgi/indexedtokenmatcher/IndexedTokenMatcher.java:62-77 | both projections distribute over concatenation of result lists, as each loop appends one element per record |
| Matcher.SearchObjectsFromInput | src/org/jax/mgi/indexedtokenmatcher/IndexedTokenMatcher.java:62-77 | on a matcher whose records are the denormalization of objs, every indexed object of a successful search result is one of objs, and every raw object of it is the payload of one of objs |
| SearchSpec.FullScan | src/org/jax/mgi/indexedtokenmatcher/IndexedTokenMatcher.java:84-92 | the reference search lists exactly the matching records, grouped by code in code order |
| SearchSpec.CandidatesComplete | src/org/jax/mgi/indexedtokenmatcher/IndexedTokenMatcher.java:98-101 | every matching record is a candidate of every query token's best prefix, so scanning only the rarest prefix misses nothing |
| SearchSpec.BailMeansNoMatch | src/org/jax/mgi/indexedtokenmatcher/IndexedTokenMatcher.java:114-118 | when the token loop bails out on a query with a letter or digit, no record matches at all |
| SearchSpec.EarlyStop | src/org/jax/mgi/indexedtokenmatcher/IndexedTokenMatcher.java:179-189 | skipping later bins once maxCount matches are held gives the first maxCount of all five bins |
| SearchSpec.SearchAgainstFullScan | src/org/jax/mgi/indexedtokenmatcher/IndexedTokenMatcher.java:93-190 | for a query with a letter or digit and maxCount >= 0, search succeeds, returns only matches, and leaves a match out only when it already returns maxCount |
| SearchSpec.SearchIsFullScan | src/org/jax/mgi/indexedtokenmatcher/IndexedTokenMatcher.java:93-190 | when no record repeats a keystone key, search equals the first maxCount entries of the full scan |
| SearchSpec.NoWordQuery | src/org/jax/mgi/indexedtokenmatcher/IndexedTokenMatcher.java:106-118 | a query with no letter or digit returns no results for any maxCount, although the full scan lists every record whose string properly begins with the lowercased query |
| SearchSpec.QuestionMarkQuery | src/org/jax/mgi/indexedtokenmatcher/IndexedResult.java:85-95 | "?" has no letter or digit, yet a term record "?x" is a begins-term match for it |
| SearchSpec.RepeatedKeyTwice | src/org/jax/mgi/indexedtokenmatcher/IndexedTokenMatcher.java:371-377 | for the single record "house houses", filed twice under "hou", search for "hou" with maxCount at least 2 returns position 0 twice |
| SearchSpec.FullScanNone | src/org/jax/mgi/indexedtokenmatcher/IndexedTokenMatcher.java:160-185 | when no record matches, the reference search is empty |
| SearchSpec.FullScanSingle | src/org/jax/mgi/indexedtokenmatcher/IndexedTokenMatcher.java:160-185 | when exactly one record matches, the reference search is that record's position |
| SearchSpec.FullScanPair | src/org/jax/mgi/indexedtokenmatcher/IndexedTokenMatcher.java:160-185 | when exactly two records match with different codes, the reference search lists the one with the smaller code first |
| SearchSpec.SearchOrdered | src/org/jax/mgi/indexedtokenmatcher/IndexedTokenMatcher.java:121-123 | results come by match code, and within a code in the order of the sorted records |
| SearchSpec.BuiltSorted | src/org/jax/mgi/indexedtokenmatcher/IndexedTokenMatcher.java:334-338 | a built matcher's records are sorted by the record comparator, which is a comparator on them |
| DenormalizeSpec.TermsPlain | src/org/jax/mgi/indexedtokenmatcher/IndexedTokenMatcher.java:300-304 | without deduplication, the term records are those of every object with a term, in order |
| DenormalizeSpec.TermsDeduplicated | src/org/jax/mgi/indexedtokenmatcher/IndexedTokenMatcher.java:286-293 | with deduplication, the term records are those of the objects whose unique key no earlier object carries, when they have a term |
| DenormalizeSpec.SeenKeys | src/org/jax/mgi/indexedtokenmatcher/IndexedTokenMatcher.java:288-292 | a key is in the seen set exactly when an earlier object carries it |
| DenormalizeSpec.SynonymsEitherMode | src/org/jax/mgi/indexedtokenmatcher/IndexedTokenMatcher.java:295-309 | in both modes the synonym records are every synonym of every object, in order |
| DenormalizeSpec.ModesAgree | src/org/jax/mgi/indexedtokenmatcher/IndexedTokenMatcher.java:283-313 | with distinct unique keys the two modes give the same records |
| DenormalizeSpec.NullTermMarksKey | src/org/jax/mgi/indexedtokenmatcher/IndexedTokenMatcher.java:288-293 | an object with a null term still marks its key, so a later object with that key and a term is not indexed by term in denormalized mode, though it is in the other |
| DenormalizeSpec.PlainMember | src/org/jax/mgi/indexedtokenmatcher/IndexedTokenMatcher.java:300-309 | without deduplication, every record is one of its own object's term and synonym records |
| DenormalizeSpec.PlainCount | src/org/jax/mgi/indexedtokenmatcher/IndexedTokenMatcher.java:300-309 | without deduplication, a record of an object listed once occurs as often as among that object's own records |
| DenormalizeSpec.FlagIgnored | src/org/jax/mgi/indexedtokenmatcher/IndexedTokenMatcher.java:55-57 | the two-argument constructor builds the same matcher for either flag value |
| Scenarios.OneWord | test/org/jax/mgi/indexedtokenmatcher/ITMUtilsTests.java:9-11 | "hello" is one token |
| Scenarios.MultipleWords | test/org/jax/mgi/indexedtokenmatcher/ITMUtilsTests.java:14-16 | seven space-separated words are seven tokens |
| Scenarios.ExtraCharacters | test/org/jax/mgi/indexedtokenmatcher/ITMUtilsTests.java:19-21 | a hyphen separates words like a space and digits stay in a word: seven tokens |
| Scenarios.ExtraWhitespace | test/org/jax/mgi/indexedtokenmatcher/ITMUtilsTests.java:24-26 | runs of spaces separate like one space: five tokens |
| Scenarios.SampleQuery | test/org/jax/mgi/indexedtokenmatcher/IndexedTokenManagerTests.java:49-58 | a one-word lowercase query matches one of these sample terms or synonyms exactly when it begins one of its words |
| Scenarios.ChimneyMatches | test/org/jax/mgi/indexedtokenmatcher/IndexedTokenManagerTests.java:49-58 | of the 23 sample terms and synonyms, "chimney" gets a match code other than NO_MATCH only for the chimney term |
| Scenarios.HouseMatches | test/org/jax/mgi/indexedtokenmatcher/IndexedTokenManagerTests.java:49-58 | of the 23 sample strings, "house" matches exactly two: the house term and the housetop synonym |
| Scenarios.HouseRanking | test/org/jax/mgi/indexedtokenmatcher/IndexedTokenManagerTests.java:49-50 | for "house" the house term gets EXACT_TERM_MATCH and the housetop synonym BEGINS_SYNONYM_MATCH; for "housetop" that synonym gets EXACT_SYNONYM_MATCH |
| Scenarios.HousetopMatches | test/org/jax/mgi/indexedtokenmatcher/IndexedTokenManagerTests.java:49-58 | of the 23 sample strings, "housetop" matches only the housetop synonym |
| Scenarios.MortgageMatches | test/org/jax/mgi/indexedtokenmatcher/IndexedTokenManagerTests.java:49-58 | "mortgage" matches none of the 23 sample strings |
| SampleMatcher.SynonymList | test/org/jax/mgi/indexedtokenmatcher/IndexedTokenManagerTests.java:101-106 | the wrapper's synonyms are the non-null ones, synonym1 first, so there are as many as are non-null |
| SampleMatcher.Wrap | test/org/jax/mgi/indexedtokenmatcher/IndexedTokenManagerTests.java:83-117 | the wrapped item is the payload, its id the unique key and its name the term, and the wrapper supplies a comparator |
| SampleMatcher.FauxCompare | test/org/jax/mgi/indexedtokenmatcher/IndexedTokenManagerTests.java:120-140 | the sample comparator is zero exactly when the lowercased names and the lowercased ids are equal, and different lowercased names decide by String.compareTo |
| SampleMatcher.FauxCompareFlip | test/org/jax/mgi/indexedtokenmatcher/IndexedTokenManagerTests.java:120-130 | the sample comparator is antisymmetric in sign |
| SampleMatcher.FauxCompareTrans | test/org/jax/mgi/indexedtokenmatcher/IndexedTokenManagerTests.java:120-130 | the sample comparator's "not greater" is transitive |
| SampleMatcher.FauxOrderIsComparator | test/org/jax/mgi/indexedtokenmatcher/IndexedTokenManagerTests.java:133-140 | the record order driven by the sample comparator is a comparator on any records whose objects supply it, so the sample matcher can be built |
| SampleMatcher.SampleShaped | test/org/jax/mgi/indexedtokenmatcher/IndexedTokenManagerTests.java:46-61 | the ten wrapped items are distinct and have the 10 terms and 13 synonyms of the sample, in insertion order |
| SampleMatcher.PopulatedMatcher | test/org/jax/mgi/indexedtokenmatcher/IndexedTokenManagerTests.java:46-61 | the one-argument constructor over the ten items gives a matcher whose records are the items' 23 records in some order, with indexes built over them |
| SampleMatcher.SampleKeys | src/org/jax/mgi/indexedtokenmatcher/IndexedTokenMatcher.java:371-377 | no record of a matcher built from the sample has two tokens with the same 3-character key, the condition `SearchSpec.SearchIsFullScan` needs |
| SampleMatcher.ChimneySearch | test/org/jax/mgi/indexedtokenmatcher/IndexedTokenManagerTests.java:13-17 | on any matcher built from the sample items, `search("chimney")` has one result, whose raw object's name is "chimney", and it is a term record |
| SampleMatcher.HouseSearch | test/org/jax/mgi/indexedtokenmatcher/IndexedTokenManagerTests.java:20-30 | on such a matcher `search("house")` has two results: first the term record of the item named "house", then a synonym record of the item whose synonym1 is "housetop" |
| SampleMatcher.HousetopSearch | test/org/jax/mgi/indexedtokenmatcher/IndexedTokenManagerTests.java:33-37 | on such a matcher `search("housetop")` has one result, a synonym record of the item whose synonym1 is "housetop" |
| SampleMatcher.MortgageSearch | test/org/jax/mgi/indexedtokenmatcher/IndexedTokenManagerTests.java:40-43 | on such a matcher `search("mortgage")` is empty |
| SampleMatcher.ChimneyRawObjects | test/org/jax/mgi/indexedtokenmatcher/IndexedTokenManagerTests.java:13-17 | on such a matcher `asRawObjects(search("chimney"))` is exactly the chimney item |
| SampleMatcher.HouseObjects | test/org/jax/mgi/indexedtokenmatcher/IndexedTokenManagerTests.java:25-30 | on such a matcher `asIndexedObjects(search("house"))` is the house item's wrapper followed by the roof item's |

## Left out

- analyzeIndexes and its min/max/average/stddev helpers (`IndexedTokenMatcher.java:194-261`, `431-476`): these are logging-only statistics with floating point.
- Logging (the slf4j calls in `createIndexes`): this is I/O.
- MessageCollector: it is not part of the search core, and MessageCollector.java is not part of this model.
- The `termCount != null` guard in search: a fully constructed matcher always has its maps, and the concurrent half-built state the guard protects against is concurrency.
- Tokenizer.Lower: models `String.toLowerCase` on ASCII letters only. Unicode case mapping and locale rules are not modelled.
- Sorting.InsertionSort: stands in for `Collections.sort`'s merge sort. Its contract states a sorted permutation only. It does not state that records comparing equal keep their input order, which `Collections.sort` guarantees; so the order of such ties, for example two records of one object under an object comparator, is not promised. The model requires the comparator to be a total preorder on the records, which the Java code assumes but does not check.
- Matcher.Build: requires the record comparator to behave as a comparator on the records. For object comparators this depends on caller code (`interp`), and without them it is proved for records whose unique keys are present (`MatchRecord.DefaultOrderIsComparator`). The requirement also covers comparing a record with itself, so it excludes even a lone comparator-less object with a null unique key, which Java sorts without comparing; the `IndexedObject` interface promises a key.
- MatchRecord.DisplayValue, MatchRecord.CompareResults: the null-pointer paths are excluded by preconditions, not modelled as errors. These are a synonym record whose object has a null term, and equal terms with a null unique key.
- Java `int` overflow of termCount sums and positions: counts are unbounded naturals; overflow needs more than 2^31 records.
- The sample matcher of the unit tests: the search lemmas (`SampleMatcher.ChimneySearch` and the others) hold for every matcher built from the ten items, whatever order the sort leaves their records in; they do not compute that order. They reach the search through `SearchSpec.SearchIsFullScan`, whose repeated-key condition `SampleMatcher.SampleKeys` discharges.
- SearchSpec.SearchIsFullScan: stated only for records that do not repeat a keystone key, because repeated keys make the direct 3-character lookup return duplicates, as described above. `SearchSpec.SearchAgainstFullScan` covers the general case.
- getTokens, getIndexedObject, getRawObject, byTerm, getComparator: plain field accessors, which are the datatype fields of `MatchRecord.IndexedResult`.
