# puzlink core in Dafny

puzlink looks for what a list of puzzle answers has in common. Each answer is a
slug: lower-case letters only. The library scores candidate links between the
slugs in two ways:

- **Features.** Boolean or descriptive predicates over one word: a letter at a
  position, palindromes, and wordplay against a word corpus. Examples are
  prepend, append, insert, delete or change one letter, behead, curtail,
  reverse, anagram, transadd and transdelete.
- **Linkers.** These turn a feature, or a property of the whole list such as
  the word lengths, into named links with a probability.

This project models the parts of puzlink that do the counting and searching:

- the letter-multiset codes `LetterBitset` and `LetterCounter`: 26 lanes of
  5 bits each in one integer;
- the occurrence counter `LogCounter`;
- the helpers of `src/lib/util.ts`: `capitalizeAt`, `printIndexSlug`,
  `interval`, `product` and `mapProduct`;
- the corpus index `Wordlist`;
- the feature families of `src/features/other.ts` and
  `src/features/wordplay.ts`;
- the feature linkers of `src/feature.ts` and `src/features/index.ts`;
- the log-probability cache;
- the length linker.

It then proves what these promise. The main properties:

- a letter code determines the letter multiset for up to 31 of each letter;
- `transaddOf` finds exactly the one-letter-larger multisets;
- the corpus scans return the first match and return null only when nothing
  qualifies;
- every wordplay feature hits exactly when its transformed word is in the
  corpus;
- a linker's counts and descriptions agree with the words it is given;
- the length linker emits each link exactly when its condition on the lengths
  holds.

## How the model is built

Each source file becomes one Dafny module:

| source | module |
|---|---|
| `src/lib/letterBitset.ts` | `LetterBitsets` |
| `src/lib/letterCounter.ts` | `LetterCounters` |
| `src/lib/logCounter.ts` | `LogCounters` |
| `src/lib/util.ts` | `Util` |
| `src/lib/wordlist.ts` | `Wordlists` |
| `src/features/other.ts` | `OtherFeatures` |
| `src/features/wordplay.ts` | `Wordplay` |
| `src/feature.ts` | `Features` |
| `src/linker.ts` | `Linkers` |
| `src/features/index.ts` | `FeatureIndex` |
| `src/features/logProbCache.ts` | `LogProbCaches` |
| `src/linkers/length.ts` | `LengthLinkers` |

Two more modules support them:

- `Prelude` holds Option, JavaScript truthiness, `Set`/`Map` insertion order
  as `Dedup`, `join` and integer printing.
- `FeatureCatalog` holds the catalog `featureLinkers` iterates over.

Modelling choices:

- **Imperative code stays imperative.** State that is updated in place
  becomes a class:
  - `LetterCounter.data`;
  - `LogCounter.totalCache`;
  - the fields of `LogProbCache`.

  Each loop becomes a `method` proved equal to a function that states the
  result:
  - `from`, `capitalizeAt` and the `Wordlist` constructor;
  - `isTransadd` and `isTransdelete`;
  - the palindrome loops;
  - the insert, delete, change and transdelete loops;
  - the combined property of `withEveryLetter`;
  - `getProps`, `makeFeatureGetter` and the length linker's `eval`.

  The function is what the feature closures call.
- **Early-return loops.** `Wordplay.FirstHit` is the "first index whose test
  succeeds" pattern. `FirstHitSpec` states it.
- **Log-space numbers** are a `Float` datatype: a finite real, ±∞ or NaN.
  - Only "is −∞" is ever inspected, when a feature linker is dropped.
  - The arithmetic is passed in as a record of function values, `LogNums.Arith`.
    It covers `from`, `add`, `sum`, `sub`, `mul`, `prod`, `fromZipf` and
    `binomialPValue`, and the model never looks inside those operations.
- **Counts are exact naturals.** `LogCounter` keeps integer counts where the
  source wraps each count in `LogNum.from(n)`.
- **Letter codes** are `bigint`s in the source, so unbounded Dafny integers
  model them exactly.
- **`isAnagram(x, false)`.** `transaddWith` and `transdeleteWith` pass a
  second argument, which the one-parameter `isAnagram` ignores. Its
  `?? null` result is a word or null. An empty stored word is falsy, so a
  feature reports no hit for it.
- **Slugs** are the subset type `LetterBitsets.Slug`. `LetterBitset.from` has
  no lane for any other character.
- **Records and Maps** with insertion order are modelled as a key `seq` plus a
  `map`. This applies to the wordlist record, `letterCounters`,
  `knownLogProbs` and the counts of `LogCounter`.

Where the tests and the code disagree, or the code has a limit worth stating,
the model follows the code:

- `src/features/other.ts:45-49` builds the almost-palindrome description as
  `"{slug} reversed = {reversed slug}"`, so it produces
  `"abca reversed = acba"`. `src/features/other.test.ts:39` expects
  `"abca is almost a palindrome"` instead. `OtherFeatures.SampleAbca` and
  `SampleLevel` state the strings the code produces.
- `src/lib/wordlist.ts:13-19` keeps one word per letter code in the
  `letterCounters` map, and a later word with the same code replaces an
  earlier one (`Wordlists.CounterIndexLastWins`). `isAnagram` at
  `src/lib/wordlist.ts:55-57` looks the slug's own code up in that map, so it
  can return the queried slug itself. As a result, `anagram` hits every
  non-empty corpus word (`Wordplay.AnagramOfCorpusWord`).
- `src/lib/letterBitset.ts:6-13` packs each letter's count into a 5-bit lane.
  `transaddOf` at `src/lib/letterBitset.ts:53-60` subtracts whole codes. A
  lane that holds 31 in the subtracted slug therefore borrows from its
  neighbour, and `LetterBitsets.TransaddBorrow` shows the wrong answer that
  results. This is why the transadd and transdelete lemmas bound the smaller
  slug at 30 of each letter.

## Model

| member | source | states |
|---|---|---|
| LetterBitsets.ToIndex | src/lib/letterBitset.ts:25-27 | a letter's lane is below 26 |
| LetterBitsets.FromIndex | src/lib/letterBitset.ts:29-31 | `fromIndex` gives a letter, and `toIndex` of it gives the lane back |
| LetterBitsets.Pow32Increasing | src/lib/letterBitset.ts:11-13 | the masks `32^i` increase strictly with the lane, so they are pairwise different |
| LetterBitsets.LaneIsShiftAndMask | src/lib/letterBitset.ts:42-47 | the lane read recursively equals `(data >> 5i) & 31` as division and remainder |
| LetterBitsets.LaneAddUnit | src/lib/letterBitset.ts:33-40 | adding a mask raises that lane by one and leaves every other lane alone, provided the lane is below 31 |
| LetterBitsets.LaneSubUnit | src/lib/letterCounter.ts:51-53 | subtracting a mask lowers that lane by one and leaves every other lane alone, provided the lane is at least 1 |
| LetterBitsets.CodeAppend | src/lib/letterBitset.ts:36-38 | appending a letter adds its mask to the code |
| LetterBitsets.CodeIsPacked | src/lib/letterBitset.ts:33-40 | the code of a slug is its letter histogram packed in base 32 |
| LetterBitsets.LanePacked | src/lib/letterBitset.ts:42-47 | lane `i` of a packed histogram with entries below 32 is entry `i` |
| LetterBitsets.PackedInjective | src/lib/letterBitset.ts:49-51 | two histograms with entries below 32 that pack alike are equal |
| LetterBitsets.IndexCountsLetter | src/lib/letterBitset.ts:42-47 | `index(L)` of `from(s)` is the number of `L` in `s` when no letter occurs over 31 times |
| LetterBitsets.CodePermutationInvariant | src/lib/letterBitset.ts:33-40 | two slugs with the same letter multiset get the same code |
| LetterBitsets.CodeEqualIffAnagram | src/lib/letterBitset.ts:49-51 | `equals` holds between two codes exactly when the slugs are anagrams, for at most 31 of each letter |
| LetterBitsets.FindMaskIndexSpec | src/lib/letterBitset.ts:56 | `findIndex` over the masks returns -1 exactly when no mask equals the difference, otherwise the first lane whose mask does |
| LetterBitsets.LanesDetermine | src/lib/letterBitset.ts:6-13 | a number below `32^k` is determined by its first `k` 5-bit lanes |
| LetterBitsets.LetterLanesDetermine | src/lib/letterBitset.ts:6-13 | two codes within the 26 lanes are equal exactly when every letter's lane agrees |
| LetterBitsets.LetterBitset.From | src/lib/letterBitset.ts:33-40 | the loop that adds one mask per character yields the slug's code |
| LetterBitsets.LetterBitset.Index | src/lib/letterBitset.ts:42-47 | `index(L)` is below 32 and is the lane of `L` |
| LetterBitsets.LetterBitset.Equals | src/lib/letterBitset.ts:49-51 | for codes within the 26 lanes, equal exactly when every letter's count agrees |
| LetterBitsets.LetterBitset.TransaddOf | src/lib/letterBitset.ts:53-61 | a returned letter is one whose mask is exactly `this - other` |
| LetterBitsets.LetterBitset.TransdeleteOf | src/lib/letterBitset.ts:63-66 | a returned letter is one whose mask is exactly `other - this` |
| LetterBitsets.TransaddOfUnique | src/lib/letterBitset.ts:53-61 | when the difference is a letter's mask, `transaddOf` returns that letter |
| LetterBitsets.TransaddOfSelfIsNone | src/lib/letterBitset.ts:55-59 | `transaddOf` between equal bitsets is null |
| LetterBitsets.TransaddOfIffOneMore | src/lib/letterBitset.ts:53-61 | `from(s).transaddOf(from(t))` is `L` exactly when multiset(s) = multiset(t) + {L}, with at most 31 of a letter in `s` and 30 in `t` |
| LetterBitsets.TransaddOfLonger | src/lib/letterBitset.ts:53-61 | `transaddOf` is null when `s` is not longer than `t` |
| LetterBitsets.TransdeleteOfIffOneLess | src/lib/letterBitset.ts:63-66 | `from(s).transdeleteOf(from(t))` is `L` exactly when multiset(t) = multiset(s) + {L}, under the same bounds |
| LetterBitsets.TransaddBorrow | src/lib/letterBitset.ts:53-61 | with 31 copies of `a`, `transaddOf` reports `a` for `b`, which is not a one-letter extension: why the bounds are needed |
| LetterCounters.LetterCounter.constructor | src/lib/letterCounter.ts:19-21 | the new counter is empty: every letter's index is 0 |
| LetterCounters.LetterCounter.From | src/lib/letterCounter.ts:32-38 | a fresh counter whose data is the slug's code |
| LetterCounters.LetterCounter.FromData | src/lib/letterCounter.ts:19-21 | `new LetterCounter(data)` holds exactly the given data |
| LetterCounters.LetterCounter.Index | src/lib/letterCounter.ts:40-45 | `index(L)` is below 32 and is lane `L` of the current data |
| LetterCounters.LetterCounter.Add | src/lib/letterCounter.ts:47-49 | adds `L`'s mask; below 31, `L`'s count goes up by one and all other counts stay |
| LetterCounters.LetterCounter.Equals | src/lib/letterCounter.ts:55-57 | the same comparison as `LetterBitset.equals`: for codes within the 26 lanes, equal exactly when every letter's count agrees |
| LetterCounters.LetterCounter.Sub | src/lib/letterCounter.ts:51-53 | subtracts `L`'s mask; from 1 up, `L`'s count goes down by one and all other counts stay |
| LetterCounters.AddThenSub | src/lib/letterCounter.ts:47-53 | `add(L)` followed by `sub(L)` restores the data exactly |
| LetterCounters.LetterCounter.TransaddOf | src/lib/letterCounter.ts:60-67 | agrees with `LetterBitset.transaddOf` on the same data; null on equal data |
| LetterCounters.LetterCounter.TransdeleteOf | src/lib/letterCounter.ts:70-72 | a returned letter's mask is `other - this`; null on equal data |
| LetterCounters.FromThenQuery | src/lib/letterCounter.ts:32-72 | `from(s).index(L)` is the count of `L` in `s`, and `from(s).transaddOf(from(t))` is non-null exactly when `s` is `t` plus one letter |
| LogCounters.Tally | src/lib/logCounter.ts:17-19 | the map's keys are exactly the items of the data |
| LogCounters.TallyAppend | src/lib/logCounter.ts:17-19 | one more item raises that item's count by one, starting from 0 |
| LogCounters.TallyCount | src/lib/logCounter.ts:14-27 | each stored count is the item's number of occurrences, and at least 1 |
| LogCounters.TallySum | src/lib/logCounter.ts:25 | the counts, summed in key order, add up to the data's length |
| LogCounters.TallySize | src/lib/logCounter.ts:30-32 | the number of entries is the number of distinct items |
| LogCounters.LogCounter.constructor | src/lib/logCounter.ts:7-10 | stores the counts, their key order and the given total cache |
| LogCounters.LogCounter.From | src/lib/logCounter.ts:12-27 | the loop builds the tally in first-occurrence key order and caches the data's length as total |
| LogCounters.LogCounter.DistinctCount | src/lib/logCounter.ts:29-32 | `distinct` is the number of keys in iteration order |
| LogCounters.LogCounter.Get | src/lib/logCounter.ts:41-44 | an iterated key gets its stored count, any other item 0 |
| LogCounters.LogCounter.Total | src/lib/logCounter.ts:37-39 | returns the cached total if there is one; otherwise the sum of the counts, which it then caches |
| LogCounters.CountOccurrences | src/lib/logCounter.ts:12-44 | after `from(data)`: `get(x)` is x's number of occurrences (0 if absent), `distinct` the number of distinct items, `total` the length |
| LogCounters.LazyTotal | src/lib/logCounter.ts:37-39 | the lazily computed total of a counter built without a cache is the data's length |
| Util.Upper | src/lib/util.ts:7 | upper-cases the ASCII lower-case letters `a`-`z`; every other character is returned unchanged |
| Util.Capitalized | src/lib/util.ts:4-10 | same length; exactly the listed positions upper-cased, all others unchanged |
| Util.CapitalizeAt | src/lib/util.ts:4-10 | the push loop yields the capitalised string |
| Util.CapitalizedInRangeOnly | src/lib/util.ts:4-10 | only in-range positions matter: the order, repeats and out-of-range entries of the indices do not |
| Util.SortedSet | src/lib/util.ts:14 | the de-duplicated indices are strictly increasing with the same members |
| Util.IncreasingUnique | src/lib/util.ts:14 | strictly increasing lists with the same members are equal, which fixes the sorted set |
| Util.PrintIndexSlug | src/lib/util.ts:13-22 | the annotation opens with `index(slug, ` and ends with `capitalizeAt(slug, indices)` on the indices as given, so sorting and de-duplicating them changes only the listed part |
| Util.PrintIndexSlugSetOnly | src/lib/util.ts:14 | the annotation depends only on the set of indices |
| Util.IntervalIffContiguous | src/lib/util.ts:15-19 | the `min..max` form is used exactly for more than two indices forming one contiguous run |
| Util.ListedForm | src/lib/util.ts:20 | otherwise the listed form ends in `, ...` exactly when there are more than five indices |
| Util.PrintIndexSlugEmpty | src/lib/util.ts:20-21 | no indices print `index(slug, ) = slug` |
| Util.Interval | src/lib/util.ts:25-27 | length `max(0, end - start + 1)`, with element `i` equal to `start + i` |
| Util.IntervalMembers | src/lib/util.ts:25-27 | increasing, and holding exactly the integers from `start` to `end` |
| Util.Product | src/lib/util.ts:38-53 | the product has as many tuples as the product of the argument lengths |
| Util.ProductMembers | src/lib/util.ts:38-53 | a tuple is in the product exactly when each component comes from its argument |
| Util.ProductOrder | src/lib/util.ts:47-52 | the first argument varies slowest: tuple `i*m + j` is `args[0][i]` before tuple `j` of the rest |
| Util.ProductDistinct | src/lib/util.ts:38-53 | arguments without repeats give each tuple exactly once |
| Util.MapProduct | src/lib/util.ts:60-67 | `fn` applied to each tuple, in product order |
| Wordlists.Codes | src/lib/wordlist.ts:18 | one letter code per word, in order |
| Wordlists.CounterIndexKeys | src/lib/wordlist.ts:17-19 | the keys of `letterCounters` are exactly the codes of the words |
| Wordlists.CounterIndexStored | src/lib/wordlist.ts:18 | the word stored under a code is a corpus word with that code |
| Wordlists.CounterIndexLastWins | src/lib/wordlist.ts:17-19 | among words with the same code, the last in key order is the one stored |
| Wordlists.Probe | src/lib/wordlist.ts:63 | an accepted code differs from the slug's by exactly one letter's mask, added or removed |
| Wordlists.ScanFirst | src/lib/wordlist.ts:62-68 | the scan of `letterCounters` in order fails exactly when no code is accepted; otherwise it returns the word under the first accepted code |
| Wordlists.IndexWords | src/lib/wordlist.ts:17-19 | the constructor's loop fills `letterCounters` and its key order |
| Wordlists.Wordlist.constructor | src/lib/wordlist.ts:15-20 | keeps the record, and its index is the code map in insertion order |
| Wordlists.Wordlist.Reduce | src/lib/wordlist.ts:26-32 | a reducer that keeps the accumulator on every entry returns `initial`: entries it passes over leave no trace |
| Wordlists.Wordlist.ReduceVisitsInOrder | src/lib/wordlist.ts:27-32 | `reduce` visits every word exactly once, in key order |
| Wordlists.Wordlist.LogProb | src/lib/wordlist.ts:34-43 | a property no word has leaves the sum at `LogNum.from(0)`, the log of zero |
| Wordlists.Wordlist.IsWord | src/lib/wordlist.ts:45-47 | true exactly for the record's keys |
| Wordlists.Wordlist.IsAnagram | src/lib/wordlist.ts:55-57 | non-null exactly when some word has the slug's code, and then it is such a word |
| Wordlists.Wordlist.IsAnagramMeaning | src/lib/wordlist.ts:55-57 | non-null exactly when some word has the slug's letter multiset, and the result is one, with at most 31 of each letter |
| Wordlists.Wordlist.IsTransadd | src/lib/wordlist.ts:60-69 | the early-return loop returns what the in-order scan returns |
| Wordlists.Wordlist.IsTransaddMeaning | src/lib/wordlist.ts:60-69 | a result `{other, letter}` has multiset(slug) = multiset(other) + {letter}; null exactly when no word and letter qualify |
| Wordlists.Wordlist.IsTransdelete | src/lib/wordlist.ts:72-81 | the early-return loop returns what the in-order scan returns |
| Wordlists.Wordlist.IsTransdeleteMeaning | src/lib/wordlist.ts:72-81 | a result `{other, letter}` has multiset(other) = multiset(slug) + {letter}; null exactly when none qualifies |
| OtherFeatures.At | src/features/other.ts:18 | `slug.at(i)` is defined exactly for `-len <= i < len` |
| OtherFeatures.AtFromEitherEnd | src/features/other.ts:18 | position `i` and position `i - len` name the same character |
| OtherFeatures.AtReversed | src/features/other.ts:18 | indexing the reversed slug at `-i-1` is indexing the slug at `i` |
| OtherFeatures.HasAtIndex | src/features/other.ts:13-23 | named `has L at index n`, with `n = i+1` for `i >= 0` and `n = i` for negative `i` |
| OtherFeatures.TextIndexInjective | src/features/other.ts:14 | different indices get different printed indices |
| OtherFeatures.HasAtIndexNamesDistinct | src/features/other.ts:14-16 | different letter and index pairs get different names |
| OtherFeatures.HasAtIndexHolds | src/features/other.ts:17-21 | hits exactly when the character at `i`, counting negative `i` from the end, is `L`; null out of range |
| OtherFeatures.Reverse | src/features/other.ts:46 | the reversal has position `i` equal to position `len-1-i` of the input |
| OtherFeatures.Mismatches | src/features/other.ts:40-50 | at most one mismatch per pair examined |
| OtherFeatures.MismatchesMonotone | src/features/other.ts:40-50 | examining more pairs never lowers the mismatch count |
| OtherFeatures.MismatchesZero | src/features/other.ts:40-50 | no mismatch among the first `k` pairs exactly when those pairs match |
| OtherFeatures.PalindromeIffNoMismatch | src/features/other.ts:28-33 | a palindrome is exactly a slug with no mismatching mirror pair |
| OtherFeatures.PalindromeIffReverse | src/features/other.ts:28-33 | a palindrome is exactly a slug equal to its reversal |
| OtherFeatures.PalindromeProperty | src/features/other.ts:25-35 | the two-index loop returns the `is palindrome` result: non-null exactly for palindromes, including empty and one-letter slugs |
| OtherFeatures.AlmostPalindromeProperty | src/features/other.ts:37-52 | the counting loop returns the `is almost palindrome` result: non-null exactly when at most one mirror pair mismatches |
| OtherFeatures.PalindromeIsAlmost | src/features/other.ts:37-52 | every palindrome is an almost-palindrome, with the same sentence |
| OtherFeatures.AlmostButNotPalindrome | src/features/other.ts:45-49 | an almost-palindrome that is not a palindrome has exactly one mismatch and shows its different reversal |
| OtherFeatures.Palindrome | src/features/other.ts:25-35 | named `is palindrome` |
| OtherFeatures.AlmostPalindrome | src/features/other.ts:37-52 | named `is almost palindrome` |
| OtherFeatures.PalindromeFeatures | src/features/other.ts:25-52 | the two features' properties are the palindrome results, whatever the props |
| OtherFeatures.AtIndexArgs | src/features/other.ts:57 | the product arguments are the 26 letters and the indices -5 to 9 |
| OtherFeatures.OtherFeatureList | src/features/other.ts:54-61 | 392 features, the last two `is palindrome` and `is almost palindrome` |
| OtherFeatures.OtherFeatureListShape | src/features/other.ts:56 | the first 390 come letter by letter, each letter with the indices -5 to 9 in order |
| OtherFeatures.OtherFeatureNamesDistinct | src/features/other.ts:55-61 | the 390 positional features have pairwise different names |
| OtherFeatures.OtherPalindromeNamesDistinct | src/features/other.ts:55-61 | no positional name clashes with the palindrome names, nor they with each other |
| OtherFeatures.AtIndexNamesDistinct | src/features/other.ts:57-58 | the positional features of different catalog cells are named differently |
| OtherFeatures.AtIndexNameIsNotPalindrome | src/features/other.ts:59-60 | no positional name is a palindrome feature's name |
| OtherFeatures.SampleAbca | src/features/other.test.ts:29-41 | `abca` is not a palindrome but is almost one |
| OtherFeatures.SampleLevel | src/features/other.test.ts:13-28 | `level` is a palindrome and an almost-palindrome |
| OtherFeatures.SampleStone | src/features/other.test.ts:55-68 | `stone` is not almost a palindrome |
| OtherFeatures.SampleStoneEndsInE | src/features/other.test.ts:57 | `stone` has `e` at index -1 |
| Wordplay.FirstHitSpec | src/features/wordplay.ts:37-43 | the first-hit search succeeds exactly when some index tests positive, and then returns the first such test |
| Wordplay.Beheaded | src/features/wordplay.ts:53 | the first character followed by the beheaded word is the word |
| Wordplay.Curtailed | src/features/wordplay.ts:66 | the curtailed word followed by the last character is the word |
| Wordplay.PrependBeheadDual | src/features/wordplay.ts:7-18 | `prepend(L)` hits exactly when `L+word` is a word; beheading that word then gives back `word` |
| Wordplay.AppendCurtailDual | src/features/wordplay.ts:20-31 | `append(L)` hits exactly when `word+L` is a word; curtailing it then gives back `word` |
| Wordplay.ReverseDual | src/features/wordplay.ts:113-124 | `reverse` hits exactly when the reversal is a word, and the reversal reverses back |
| Wordplay.Inserted | src/features/wordplay.ts:38 | one longer, with the letter at the insertion point |
| Wordplay.Deleted | src/features/wordplay.ts:83 | one shorter |
| Wordplay.Changed | src/features/wordplay.ts:102 | same length, with the new letter at the changed position |
| Wordplay.DeleteInserted | src/features/wordplay.ts:38 | deleting at the insertion point undoes the insertion |
| Wordplay.ChangeChanged | src/features/wordplay.ts:102 | changing back to the old letter undoes a change |
| Wordplay.InsertProperty | src/features/wordplay.ts:33-47 | the loop over positions `0..len` returns the first insertion that is a word |
| Wordplay.InsertMeaning | src/features/wordplay.ts:33-47 | `insertWith(L)` hits exactly when inserting `L` at some position gives a word |
| Wordplay.DeleteProperty | src/features/wordplay.ts:75-92 | the loop returns the first deletion of an `L` that is a word, earliest position first |
| Wordplay.DeleteMeaning | src/features/wordplay.ts:75-92 | `deleteWith(L)` hits exactly when deleting some occurrence of `L` gives a word |
| Wordplay.ChangeProperty | src/features/wordplay.ts:94-111 | the loop skips positions already holding `L` and returns the first change that is a word |
| Wordplay.ChangeMeaning | src/features/wordplay.ts:94-111 | `change(L)` hits exactly when changing some position not holding `L` into `L` gives a word |
| Wordplay.InsertDeleteDual | src/features/wordplay.ts:33-92 | if inserting `L` into a word gives a word, that word can have `L` inserted, and the result can have `L` deleted |
| Wordplay.ChangeDual | src/features/wordplay.ts:94-111 | a change between two words can be made in both directions |
| Wordplay.CodeZero | src/features/wordplay.ts:129-131 | only the empty slug has code 0 |
| Wordplay.AnagramMeaning | src/features/wordplay.ts:126-135 | a word is reported exactly when it is non-empty and some corpus word has its letter multiset, with at most 31 of each letter |
| Wordplay.AnagramOfCorpusWord | src/features/wordplay.ts:126-135 | every non-empty corpus word is reported as an anagram, since `isAnagram` may return the word itself |
| Wordplay.AppendLetter | src/features/wordplay.ts:141 | appending a letter to a slug gives a slug |
| Wordplay.TransaddMeaning | src/features/wordplay.ts:137-148 | `transaddWith(L)` hits exactly when some word has the multiset of `word+L` |
| Wordplay.DeletedSlug | src/features/wordplay.ts:157 | deleting a character from a slug gives a slug |
| Wordplay.TransdeleteProperty | src/features/wordplay.ts:150-169 | the loop returns the first deletion of an `L` whose letters anagram a non-empty word |
| Wordplay.DeletedMultiset | src/features/wordplay.ts:157 | the deleted character and the rest make up the word's multiset |
| Wordplay.DeletedIff | src/features/wordplay.ts:157-158 | a multiset is that of the deletion exactly when, with the deleted character, it is the word's |
| Wordplay.DeletedBounded | src/features/wordplay.ts:157 | deleting keeps the per-letter bound |
| Wordplay.DeletedAnagram | src/features/wordplay.ts:156-159 | the deletion has an anagram in the corpus exactly when some word plus the deleted letter is the word's multiset |
| Wordplay.TransdeleteTestIff | src/features/wordplay.ts:154-163 | the test at position `p` hits exactly when `p` holds `L` and the rest anagrams a non-empty word |
| Wordplay.TransdeleteSound | src/features/wordplay.ts:150-169 | a hit means `L` occurs in the word and some non-empty word has the multiset of the word minus one `L` |
| Wordplay.TransdeleteTestAt | src/features/wordplay.ts:154-163 | any position holding `L` hits when such a word exists |
| Wordplay.MultisetCancel | src/features/wordplay.ts:157 | a common added letter cancels from multiset equations |
| Wordplay.TransdeleteComplete | src/features/wordplay.ts:150-169 | such a word and an occurrence of `L` make the feature hit |
| Wordplay.TransdeleteMeaning | src/features/wordplay.ts:150-169 | `transdeleteWith(L)` hits exactly when `L` occurs in the word and some non-empty word has the word's multiset minus one `L` |
| Wordplay.Prepend | src/features/wordplay.ts:7-18 | named `can prepend L`, with the prepend result as property |
| Wordplay.Append | src/features/wordplay.ts:20-31 | named `can append L`, with the append result as property |
| Wordplay.InsertWith | src/features/wordplay.ts:33-47 | named `can insert L`, with the insert result as property |
| Wordplay.Behead | src/features/wordplay.ts:49-60 | named `can behead`, with the behead result as property |
| Wordplay.Curtail | src/features/wordplay.ts:62-73 | named `can curtail`, with the curtail result as property |
| Wordplay.DeleteWith | src/features/wordplay.ts:75-92 | named `can delete L`, with the delete result as property |
| Wordplay.Change | src/features/wordplay.ts:94-111 | named `can change to L`, with the change result as property |
| Wordplay.ReverseFeature | src/features/wordplay.ts:113-124 | named `can reverse`, with the reverse result as property |
| Wordplay.Anagram | src/features/wordplay.ts:126-135 | named `is anagram`, with the anagram result as property |
| Wordplay.TransaddWith | src/features/wordplay.ts:137-148 | named `has transadd with L`, with the transadd result as property |
| Wordplay.TransdeleteWith | src/features/wordplay.ts:150-169 | named `has transdelete with L`, with the transdelete result as property |
| Wordplay.FirstTruthyIsFirstHit | src/features/wordplay.ts:182-190 | the combined property is the first truthy per-letter result, or null |
| Wordplay.CombinedProperty | src/features/wordplay.ts:182-190 | the loop over the features returns the first truthy result |
| Wordplay.WithEveryLetter | src/features/wordplay.ts:171-193 | 27 features: one per letter `a`..`z` in order, then the combined one under the given name |
| Wordplay.WithEveryLetterCombined | src/features/wordplay.ts:179-192 | the combined feature's baseline is the sum of the 26 baselines, and its property is the first truthy per-letter result |
| Wordplay.AssembleAt | src/features/wordplay.ts:197-209 | where each family and single feature sits in the 193 |
| Wordplay.WordplayFeatures | src/features/wordplay.ts:196-210 | 7 × 27 + 4 = 193 features |
| Wordplay.WordplayFeaturesShape | src/features/wordplay.ts:196-210 | the names at every position, in the listed order |
| Features.HitCount | src/feature.ts:31-34 | the number of hits is at most the number of words |
| Features.EntriesAppend | src/feature.ts:31-34 | the description of a concatenation is the concatenation of descriptions |
| Features.EntriesCount | src/feature.ts:31-34 | one description entry per hit |
| Features.EntriesMembers | src/feature.ts:31-34 | an entry is exactly `word: result` for a word with a truthy result |
| Features.FeatureLinker | src/feature.ts:27-49 | the linker carries the feature's name |
| Features.FeatureLinkerEval | src/feature.ts:30-47 | `eval` returns one link named `{name} ({k} / {n})` with the binomial p-value of `k` hits, and the hits' entries in input order |
| Features.BooleanFeature | src/feature.ts:52-66 | the name and the property are kept unchanged |
| Features.BooleanFeatureNeverHolds | src/feature.ts:63 | a property no corpus word has gets the log of zero as baseline |
| Features.HitsOfNonEmpty | src/feature.ts:86-89 | a word has hits exactly when some feature's result on it is truthy |
| Features.AnyEntriesCount | src/feature.ts:85-93 | one entry per word that some feature holds of, so at most one per word |
| Features.AnyHitCountAtLeast | src/feature.ts:85-93 | the any-of hit count is at least each single feature's hit count |
| Features.AnyOfProbOfBaselines | src/feature.ts:82-84 | the any-of success probability `1 - prod(1 - p_f)` depends on the features' baselines alone, in order |
| Features.AnyOfFeatureLinker | src/feature.ts:72-108 | the linker carries the given name |
| Features.AnyOfFeatureLinkerEval | src/feature.ts:81-106 | `eval` returns one link named `{name} ({k} / {n})` for the words some feature holds of, each entry joining that word's hits with `, ` |
| Features.WithAnyOfFeatureLinker | src/feature.ts:114-125 | one linker per feature in order, then the any-of linker: `features.length + 1` linkers |
| Linkers.CountedNameInjective | src/feature.ts:42 | different counts give different link names |
| Linkers.CountedNameSplit | src/feature.ts:42 | the counted name splits around its counts |
| Linkers.DropPrefix | src/feature.ts:42 | dropping a prefix leaves the rest |
| Linkers.DigitRunPrefix | src/feature.ts:42 | a digit run followed by a non-digit is determined by the string |
| Linkers.LeadingDigitsOf | src/feature.ts:42 | the leading digit run of a printed number followed by a non-digit is the number |
| FeatureIndex.LetterIndicesKeys | src/features/index.ts:34-41 | the letters with a position list are exactly the letters of the slug |
| FeatureIndex.LetterIndicesSound | src/features/index.ts:34-41 | every listed position is in range and holds its letter |
| FeatureIndex.LetterIndicesIncreasing | src/features/index.ts:34-41 | each list is strictly increasing |
| FeatureIndex.LetterIndicesComplete | src/features/index.ts:34-41 | every position is on its letter's list, so the lists partition the positions |
| FeatureIndex.GetProps | src/features/index.ts:33-43 | the push loop builds those lists |
| FeatureIndex.ResultsCount | src/features/index.ts:69-72 | one description entry per hit |
| FeatureIndex.ResultsMembers | src/features/index.ts:69-72 | the entries are exactly the truthy results |
| FeatureIndex.MakeLinker | src/features/index.ts:66-90 | the linker carries the feature's name |
| FeatureIndex.MakeLinkerEval | src/features/index.ts:68-89 | `eval` returns one link named `{name} ({k} / {n})`, with the truthy results in input order |
| FeatureIndex.FeatureLinker | src/features/index.ts:50-91 | consults the cache for the baseline and returns null exactly when the baseline is the log of zero |
| FeatureIndex.FeatureLinkers | src/features/index.ts:94-105 | keeps the linkers of the features with a non-zero baseline, in catalog order |
| FeatureIndex.MakeFeatureGetter | src/features/index.ts:111-125 | the getter's record on a slug has a key exactly for the names of the features that hold of it |
| FeatureIndex.GetFeatures | src/features/index.ts:111-125 | the getter's loop builds the feature record |
| FeatureIndex.FeatureRecordSpec | src/features/index.ts:117-122 | a name is a key exactly when a feature of that name hits, and the last such feature's result is kept |
| FeatureCatalog.Lift | src/features/index.ts:100 | a word feature used in the catalog keeps its name |
| FeatureCatalog.LiftProperty | src/features/index.ts:100 | and its property, whatever the props |
| FeatureCatalog.LiftHitCount | src/features/index.ts:100 | and hits the same words |
| FeatureCatalog.LiftAll | src/features/index.ts:95-101 | lifts each feature in order |
| FeatureCatalog.WordplayFeaturesCalledWith | src/features/wordplay.ts:196 | the wordplay catalog is built exactly when a wordlist is passed |
| FeatureCatalog.CatalogAsWrittenThrows | src/features/index.ts:100 | the catalog as written is never built. This holds by the definition of `WordplayFeaturesCalledWith`, which is `None`, standing for the `TypeError`, when no wordlist is passed |
| FeatureCatalog.Catalog | src/features/index.ts:95-101 | 392 other features and 193 wordplay features; the three families whose code is not available are left out |
| FeatureCatalog.CatalogShape | src/features/index.ts:95-101 | the other features in order, then the wordplay features in order |
| FeatureCatalog.AllFeatureLinkers | src/features/index.ts:94-105 | linkers for exactly the catalog features with a non-zero baseline, in catalog order |
| LogProbCaches.LogProbCache.constructor | src/features/logProbCache.ts:13-20 | caching on, exactly the data's keys each mapped to `fromExp` of its value, and `wrapCompute` that just calls `fn` |
| LogProbCaches.LogProbCache.Dump | src/features/logProbCache.ts:22-28 | the header, one line per entry in key order, then `};` |
| LogProbCaches.LogProbCache.Get | src/features/logProbCache.ts:30-41 | a hit returns the stored value and changes nothing; a miss stores `wrapCompute`'s result under the name, and the rest stays |
| LogProbCaches.SecondGetIsCached | src/features/logProbCache.ts:30-41 | with caching on, a second `get` returns the first result without recomputing |
| LogProbCaches.UncachedGetRecomputes | src/features/logProbCache.ts:30-41 | with caching off, every `get` recomputes and overwrites |
| LengthLinkers.Lengths | src/linkers/length.ts:14 | the words' lengths, in order |
| LengthLinkers.Mods | src/linkers/length.ts:41-49 | the lengths modulo `k`, in order |
| LengthLinkers.WithLength | src/linkers/length.ts:27-28 | the words of one length, at most the word count |
| LengthLinkers.MaxOf | src/linkers/length.ts:58 | the largest length |
| LengthLinkers.MinOf | src/linkers/length.ts:58 | the smallest length |
| LengthLinkers.Spread | src/linkers/length.ts:58 | `max - min`, and −∞ for no words as in `Math.max()` - `Math.min()` |
| LengthLinkers.LengthLinker | src/linkers/length.ts:7-70 | named `slug lengths`, evaluating to the length links |
| LengthLinkers.Eval | src/linkers/length.ts:10-68 | the pushes of `eval` yield equal/two, then parity, then mod 3, then consecutive |
| LengthLinkers.DedupFirst | src/linkers/length.ts:15 | the first distinct length is the first word's |
| LengthLinkers.DedupOne | src/linkers/length.ts:18 | one distinct value exactly when the list is non-empty and constant |
| LengthLinkers.DedupTwo | src/linkers/length.ts:25-26 | two distinct values exactly when there is a second value and every value is one of the two |
| LengthLinkers.DedupFull | src/linkers/length.ts:57 | as many distinct values as values exactly when there are no repeats |
| LengthLinkers.DedupFullIsSelf | src/linkers/length.ts:57 | a list without repeats de-duplicates to itself |
| LengthLinkers.EqualOrTwoLinksIff | src/linkers/length.ts:18-38 | `all lengths equal` with the common length exactly when there is one length; `only two lengths` exactly when there are two; otherwise neither |
| LengthLinkers.TwoLengthsLink | src/linkers/length.ts:25-38 | the two description lines list the words of each length in input order, and together they hold every word |
| LengthLinkers.WithLengthAppend | src/linkers/length.ts:27-28 | filtering by length distributes over concatenation |
| LengthLinkers.WithLengthMembers | src/linkers/length.ts:27-28 | the filtered words are exactly the words of that length |
| LengthLinkers.WithLengthPartition | src/linkers/length.ts:27-28 | two lengths split the words into two parts |
| LengthLinkers.ParityLinksIff | src/linkers/length.ts:41-47 | the parity link exactly when all lengths share a parity, named from the first word's |
| LengthLinkers.Mod3LinksIff | src/linkers/length.ts:49-55 | `all lengths are equal mod 3` exactly when all lengths are congruent mod 3 |
| LengthLinkers.WindowFilled | src/linkers/length.ts:57-65 | distinct lengths within a window as wide as the word count span exactly `n - 1` |
| LengthLinkers.ConsecutiveLinksIff | src/linkers/length.ts:57-65 | `lengths are consecutive` exactly when the lengths are distinct and fill a run of `n` |
| LengthLinkers.NoWordsNoLinks | src/linkers/length.ts:10-68 | no words give no links |
| LengthLinkers.Names | src/linkers/length.test.ts:11 | the links' names, in order |
| LengthLinkers.SampleEqual | src/linkers/length.test.ts:14-20 | three words of length 2 give equal, even and mod 3 |
| LengthLinkers.SampleTwo | src/linkers/length.test.ts:21-25 | lengths 1, 1, 2, 2 give only `only two lengths` |
| LengthLinkers.SampleMod3 | src/linkers/length.test.ts:26-30 | lengths 1, 4, 7 give only the mod 3 link |
| LengthLinkers.SampleConsecutive | src/linkers/length.test.ts:31-35 | lengths 2, 3, 4 give only `lengths are consecutive` |
| Prelude.DedupSpec | src/linkers/length.ts:15 | `new Set(s)` holds exactly the items of `s`, without repeats and no more of them |
| Prelude.DedupAppend | src/lib/logCounter.ts:17-19 | adding an item appends it to the key order exactly when it is new |
| Prelude.DedupCard | src/lib/logCounter.ts:30-32 | the key order has as many entries as there are distinct items |
| Prelude.Join | src/feature.ts:91 | `join` of no parts is empty and of one part is that part |
| Prelude.NatToStringValue | src/feature.ts:42 | the printed digits denote the number |
| Prelude.NatToStringInjective | src/feature.ts:42 | different numbers print differently |
| Prelude.IntToStringInjective | src/features/other.ts:14 | different integers print differently |

## Left out

- Floating-point arithmetic is not modelled. This covers `src/lib/logNum.ts`, `distribution.ts`, `lengthDistribution.ts`, `normal.ts`, the `LetterDistribution` class, `Wordlist.logProb`'s frequencies and binomial p-values. These values are opaque `LogNum`s produced by the function values of `LogNums.Arith`. Only "is the log of zero" is inspected.
- Wordlists.Wordlist.LogProb: adds `LogNum.fromZipf` of each matching word to the accumulator with `LogNum.add`, through the opaque arithmetic. What its result means as a probability is not stated.
- LengthLinkers.LengthLinker: the link probabilities are opaque values of the length distribution passed in. Only which links appear, and their names and descriptions, are stated.
- `anyOfLinkers` and `allOfLinkers` of `src/linker.ts` are not modelled: they are float combinations of other linkers.
- `Puzlink.link` in `src/index.ts` is not modelled. It depends on the external `slugify` and a float-keyed sort.
- `Wordlist.download`, `isPhrase` and the `Cromulence` wrapper are not modelled. They use the network and a foreign library.
- Wordlists.Wordlist.IsWord: modelled as membership among the record's keys. The JavaScript `in` operator also sees inherited names such as `constructor`, and the corpus is assumed not to be queried for those.
- The feature families `letterCountFeatures`, `letterSequenceFeatures` and `substringFeatures` are not modelled, because their code is not available: `src/features/letterCount.ts`, `src/features/letterSequence.ts` and `src/features/substring.ts` hold only their header comments. `src/features/index.ts:4-8` imports them and `src/features/index.ts:96-99` spreads them into the catalog, and their tests show that they do return features. The catalog members below therefore cover only part of the catalog.
- FeatureCatalog.Catalog: holds only the `otherFeatures` and `wordplayFeatures` part of `src/features/index.ts:96-100`, because the code of the other three families is not available.
- FeatureCatalog.CatalogShape: states the order of the `otherFeatures` and `wordplayFeatures` part only, for the same reason.
- FeatureCatalog.AllFeatureLinkers: states the linkers of the `otherFeatures` and `wordplayFeatures` part only, for the same reason.
- LogProbCaches.LogProbCache.Dump: the float `toString` of each value is a parameter `show`. Generator laziness is not modelled: the lines come as one sequence.
- LogProbCaches.LogProbCache.Dump: lists the entries in insertion order. `Object.entries` puts integer-like keys such as `"12"` first, but the cache's keys are feature names, which are never integer-like, so that reordering does not arise.
- LogProbCaches.LogProbCache.Get: looks names up among the stored keys only. The JavaScript `in` operator also sees inherited names such as `constructor` or `toString`, but no feature has such a name, so that case does not arise.
- Util.Upper: models `toUpperCase` on the ASCII range only. JavaScript also upper-cases non-ASCII letters (`é` to `É`, `ß` to `SS`), and the model returns those unchanged. Slugs hold only `a`-`z`, so no slug reaches that case.
- LetterBitsets.LetterBitset.Equals: the letter-by-letter meaning is stated for codes within the 26 lanes (below `32^26`), the codes of slugs with at most 31 of each letter. Larger `bigint` data compares as plain numbers.
- LetterCounters.LetterCounter.Equals: likewise stated for codes within the 26 lanes only.
- Util.Product: with no arguments the source throws. The model requires at least one argument instead of modelling the exception.
- LetterBitsets.TransaddOfIffOneMore: proved for at most 31 of each letter in the larger slug and 30 in the smaller. Beyond that the 5-bit lanes borrow, and `TransaddBorrow` exhibits the wrong answer.
- Linked `Map` iteration during mutation, generator laziness of `product`, and JavaScript object identity are not modelled. Each of these collections is a value.

## Findings

| source | as written | input that shows it | evidently intended | confidence | as-written member | corrected member |
|---|---|---|---|---|---|---|
| src/features/index.ts:100 | `featureLinkers(wordlist)` spreads `wordplayFeatures()` with no argument, so every wordplay feature's `booleanFeature` calls `logProb` on `undefined` and the catalog build throws | any wordlist | `wordplayFeatures(wordlist)`, giving the 392 other features followed by the 193 wordplay features | medium, not executed | FeatureCatalog.CatalogAsWrittenThrows | FeatureCatalog.CatalogShape |
