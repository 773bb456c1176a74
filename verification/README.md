# Text analyser: a verified model of `analyzeText`

This project models `analyzeText` and `checkRepetition` from the AI-text
detector's API module (`api/mod.ts`). It models how one text is analysed:

- the text is split into whitespace tokens and into sentences (runs of
  `.`, `!` or `?`);
- character, word, sentence and unique-word counts are taken;
- the average sentence length is computed;
- a lower-cased word-frequency table is built, and its most used word is
  found by a fold with a strict `>`;
- the mean and the population variance of the sentence lengths are computed;
- the type-token ratio is computed;
- bigram and trigram tables are built;
- a probability score is built from three signals.

The first signal is five case-insensitive marker phrases. The second is a
sentence-length variance above 5. The third is a whitespace piece that
occurs more than twice.

Modules:

- `Results` (`results.dfy`): the `Result` type. A text without words yields
  `Failure(EmptyInput)`; in the source, the `reduce` with no initial value
  throws a `TypeError` there.
- `Counting` (`tally.dfy`): occurrence counts. It also holds `Tally`, the
  insertion-ordered count table that the frequency `reduce` and the n-gram
  loop build, and the most-used fold. The repetition loop builds a map
  instead; `Analyzer.RepetitionIsTallyRow` relates its test to `Tally`.
- `Text` (`text.dfy`):
  - `split(/\s+/)` and `split(/[.!?]+/)`, with the empty leading and
    trailing pieces of JavaScript's `split`;
  - the exact ECMAScript `\s` class;
  - `filter(Boolean)` and the `trim() !== ""` filter;
  - ASCII lower-casing;
  - `join(" ")` and n-gram windows.
- `Stats` (`stats.dfy`): sums, the `x / n || 0` ratios, the mean and the
  variance, over exact reals.
- `Heuristics` (`heuristics.dfy`): the five marker regular expressions and
  the score.
- `Analyzer` (`analyzer.dfy`):
  - the word-frequency loop, the n-gram loop and `checkRepetition` as
    methods with loops;
  - `AnalyzeText`, whose postcondition ties every field of the result to
    the specification functions.
- `Scenarios` (`scenarios.dfy`): worked examples computed step by step.

## Model

| member | source | states |
|---|---|---|
| Counting.TallyRows | api/mod.ts:26-30 | The table's keys are distinct. They are exactly the elements of the list. Each row counts its key's occurrences, at least 1. |
| Counting.TallyTotal | api/mod.ts:26-30 | The counts of the table sum to the length of the list. |
| Counting.TallySize | api/mod.ts:20-30 | The table has one row per distinct element, so the frequency table has `uniqueWordCount` rows. |
| Counting.TallyOrder | api/mod.ts:26-30 | Rows appear in the order in which their keys first occur (insertion order of the accumulator object). |
| Counting.ElemsAtMostLength | api/mod.ts:20-21 | A list has no more distinct elements than entries (`uniqueWordCount <= wordsCount`). |
| Counting.MostUsed | api/mod.ts:32-34 | The fold fails exactly when the table is empty. |
| Counting.ReduceKeepsFirstMaximum | api/mod.ts:32-34 | The fold's result bounds every count it visits. A later entry replaces the running value only when its count is strictly greater than every earlier one. |
| Counting.MostUsedIsFirstMaximum | api/mod.ts:32-34 | On a non-empty table the result is the first row of maximal count: ties keep the earlier row. |
| Counting.MostUsedOfTally | api/mod.ts:26-34 | For a non-empty word list the most used word has the largest occurrence count. Among equally frequent words it occurs first. Its row holds that count. |
| Text.Split | api/mod.ts:14 | A split always yields at least one piece (`"".split(/\s+/)` is `[""]`). |
| Text.SplitPieces | api/mod.ts:14-18 | Every piece is made of characters of the text and holds no separator. |
| Text.SplitAt | api/mod.ts:14-18 | A separator-free prefix followed by a maximal separator run is split off as one piece; the rest is split on. |
| Text.SplitInteriorNonEmpty | api/mod.ts:98 | Only the first and the last piece of a split can be empty. |
| Text.EmptyPieceAtMostTwice | api/mod.ts:98-103 | The empty string occurs at most twice among the pieces. |
| Text.SplitKeepsContent | api/mod.ts:14 | A non-separator character of the text lies in some piece. |
| Text.TokensCoverText | api/mod.ts:14 | Every non-whitespace character of the text lies in some token: the converse of `TokensAreWords`. |
| Text.NonEmpty | api/mod.ts:14 | `filter(Boolean)` keeps only non-empty strings, all taken from its input. |
| Text.NonEmptyCount | api/mod.ts:14 | The filter leaves the count of every non-empty string unchanged and removes every empty one. |
| Text.NonEmptyKeepsWords | api/mod.ts:14 | The filter keeps a list of non-empty strings whole. |
| Text.NonBlank | api/mod.ts:16-18 | The sentence filter keeps only strings with non-whitespace content, all taken from its input. |
| Text.NonBlankCount | api/mod.ts:16-18 | The sentence filter keeps every string with non-whitespace content as often as it occurs in its input, and drops every blank one. |
| Text.TokensAreWords | api/mod.ts:14 | Every token is non-empty and made of non-whitespace characters of the text. |
| Text.SentencesAreClauses | api/mod.ts:16-18 | Every sentence has non-whitespace content and contains no terminator. |
| Text.TokensEmptyIffBlank | api/mod.ts:14 | A text has no tokens exactly when it is empty or all whitespace. |
| Text.NonBlankHasTokens | api/mod.ts:36-38 | A sentence kept by the filter at lines 16-18 has at least one word. |
| Text.SentenceLengths | api/mod.ts:36-38 | There is one length per sentence. |
| Text.SentenceLengthsPositive | api/mod.ts:36-38 | Every sentence length is at least 1. |
| Text.SplitJoin | api/mod.ts:51 | Splitting a joined n-gram on whitespace gives back its tokens. |
| Text.Grams | api/mod.ts:50-51 | There are `wordsCount - n + 1` windows, or none when `wordsCount < n`. |
| Stats.Ratio | api/mod.ts:22-24 | The guarded quotient is 0 when the divisor is 0, and otherwise times the divisor gives the dividend. It is never negative. The same guard stands for the NaN-to-0 fallback of the mean at line 40 and the ratio at line 46; `Stats.Variance` has its own guard for no values. |
| Stats.MeanTimesCount | api/mod.ts:39-40 | The mean times the number of values is their sum, for every list, the empty one included. |
| Stats.SquaredDeviationsNonNegative | api/mod.ts:41-44 | The sum of squared deviations is never negative. |
| Stats.VarianceNonNegative | api/mod.ts:41-44 | The variance is never negative. |
| Stats.SquaredDeviationsExpand | api/mod.ts:41-44 | Σ(b − m)² = Σb² − 2·m·Σb + n·m² for every list and every m, stated over the values of the functions. |
| Stats.DeviationsScaled | api/mod.ts:39-44 | n times the squared deviations from the mean is n·Σb² − (Σb)², for every list. |
| Stats.VarianceScaled | api/mod.ts:39-44 | n² times the variance is n·Σb² − (Σb)², for every list, the empty one included. |
| Stats.VarianceAboveIff | api/mod.ts:41-44 | The variance exceeds a bound (5 in the test at line 71) exactly when n·Σb² − (Σb)² > bound·n², a test over integers. |
| Heuristics.Test | api/mod.ts:66-68 | The scan finds nothing in a text shorter than the phrase. |
| Heuristics.TestFindsOccurrence | api/mod.ts:59-68 | The scan succeeds exactly when the phrase occurs at some index, ignoring ASCII case. |
| Heuristics.TestInContext | api/mod.ts:59-68 | A phrase found in part of a text is found in the whole text. |
| Heuristics.AnyMarker | api/mod.ts:66-68 | `some` holds exactly when one of the patterns matches. |
| Heuristics.HeuristicMatchesIff | api/mod.ts:59-68 | `heuristicMatches` holds exactly when one of the five phrases occurs at some index, in any letter case. |
| Heuristics.HeuristicExamples | api/mod.ts:59-68 | "Enthusiasm" matches because it contains "thus" (the phrases are unanchored); the empty text does not. |
| Heuristics.Clamp | api/mod.ts:74 | The clamp lands in 0..100 and leaves values in that range alone. |
| Heuristics.ScoreUnclamped | api/mod.ts:69-74 | The score is one of 1, 10, 11, 20, 33, 42, 43, 52. It equals the unclamped sum, so the clamp never acts. |
| Heuristics.ScoreMonotone | api/mod.ts:69-73 | Each of the three signals strictly raises the score, whatever the other two are. |
| Heuristics.ScoreDecodes | api/mod.ts:69-74 | The score determines the three signals: heuristic ⇔ score ≥ 33; complexity ⇔ score ∈ {11, 20, 43, 52}; repetition ⇔ score ∈ {10, 20, 42, 52}. |
| Heuristics.AiProbability | api/mod.ts:69-74 | The reassigned `aiProbability` equals the score of the three signals and lies in 0..100. |
| Analyzer.WordFrequency | api/mod.ts:26-30 | The loop builds the tally of the lower-cased words. The keys are distinct, there is one row per distinct lower-cased word, and the counts sum to the number of words. |
| Analyzer.NGrams | api/mod.ts:48-57 | The loop builds the tally of the windows. The keys are distinct and the counts sum to `wordsCount - n + 1`. The table is empty exactly when `wordsCount < n`. |
| Analyzer.NGramKeysAreWindows | api/mod.ts:48-55 | Every n-gram key splits back into n consecutive tokens of the text. |
| Analyzer.CheckRepetition | api/mod.ts:97-104 | The map loop returns true exactly when some whitespace piece (empty ones included) occurs more than twice. |
| Analyzer.RepetitionIgnoresEmptyPieces | api/mod.ts:97-104 | The repetition test on the unfiltered pieces agrees with the same test on the tokens. |
| Analyzer.RepetitionIsTallyRow | api/mod.ts:97-104 | A repetition is a row with a count above 2 in the case-sensitive tally. |
| Analyzer.AnalyzeText | api/mod.ts:12-91 | Fails exactly on a blank text. Otherwise every field is tied to the tokens and sentences; see the notes under the table. |
| Scenarios.TokensOfJoined | api/mod.ts:14 | Tokens joined by single spaces tokenise back to themselves. |
| Scenarios.FrequencyExample | api/mod.ts:14-30 | "Cat cat cat dog." has 4 words and the table cat→3, dog.→1. |
| Scenarios.CatSummary | api/mod.ts:14-34 | "Cat cat cat dog." has 2 unique words, 1 sentence, and the most used word "cat" with count 3. |
| Scenarios.NGramExample | api/mod.ts:48-57 | "a b c" has the bigrams "a b" and "b c" and the trigram "a b c", once each. |
| Scenarios.HiSentences | api/mod.ts:16-18 | "Hi all. Go?" has the untrimmed sentences "Hi all" and " Go"; the empty piece after "?" is dropped. |
| Scenarios.SentenceExample | api/mod.ts:36-38 | The sentences "Hi all" and " Go" of "Hi all. Go?" have the lengths [2, 1]: the leading space of " Go" yields an empty piece that the word filter drops. |
| Text.IsWhitespace | api/mod.ts:14 | Definition of the `\s` class (ECMAScript WhiteSpace and LineTerminator). Used by `Split`, `Blank` and the token lemmas. |
| Text.Blank | api/mod.ts:17 | Definition of `trim() === ""`: whitespace only. `TokensEmptyIffBlank` and `NonBlankCount` state its role. |
| Text.Tokens | api/mod.ts:14 | Definition of the word list, split then filter. `TokensAreWords`, `TokensCoverText` and `TokensEmptyIffBlank` state its properties. |
| Text.Sentences | api/mod.ts:16-18 | Definition of the sentence list, split on terminators then filter. `SentencesAreClauses` and `NonBlankCount` state its properties. |
| Text.Lower | api/mod.ts:27 | Definition of `toLowerCase` as ASCII lower-casing, character by character; see "Left out". |
| Text.LowerAll | api/mod.ts:20 | Definition of lower-casing every word. `Analyzer.WordFrequency` and `Analyzer.AnalyzeText` use it. |
| Text.Join | api/mod.ts:51 | Definition of `join(" ")`. `SplitJoin` and `JoinStartsWithFirst` state its properties. |
| Counting.Elems | api/mod.ts:20 | Definition of `new Set(...)`. `ElemsAtMostLength` and `TallySize` state its properties. |
| Counting.Bump | api/mod.ts:28 | Definition of `acc[k] = (acc[k] or 0) + 1`. `TallyRows`, `TotalBump` and `BumpKeepsOrder` state its properties. |
| Counting.Tally | api/mod.ts:26-30 | Definition of the table built by bumping every element in turn. `TallyRows`, `TallyTotal`, `TallySize` and `TallyOrder` state its properties. |
| Counting.TotalBump | api/mod.ts:28 | Bumping a key adds one to the total of the counts. |
| Counting.BumpKeepsOrder | api/mod.ts:28 | Bumping keeps the rows in first-occurrence order: a new key goes last. |
| Counting.Reduce | api/mod.ts:32-34 | Definition of the fold with strict `>`. `ReduceKeepsFirstMaximum` states its properties. |
| Stats.Sum | api/mod.ts:40 | Definition of the sum `reduce`. `MeanTimesCount` and `VarianceScaled` use it. |
| Stats.Mean | api/mod.ts:39-40 | Definition of the mean with the 0 fallback. `MeanTimesCount` states its property. |
| Stats.SquaredDeviations | api/mod.ts:41-44 | Definition of the squared-deviation `reduce`. `SquaredDeviationsNonNegative` and `SquaredDeviationsExpand` state its properties. |
| Stats.Variance | api/mod.ts:41-44 | Definition of the population variance with the 0 fallback. `VarianceNonNegative`, `VarianceScaled` and `VarianceAboveIff` state its properties. |
| Heuristics.HeuristicMatches | api/mod.ts:59-68 | Definition of the flag: some of the five phrases of `Markers` (lines 59-65) tested in turn. `HeuristicMatchesIff` states its meaning. |
| Heuristics.Score | api/mod.ts:69-74 | Definition of the score from the three signals. `ScoreUnclamped`, `ScoreMonotone` and `ScoreDecodes` state its properties. |
| Analyzer.HasRepeat | api/mod.ts:103 | Definition of "some count exceeds 2". `CheckRepetition`, `RepetitionIgnoresEmptyPieces` and `RepetitionIsTallyRow` state its role. |

For a non-blank text, `Analyzer.AnalyzeText` states:

- `charactersCount` is the length of the text.
- `wordsCount` is the number of tokens, at least 1.
- `sentencesCount` is the number of sentences.
- `uniqueWordCount` is the number of distinct lower-cased tokens, between 1
  and `wordsCount`.
- `averageSentenceLength` is the guarded ratio of words to sentences. It,
  the mean and the variance are 0 when there are no sentences.
- `mostUsedWord` is a most frequent lower-cased token, the first among ties.
- The mean and the variance are those of the sentence lengths; the variance
  is at least 0.
- The type-token ratio is the guarded ratio of unique words to words, and
  lies in (0, 1].
- The bigram and trigram tables are the tallies of the windows.
- The heuristic flag is the marker test.
- The score is `Score` of the flag, `variance > 5` and a token repeated more
  than twice.

## Left out

- HTTP plumbing is not part of this model: the Hono application and its
  CORS middleware (api/mod.ts:1-10), `getTextParam` with
  `decodeURIComponent` (api/mod.ts:93-95), and the route handlers and
  server start-up (api/mod.ts:106-139). It is transport only.
- The UI islands, the `_app` route and the Tailwind configuration are not
  part of this model. They are DOM wiring, markup and styling, with no
  analysis logic.
- Floating point: the average, the mean, the variance and the type-token
  ratio are exact reals. IEEE-754 rounding and `Math.pow` rounding are not
  modelled. The `x / n || 0` guard is modelled, since it only maps the NaN
  of 0 / 0 to 0.
- Text.Lower: `toLowerCase` is modelled as ASCII lower-casing. This matches
  the `/i` marker expressions exactly, because without the `u` flag
  case-insensitive matching never folds a non-ASCII character onto an ASCII
  one. For the frequency table and the unique-word set it is an
  approximation: non-ASCII letters keep their case.
- Analyzer.AnalyzeText: `charactersCount` counts Unicode scalar values. `text.length`
  counts UTF-16 code units, so the two differ for characters outside the
  Basic Multilingual Plane.
- JavaScript object semantics of the frequency and n-gram tables
  (api/mod.ts:28, api/mod.ts:52) are replaced by insertion-ordered lists of
  rows:
  - `Object.entries` lists integer-like keys such as `"42"` first, in numeric
    order. That changes which of several equally frequent words the fold at
    api/mod.ts:32 returns.
  - Inherited keys such as `constructor` make `acc[k] || 0` yield a function
    rather than 0.
- The uncaught `TypeError` of the fold over an empty table is modelled as
  the `Failure(EmptyInput)` result.
- The JSON serialisation of the result record is not modelled.
- Stats.VarianceAboveIff: stated for a non-empty list of values only. With
  no values, the variance is 0 by definition.
- Analyzer.AnalyzeText: states `averageSentenceLength` and `typeTokenRatio`
  through `Stats.Ratio`, whose contract gives their meaning, rather than
  restating the products.
- Scenarios: the sentence-length example uses the short text "Hi all. Go?"
  rather than a longer one such as "Hello world. How are you?", because
  worked examples over literal strings are costly to verify. The general
  lemmas `Text.SentenceLengthsPositive` and `Text.NonBlankHasTokens` hold for
  every text.
