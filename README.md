# eduba memory-training core in Dafny

This project models the scoring and progress logic of eduba, a web app where readers memorise passages and type them back. It covers four library files:

- **`src/lib/comparison.ts`** scores a typed attempt against the original passage:
  - text normalisation and word splitting;
  - token splitting for display;
  - a cached Levenshtein distance;
  - the positional word comparison and the character-by-character format score;
  - the 80/20 combined accuracy and the description and encouragement strings.
- **`src/lib/progress.ts`** computes a signed-in reader's progress from database rows:
  - per-path counts, the percentage, total attempts and average accuracy;
  - the current passage;
  - the detailed view of one path;
  - the next passage to practise, the passage after the current one;
  - path metadata.
- **`src/lib/local-progress.ts`** is the same bookkeeping for anonymous readers. It keeps a table of passage records in browser storage.
- **`src/lib/session-tracking.ts`** decides when to prompt an anonymous reader to sign up. The inputs are a completion counter and two cooldown timestamps.

Modules, one file each:

| module | what it models |
|---|---|
| `Wrappers` | `Option` |
| `JsMath` | `Math.round`, `Math.max` and `Math.min` on exact reals and integers |
| `Chars` | the character classes of the regular expressions: `\s`, `\w`, `[a-z]` |
| `Normalize` | `normalizeText` and `splitIntoWords` |
| `Tokens` | `splitIntoTokens` |
| `EditDistance` | `editDistance` and its cache, and `wordsAreSimilar` |
| `Comparison` | `compareText`, `calculateFormatAccuracy`, `getAccuracyDescription` and `getEncouragementMessage` |
| `Progress` | `progress.ts` |
| `LocalProgress` | `local-progress.ts` |
| `SessionTracking` | `session-tracking.ts` |

How state is modelled:

- **Storage as classes.** State the source keeps in browser storage is a class:
  - `LocalProgress.LocalProgressStore` holds the passage table.
  - `SessionTracking.SessionTracker` holds the three storage keys.
  - Each method's `modifies` and `ensures` clauses give the new state.
- **The edit-distance cache** is a class, `EditDistance.EditDistanceCache`, with a `map` field.
- **The two-row dynamic programme** runs on two `array<nat>` rows swapped after each outer iteration. It is proved equal to a recursive definition of Levenshtein distance.
- **Database rows are inputs.** The Supabase queries are sequences of rows passed in as parameters. Each aggregation loop is a method proved against specification functions.

Where the code and its stated design disagree, the model follows the code:

- **`normalizeText` is not idempotent.** For example, `"a ."` normalises to `"a "` and then to `"a"`. `Normalize.NotIdempotent` exhibits this. What does hold is that the word list is stable: `Normalize.WordsStable` proves `splitIntoWords(normalizeText(x)) == splitIntoWords(x)`.
- **`missingWords` and `incorrectWords` are filtered lists, not sets.** They keep the input's order and repetitions.
- **Identical inputs take a different path.** `compareText` returns early when the two texts are equal. Its word comparisons are then built from display tokens, not from normalised words.

## Model

| member | source | states |
|---|---|---|
| JsMath.Round | src/lib/comparison.ts:232 | `Math.round` gives the integer within one half of its argument: `x - 0.5 < r <= x + 0.5` |
| JsMath.RoundBetween | src/lib/progress.ts:130-131 | rounding a value that lies between two integers stays between them |
| JsMath.RoundOfInt | src/lib/progress.ts:131 | rounding an integer returns it unchanged |
| JsMath.QuotientBetween | src/lib/progress.ts:130 | for a positive divisor `c`, a numerator between `lo * c` and `hi * c` gives a quotient between `lo` and `hi` |
| JsMath.QuotientIs | src/lib/comparison.ts:226 | for a positive divisor `c`, `t / c` equals `v` exactly when `t == v * c` |
| Chars.ToLower | src/lib/comparison.ts:33 | lower-casing leaves no upper-case letter, preserves whitespace and apostrophes, and maps every other character to itself |
| Normalize.Lower | src/lib/comparison.ts:33 | definition of `toLowerCase` on the ASCII range; its length and pointwise behaviour are stated by `Normalize.LowerChars` |
| Normalize.TrimStart | src/lib/comparison.ts:34 | the result is a suffix of the input, everything dropped is whitespace, and the result does not start with whitespace |
| Normalize.TrimEnd | src/lib/comparison.ts:34 | the result is a prefix of the input, everything dropped is whitespace, and the result does not end with whitespace |
| Normalize.Trim | src/lib/comparison.ts:34 | definition of `trim()` as `TrimEnd` after `TrimStart`, whose contracts state what is dropped |
| Normalize.Collapse | src/lib/comparison.ts:36 | definition of the white-space-run rewrite; its characters are stated by `Normalize.CollapseChars` |
| Normalize.StripPunctuation | src/lib/comparison.ts:39 | definition of the `[^\w\s']` deletion; its characters are stated by `Normalize.StripPunctuationChars` |
| Normalize.DropLooseApostrophes | src/lib/comparison.ts:41 | definition of the loose-apostrophe deletion; its result is stated by `Normalize.DropLooseApostrophesFlanked` |
| Normalize.NormalizeText | src/lib/comparison.ts:31-44 | definition of the five-stage chain; its characters are stated by `Normalize.NormalizedChars` and its words by `Normalize.WordsStable` |
| Normalize.SplitIntoWords | src/lib/comparison.ts:49-56 | every word is non-empty and holds no white space |
| Normalize.NormalizedChars | src/lib/comparison.ts:31-44 | every character of the normalised text is a space, a lower-case letter, a digit, `_` or an apostrophe |
| Normalize.WordsWellFormed | src/lib/comparison.ts:49-56 | every word is non-empty, contains no whitespace, uses only normalised characters, and has each apostrophe between two lower-case letters |
| Normalize.WordsStable | src/lib/comparison.ts:49-56 | splitting the normalised text gives the same words as splitting the raw text |
| Normalize.NotIdempotent | src/lib/comparison.ts:31-44 | normalising `"a ."` gives `"a "`, and normalising that again gives `"a"`: the function is not idempotent |
| Normalize.DropLooseApostrophesFlanked | src/lib/comparison.ts:41 | after the apostrophe filter, every remaining apostrophe follows and precedes a lower-case letter |
| Normalize.DropLooseApostrophesIdentity | src/lib/comparison.ts:41 | the apostrophe filter changes nothing in a text whose apostrophes are already flanked |
| Normalize.LowerChars | src/lib/comparison.ts:33 | lower-casing preserves length and maps each character independently |
| Normalize.StripPunctuationChars | src/lib/comparison.ts:39 | the punctuation filter keeps only word characters, whitespace and apostrophes from the input |
| Normalize.CollapseChars | src/lib/comparison.ts:36 | collapsing whitespace introduces only single spaces and keeps every other character from the input |
| Normalize.SplitAtCollapse | src/lib/comparison.ts:53-55 | collapsing whitespace runs does not change the words found by the split |
| Normalize.SplitAtTrimEnd | src/lib/comparison.ts:53-55 | trailing whitespace does not change the words found by the split |
| Normalize.SplitAtFlanked | src/lib/comparison.ts:53-55 | splitting a text whose apostrophes all sit between two lower-case letters gives words with the same property |
| Normalize.RenormalizeOnlyCollapses | src/lib/comparison.ts:31-44 | on already normalised text, normalising again only trims and collapses whitespace |
| Tokens.RunLength | src/lib/comparison.ts:139 | the run length is a maximal prefix of all-whitespace or all-non-whitespace characters |
| Tokens.SplitIntoTokens | src/lib/comparison.ts:135-140 | no token is empty |
| Tokens.TokensRoundTrip | src/lib/comparison.ts:135-140 | concatenating the tokens gives back the original text |
| Tokens.TokensMaximalRuns | src/lib/comparison.ts:139 | each token is all whitespace or all non-whitespace, and neighbouring tokens alternate between the two |
| Tokens.EmptyTokens | src/lib/comparison.ts:136 | the token list is empty exactly when the text is |
| EditDistance.Min3 | src/lib/comparison.ts:99-103 | the result is one of the three arguments and no larger than any of them |
| EditDistance.Lev | src/lib/comparison.ts:65-114 | the reference distance the cache is proved against: at most the longer length and at least the difference of the lengths |
| EditDistance.LevSymmetric | src/lib/comparison.ts:72-77 | the distance is symmetric, so the swap of the arguments at line 74 does not change the result |
| EditDistance.LevDropLastOfSecond | src/lib/comparison.ts:96-97 | dropping the last character of the second word raises the distance by at most one |
| EditDistance.LevEqualLast | src/lib/comparison.ts:96-97 | when the last characters are equal, the distance is that of the two prefixes |
| EditDistance.LevToEmpty | src/lib/comparison.ts:82-86 | the distance to the empty word is the other word's length |
| EditDistance.CellStep | src/lib/comparison.ts:95-105 | the table entry `(i, j)` is the diagonal entry when the characters match, otherwise one plus the least of the three neighbours |
| EditDistance.TwoRowDistance | src/lib/comparison.ts:88-111 | the two-row dynamic programme returns the Levenshtein distance of the two words |
| EditDistance.KeyInjective | src/lib/comparison.ts:67 | for words without a colon, the cache key `word1:word2` determines both words |
| EditDistance.KeyAmbiguous | src/lib/comparison.ts:67 | `("a", ":")` and `("a:", "")` share a cache key but have distances 1 and 2 |
| EditDistance.WordsHaveNoColon | src/lib/comparison.ts:49-56 | no normalised word contains a colon, so keys of normalised words never collide |
| EditDistance.EditDistanceCache.EditDistance | src/lib/comparison.ts:65-114 | for colon-free words the result is the Levenshtein distance; it is stored under the key; earlier entries are kept; every entry is still correct |
| EditDistance.EditDistanceCache.Store | src/lib/comparison.ts:111-112 | storing a correct distance under its key keeps every cached entry correct |
| EditDistance.EditDistanceCache.WordsAreSimilar | src/lib/comparison.ts:120-130 | for colon-free words, the result is true when the words are equal, both are empty, or `1 - distance / maxLength >= threshold` |
| EditDistance.SimilarSymmetric | src/lib/comparison.ts:120-130 | similarity does not depend on the order of the two words |
| EditDistance.NothingSimilarToEmpty | src/lib/comparison.ts:123-129 | with a positive threshold, no non-empty word is similar to the empty word |
| Comparison.CalculateFormatAccuracy | src/lib/comparison.ts:249-266 | the score is in 0..100, is 100 exactly when the strings are equal, and is 0 when exactly one string is empty |
| Comparison.CompareText | src/lib/comparison.ts:147-244 | tokens and total word count are as defined; equal texts score 100 with no missing or incorrect words and one comparison per token; otherwise missing and incorrect words are the words absent from the other side, comparisons pair words by position up to the longer list, and the accuracy is the 80/20 combination, in 0..100 |
| Comparison.CompareWords | src/lib/comparison.ts:175-243 | for differing texts: missing and incorrect words are those absent from the other list, correct words are the positional matches and never exceed the total, one comparison per position, and the accuracy is the 80/20 combination |
| Comparison.KeepAbsent | src/lib/comparison.ts:176-193 | the loop keeps exactly the words, in order, that the other list does not contain |
| Comparison.CountPositionalMatches | src/lib/comparison.ts:196-205 | the loop counts the positions where the two word lists agree |
| Comparison.PairWords | src/lib/comparison.ts:208-223 | one comparison per position up to the longer list, with an empty string past the end of a list, marked correct exactly when the two words are equal |
| Comparison.WithoutMembership | src/lib/comparison.ts:179-183 | a word is missing exactly when it is in the original and not in the attempt |
| Comparison.WithoutMultiplicity | src/lib/comparison.ts:179-183 | a missing word is listed as often as it occurs in the original: the list is not deduplicated |
| Comparison.WithoutLength | src/lib/comparison.ts:176-193 | the missing list is never longer than the list it filters |
| Comparison.WithoutSelf | src/lib/comparison.ts:176-193 | a list filtered against itself is empty |
| Comparison.PositionalMatchesBound | src/lib/comparison.ts:196-205 | correct words never exceed total words |
| Comparison.PositionalMatchesSame | src/lib/comparison.ts:196-205 | identical word lists match at every position |
| Comparison.PositionalMatchesShifted | src/lib/comparison.ts:199-205 | when an attempt drops opening words and no word repeats at that shift, no position matches |
| Comparison.DroppedOpeningScoresNoContent | src/lib/comparison.ts:199-205 | a given thirteen-word list (the words of the Declaration's sentence, written out by hand rather than derived by the split), with the first two dropped, has no positional match |
| Comparison.CharMatchesBound | src/lib/comparison.ts:257-261 | the character matches over a common prefix are at most its length, and equal it exactly when the prefixes agree |
| Comparison.FormatScoreBounds | src/lib/comparison.ts:249-266 | the format score is in 0..100, is 100 exactly when the strings are equal, and is 0 when exactly one is empty |
| Comparison.ContentScoreBounds | src/lib/comparison.ts:226 | content accuracy is in 0..100, and is 100 exactly when there are words and all are correct |
| Comparison.CombinedBounds | src/lib/comparison.ts:232 | the rounded 80/20 combination of two scores in 0..100 is in 0..100 |
| Comparison.AccuracyBounds | src/lib/comparison.ts:157-232 | every accuracy `compareText` reports is in 0..100 |
| Comparison.SameWordsPass | src/lib/comparison.ts:226-232 | an attempt with the same non-empty words, whatever its punctuation, scores at least 80 and gets the "mastered" message |
| Comparison.WordPathSameWords | src/lib/comparison.ts:226-232 | the scoring path with identical non-empty word lists gives at least 80 |
| Comparison.EmptyAttemptScoresZero | src/lib/comparison.ts:226-232 | an empty attempt at a text with words scores 0 |
| Comparison.EmptyTextNoWords | src/lib/comparison.ts:51 | the empty text splits into no words |
| Comparison.WordPathEmptyAttempt | src/lib/comparison.ts:226-232 | an empty attempt at a non-empty text with non-empty words scores 0: no content match and no format match |
| Comparison.EmptyAttemptNoMatches | src/lib/comparison.ts:199-205 | against an empty attempt, no word of the original matches |
| Comparison.NoWordsAtMostFormat | src/lib/comparison.ts:226-232 | when the original has no words and the texts differ, the accuracy is at most 20, the format share |
| Comparison.ContentScoreFull | src/lib/comparison.ts:226 | all of `n > 0` words correct is exactly 100 |
| Comparison.GetAccuracyDescription | src/lib/comparison.ts:271-278 | the description is one of the six labels |
| Comparison.GetEncouragementMessage | src/lib/comparison.ts:283-291 | the "mastered" message exactly from 80 up, and the "keep practicing" message exactly below 60 |
| Comparison.DescriptionMonotonic | src/lib/comparison.ts:271-278 | a higher accuracy never gets a lower label |
| Comparison.EncouragementAgreesWithDescription | src/lib/comparison.ts:283-291 | the "mastered" message goes with labels Good or better, and "keep practicing" with "Keep Practicing" |
| Progress.ProgressMapOfLatest | src/lib/progress.ts:67-71 | an id is in the map exactly when some row has it, and it maps to the last such row |
| Progress.BuildProgressMap | src/lib/progress.ts:67-71 | the loop builds the map where later rows overwrite earlier ones |
| Progress.FirstOpen | src/lib/progress.ts:109-127 | the index found is of an uncompleted passage after only completed ones; none means all are completed |
| Progress.PrefixStep | src/lib/progress.ts:95-128 | one more passage changes each running total exactly as the loop body does |
| Progress.FindIndex | src/lib/progress.ts:113 | the result is the first index holding the id, or -1 exactly when the id is absent |
| Progress.SortByOrderCorrect | src/lib/progress.ts:93 | the sorted passages are in ascending difficulty order and a permutation of the input |
| Progress.InsertSorted | src/lib/progress.ts:93 | inserting into a sorted list keeps it sorted and adds exactly that passage |
| Progress.DistinctPathsCorrect | src/lib/progress.ts:74-80 | the group keys are distinct and are exactly the paths that occur |
| Progress.WithPathCorrect | src/lib/progress.ts:74-80 | a group holds only passages of its path, drawn from the input, and every passage of that path |
| Progress.WithPathEmpty | src/lib/progress.ts:74-80 | a path that does not occur has an empty group |
| Progress.GroupByPath | src/lib/progress.ts:74-80 | the keys in first-seen order, each mapped to its passages in input order |
| Progress.SummarizePath | src/lib/progress.ts:84-141 | the entry for one path gives the completed count, percentage, attempt total, rounded average of positive best accuracies, and current passage over the sorted passages; completed never exceeds total and the percentage is in 0..100 |
| Progress.WalkPassages | src/lib/progress.ts:95-128 | the loop over the sorted passages yields the completed count, attempt total, accuracy total and count, and the order of the first uncompleted passage |
| Progress.FirstOpenIsFound | src/lib/progress.ts:111-125 | at the first uncompleted passage, `findIndex` finds it and the previous passage is completed, so the unlock check always succeeds |
| Progress.GetUserPathsProgress | src/lib/progress.ts:42-149 | one entry per distinct path, each summarising that path's passages against the progress map |
| Progress.CompletedCountBound | src/lib/progress.ts:109-110 | the completed count is at most the number of passages, and equals it exactly when there is no current passage |
| Progress.PercentageBounds | src/lib/progress.ts:130 | the percentage is in 0..100: 100 when all are done, 0 when none are |
| Progress.AccuracySums | src/lib/progress.ts:103-106 | with best accuracies at most 100, the accuracy total lies between the count and 100 times the count |
| Progress.AverageBounds | src/lib/progress.ts:131 | the average is in 1..100 when any passage has a positive accuracy, otherwise 0 |
| Progress.CurrentIsLeastOpenOrder | src/lib/progress.ts:92-127 | the current passage is the lowest difficulty order among uncompleted passages; it is absent exactly when all are completed |
| Progress.SortedSameMembers | src/lib/progress.ts:93 | sorting keeps exactly the same passages |
| Progress.NoneOpen | src/lib/progress.ts:109-110 | with no uncompleted position, every passage of the list is completed |
| Progress.LeastOpen | src/lib/progress.ts:109-127 | in a sorted list, the first uncompleted passage has the least order of all uncompleted passages |
| Progress.PassageProgressOf | src/lib/progress.ts:192-204 | every passage is unlocked and completed follows the row; a missing row means no accuracy and 0 attempts; a present row gives its attempts, with null read as 0, and its best accuracy, with 0 reported as null |
| Progress.ZeroBestReportedAsNull | src/lib/progress.ts:200 | a best accuracy of 0 is reported as null |
| Progress.GetPathProgress | src/lib/progress.ts:154-215 | null exactly for a path with no passages; otherwise each passage in order, paired with the progress record `PassageProgressOf` gives for its id under the last-row-wins map |
| Progress.DetailAgreesWithOverview | src/lib/progress.ts:192-205 | the detailed view marks as many passages completed as the overview counts |
| Progress.GetNextUnlockedPassage | src/lib/progress.ts:220-240 | the first uncompleted passage of the path, or null when there is none |
| Progress.FirstOpenAt | src/lib/progress.ts:229-235 | after a prefix of completed passages, the first uncompleted passage is the first open one |
| Progress.GetNextPassageAfter | src/lib/progress.ts:245-270 | a passage exactly when the current id occurs before the last position, and then the passage right after its first occurrence |
| Progress.NextAfterWalksInOrder | src/lib/progress.ts:254-263 | with distinct ids, the passage after passage `k` is `k + 1`, and none after the last |
| Progress.GetPathMetadata | src/lib/progress.ts:275-329 | a known path gets one of its three colours; an unknown id gets the gray default named after itself |
| LocalProgress.ParseNatToString | src/lib/local-progress.ts:255 | parsing the decimal digits of `n` gives back `n` |
| LocalProgress.LastSegment | src/lib/local-progress.ts:255 | the last `_`-separated segment contains no `_` |
| LocalProgress.LastSegmentOfJoin | src/lib/local-progress.ts:255 | the last segment of `path_k` is `k` |
| LocalProgress.SegmentOfPassageId | src/lib/local-progress.ts:255 | the last segment of `path_n` is the decimal form of `n`, all digits, and parses back to `n` |
| LocalProgress.LocalIds | src/lib/local-progress.ts:114-115 | the ids of a path are `path_1` to `path_total`, in order |
| LocalProgress.PathPassageCount | src/lib/local-progress.ts:22-32 | a count exists exactly for the nine catalogue paths, and it is 20 |
| LocalProgress.ReplaySummary | src/lib/local-progress.ts:74-96 | after a non-empty log of attempts with non-negative accuracy: attempts is the log length, completed means some attempt completed, and the best is the maximum accuracy |
| LocalProgress.NextRecord | src/lib/local-progress.ts:80-93 | one more attempt than before (1 for a new record), completion sticks, the date is `now`, and the best accuracy is at least the new one and at least a non-zero old one; a null or 0 old best is replaced by the new accuracy |
| LocalProgress.NextRecordEffect | src/lib/local-progress.ts:80-93 | one record adds an attempt, makes completion sticky, and keeps the larger of the old and new accuracy |
| LocalProgress.AsProgressMapAt | src/lib/local-progress.ts:116 | the local table read as a server progress map keeps each record's fields, with attempts never null |
| LocalProgress.CurrentIsSmallestOpen | src/lib/local-progress.ts:114-150 | the current passage is the smallest `n` in 1..20 whose passage is not completed; it is absent exactly when all are completed |
| LocalProgress.PassageProgressIn | src/lib/local-progress.ts:172-193 | a passage with no record reads as not completed, no accuracy and 0 attempts; otherwise its stored fields; always unlocked |
| LocalProgress.LocalProgressStore.GetLocalPassageProgress | src/lib/local-progress.ts:172-193 | an unrecorded passage reads as not completed, no accuracy and 0 attempts; a recorded one gives its stored fields; always unlocked |
| LocalProgress.RecordThenRead | src/lib/local-progress.ts:74-96 | recording a passage raises its attempt count by one, marks it completed when asked, and leaves every other passage as it was |
| LocalProgress.GetLocalNextPassageAfter | src/lib/local-progress.ts:249-263 | corrected lookup: none for an unknown path; otherwise a passage order within 1..20 |
| LocalProgress.NextAfterPassageId | src/lib/local-progress.ts:249-263 | skipping from passage `n` of a known path gives `n + 1`, and none from the last passage |
| LocalProgress.NextAfterOrder | src/lib/local-progress.ts:249-263 | for a known path and a numeric last segment, none when the parsed order is at least 20, otherwise the order plus one |
| LocalProgress.AsWrittenAgreesOffPrototype | src/lib/local-progress.ts:250-262 | the as-written lookup agrees with the corrected one on every path id that is not an inherited member name |
| LocalProgress.PrototypeKeyEscapesGuard | src/lib/local-progress.ts:250-262 | as written, path `"toString"` after `stoics_20` returns 21; corrected, it returns none |
| LocalProgress.LocalProgressStore.constructor | src/lib/local-progress.ts:37-56 | an empty store starts with no records |
| LocalProgress.LocalProgressStore.RecordLocalProgress | src/lib/local-progress.ts:74-96 | the table gets the updated record for this passage, and nothing else changes |
| LocalProgress.LocalProgressStore.GetLocalPathsProgress | src/lib/local-progress.ts:101-167 | one entry per catalogue path, in order, each summarising passages 1..20 of that path |
| LocalProgress.SummarizeLocalPath | src/lib/local-progress.ts:106-163 | the loop's entry has the completed count, percentage, attempts, average and current passage of that path's passages; completed never exceeds total and the percentage is in 0..100 |
| LocalProgress.WalkLocalPath | src/lib/local-progress.ts:114-150 | the loop over passages `1..total` yields the completed count, attempt total, accuracy total and count, and the number of the first uncompleted passage |
| LocalProgress.VisitLocalPassage | src/lib/local-progress.ts:115-149 | given the totals over passages `1..n-1`, one iteration gives the totals over `1..n`: completed count, attempts, accuracy total and count, and the first uncompleted passage |
| LocalProgress.IsUnlocked | src/lib/local-progress.ts:141-148 | a passage is unlocked exactly when it is the first or the previous passage's record is completed |
| LocalProgress.PreviousIsCompleted | src/lib/local-progress.ts:128-148 | at the first uncompleted passage, the previous passage is completed, so the unlock check always succeeds |
| LocalProgress.LocalProgressStore.HasLocalProgress | src/lib/local-progress.ts:198-201 | true exactly when some passage has a record |
| LocalProgress.LocalProgressStore.GetLocalNextUnlockedPassage | src/lib/local-progress.ts:226-244 | none for an unknown path; otherwise the first uncompleted passage, the same as that path's current passage |
| LocalProgress.LocalProgressStore.ClearLocalProgress | src/lib/local-progress.ts:213-221 | the table is emptied |
| SessionTracking.SessionTracker.constructor | src/lib/session-tracking.ts:4-8 | a fresh browser has none of the three keys |
| SessionTracking.SessionTracker.GetPracticeCompletions | src/lib/session-tracking.ts:21-26 | the stored count, or 0 when there is none |
| SessionTracking.SessionTracker.IncrementPracticeCompletions | src/lib/session-tracking.ts:11-19 | returns one more than the current count and stores it; the timestamps are unchanged |
| SessionTracking.SessionTracker.ShouldShowSignupPrompt | src/lib/session-tracking.ts:29-58 | false below 3 completions, within 7 days of a dismissal, or within an hour of the last showing |
| SessionTracking.SessionTracker.MarkSignupPromptShown | src/lib/session-tracking.ts:60-64 | records the time shown, and the prompt is not due at that moment |
| SessionTracking.SessionTracker.MarkSignupPromptDismissed | src/lib/session-tracking.ts:66-70 | records the time dismissed, and the prompt is not due at that moment |
| SessionTracking.SessionTracker.ResetSessionTracking | src/lib/session-tracking.ts:73-79 | removes all three keys, after which the count is 0 and the prompt is never due |
| SessionTracking.ShouldShowIsGate | src/lib/session-tracking.ts:29-58 | the prompt shows exactly when there are at least 3 completions and neither cooldown applies |
| SessionTracking.GateMonotoneInTime | src/lib/session-tracking.ts:42-52 | once due, the prompt stays due as time passes without further writes |
| SessionTracking.ShowCooldownExact | src/lib/session-tracking.ts:48-57 | with enough completions and no dismissal, a prompt shown at `t` is due again exactly from `t` plus one hour |
| SessionTracking.DismissCooldownExact | src/lib/session-tracking.ts:38-45 | for seven days after a dismissal the prompt is never due |
| SessionTracking.ThirdCompletionUnlocks | src/lib/session-tracking.ts:35 | with no cooldown in force, 2 completions are not enough and 3 are |

## Left out

- **Floating point.** Scores are exact reals and `Math.round` is `floor(x + 0.5)`. Binary rounding of `0.8`, `0.2` and the divisions is not modelled.
- Comparison.CalculateFormatAccuracy: lengths and positions count Unicode scalar values, while JavaScript strings count UTF-16 code units. A character outside the Basic Multilingual Plane is one position here and two in the source: `"a😀"` against `"a"` scores 50 here and 33.3 in the source, and two such characters sharing a high surrogate match on one unit in the source and not at all here.
- EditDistance.EditDistanceCache.EditDistance: the same UTF-16 difference applies to raw strings. Normalised words hold only ASCII characters, so the distances between normalised words agree with the source.
- **Default arguments.** `completed = false` in `recordLocalProgress` and `threshold = 0.8` in `wordsAreSimilar` are required parameters here. The model's callers pass the value explicitly.
- **Unicode case mapping.** Lower-casing maps only `A`–`Z`. The `\w` class is ASCII, as in the source's regular expressions. `\s` is the JavaScript whitespace set.
- **Storage and network I/O.** The Supabase queries and `localStorage` reads and writes are not modelled:
  - the database rows, already filtered by user, path and passage id and ordered, are parameters;
  - the stored table and keys are class fields;
  - query errors, thrown exceptions and the `console.error` paths, which return `[]` or `null`, are not modelled.
- **`typeof window === 'undefined'` branches.** The server-side rendering guards are not modelled: storage is always present.
- **Clock input.** `new Date().toISOString()` and `Date.now()` are the parameter `now`.
- **`exportLocalProgress` and `version`.** Export returns the stored data unchanged, and the `version` field has no behaviour.
- **Corrupt storage.** Malformed JSON in storage, and `parseInt` on stored strings that are not decimal integers (NaN, prefix parses), are not modelled. The session counter and timestamps are stored integers.
- LocalProgress.GetLocalNextPassageAfter: requires the last `_` segment of the passage id to be all digits; other ids go through `parseInt`'s prefix parse or NaN, which is not modelled. The practice page passes the database id of the passage (src/app/practice/[passageId]/page.tsx:145), and the seeding script lets the database generate those ids (scripts/seed-content.js:84-90). So when the ids are not of the form `path_n`, the unmodelled path is the usual one, not an edge case.
- **Object.entries ordering.** `getUserPathsProgress` groups into an object and walks it with `Object.entries`, which lists integer-like keys first. The model keeps first-seen order.
- **Prototype-named keys elsewhere.** Path ids named after `Object.prototype` members are not modelled in the grouping or in `getPathMetadata`. Passage ids with such names are not modelled in `recordLocalProgress` or `getLocalPassageProgress` either. For example, `data.passageProgress["constructor"]` is an inherited, truthy function, so `recordLocalProgress` computes `attempts` as NaN (src/lib/local-progress.ts:91). Here a missing key is always absent. Inherited names are modelled only in the finding below.
- Progress.SortByOrderCorrect: the sort is modelled as an insertion sort on values. Its stability, which `Array.prototype.sort` guarantees, is not proved.
- EditDistance.EditDistanceCache.EditDistance: correctness is stated for colon-free words only. Words containing `:` can collide in the cache (`EditDistance.KeyAmbiguous`). Normalised words never contain a colon (`EditDistance.WordsHaveNoColon`).
- **Module-level cache sharing.** The cache is a single module-level `Map` shared by every call. The model passes one cache object explicitly.
- **`wordsAreSimilar` and `editDistance` are not called by `compareText`.** Both are modelled, but `compareText` uses exact positional equality, as the source does.

## Findings

| source | as written | input that shows it | evidently intended | confidence | as-written member | corrected member |
|---|---|---|---|---|---|---|
| src/lib/local-progress.ts:250-262 | `PATH_PASSAGE_COUNTS[pathId]` reads inherited members. For `"toString"` the value is a function, which is truthy. `currentOrder >= totalPassages` then compares against NaN and is false, so the lookup returns `currentOrder + 1`. | `getLocalNextPassageAfter("toString", "stoics_20")` returns 21 | unknown paths, including prototype member names, return null | not executed | LocalProgress.GetLocalNextPassageAfterAsWritten (shown by LocalProgress.PrototypeKeyEscapesGuard) | LocalProgress.GetLocalNextPassageAfter |
