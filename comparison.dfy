/**
 * `compareText` and its helpers: positional word scoring, the missing and
 * incorrect word lists, the character-positional format score, the 80/20
 * rounded combination, and the two accuracy-to-text lookups.
 *
 * Scores are exact rationals (`real`), and `Math.round` is `JsMath.Round`.
 */
module Comparison {
  import opened JsMath
  import opened Normalize
  import opened Tokens

  datatype WordComparison = WordComparison(original: string, attempt: string, isCorrect: bool, index: nat)

  datatype ComparisonResult = ComparisonResult(
    accuracy: int,
    wordComparisons: seq<WordComparison>,
    totalWords: nat,
    correctWords: nat,
    missingWords: seq<string>,
    incorrectWords: seq<string>,
    originalTokens: seq<string>,
    attemptTokens: seq<string>)

  /* ------------------------------------------------- specification functions */

  /** `words[i] || ''`: the word at position `i`, or the empty word past the end. */
  function WordAt(words: seq<string>, i: nat): string
  {
    if i < |words| then words[i] else ""
  }

  /** The words of `xs`, in order and with repetitions, that do not occur in `ys`. */
  function Without(xs: seq<string>, ys: seq<string>): seq<string>
  {
    if xs == [] then []
    else Without(xs[..|xs| - 1], ys) + (if xs[|xs| - 1] in ys then [] else [xs[|xs| - 1]])
  }

  /** How many of the first `n` positions hold the same (padded) word in both lists. */
  function PositionalMatches(originalWords: seq<string>, attemptWords: seq<string>, n: nat): nat
  {
    if n == 0 then 0
    else
      PositionalMatches(originalWords, attemptWords, n - 1)
        + (if WordAt(originalWords, n - 1) == WordAt(attemptWords, n - 1) then 1 else 0)
  }

  /** How many of the first `n` positions hold the same character in both strings. */
  function CharMatches(original: string, attempt: string, n: nat): nat
    requires n <= |original| && n <= |attempt|
  {
    if n == 0 then 0
    else CharMatches(original, attempt, n - 1) + (if original[n - 1] == attempt[n - 1] then 1 else 0)
  }

  /** The format score: equal characters at equal positions over the longer length, in percent; 100 for two empty strings. */
  function FormatScore(original: string, attempt: string): real
  {
    var maxLength := Max(|original|, |attempt|);
    if maxLength == 0 then 100.0
    else 100.0 * CharMatches(original, attempt, Min(|original|, |attempt|)) as real / maxLength as real
  }

  /** The content score: positional matches over the original's word count, in percent; 0 when it has no words. */
  function ContentScore(correctWords: nat, totalWords: nat): real
  {
    if totalWords > 0 then correctWords as real / totalWords as real * 100.0 else 0.0
  }

  const ContentWeight: real := 0.8
  const FormatWeight: real := 0.2

  /** `Math.round(content * 0.8 + format * 0.2)`. */
  function Combined(content: real, format: real): int
  {
    Round(content * ContentWeight + format * FormatWeight)
  }

  /** The score of the word-by-word path, given the two texts and their word lists. */
  function WordPathScore(originalWords: seq<string>, attemptWords: seq<string>,
                         originalText: string, userAttempt: string): int
  {
    Combined(ContentScore(PositionalMatches(originalWords, attemptWords, |originalWords|), |originalWords|),
             FormatScore(originalText, userAttempt))
  }

  /** The accuracy `compareText` reports for a pair of texts. */
  function Accuracy(originalText: string, userAttempt: string): int
  {
    if originalText == userAttempt then 100
    else WordPathScore(SplitIntoWords(originalText), SplitIntoWords(userAttempt), originalText, userAttempt)
  }

  /* ----------------------------------------------------------------- methods */

  /**
   * `calculateFormatAccuracy`: counts the positions below the shorter length
   * where the characters agree, and divides by the longer length.
   */
  method CalculateFormatAccuracy(original: string, attempt: string) returns (accuracy: real)
    ensures accuracy == FormatScore(original, attempt)
    ensures 0.0 <= accuracy <= 100.0
    ensures accuracy == 100.0 <==> original == attempt
    ensures (original == []) != (attempt == []) ==> accuracy == 0.0
  {
    FormatScoreBounds(original, attempt);
    var maxLength := Max(|original|, |attempt|);
    if maxLength == 0 {
      return 100.0;
    }
    var matches := 0;
    var minLength := Min(|original|, |attempt|);
    for i := 0 to minLength
      invariant matches == CharMatches(original, attempt, i)
    {
      if original[i] == attempt[i] {
        matches := matches + 1;
      }
    }
    accuracy := 100.0 * matches as real / maxLength as real;
    if accuracy < 0.0 {
      accuracy := 0.0;
    }
  }

  /**
   * `compareText(originalText, userAttempt)`. Identical texts return at once
   * with full marks and one comparison per display token; otherwise the word
   * lists are compared position by position and as filtered lists, and the
   * accuracy combines the content and format scores.
   */
  method CompareText(originalText: string, userAttempt: string) returns (result: ComparisonResult)
    ensures result.originalTokens == SplitIntoTokens(originalText)
    ensures result.attemptTokens == SplitIntoTokens(userAttempt)
    ensures result.totalWords == |SplitIntoWords(originalText)|
    ensures result.correctWords <= result.totalWords
    ensures 0 <= result.accuracy <= 100 && result.accuracy == Accuracy(originalText, userAttempt)
    // the early return for identical texts
    ensures originalText == userAttempt ==>
      && result.accuracy == 100
      && result.correctWords == result.totalWords
      && result.missingWords == [] && result.incorrectWords == []
      && |result.wordComparisons| == |result.originalTokens|
      && forall k :: 0 <= k < |result.wordComparisons| ==>
           result.wordComparisons[k] == WordComparison(result.originalTokens[k], result.originalTokens[k], true, k)
    // the word-by-word path
    ensures originalText != userAttempt ==>
      var originalWords := SplitIntoWords(originalText);
      var attemptWords := SplitIntoWords(userAttempt);
      && result.correctWords == PositionalMatches(originalWords, attemptWords, |originalWords|)
      && result.missingWords == Without(originalWords, attemptWords)
      && result.incorrectWords == Without(attemptWords, originalWords)
      && |result.wordComparisons| == Max(|originalWords|, |attemptWords|)
      && forall k :: 0 <= k < |result.wordComparisons| ==>
           var c := result.wordComparisons[k];
           && c.index == k
           && c.original == WordAt(originalWords, k)
           && c.attempt == WordAt(attemptWords, k)
           && (c.isCorrect <==> WordAt(originalWords, k) == WordAt(attemptWords, k))
  {
    var originalTokens := SplitIntoTokens(originalText);
    var attemptTokens := SplitIntoTokens(userAttempt);
    var originalWords := SplitIntoWords(originalText);
    var attemptWords := SplitIntoWords(userAttempt);
    AccuracyBounds(originalText, userAttempt);

    if originalText == userAttempt {
      var comparisons := seq(|originalTokens|, k requires 0 <= k < |originalTokens| =>
        WordComparison(originalTokens[k], originalTokens[k], true, k));
      return ComparisonResult(100, comparisons, |originalWords|, |originalWords|, [], [],
                              originalTokens, attemptTokens);
    }

    result := CompareWords(originalText, userAttempt, originalWords, attemptWords, originalTokens, attemptTokens);
  }

  /**
   * The word-by-word path of `compareText`, on the two texts, their word
   * lists and their display tokens.
   */
  method CompareWords(originalText: string, userAttempt: string, originalWords: seq<string>, attemptWords: seq<string>,
                      originalTokens: seq<string>, attemptTokens: seq<string>) returns (result: ComparisonResult)
    ensures result.originalTokens == originalTokens && result.attemptTokens == attemptTokens
    ensures result.totalWords == |originalWords|
    ensures result.correctWords == PositionalMatches(originalWords, attemptWords, |originalWords|) <= result.totalWords
    ensures result.accuracy == WordPathScore(originalWords, attemptWords, originalText, userAttempt)
    ensures result.missingWords == Without(originalWords, attemptWords)
    ensures result.incorrectWords == Without(attemptWords, originalWords)
    ensures |result.wordComparisons| == Max(|originalWords|, |attemptWords|)
    ensures forall k :: 0 <= k < |result.wordComparisons| ==>
      var c := result.wordComparisons[k];
      && c.index == k
      && c.original == WordAt(originalWords, k)
      && c.attempt == WordAt(attemptWords, k)
      && (c.isCorrect <==> WordAt(originalWords, k) == WordAt(attemptWords, k))
  {
    var missingWords := KeepAbsent(originalWords, attemptWords);
    var incorrectWords := KeepAbsent(attemptWords, originalWords);
    var totalWords := |originalWords|;
    var correctWords := CountPositionalMatches(originalWords, attemptWords);
    var wordComparisons := PairWords(originalWords, attemptWords);

    var contentAccuracy := if totalWords > 0 then correctWords as real / totalWords as real * 100.0 else 0.0;
    var formatAccuracy := CalculateFormatAccuracy(originalText, userAttempt);
    var finalAccuracy := Round(contentAccuracy * ContentWeight + formatAccuracy * FormatWeight);

    PositionalMatchesBound(originalWords, attemptWords, totalWords);
    result := ComparisonResult(finalAccuracy, wordComparisons, totalWords, correctWords,
                               missingWords, incorrectWords, originalTokens, attemptTokens);
  }

  /**
   * The loops building `missingWords` and `incorrectWords`: keeps, in order,
   * each word of `words` that is not in the set of `others`.
   */
  method KeepAbsent(words: seq<string>, others: seq<string>) returns (kept: seq<string>)
    ensures kept == Without(words, others)
  {
    kept := [];
    var otherSet := set w | w in others;
    for i := 0 to |words|
      invariant kept == Without(words[..i], others)
    {
      assert words[..i + 1][..i] == words[..i];
      if words[i] !in otherSet {
        kept := kept + [words[i]];
      }
    }
    assert words[..|words|] == words;
  }

  /** The loop counting `correctWords`: positions where the padded words agree. */
  method CountPositionalMatches(originalWords: seq<string>, attemptWords: seq<string>) returns (correctWords: nat)
    ensures correctWords == PositionalMatches(originalWords, attemptWords, |originalWords|)
  {
    correctWords := 0;
    for i := 0 to |originalWords|
      invariant correctWords == PositionalMatches(originalWords, attemptWords, i)
    {
      var originalWord := WordAt(originalWords, i);
      var attemptWord := WordAt(attemptWords, i);
      if originalWord == attemptWord {
        correctWords := correctWords + 1;
      }
    }
  }

  /** The loop building `wordComparisons`: one entry per position of the longer list. */
  method PairWords(originalWords: seq<string>, attemptWords: seq<string>) returns (wordComparisons: seq<WordComparison>)
    ensures |wordComparisons| == Max(|originalWords|, |attemptWords|)
    ensures forall k :: 0 <= k < |wordComparisons| ==>
      wordComparisons[k] == WordComparison(WordAt(originalWords, k), WordAt(attemptWords, k),
                                           WordAt(originalWords, k) == WordAt(attemptWords, k), k)
  {
    wordComparisons := [];
    var maxWords := Max(|originalWords|, |attemptWords|);
    for i := 0 to maxWords
      invariant |wordComparisons| == i
      invariant forall k :: 0 <= k < i ==>
        wordComparisons[k] == WordComparison(WordAt(originalWords, k), WordAt(attemptWords, k),
                                             WordAt(originalWords, k) == WordAt(attemptWords, k), k)
    {
      var originalWord := WordAt(originalWords, i);
      var attemptWord := WordAt(attemptWords, i);
      var isCorrect := originalWord == attemptWord;
      wordComparisons := wordComparisons + [WordComparison(originalWord, attemptWord, isCorrect, i)];
    }
  }

  /* ----------------------------------------------------------- text lookups */

  /** `getAccuracyDescription`. */
  function GetAccuracyDescription(accuracy: int): (description: string)
    ensures description in {"Excellent", "Very Good", "Good", "Fair", "Needs Improvement", "Keep Practicing"}
  {
    if accuracy >= 95 then "Excellent"
    else if accuracy >= 90 then "Very Good"
    else if accuracy >= 80 then "Good"
    else if accuracy >= 70 then "Fair"
    else if accuracy >= 60 then "Needs Improvement"
    else "Keep Practicing"
  }

  /** `getEncouragementMessage`. */
  function GetEncouragementMessage(accuracy: int): (message: string)
    ensures message == "Great job! You've mastered this passage." <==> accuracy >= 80
    ensures message == "Keep practicing! Memory training takes time and repetition." <==> accuracy < 60
  {
    if accuracy >= 80 then "Great job! You've mastered this passage."
    else if accuracy >= 60 then "Good effort! With a bit more practice, you'll have it memorized."
    else "Keep practicing! Memory training takes time and repetition."
  }

  /** The place of a description on the scale, from "Keep Practicing" (0) to "Excellent" (5). */
  function DescriptionRank(description: string): nat
  {
    if description == "Excellent" then 5
    else if description == "Very Good" then 4
    else if description == "Good" then 3
    else if description == "Fair" then 2
    else if description == "Needs Improvement" then 1
    else 0
  }

  /* ------------------------------------------------------------------ lemmas */

  /** A word is kept exactly when it occurs in the first list and not in the second. */
  lemma {:induction false} WithoutMembership(xs: seq<string>, ys: seq<string>, x: string)
    ensures x in Without(xs, ys) <==> x in xs && x !in ys
  {
    if xs != [] {
      var init := xs[..|xs| - 1];
      WithoutMembership(init, ys, x);
      assert xs == init + [xs[|xs| - 1]];
    }
  }

  /** Each kept word keeps every one of its occurrences: duplicates are not merged. */
  lemma {:induction false} WithoutMultiplicity(xs: seq<string>, ys: seq<string>, x: string)
    ensures multiset(Without(xs, ys))[x] == if x in ys then 0 else multiset(xs)[x]
  {
    if xs != [] {
      var init, last := xs[..|xs| - 1], xs[|xs| - 1];
      WithoutMultiplicity(init, ys, x);
      WithoutLast(xs, ys);
      assert xs == init + [last];
      assert multiset(xs)[x] == multiset(init)[x] + multiset{last}[x];
    }
  }

  /** One step of `Without` on multisets: the last word is added unless it is excluded. */
  lemma WithoutLast(xs: seq<string>, ys: seq<string>)
    requires xs != []
    ensures multiset(Without(xs, ys)) ==
      multiset(Without(xs[..|xs| - 1], ys)) + if xs[|xs| - 1] in ys then multiset{} else multiset{xs[|xs| - 1]}
  {
  }

  /** The kept words are never more than the words given. */
  lemma {:induction false} WithoutLength(xs: seq<string>, ys: seq<string>)
    ensures |Without(xs, ys)| <= |xs|
  {
    if xs != [] {
      WithoutLength(xs[..|xs| - 1], ys);
    }
  }

  /** Nothing is missing from a list compared with itself. */
  lemma WithoutSelf(xs: seq<string>)
    ensures Without(xs, xs) == []
  {
    if Without(xs, xs) != [] {
      WithoutMembership(xs, xs, Without(xs, xs)[0]);
    }
  }

  lemma {:induction false} PositionalMatchesBound(originalWords: seq<string>, attemptWords: seq<string>, n: nat)
    ensures PositionalMatches(originalWords, attemptWords, n) <= n
  {
    if n > 0 {
      PositionalMatchesBound(originalWords, attemptWords, n - 1);
    }
  }

  /** Equal word lists match at every position. */
  lemma {:induction false} PositionalMatchesSame(words: seq<string>, n: nat)
    ensures PositionalMatches(words, words, n) == n
  {
    if n > 0 {
      PositionalMatchesSame(words, n - 1);
    }
  }

  /**
   * An attempt that begins `k` words late matches nowhere unless the original
   * repeats a word `k` positions later: the positional scoring is not an
   * alignment.
   */
  lemma {:induction false} PositionalMatchesShifted(words: seq<string>, k: nat, n: nat)
    requires 0 < k && n <= |words|
    requires forall i :: 0 <= i && i + k < |words| ==> words[i] != words[i + k]
    requires forall i :: 0 <= i < |words| ==> words[i] != ""
    ensures PositionalMatches(words, if k <= |words| then words[k..] else [], n) == 0
  {
    if n > 0 {
      PositionalMatchesShifted(words, k, n - 1);
      var rest := if k <= |words| then words[k..] else [];
      if n - 1 < |rest| {
        assert WordAt(rest, n - 1) == words[n - 1 + k];
      }
    }
  }

  lemma {:induction false} CharMatchesBound(original: string, attempt: string, n: nat)
    requires n <= |original| && n <= |attempt|
    ensures CharMatches(original, attempt, n) <= n
    ensures CharMatches(original, attempt, n) == n <==> original[..n] == attempt[..n]
  {
    if n > 0 {
      CharMatchesBound(original, attempt, n - 1);
      assert original[..n] == original[..n - 1] + [original[n - 1]];
      assert attempt[..n] == attempt[..n - 1] + [attempt[n - 1]];
      if original[..n] == attempt[..n] {
        assert original[..n][..n - 1] == original[..n - 1];
        assert attempt[..n][..n - 1] == attempt[..n - 1];
      }
    }
  }

  /** The format score lies in 0..100, is 100 exactly for equal strings, and 0 when exactly one is empty. */
  lemma FormatScoreBounds(original: string, attempt: string)
    ensures 0.0 <= FormatScore(original, attempt) <= 100.0
    ensures FormatScore(original, attempt) == 100.0 <==> original == attempt
    ensures (original == []) != (attempt == []) ==> FormatScore(original, attempt) == 0.0
  {
    var maxLength := Max(|original|, |attempt|);
    var minLength := Min(|original|, |attempt|);
    if maxLength > 0 {
      var matches := CharMatches(original, attempt, minLength);
      CharMatchesBound(original, attempt, minLength);
      var t := 100.0 * matches as real;
      assert FormatScore(original, attempt) == t / maxLength as real;
      QuotientBetween(t, maxLength as real, 0.0, 100.0);
      QuotientIs(t, maxLength as real, 100.0);
      QuotientIs(t, maxLength as real, 0.0);
      if matches == maxLength {
        assert |original| == |attempt|;
        assert original == original[..minLength] && attempt == attempt[..minLength];
      }
      if original == attempt {
        assert original[..minLength] == attempt[..minLength];
      }
    }
  }

  lemma ContentScoreBounds(correctWords: nat, totalWords: nat)
    requires correctWords <= totalWords
    ensures 0.0 <= ContentScore(correctWords, totalWords) <= 100.0
    ensures ContentScore(correctWords, totalWords) == 100.0 <==> 0 < totalWords == correctWords
  {
    if totalWords > 0 {
      QuotientBetween(correctWords as real, totalWords as real, 0.0, 1.0);
      QuotientIs(correctWords as real, totalWords as real, 1.0);
    }
  }

  /** The combined score of two percentages is an integer percentage. */
  lemma CombinedBounds(content: real, format: real)
    requires 0.0 <= content <= 100.0 && 0.0 <= format <= 100.0
    ensures 0 <= Combined(content, format) <= 100
  {
    RoundBetween(content * ContentWeight + format * FormatWeight, 0, 100);
  }

  /** Every accuracy `compareText` reports is an integer in 0..100. */
  lemma AccuracyBounds(originalText: string, userAttempt: string)
    ensures 0 <= Accuracy(originalText, userAttempt) <= 100
  {
    if originalText != userAttempt {
      var originalWords := SplitIntoWords(originalText);
      var attemptWords := SplitIntoWords(userAttempt);
      var correct := PositionalMatches(originalWords, attemptWords, |originalWords|);
      PositionalMatchesBound(originalWords, attemptWords, |originalWords|);
      ContentScoreBounds(correct, |originalWords|);
      FormatScoreBounds(originalText, userAttempt);
      CombinedBounds(ContentScore(correct, |originalWords|), FormatScore(originalText, userAttempt));
    }
  }

  /**
   * Texts that differ only in case, punctuation or spacing have the same
   * words; if there are any, the content score is full and the accuracy
   * reaches the 80 that counts as mastered.
   */
  lemma SameWordsPass(originalText: string, userAttempt: string)
    requires SplitIntoWords(originalText) == SplitIntoWords(userAttempt) != []
    ensures Accuracy(originalText, userAttempt) >= 80
    ensures GetEncouragementMessage(Accuracy(originalText, userAttempt)) == "Great job! You've mastered this passage."
  {
    if originalText != userAttempt {
      WordPathSameWords(SplitIntoWords(originalText), originalText, userAttempt);
    }
  }

  /** Equal non-empty word lists score at least 80 whatever the format score. */
  lemma WordPathSameWords(words: seq<string>, originalText: string, userAttempt: string)
    requires words != []
    ensures WordPathScore(words, words, originalText, userAttempt) >= 80
  {
    PositionalMatchesSame(words, |words|);
    ContentScoreFull(|words|);
    FormatScoreBounds(originalText, userAttempt);
    var x := 100.0 * ContentWeight + FormatScore(originalText, userAttempt) * FormatWeight;
    RoundBetween(x, 80, 100);
  }

  lemma ContentScoreFull(n: nat)
    requires n > 0
    ensures ContentScore(n, n) == 100.0
  {
    QuotientIs(n as real, n as real, 1.0);
  }

  /** An empty attempt at a text with words scores nothing. */
  lemma EmptyAttemptScoresZero(originalText: string)
    requires SplitIntoWords(originalText) != []
    ensures Accuracy(originalText, "") == 0
  {
    var words := SplitIntoWords(originalText);
    EmptyTextNoWords();
    WordsWellFormed(originalText);
    WordPathEmptyAttempt(words, originalText);
  }

  /** The empty text has no words. */
  lemma EmptyTextNoWords()
    ensures SplitIntoWords("") == []
  {
    assert NormalizeText("") == [];
  }

  /** Against an empty attempt, words that are all non-empty score 0 on content and on format. */
  lemma WordPathEmptyAttempt(words: seq<string>, originalText: string)
    requires words != [] && originalText != []
    requires forall w :: w in words ==> w != []
    ensures WordPathScore(words, [], originalText, "") == 0
  {
    EmptyAttemptNoMatches(words, |words|);
    FormatScoreBounds(originalText, "");
    RoundOfInt(0);
  }

  lemma {:induction false} EmptyAttemptNoMatches(words: seq<string>, n: nat)
    requires n <= |words| && forall w :: w in words ==> w != []
    ensures PositionalMatches(words, [], n) == 0
  {
    if n > 0 {
      EmptyAttemptNoMatches(words, n - 1);
      assert words[n - 1] in words;
    }
  }

  /**
   * A text with no words at all (only punctuation, say) scores 100 against
   * itself but at most 20 against anything else: only the format score counts.
   */
  lemma NoWordsAtMostFormat(originalText: string, userAttempt: string)
    requires SplitIntoWords(originalText) == [] && originalText != userAttempt
    ensures Accuracy(originalText, userAttempt) <= 20
  {
    FormatScoreBounds(originalText, userAttempt);
    RoundBetween(FormatScore(originalText, userAttempt) * FormatWeight, 0, 20);
  }

  /** Dropping the first two words of the Declaration's sentence leaves no word in place. */
  lemma DroppedOpeningScoresNoContent()
    ensures
      var original := ["we", "hold", "these", "truths", "to", "be", "selfevident",
                       "that", "all", "men", "are", "created", "equal"];
      |original| == 13 && PositionalMatches(original, original[2..], |original|) == 0
  {
    var original := ["we", "hold", "these", "truths", "to", "be", "selfevident",
                     "that", "all", "men", "are", "created", "equal"];
    PositionalMatchesShifted(original, 2, |original|);
  }

  /** A higher accuracy never gets a lower description. */
  lemma DescriptionMonotonic(a: int, b: int)
    requires a <= b
    ensures DescriptionRank(GetAccuracyDescription(a)) <= DescriptionRank(GetAccuracyDescription(b))
  {
  }

  /** The encouragement says "mastered" exactly when the description is "Good" or better. */
  lemma EncouragementAgreesWithDescription(accuracy: int)
    ensures GetEncouragementMessage(accuracy) == "Great job! You've mastered this passage."
        <==> DescriptionRank(GetAccuracyDescription(accuracy)) >= 3
    ensures GetEncouragementMessage(accuracy) == "Keep practicing! Memory training takes time and repetition."
        <==> DescriptionRank(GetAccuracyDescription(accuracy)) == 0
  {
    if accuracy >= 80 {
      assert DescriptionRank(GetAccuracyDescription(accuracy)) >= 3;
    } else if accuracy >= 60 {
      assert DescriptionRank(GetAccuracyDescription(accuracy)) in {1, 2};
    } else {
      assert GetAccuracyDescription(accuracy) == "Keep Practicing";
    }
  }
}
