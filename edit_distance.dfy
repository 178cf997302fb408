/**
 * The latent fuzzy matcher of the comparison engine: `editDistance` (a
 * two-row Levenshtein dynamic programme memoised in a map keyed by
 * `${word1}:${word2}`) and `wordsAreSimilar`. Neither is called by
 * `compareText`.
 *
 * The module-level cache becomes the `cache` field of an `EditDistanceCache`
 * object. Its invariant, `Valid`, says that every entry whose key comes from
 * two words free of `:` holds their true distance. Keys of words containing
 * `:` are ambiguous (`KeyAmbiguous`), and for those the cache can answer
 * wrongly.
 */
module EditDistance {
  import opened JsMath
  import Chars
  import Normalize

  function Min3(a: nat, b: nat, c: nat): (r: nat)
    ensures r <= a && r <= b && r <= c && (r == a || r == b || r == c)
  {
    if a <= b && a <= c then a else if b <= c then b else c
  }

  /**
   * The Levenshtein distance: the least number of single-character deletions,
   * insertions and substitutions that turn `a` into `b`, by the textbook
   * recurrence on prefixes.
   */
  function Lev(a: string, b: string): (d: nat)
    ensures d <= Max(|a|, |b|)
    ensures |a| - |b| <= d && |b| - |a| <= d
    decreases |a| + |b|
  {
    if |a| == 0 then |b|
    else if |b| == 0 then |a|
    else
      Min3(Lev(a[..|a| - 1], b) + 1,
           Lev(a, b[..|b| - 1]) + 1,
           Lev(a[..|a| - 1], b[..|b| - 1]) + (if a[|a| - 1] == b[|b| - 1] then 0 else 1))
  }

  /** The distance does not depend on the order of the two words. */
  lemma {:induction false} LevSymmetric(a: string, b: string)
    ensures Lev(a, b) == Lev(b, a)
    decreases |a| + |b|
  {
    if |a| > 0 && |b| > 0 {
      LevSymmetric(a[..|a| - 1], b);
      LevSymmetric(a, b[..|b| - 1]);
      LevSymmetric(a[..|a| - 1], b[..|b| - 1]);
    }
  }

  /** Removing the last character of `b` lowers the distance by at most one. */
  lemma {:induction false} LevDropLastOfSecond(a: string, b: string)
    requires |b| > 0
    ensures Lev(a, b[..|b| - 1]) <= Lev(a, b) + 1
    decreases |a|
  {
    if |a| > 0 {
      var a', b' := a[..|a| - 1], b[..|b| - 1];
      LevDropLastOfSecond(a', b);
      // appending a character to `a` raises the distance by at most one
      assert Lev(a, b') <= Lev(a', b') + 1;
    }
  }

  /** Removing the last character of `a` lowers the distance by at most one. */
  lemma LevDropLastOfFirst(a: string, b: string)
    requires |a| > 0
    ensures Lev(a[..|a| - 1], b) <= Lev(a, b) + 1
  {
    LevSymmetric(a, b);
    LevSymmetric(a[..|a| - 1], b);
    LevDropLastOfSecond(b, a);
  }

  /** Equal last characters cost nothing: the step `editDistance` takes without a `Math.min`. */
  lemma LevEqualLast(a: string, b: string)
    requires |a| > 0 && |b| > 0 && a[|a| - 1] == b[|b| - 1]
    ensures Lev(a, b) == Lev(a[..|a| - 1], b[..|b| - 1])
  {
    LevDropLastOfSecond(a[..|a| - 1], b);
    LevDropLastOfFirst(a, b[..|b| - 1]);
  }

  /** The table entry of the dynamic programme: the distance between the first `i` characters of `word1` and the first `j` of `word2`. */
  function Cell(word1: string, word2: string, i: nat, j: nat): nat
    requires i <= |word1| && j <= |word2|
  {
    Lev(word1[..i], word2[..j])
  }

  /** The first row and the first column of the table. */
  lemma CellBorders(word1: string, word2: string, i: nat, j: nat)
    requires i <= |word1| && j <= |word2|
    ensures Cell(word1, word2, 0, j) == j && Cell(word1, word2, i, 0) == i
  {
  }

  /** One inner cell of the table, from the three cells before it. */
  lemma CellStep(word1: string, word2: string, i: nat, j: nat)
    requires 1 <= i <= |word1| && 1 <= j <= |word2|
    ensures Cell(word1, word2, i, j) ==
      if word1[i - 1] == word2[j - 1] then Cell(word1, word2, i - 1, j - 1)
      else Min3(Cell(word1, word2, i - 1, j) + 1, Cell(word1, word2, i, j - 1) + 1,
                Cell(word1, word2, i - 1, j - 1) + 1)
  {
    var a, b := word1[..i], word2[..j];
    assert a[..i - 1] == word1[..i - 1] && b[..j - 1] == word2[..j - 1];
    if word1[i - 1] == word2[j - 1] {
      LevEqualLast(a, b);
    }
  }

  /** The last cell of the table is the distance between the whole words. */
  lemma CellLast(word1: string, word2: string)
    ensures Cell(word1, word2, |word1|, |word2|) == Lev(word1, word2)
  {
    assert word1[..|word1|] == word1 && word2[..|word2|] == word2;
  }

  /**
   * The dynamic programme of `editDistance` (without its cache): `prevRow`
   * holds row `i - 1` of the table, `currRow` is filled with row `i` from it,
   * and the two arrays are swapped after each row.
   */
  method TwoRowDistance(word1: string, word2: string) returns (d: nat)
    ensures d == Lev(word1, word2)
  {
    var len1, len2 := |word1|, |word2|;
    var prevRow := new nat[len2 + 1](j => j);
    var currRow := new nat[len2 + 1];
    forall j | 0 <= j <= len2 ensures prevRow[j] == Cell(word1, word2, 0, j) {
      CellBorders(word1, word2, 0, j);
    }
    var i := 1;
    while i <= len1
      invariant 1 <= i <= len1 + 1
      invariant prevRow.Length == len2 + 1 && currRow.Length == len2 + 1 && prevRow != currRow
      invariant fresh(prevRow) && fresh(currRow)
      invariant forall j :: 0 <= j <= len2 ==> prevRow[j] == Cell(word1, word2, i - 1, j)
    {
      CellBorders(word1, word2, i, 0);
      currRow[0] := i;
      var j := 1;
      while j <= len2
        invariant 1 <= j <= len2 + 1
        invariant forall k :: 0 <= k < j ==> currRow[k] == Cell(word1, word2, i, k)
        invariant forall k :: 0 <= k <= len2 ==> prevRow[k] == Cell(word1, word2, i - 1, k)
      {
        CellStep(word1, word2, i, j);
        if word1[i - 1] == word2[j - 1] {
          currRow[j] := prevRow[j - 1];
        } else {
          currRow[j] := Min3(prevRow[j] + 1, currRow[j - 1] + 1, prevRow[j - 1] + 1);
        }
        j := j + 1;
      }
      prevRow, currRow := currRow, prevRow;
      i := i + 1;
    }
    CellLast(word1, word2);
    d := prevRow[len2];
  }

  /* ------------------------------------------------------------ the cache */

  predicate NoColon(w: string) {
    forall i :: 0 <= i < |w| ==> w[i] != ':'
  }

  /** The cache key `${word1}:${word2}`. */
  function Key(word1: string, word2: string): string
  {
    word1 + ":" + word2
  }

  /** Words free of `:` are recovered from their key. */
  lemma KeyInjective(a: string, b: string, c: string, d: string)
    requires NoColon(a) && NoColon(b) && Key(a, b) == Key(c, d)
    ensures a == c && b == d
  {
    var k := Key(a, b);
    assert forall i :: 0 <= i < |a| ==> k[i] == a[i];
    assert forall i :: |a| < i < |k| ==> k[i] == b[i - |a| - 1];
    // the only `:` in the key is the separator, so both keys put it at the same place
    assert k[|c|] == ':';
    assert |c| == |a|;
    assert a == k[..|a|] == c;
    assert b == k[|a| + 1..] == d;
  }

  /** Normalised words never contain `:`, so the cache is exact for every pair of them. */
  lemma WordsHaveNoColon(text: string)
    ensures forall w :: w in Normalize.SplitIntoWords(text) ==> NoColon(w)
  {
    Normalize.WordsWellFormed(text);
    forall w | w in Normalize.SplitIntoWords(text) ensures NoColon(w) {
      assert forall i :: 0 <= i < |w| ==> Chars.IsNormalizedChar(w[i]);
    }
  }

  /** Against the empty word the distance is the other word's length. */
  lemma LevToEmpty(word: string)
    ensures Lev(word, "") == |word| && Lev("", word) == |word|
  {
  }

  /** With a `:` inside a word, two different pairs share a key but not a distance. */
  lemma KeyAmbiguous()
    ensures Key("a", ":") == Key("a:", "")
    ensures Lev("a", ":") == 1 && Lev("a:", "") == 2
  {
    assert Lev("a", "") == 1;
    assert "a"[..0] == "" && ":"[..0] == "";
    assert Lev("", ":") == 1;
    assert Lev("", "") == 0;
  }

  /** `wordsAreSimilar`'s test, on exact rationals: similarity `1 - distance / maxLength` reaches the threshold. */
  predicate Similar(word1: string, word2: string, threshold: real)
  {
    if word1 == word2 then true
    else
      var maxLength := Max(|word1|, |word2|);
      maxLength > 0 && 1.0 - Lev(word1, word2) as real / maxLength as real >= threshold
  }

  /** Similarity does not depend on the order of the two words. */
  lemma SimilarSymmetric(word1: string, word2: string, threshold: real)
    ensures Similar(word1, word2, threshold) == Similar(word2, word1, threshold)
  {
    LevSymmetric(word1, word2);
  }

  /** For a positive threshold, no non-empty word is similar to the empty word. */
  lemma NothingSimilarToEmpty(word: string, threshold: real)
    requires word != [] && threshold > 0.0
    ensures !Similar(word, "", threshold)
  {
    var maxLength := |word| as real;
    assert Lev(word, "") as real == maxLength;
    QuotientIs(maxLength, maxLength, 1.0);
  }

  /** The memo of `editDistance`, as an object instead of a module-level `Map`. */
  class EditDistanceCache {
    var cache: map<string, nat>

    /** Every entry keyed by two words free of `:` holds their Levenshtein distance. */
    ghost predicate Valid()
      reads this
    {
      forall a, b :: Key(a, b) in cache && NoColon(a) && NoColon(b) ==> cache[Key(a, b)] == Lev(a, b)
    }

    constructor ()
      ensures Valid() && cache == map[]
    {
      cache := map[];
    }

    /**
     * `editDistance(word1, word2)`: answers from the cache when the key is
     * there; otherwise computes (recursing once with the words swapped when
     * the first is longer), stores the result under the key and returns it.
     * Entries already present never change.
     */
    method EditDistance(word1: string, word2: string) returns (d: nat)
      requires Valid()
      modifies this
      ensures Valid()
      ensures NoColon(word1) && NoColon(word2) ==> d == Lev(word1, word2)
      ensures Key(word1, word2) in cache && cache[Key(word1, word2)] == d
      ensures forall k :: k in old(cache) ==> k in cache && cache[k] == old(cache)[k]
      ensures cache.Keys <= old(cache).Keys + {Key(word1, word2), Key(word2, word1)}
      decreases if |word1| > |word2| then 1 else 0
    {
      var cacheKey := Key(word1, word2);
      if cacheKey in cache {
        d := cache[cacheKey];
        return;
      }
      if |word1| > |word2| {
        d := EditDistance(word2, word1);
        LevSymmetric(word1, word2);
        Store(cacheKey, word1, word2, d);
        return;
      }
      if |word1| == 0 {
        d := |word2|;
      } else {
        d := TwoRowDistance(word1, word2);
      }
      Store(cacheKey, word1, word2, d);
    }

    /** `editDistanceCache.set(cacheKey, d)`. */
    method Store(cacheKey: string, word1: string, word2: string, d: nat)
      requires Valid() && cacheKey == Key(word1, word2)
      requires NoColon(word1) && NoColon(word2) ==> d == Lev(word1, word2)
      modifies this
      ensures Valid() && cache == old(cache)[cacheKey := d]
    {
      cache := cache[cacheKey := d];
      forall a, b | Key(a, b) in cache && NoColon(a) && NoColon(b)
        ensures cache[Key(a, b)] == Lev(a, b)
      {
        if Key(a, b) == cacheKey {
          KeyInjective(a, b, word1, word2);
        }
      }
    }

    /**
     * `wordsAreSimilar(word1, word2, threshold)`: equal words are similar;
     * otherwise the (cached) distance decides.
     */
    method WordsAreSimilar(word1: string, word2: string, threshold: real) returns (similar: bool)
      requires Valid()
      modifies this
      ensures Valid()
      ensures NoColon(word1) && NoColon(word2) ==> similar == Similar(word1, word2, threshold)
      ensures forall k :: k in old(cache) ==> k in cache && cache[k] == old(cache)[k]
    {
      if word1 == word2 {
        return true;
      }
      var maxLength := Max(|word1|, |word2|);
      if maxLength == 0 {
        return true;
      }
      var distance := EditDistance(word1, word2);
      similar := 1.0 - distance as real / maxLength as real >= threshold;
    }
  }
}
