/**
 * `normalizeText` and `splitIntoWords` of the comparison engine: the word list
 * that scoring compares.
 *
 * `normalizeText` is a chain of five string rewrites, each a function here:
 * lower-case, trim, collapse white-space runs to one space, delete every
 * character outside `[\w\s']`, and delete every apostrophe that does not sit
 * between two lower-case letters. Because deletion happens after trimming and
 * collapsing, the result is not idempotent ("a . b" gives "a  b"); what is
 * stable is the word list, proved in `WordsStable`.
 */
module Normalize {
  import opened Chars

  /* ---------------------------------------------------------------- steps */

  /** `text.toLowerCase()` on the ASCII range. */
  function Lower(s: string): string
  {
    if s == [] then [] else [ToLower(s[0])] + Lower(s[1..])
  }

  /** The leading half of `trim()`: drops leading white space. */
  function TrimStart(s: string): (r: string)
    ensures |r| <= |s| && r == s[|s| - |r|..]
    ensures forall i :: 0 <= i < |s| - |r| ==> IsSpace(s[i])
    ensures r == [] || !IsSpace(r[0])
  {
    if s != [] && IsSpace(s[0]) then TrimStart(s[1..]) else s
  }

  predicate AllSpace(s: string) {
    forall i :: 0 <= i < |s| ==> IsSpace(s[i])
  }

  /**
   * The trailing half of `trim()`: drops trailing white space. It is written
   * front to back (keep a character unless only white space follows) so that
   * it unfolds in step with `SplitAt` and `Collapse`.
   */
  function TrimEnd(s: string): (r: string)
    ensures |r| <= |s| && r == s[..|r|]
    ensures forall i :: |r| <= i < |s| ==> IsSpace(s[i])
    ensures r == [] || !IsSpace(r[|r| - 1])
  {
    if AllSpace(s) then [] else [s[0]] + TrimEnd(s[1..])
  }

  /** `text.trim()`. */
  function Trim(s: string): string
  {
    TrimEnd(TrimStart(s))
  }

  /** `.replace(/\s+/g, ' ')`: every maximal white-space run becomes one space. */
  function Collapse(s: string): string
    decreases |s|
  {
    if s == [] then []
    else if IsSpace(s[0]) then [' '] + Collapse(TrimStart(s[1..]))
    else [s[0]] + Collapse(s[1..])
  }

  /** The characters that `.replace(/[^\w\s']/g, '')` keeps. */
  predicate Kept(c: char) {
    IsWordChar(c) || IsSpace(c) || c == '\''
  }

  /** `.replace(/[^\w\s']/g, '')`: deletes punctuation, hyphens and non-ASCII letters. */
  function StripPunctuation(s: string): string
  {
    if s == [] then []
    else (if Kept(s[0]) then [s[0]] else []) + StripPunctuation(s[1..])
  }

  /**
   * `.replace(/'(?![a-z])|(?<![a-z])'/g, '')`: an apostrophe survives only when
   * the characters just before and just after it in the INPUT string are
   * lower-case letters. `afterLower` says whether the character before `s` was
   * one. (The last rewrite of the chain, `.replace(/'/g, "'")`, changes nothing.)
   */
  function DropLooseApostrophes(s: string, afterLower: bool): string
  {
    if s == [] then []
    else
      var keep := s[0] != '\'' || (afterLower && |s| > 1 && IsLower(s[1]));
      (if keep then [s[0]] else []) + DropLooseApostrophes(s[1..], IsLower(s[0]))
  }

  /** `normalizeText(text)`. */
  function NormalizeText(text: string): string
  {
    DropLooseApostrophes(StripPunctuation(Collapse(Trim(Lower(text)))), false)
  }

  /* ------------------------------------------------------------- splitting */

  /** The current word, as a list of zero or one words. */
  function Flush(word: string): seq<string>
  {
    if word == [] then [] else [word]
  }

  /**
   * `.split(/\s+/).filter(word => word.length > 0)` on `word + s`, where `word`
   * is the white-space-free run already read.
   */
  function SplitAt(s: string, word: string): seq<string>
  {
    if s == [] then Flush(word)
    else if IsSpace(s[0]) then Flush(word) + SplitAt(s[1..], [])
    else SplitAt(s[1..], word + [s[0]])
  }

  function SplitWhitespace(s: string): seq<string>
  {
    SplitAt(s, [])
  }

  /** `splitIntoWords(text)`. */
  function SplitIntoWords(text: string): (words: seq<string>)
    ensures forall w :: w in words ==> w != [] && HasNoSpace(w)
  {
    var normalized := NormalizeText(text);
    if normalized == [] then [] else SplitAtWords(normalized); SplitWhitespace(normalized)
  }

  /** The split yields non-empty words free of white space. */
  lemma SplitAtWords(s: string)
    ensures forall w :: w in SplitAt(s, []) ==> w != [] && HasNoSpace(w)
  {
    SplitAtShape(s, []);
  }

  /* ------------------------------------------------------------ predicates */

  /**
   * Every apostrophe of `s` is preceded by a lower-case letter (or, at the very
   * start, by whatever `afterLower` records) and followed by one.
   */
  predicate FlankedFrom(s: string, afterLower: bool)
    decreases |s|
  {
    s == [] ||
    ((s[0] == '\'' ==> afterLower && |s| > 1 && IsLower(s[1])) && FlankedFrom(s[1..], IsLower(s[0])))
  }

  /** Every apostrophe of `s` has a lower-case letter on both sides inside `s`. */
  predicate ApostrophesFlanked(s: string) {
    forall i :: 0 <= i < |s| && s[i] == '\'' ==> 0 < i < |s| - 1 && IsLower(s[i - 1]) && IsLower(s[i + 1])
  }

  predicate HasNoSpace(s: string) {
    forall i :: 0 <= i < |s| ==> !IsSpace(s[i])
  }

  /** What a word of `splitIntoWords` looks like. */
  predicate IsNormalizedWord(w: string) {
    && w != []
    && (forall i :: 0 <= i < |w| ==> IsNormalizedChar(w[i]))
    && ApostrophesFlanked(w)
  }

  /* ------------------------------------------------------ character lemmas */

  lemma {:induction false} LowerChars(s: string)
    ensures |Lower(s)| == |s|
    ensures forall i :: 0 <= i < |s| ==> Lower(s)[i] == ToLower(s[i])
  {
    if s != [] {
      LowerChars(s[1..]);
    }
  }

  lemma {:induction false} TrimEndChars(s: string)
    ensures forall c :: c in TrimEnd(s) ==> c in s
  {
  }

  lemma {:induction false} CollapseChars(s: string)
    ensures forall c :: c in Collapse(s) ==> c == ' ' || (c in s && !IsSpace(c))
    decreases |s|
  {
    if s != [] {
      if IsSpace(s[0]) {
        var t := TrimStart(s[1..]);
        CollapseChars(t);
        forall c | c in t ensures c in s {
          assert c in s[1..];
        }
      } else {
        CollapseChars(s[1..]);
      }
    }
  }

  lemma {:induction false} StripPunctuationChars(s: string)
    ensures forall c :: c in StripPunctuation(s) ==> c in s && Kept(c)
  {
    if s != [] {
      StripPunctuationChars(s[1..]);
    }
  }

  lemma {:induction false} DropLooseApostrophesChars(s: string, afterLower: bool)
    ensures forall c :: c in DropLooseApostrophes(s, afterLower) ==> c in s
  {
    if s != [] {
      DropLooseApostrophesChars(s[1..], IsLower(s[0]));
    }
  }

  /** The normalised text holds spaces and word characters only. */
  lemma NormalizedChars(text: string)
    ensures forall c :: c in NormalizeText(text) ==> c == ' ' || IsNormalizedChar(c)
  {
    var lowered := Lower(text);
    LowerChars(text);
    var trimmed := Trim(lowered);
    TrimEndChars(TrimStart(lowered));
    var collapsed := Collapse(trimmed);
    CollapseChars(trimmed);
    var stripped := StripPunctuation(collapsed);
    StripPunctuationChars(collapsed);
    DropLooseApostrophesChars(stripped, false);
    forall c | c in NormalizeText(text) ensures c == ' ' || IsNormalizedChar(c) {
      assert c in stripped;
      if c != ' ' {
        assert c in trimmed && !IsSpace(c);
        assert c in lowered;
        var i :| 0 <= i < |lowered| && lowered[i] == c;
        assert !IsUpper(c);
      }
    }
  }

  /* ----------------------------------------------------- apostrophe lemmas */

  /** The apostrophe filter leaves only flanked apostrophes. */
  lemma {:induction false} DropLooseApostrophesFlanked(s: string, afterLower: bool)
    ensures FlankedFrom(DropLooseApostrophes(s, afterLower), afterLower)
  {
    if s != [] {
      var rest := DropLooseApostrophes(s[1..], IsLower(s[0]));
      DropLooseApostrophesFlanked(s[1..], IsLower(s[0]));
      if s[0] != '\'' {
        assert DropLooseApostrophes(s, afterLower) == [s[0]] + rest;
      } else if afterLower && |s| > 1 && IsLower(s[1]) {
        assert rest[0] == s[1];
        assert DropLooseApostrophes(s, afterLower) == [s[0]] + rest;
      } else {
        assert DropLooseApostrophes(s, afterLower) == [] + rest == rest;
        FlankedWeaken(rest, afterLower);
      }
    }
  }

  lemma {:induction false} FlankedWeaken(s: string, afterLower: bool)
    requires FlankedFrom(s, false)
    ensures FlankedFrom(s, afterLower)
  {
  }

  /** Apostrophes already flanked survive the filter: the filter is then the identity. */
  lemma {:induction false} DropLooseApostrophesIdentity(s: string, afterLower: bool)
    requires FlankedFrom(s, afterLower)
    ensures DropLooseApostrophes(s, afterLower) == s
  {
    if s != [] {
      DropLooseApostrophesIdentity(s[1..], IsLower(s[0]));
    }
  }

  lemma {:induction false} FlankedPositions(s: string, afterLower: bool)
    requires FlankedFrom(s, afterLower)
    ensures forall i :: 0 <= i < |s| && s[i] == '\'' ==>
      && (i == 0 ==> afterLower)
      && (i > 0 ==> IsLower(s[i - 1]))
      && i + 1 < |s| && IsLower(s[i + 1])
  {
    if s != [] {
      FlankedPositions(s[1..], IsLower(s[0]));
      forall i | 0 < i < |s| && s[i] == '\''
        ensures IsLower(s[i - 1]) && i + 1 < |s| && IsLower(s[i + 1])
      {
        assert s[1..][i - 1] == '\'';
      }
    }
  }

  lemma {:induction false} TrimStartFlanked(s: string)
    requires FlankedFrom(s, false)
    ensures FlankedFrom(TrimStart(s), false)
  {
    if s != [] && IsSpace(s[0]) {
      TrimStartFlanked(s[1..]);
    }
  }

  lemma {:induction false} TrimEndFlanked(s: string, afterLower: bool)
    requires FlankedFrom(s, afterLower)
    ensures FlankedFrom(TrimEnd(s), afterLower)
  {
    if !AllSpace(s) {
      var rest := TrimEnd(s[1..]);
      TrimEndFlanked(s[1..], IsLower(s[0]));
      assert TrimEnd(s) == [s[0]] + rest;
      if s[0] == '\'' {
        assert !AllSpace(s[1..]) by { assert !IsSpace(s[1..][0]); }
        assert rest[0] == s[1];
      }
    }
  }

  lemma {:induction false} CollapseFlanked(s: string, afterLower: bool)
    requires FlankedFrom(s, afterLower)
    ensures FlankedFrom(Collapse(s), afterLower)
    decreases |s|
  {
    if s != [] {
      if IsSpace(s[0]) {
        var t := TrimStart(s[1..]);
        TrimStartFlanked(s[1..]);
        CollapseFlanked(t, false);
        assert Collapse(s) == [' '] + Collapse(t);
      } else {
        var rest := Collapse(s[1..]);
        CollapseFlanked(s[1..], IsLower(s[0]));
        assert Collapse(s) == [s[0]] + rest;
        if s[0] == '\'' {
          assert rest == [s[1]] + Collapse(s[2..]) by {
            assert s[1..][1..] == s[2..];
          }
        }
      }
    }
  }

  /* -------------------------------------------------------- word lemmas */

  lemma {:induction false} SplitAtShape(s: string, word: string)
    requires HasNoSpace(word)
    ensures forall w :: w in SplitAt(s, word) ==>
      w != [] && HasNoSpace(w) && forall c :: c in w ==> c in word || (c in s && !IsSpace(c))
  {
    if s != [] {
      if IsSpace(s[0]) {
        SplitAtShape(s[1..], []);
      } else {
        var word' := word + [s[0]];
        SplitAtShape(s[1..], word');
        forall w, c | w in SplitAt(s, word) && c in w
          ensures c in word || (c in s && !IsSpace(c))
        {
          if c !in word && c !in s[1..] {
            assert c in word';
          }
        }
      }
    }
  }

  /** Cutting a flanked string at a non-letter leaves both sides flanked. */
  lemma FlankedAroundSeparator(a: string, c: char, b: string)
    requires !IsLower(c) && ApostrophesFlanked(a + [c] + b)
    ensures ApostrophesFlanked(a) && ApostrophesFlanked(b)
  {
    var whole := a + [c] + b;
    forall i | 0 <= i < |a| && a[i] == '\''
      ensures 0 < i < |a| - 1 && IsLower(a[i - 1]) && IsLower(a[i + 1])
    {
      assert whole[i] == a[i];
      assert whole[|a|] == c;
      assert whole[i + 1] == if i + 1 < |a| then a[i + 1] else c;
      assert 0 < i && whole[i - 1] == a[i - 1];
    }
    forall i | 0 <= i < |b| && b[i] == '\''
      ensures 0 < i < |b| - 1 && IsLower(b[i - 1]) && IsLower(b[i + 1])
    {
      var j := |a| + 1 + i;
      assert whole[j] == b[i];
      assert whole[|a|] == c;
      assert whole[j - 1] == if i == 0 then c else b[i - 1];
      assert j < |whole| - 1 && whole[j + 1] == b[i + 1];
    }
  }

  lemma {:induction false} SplitAtFlanked(s: string, word: string)
    requires HasNoSpace(word) && ApostrophesFlanked(word + s)
    ensures forall w :: w in SplitAt(s, word) ==> ApostrophesFlanked(w)
  {
    if s == [] {
      assert word + s == word;
    } else if IsSpace(s[0]) {
      assert word + s == word + [s[0]] + s[1..];
      FlankedAroundSeparator(word, s[0], s[1..]);
      assert [] + s[1..] == s[1..];
      SplitAtFlanked(s[1..], []);
    } else {
      assert (word + [s[0]]) + s[1..] == word + s;
      SplitAtFlanked(s[1..], word + [s[0]]);
    }
  }

  /**
   * Every word of `splitIntoWords` is non-empty, made of `a-z`, `0-9`, `_` and
   * `'` only (so it holds no white space), and every apostrophe in it has a
   * lower-case letter on both sides.
   */
  lemma WordsWellFormed(text: string)
    ensures forall w :: w in SplitIntoWords(text) ==> IsNormalizedWord(w) && HasNoSpace(w)
  {
    var n := NormalizeText(text);
    if n != [] {
      NormalizedChars(text);
      SplitAtShape(n, []);
      DropLooseApostrophesFlanked(StripPunctuation(Collapse(Trim(Lower(text)))), false);
      FlankedPositions(n, false);
      assert [] + n == n;
      SplitAtFlanked(n, []);
      forall w | w in SplitIntoWords(text) ensures IsNormalizedWord(w) {
        forall i | 0 <= i < |w| ensures IsNormalizedChar(w[i]) {
          assert w[i] in w;
        }
      }
    }
  }

  lemma {:induction false} SplitAtAllSpace(s: string, word: string)
    requires AllSpace(s)
    ensures SplitAt(s, word) == Flush(word)
  {
    if s != [] {
      SplitAtAllSpace(s[1..], []);
    }
  }

  lemma {:induction false} SplitAtTrimStart(s: string)
    ensures SplitAt(TrimStart(s), []) == SplitAt(s, [])
  {
    if s != [] && IsSpace(s[0]) {
      SplitAtTrimStart(s[1..]);
    }
  }

  lemma {:induction false} SplitAtTrimEnd(s: string, word: string)
    ensures SplitAt(TrimEnd(s), word) == SplitAt(s, word)
  {
    if AllSpace(s) {
      SplitAtAllSpace(s, word);
    } else {
      var rest := TrimEnd(s[1..]);
      assert TrimEnd(s) == [s[0]] + rest;
      assert ([s[0]] + rest)[1..] == rest;
      if IsSpace(s[0]) {
        SplitAtTrimEnd(s[1..], []);
      } else {
        SplitAtTrimEnd(s[1..], word + [s[0]]);
      }
    }
  }

  lemma {:induction false} SplitAtCollapse(s: string, word: string)
    ensures SplitAt(Collapse(s), word) == SplitAt(s, word)
    decreases |s|
  {
    if s != [] {
      if IsSpace(s[0]) {
        var t := TrimStart(s[1..]);
        assert Collapse(s) == [' '] + Collapse(t);
        assert ([' '] + Collapse(t))[1..] == Collapse(t);
        SplitAtCollapse(t, []);
        SplitAtTrimStart(s[1..]);
      } else {
        assert Collapse(s) == [s[0]] + Collapse(s[1..]);
        assert ([s[0]] + Collapse(s[1..]))[1..] == Collapse(s[1..]);
        SplitAtCollapse(s[1..], word + [s[0]]);
      }
    }
  }

  lemma {:induction false} LowerIdentity(s: string)
    requires forall i :: 0 <= i < |s| ==> !IsUpper(s[i])
    ensures Lower(s) == s
  {
    if s != [] {
      LowerIdentity(s[1..]);
    }
  }

  lemma {:induction false} StripPunctuationIdentity(s: string)
    requires forall c :: c in s ==> Kept(c)
    ensures StripPunctuation(s) == s
  {
    if s != [] {
      assert forall c :: c in s[1..] ==> c in s;
      StripPunctuationIdentity(s[1..]);
    }
  }

  /** The characters of a normalised text survive re-normalising's punctuation filter. */
  lemma {:induction false} CollapseTrimKept(n: string)
    requires forall c :: c in n ==> c == ' ' || IsNormalizedChar(c)
    ensures forall c :: c in Collapse(Trim(n)) ==> Kept(c)
  {
    TrimEndChars(TrimStart(n));
    CollapseChars(Trim(n));
    forall c | c in Collapse(Trim(n)) ensures Kept(c) {
      if c != ' ' {
        assert c in Trim(n);
        assert c in TrimStart(n);
        assert c in n;
      }
    }
  }

  lemma {:induction false} CollapseTrimFlanked(n: string)
    requires FlankedFrom(n, false)
    ensures FlankedFrom(Collapse(Trim(n)), false)
  {
    TrimStartFlanked(n);
    TrimEndFlanked(TrimStart(n), false);
    CollapseFlanked(Trim(n), false);
  }

  /**
   * Normalising an already normalised text only trims and collapses its white
   * space.
   */
  lemma {:induction false} RenormalizeOnlyCollapses(n: string)
    requires forall c :: c in n ==> c == ' ' || IsNormalizedChar(c)
    requires FlankedFrom(n, false)
    ensures NormalizeText(n) == Collapse(Trim(n))
  {
    forall i | 0 <= i < |n| ensures !IsUpper(n[i]) {
      assert n[i] in n;
    }
    LowerIdentity(n);
    var m := Collapse(Trim(n));
    CollapseTrimKept(n);
    StripPunctuationIdentity(m);
    CollapseTrimFlanked(n);
    DropLooseApostrophesIdentity(m, false);
  }

  /**
   * Normalising twice yields the same words as normalising once: the word list
   * is stable even though the normalised string is not (`NotIdempotent`).
   */
  lemma WordsStable(text: string)
    ensures SplitIntoWords(NormalizeText(text)) == SplitIntoWords(text)
  {
    var n := NormalizeText(text);
    NormalizedChars(text);
    DropLooseApostrophesFlanked(StripPunctuation(Collapse(Trim(Lower(text)))), false);
    SplitRenormalized(n);
  }

  /** Normalising already normalised text again does not change its words. */
  lemma SplitRenormalized(n: string)
    requires forall c :: c in n ==> c == ' ' || IsNormalizedChar(c)
    requires FlankedFrom(n, false)
    ensures SplitIntoWords(n) == if n == [] then [] else SplitWhitespace(n)
  {
    RenormalizeOnlyCollapses(n);
    SplitAtCollapseTrim(n);
    WordsOfSameSplit(n);
  }

  /** Trimming and collapsing white space does not change the words found by the split. */
  lemma SplitAtCollapseTrim(s: string)
    ensures SplitAt(Collapse(Trim(s)), []) == SplitAt(s, [])
  {
    SplitAtCollapse(Trim(s), []);
    SplitAtTrimEnd(TrimStart(s), []);
    SplitAtTrimStart(s);
  }

  /** Text whose normalisation splits as the text itself does has the text's own words. */
  lemma WordsOfSameSplit(s: string)
    requires SplitAt(NormalizeText(s), []) == SplitAt(s, [])
    ensures SplitIntoWords(s) == if s == [] then [] else SplitWhitespace(s)
  {
    if NormalizeText(s) == [] {
      assert SplitAt(s, []) == [];
    }
  }

  /** `normalizeText` applied stage by stage. */
  lemma NormalizeByStages(text: string, collapsed: string)
    requires Collapse(Trim(Lower(text))) == collapsed
    ensures NormalizeText(text) == DropLooseApostrophes(StripPunctuation(collapsed), false)
  {
  }

  lemma TrailingPunctuationStage()
    ensures Collapse(Trim(Lower("a ."))) == "a ."
  {
    TrimSample();
    CollapseSample();
  }

  lemma TrimSample()
    ensures Trim(Lower("a .")) == "a ."
  {
    LowerIdentity("a .");
    assert Lower("a .") == "a .";
    assert TrimStart("a .") == "a .";
    assert !IsSpace("a ."[2]);
    assert |TrimEnd("a .")| == 3;
  }

  lemma CollapseSample()
    ensures Collapse("a .") == "a ."
  {
    assert Collapse(".") == "." by { assert "."[1..] == ""; }
    assert " ."[1..] == ".";
    assert TrimStart(".") == ".";
    assert Collapse(" .") == " .";
    assert "a ."[1..] == " .";
  }

  lemma TrailingSpaceStage()
    ensures Collapse(Trim(Lower("a "))) == "a"
  {
    LowerIdentity("a ");
    assert TrimStart("a ") == "a ";
    assert TrimEnd("a ") == "a" by {
      assert "a "[1..] == " ";
      assert AllSpace(" ");
      assert !AllSpace("a ");
    }
    assert Collapse("a") == "a" by { assert "a"[1..] == ""; }
  }

  lemma FilterStage()
    ensures DropLooseApostrophes(StripPunctuation("a ."), false) == "a "
    ensures DropLooseApostrophes(StripPunctuation("a"), false) == "a"
  {
  }

  /**
   * `normalizeText` itself is not idempotent: the period is deleted after the
   * text was trimmed, so a space is left at the end, which a second pass trims.
   */
  lemma NotIdempotent()
    ensures NormalizeText("a .") == "a "
    ensures NormalizeText(NormalizeText("a .")) == "a"
  {
    TrailingPunctuationStage();
    NormalizeByStages("a .", "a .");
    FilterStage();
    TrailingSpaceStage();
    NormalizeByStages("a ", "a");
  }
}
