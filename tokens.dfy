/**
 * `splitIntoTokens` of the comparison engine: the display view of a raw text,
 * `text.split(/(\s+)/).filter(token => token.length > 0)`. The capturing group
 * keeps the white-space runs, so the tokens are the maximal runs of white space
 * and of non-white space, in order; punctuation stays attached to its word.
 */
module Tokens {
  import opened Chars

  /** Length of the longest prefix of `s` whose characters are all white space (`space`) or all not. */
  function RunLength(s: string, space: bool): (n: nat)
    ensures n <= |s|
    ensures forall i :: 0 <= i < n ==> IsSpace(s[i]) == space
    ensures n < |s| ==> IsSpace(s[n]) != space
  {
    if s == [] || IsSpace(s[0]) != space then 0 else 1 + RunLength(s[1..], space)
  }

  /** `splitIntoTokens(text)`. */
  function SplitIntoTokens(text: string): (tokens: seq<string>)
    ensures forall k :: 0 <= k < |tokens| ==> tokens[k] != []
    decreases |text|
  {
    if text == [] then []
    else
      var n := RunLength(text, IsSpace(text[0]));
      [text[..n]] + SplitIntoTokens(text[n..])
  }

  /** The text the tokens spell out. */
  function Concat(tokens: seq<string>): string
  {
    if tokens == [] then [] else tokens[0] + Concat(tokens[1..])
  }

  /** A token is entirely white space or holds no white space at all. */
  predicate Uniform(token: string) {
    token != [] && forall i :: 0 <= i < |token| ==> IsSpace(token[i]) == IsSpace(token[0])
  }

  /** Concatenating the tokens reproduces the text exactly. */
  lemma {:induction false} TokensRoundTrip(text: string)
    ensures Concat(SplitIntoTokens(text)) == text
    decreases |text|
  {
    if text != [] {
      var n := RunLength(text, IsSpace(text[0]));
      var rest := SplitIntoTokens(text[n..]);
      TokensRoundTrip(text[n..]);
      var tokens := SplitIntoTokens(text);
      assert tokens == [text[..n]] + rest;
      assert tokens[0] == text[..n] && tokens[1..] == rest;
      calc {
        Concat(tokens);
        tokens[0] + Concat(tokens[1..]);
        text[..n] + text[n..];
        { assert text[..n] + text[n..] == text; }
        text;
      }
    }
  }

  /**
   * Every token is non-empty and uniform, and neighbouring tokens are of
   * opposite kinds, so no run is ever split in two.
   */
  lemma {:induction false} TokensMaximalRuns(text: string)
    ensures forall token :: token in SplitIntoTokens(text) ==> Uniform(token)
    ensures forall k :: 0 <= k < |SplitIntoTokens(text)| - 1 ==>
      IsSpace(SplitIntoTokens(text)[k][0]) != IsSpace(SplitIntoTokens(text)[k + 1][0])
    decreases |text|
  {
    if text != [] {
      var n := RunLength(text, IsSpace(text[0]));
      var rest := SplitIntoTokens(text[n..]);
      TokensMaximalRuns(text[n..]);
      var tokens := SplitIntoTokens(text);
      assert tokens == [text[..n]] + rest;
      assert Uniform(tokens[0]);
      forall token | token in tokens ensures Uniform(token) {
        if token != tokens[0] {
          assert token in rest;
        }
      }
      if rest != [] {
        assert rest[0] == text[n..][..RunLength(text[n..], IsSpace(text[n..][0]))];
        assert rest[0][0] == text[n];
      }
      forall k | 0 <= k < |tokens| - 1 ensures IsSpace(tokens[k][0]) != IsSpace(tokens[k + 1][0]) {
        if k > 0 {
          assert tokens[k] == rest[k - 1] && tokens[k + 1] == rest[k];
          assert IsSpace(rest[k - 1][0]) != IsSpace(rest[k][0]);
        }
      }
    }
  }

  /** An empty text has no tokens; any other text has at least one. */
  lemma EmptyTokens(text: string)
    ensures SplitIntoTokens(text) == [] <==> text == []
  {
  }
}
