/**
 * Character classes of the regular expressions in the comparison engine, on the
 * ASCII letters and digits and on the full set of characters that JavaScript's
 * `\s` (and `String.prototype.trim`) treat as white space.
 */
module Chars {

  /** JavaScript's `\s`: ECMAScript WhiteSpace and LineTerminator characters. */
  predicate IsSpace(c: char) {
    || c == ' ' || c == '\t' || c == '\n' || c == '\r' || c == '\U{B}' || c == '\U{C}'
    || c == '\U{A0}' || c == '\U{1680}' || ('\U{2000}' <= c <= '\U{200A}')
    || c == '\U{2028}' || c == '\U{2029}' || c == '\U{202F}' || c == '\U{205F}'
    || c == '\U{3000}' || c == '\U{FEFF}'
  }

  predicate IsUpper(c: char) { 'A' <= c <= 'Z' }

  /** `[a-z]`, the class of the apostrophe look-arounds. */
  predicate IsLower(c: char) { 'a' <= c <= 'z' }

  predicate IsDigit(c: char) { '0' <= c <= '9' }

  /** `\w` without the `u` flag: ASCII letters, digits and underscore. */
  predicate IsWordChar(c: char) { IsUpper(c) || IsLower(c) || IsDigit(c) || c == '_' }

  /** The characters a normalised word may contain: `a-z`, `0-9`, `_` and `'`. */
  predicate IsNormalizedChar(c: char) { IsLower(c) || IsDigit(c) || c == '_' || c == '\'' }

  /** `toLowerCase` on one character, for the ASCII range. */
  function ToLower(c: char): (r: char)
    ensures !IsUpper(r)
    ensures IsSpace(r) <==> IsSpace(c)
    ensures r == '\'' <==> c == '\''
    ensures IsUpper(c) ==> IsLower(r)
    ensures !IsUpper(c) ==> r == c
  {
    if IsUpper(c) then (c as int + 32) as char else c
  }
}
