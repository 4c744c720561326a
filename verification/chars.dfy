/** Character classes used by the answer normalizer and the label resolver. */
module Chars {

  /** Whitespace as Python's str.isspace defines it: the characters str.strip() removes. */
  predicate IsSpace(c: char)
    ensures IsSpace(c) ==> !IsWordChar(c)
  {
    ('\t' <= c <= '\r') || ('\U{1C}' <= c <= ' ') || c == '\U{85}' || c == '\U{A0}' || c == '\U{1680}'
    || ('\U{2000}' <= c <= '\U{200A}') || c == '\U{2028}' || c == '\U{2029}' || c == '\U{202F}'
    || c == '\U{205F}' || c == '\U{3000}'
  }

  predicate IsAsciiLetter(c: char) {
    'A' <= c <= 'Z' || 'a' <= c <= 'z'
  }

  predicate IsDigit(c: char) {
    '0' <= c <= '9'
  }

  /** A regex "word character" (what \b looks at): a letter, a digit or an underscore. */
  predicate IsWordChar(c: char) {
    IsAsciiLetter(c) || IsDigit(c) || c == '_'
  }

  /** The character class [A-Ja-j]: a possible answer letter in either case. */
  predicate IsChoiceChar(c: char) {
    'A' <= c <= 'J' || 'a' <= c <= 'j'
  }

  /** str.upper on one character (ASCII case mapping). */
  function Upper(c: char): (u: char)
    ensures !('a' <= u <= 'z')
    ensures IsChoiceChar(c) ==> 'A' <= u <= 'J'
    ensures IsSpace(u) == IsSpace(c) && IsWordChar(u) == IsWordChar(c) && IsChoiceChar(u) == IsChoiceChar(c)
  {
    if 'a' <= c <= 'z' then (c as int - 32) as char else c
  }

  /** str.upper on a whole string. */
  function UpperStr(s: string): (u: string)
    ensures |u| == |s|
    ensures forall i :: 0 <= i < |u| ==> u[i] == Upper(s[i]) && !('a' <= u[i] <= 'z')
  {
    seq(|s|, i requires 0 <= i < |s| => Upper(s[i]))
  }

  /** Two texts that differ at most in the case of their letters. */
  ghost predicate SameIgnoringCase(s: string, t: string) {
    |s| == |t| && forall i :: 0 <= i < |s| ==> Upper(s[i]) == Upper(t[i])
  }

  /** Characters whose upper-case forms agree are in the same character classes. */
  lemma SameUpperSameClass(c: char, d: char)
    requires Upper(c) == Upper(d)
    ensures IsSpace(c) == IsSpace(d) && IsWordChar(c) == IsWordChar(d) && IsChoiceChar(c) == IsChoiceChar(d)
  {
  }
}
