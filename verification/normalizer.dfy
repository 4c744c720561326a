/** normalize_to_letter: extract one answer letter (A..J) from a free-text model response. */
module Normalizer {
  import opened Wrappers
  import opened Chars
  import opened Letters

  /** No character of s outside s[lo..hi] is a word character (whitespace, for one). */
  ghost predicate PaddedBy(s: string, lo: nat, hi: nat) {
    lo <= hi <= |s| &&
    (forall j :: 0 <= j < lo ==> !IsWordChar(s[j])) &&
    (forall j :: hi <= j < |s| ==> !IsWordChar(s[j]))
  }

  /** Index of the first non-whitespace character at or after i (|s| if none). */
  function LeftEdge(s: string, i: nat): (k: nat)
    requires i <= |s|
    ensures i <= k <= |s|
    ensures forall j :: i <= j < k ==> IsSpace(s[j])
    ensures k < |s| ==> !IsSpace(s[k])
    decreases |s| - i
  {
    if i < |s| && IsSpace(s[i]) then LeftEdge(s, i + 1) else i
  }

  /** One past the last non-whitespace character of s[lo..hi] (lo if none). */
  function RightEdge(s: string, lo: nat, hi: nat): (k: nat)
    requires lo <= hi <= |s|
    ensures lo <= k <= hi
    ensures forall j :: k <= j < hi ==> IsSpace(s[j])
    ensures k > lo ==> !IsSpace(s[k - 1])
    decreases hi
  {
    if hi > lo && IsSpace(s[hi - 1]) then RightEdge(s, lo, hi - 1) else hi
  }

  /** str.strip(): s without its leading and trailing whitespace. */
  function Strip(s: string): (t: string)
    ensures |t| <= |s|
    ensures t == [] || (!IsSpace(t[0]) && !IsSpace(t[|t| - 1]))
    ensures exists lo, hi ::
      (0 <= lo <= hi <= |s| && t == s[lo..hi] &&
       (forall j :: 0 <= j < lo ==> IsSpace(s[j])) && (forall j :: hi <= j < |s| ==> IsSpace(s[j])))
  {
    var lo := LeftEdge(s, 0);
    var hi := RightEdge(s, lo, |s|);
    assert forall j :: 0 <= j < lo ==> IsSpace(s[j]);
    s[lo..hi]
  }

  /** The regex \b([A-Ja-j])\b matches at position i of t: an answer letter with
      no word character directly before or after it. */
  predicate StandaloneAt(t: string, i: nat)
    requires i < |t|
    ensures StandaloneAt(t, i) ==> IsChoiceChar(t[i]) && IsWordChar(t[i])
  {
    IsChoiceChar(t[i]) && (i == 0 || !IsWordChar(t[i - 1])) && (i + 1 == |t| || !IsWordChar(t[i + 1]))
  }

  /** Leftmost standalone answer letter at or after i (|t| if none): re.search of the first tier. */
  function FirstStandalone(t: string, i: nat): (k: nat)
    requires i <= |t|
    ensures i <= k <= |t|
    ensures k < |t| ==> StandaloneAt(t, k)
    ensures forall j :: i <= j < k ==> !StandaloneAt(t, j)
    decreases |t| - i
  {
    if i == |t| || StandaloneAt(t, i) then i else FirstStandalone(t, i + 1)
  }

  /** Leftmost character of [A-Ja-j] at or after i (|t| if none): re.search of the fallback tier. */
  function FirstChoice(t: string, i: nat): (k: nat)
    requires i <= |t|
    ensures i <= k <= |t|
    ensures k < |t| ==> IsChoiceChar(t[k])
    ensures forall j :: i <= j < k ==> !IsChoiceChar(t[j])
    decreases |t| - i
  {
    if i == |t| || IsChoiceChar(t[i]) then i else FirstChoice(t, i + 1)
  }

  /** The canonical letter of a matched character: its upper-case form. */
  function LetterOf(c: char): (l: Letter)
    requires IsChoiceChar(c)
    ensures l.Choice? && l.index < 10
    ensures Spelling(l) == [Upper(c)]
  {
    Choice(Upper(c) as int - 'A' as int)
  }

  /** The two-tier search on an already stripped text. */
  function Extract(t: string): (l: Letter)
    ensures l.Unresolved? || l.index < 10
  {
    var k := FirstStandalone(t, 0);
    if k < |t| then LetterOf(t[k])
    else
      var m := FirstChoice(t, 0);
      if m < |t| then LetterOf(t[m]) else Unresolved
  }

  /** normalize_to_letter(pred): None or "" give ""; otherwise strip, then search
      for a standalone letter, then for any letter, and upper-case the match. */
  function NormalizeToLetter(pred: Option<string>): (l: Letter)
    ensures pred == None || pred == Some("") ==> l == Unresolved
    ensures l.Unresolved? || l.index < 10
  {
    if pred == None || pred.value == "" then Unresolved else Extract(Strip(pred.value))
  }

  /** Inside a whitespace-padded text, a position is standalone exactly when the
      same position of the unpadded text is: whitespace is not a word character. */
  lemma StandaloneShift(s: string, lo: nat, hi: nat, j: nat)
    requires PaddedBy(s, lo, hi) && j < hi - lo
    ensures StandaloneAt(s[lo..hi], j) == StandaloneAt(s, lo + j)
  {
  }

  /** The first tier finds the same character in a padded and an unpadded text. */
  lemma FirstStandalonePadded(s: string, lo: nat, hi: nat)
    requires PaddedBy(s, lo, hi)
    ensures var a := FirstStandalone(s[lo..hi], 0);
      if a < hi - lo then FirstStandalone(s, 0) == lo + a else FirstStandalone(s, 0) == |s|
  {
    var t := s[lo..hi];
    var a, b := FirstStandalone(t, 0), FirstStandalone(s, 0);
    if b < |s| {
      assert lo <= b < hi;
      StandaloneShift(s, lo, hi, b - lo);
    }
    if a < |t| {
      StandaloneShift(s, lo, hi, a);
    }
  }

  /** The fallback tier finds the same character in a padded and an unpadded text. */
  lemma {:induction false} FirstChoicePadded(s: string, lo: nat, hi: nat)
    requires PaddedBy(s, lo, hi)
    ensures var c := FirstChoice(s[lo..hi], 0);
      if c < hi - lo then FirstChoice(s, 0) == lo + c else FirstChoice(s, 0) == |s|
  {
  }

  /** Whitespace around a text changes neither search, hence not the answer. */
  lemma ExtractIgnoresPadding(s: string, lo: nat, hi: nat)
    requires PaddedBy(s, lo, hi)
    ensures Extract(s[lo..hi]) == Extract(s)
  {
    FirstStandalonePadded(s, lo, hi);
    FirstChoicePadded(s, lo, hi);
    var t := s[lo..hi];
    var a := FirstStandalone(t, 0);
    if a < |t| { assert t[a] == s[lo + a]; }
    var c := FirstChoice(t, 0);
    if c < |t| { assert t[c] == s[lo + c]; }
  }

  /** The strip step never changes the answer: a non-empty response gives what
      the two-tier search gives on the raw text. */
  lemma StripDoesNotMatter(s: string)
    requires s != ""
    ensures NormalizeToLetter(Some(s)) == Extract(s)
  {
    var lo := LeftEdge(s, 0);
    var hi := RightEdge(s, lo, |s|);
    assert PaddedBy(s, lo, hi);
    ExtractIgnoresPadding(s, lo, hi);
  }

  /** First tier: the leftmost standalone A..J / a..j decides the answer. */
  lemma StandaloneTier(s: string, k: nat)
    requires k < |s| && StandaloneAt(s, k)
    requires forall j :: 0 <= j < k ==> !StandaloneAt(s, j)
    ensures NormalizeToLetter(Some(s)) == LetterOf(s[k])
    ensures Spelling(NormalizeToLetter(Some(s))) == [Upper(s[k])]
  {
    StripDoesNotMatter(s);
    assert FirstStandalone(s, 0) == k;
  }

  /** Fallback tier: with no standalone letter, the first A..J / a..j anywhere decides. */
  lemma FallbackTier(s: string, k: nat)
    requires forall j :: 0 <= j < |s| ==> !StandaloneAt(s, j)
    requires k < |s| && IsChoiceChar(s[k])
    requires forall j :: 0 <= j < k ==> !IsChoiceChar(s[j])
    ensures NormalizeToLetter(Some(s)) == LetterOf(s[k])
  {
    StripDoesNotMatter(s);
    assert FirstStandalone(s, 0) == |s|;
    assert FirstChoice(s, 0) == k;
  }

  /** The answer is unresolved exactly when the response holds no A..J / a..j at all. */
  lemma UnresolvedIff(s: string)
    ensures NormalizeToLetter(Some(s)) == Unresolved <==> forall j :: 0 <= j < |s| ==> !IsChoiceChar(s[j])
  {
  }

  /** Letters found at the same positions of two case variants of a text. */
  lemma {:induction false} SearchesIgnoreCase(s: string, t: string, i: nat)
    requires SameIgnoringCase(s, t) && i <= |s|
    ensures FirstStandalone(s, i) == FirstStandalone(t, i)
    ensures FirstChoice(s, i) == FirstChoice(t, i)
    decreases |s| - i
  {
    if i < |s| {
      SameUpperSameClass(s[i], t[i]);
      if i > 0 { SameUpperSameClass(s[i - 1], t[i - 1]); }
      if i + 1 < |s| { SameUpperSameClass(s[i + 1], t[i + 1]); }
      SearchesIgnoreCase(s, t, i + 1);
    }
  }

  /** Case does not change the answer: "a" and "A" both give A. */
  lemma NormalizeIgnoresCase(s: string, t: string)
    requires SameIgnoringCase(s, t)
    ensures NormalizeToLetter(Some(s)) == NormalizeToLetter(Some(t))
  {
    if s != "" {
      StripDoesNotMatter(s);
      StripDoesNotMatter(t);
      SearchesIgnoreCase(s, t, 0);
      var k := FirstStandalone(s, 0);
      if k < |s| {
        assert Upper(s[k]) == Upper(t[k]);
      } else {
        var m := FirstChoice(s, 0);
        if m < |s| { assert Upper(s[m]) == Upper(t[m]); }
      }
    }
  }

  /** Surrounding whitespace does not change the answer: "  A  " and "\nB\n" give A and B. */
  lemma NormalizeIgnoresPadding(before: string, s: string, after: string)
    requires forall j :: 0 <= j < |before| ==> IsSpace(before[j])
    requires forall j :: 0 <= j < |after| ==> IsSpace(after[j])
    ensures NormalizeToLetter(Some(before + s + after)) == NormalizeToLetter(Some(s))
  {
    var p := before + s + after;
    assert p[|before|..|before| + |s|] == s;
    assert PaddedBy(p, |before|, |before| + |s|);
    ExtractIgnoresPadding(p, |before|, |before| + |s|);
    if p != "" { StripDoesNotMatter(p); }
    if s != "" { StripDoesNotMatter(s); }
  }

  /** Normalizing an answer already normalized gives it back. */
  lemma NormalizeIdempotent(pred: Option<string>)
    ensures NormalizeToLetter(Some(Spelling(NormalizeToLetter(pred)))) == NormalizeToLetter(pred)
  {
  }

  /** Responses from the unit tests: bare letters in either case. */
  lemma BareLetterExamples()
    ensures NormalizeToLetter(Some("J")) == Choice(9)
    ensures NormalizeToLetter(Some("b")) == Choice(1)
  {
  }

  /** "The answer is A" gives A: the 'h' and 'e' of "The" sit inside a word. */
  lemma AnswerIsExample()
    ensures NormalizeToLetter(Some("The answer is A")) == Choice(0)
  {
    var s := "The answer is A";
    assert forall j :: 0 <= j < 14 ==> !StandaloneAt(s, j);
    StandaloneTier(s, 14);
  }

  /** "Option C is correct" gives C. */
  lemma OptionIsExample()
    ensures NormalizeToLetter(Some("Option C is correct")) == Choice(2)
  {
    var s := "Option C is correct";
    assert forall j :: 0 <= j < 7 ==> !StandaloneAt(s, j);
    StandaloneTier(s, 7);
  }

  /** "CAT" has no standalone letter, so the fallback tier takes its first letter C. */
  lemma FallbackExample()
    ensures NormalizeToLetter(Some("CAT")) == Choice(2)
  {
  }
}
