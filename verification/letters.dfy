/** Canonical answer letters: the k-th option is the letter chr(ord('A') + k). */
module Letters {

  /** A canonical letter: Choice(k) is the one-character string chr(65 + k);
      Unresolved is the empty-string sentinel "". Two letters are equal exactly
      when their strings are. */
  datatype Letter = Unresolved | Choice(index: nat)

  /** The code point ord('A') + k of the k-th option's letter. */
  function LetterCode(k: nat): int {
    0x41 + k
  }

  /** Largest option index whose letter is a character below the surrogate range. */
  const MaxSpelledIndex: nat := 0xD800 - 0x42

  /** The string a letter stands for. */
  function Spelling(l: Letter): (s: string)
    requires l.Choice? ==> l.index <= MaxSpelledIndex
    ensures l.Unresolved? <==> s == ""
    ensures l.Choice? ==> |s| == 1 && s[0] as int - 'A' as int == l.index
  {
    match l
    case Unresolved => ""
    case Choice(k) => [(0x41 + k) as char]
  }
}
