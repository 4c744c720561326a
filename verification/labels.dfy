/** Ground-truth label resolution inside evaluate_model: a dataset label becomes a
    canonical letter among the sample's options, or the "" sentinel. */
module Labels {
  import opened Chars
  import opened Letters

  /** A dataset label: a string, an integer index, or any other value (None, a float, ...). */
  datatype Label = Text(s: string) | Index(i: int) | Other

  /** The label resolution of evaluate_model, with letters[k] = chr(ord('A') + k) for the
      n = |options| options: a string label whose upper-case form is one of the letters gives
      that letter, an integer label in [0, n) gives letters[label], anything else gives "".
      The option texts themselves are never compared with the label. */
  function ResolveLabel(truth: Label, options: seq<string>): (l: Letter)
    ensures l.Choice? ==> l.index < |options|
  {
    match truth
    case Text(s) =>
      var u := UpperStr(s);
      if |u| == 1 && 'A' <= u[0] && u[0] as int - 'A' as int < |options|
      then Choice(u[0] as int - 'A' as int)
      else Unresolved
    case Index(k) => if 0 <= k < |options| then Choice(k) else Unresolved
    case Other => Unresolved
  }

  /** A string label resolves exactly when it is one character whose upper-case form
      is the letter chr(ord('A') + k) of some option k, and then it resolves to Choice(k). */
  lemma TextLabelIff(s: string, options: seq<string>)
    ensures ResolveLabel(Text(s), options).Choice? <==>
      (|s| == 1 && exists k :: 0 <= k < |options| && Upper(s[0]) as int == LetterCode(k))
    ensures ResolveLabel(Text(s), options).Choice? ==>
      Upper(s[0]) as int == LetterCode(ResolveLabel(Text(s), options).index)
  {
    if |s| == 1 {
      var u := UpperStr(s);
      assert u[0] == Upper(s[0]);
      if ResolveLabel(Text(s), options).Choice? {
        var k := u[0] as int - 'A' as int;
        assert 0 <= k < |options| && Upper(s[0]) as int == LetterCode(k);
      }
    }
  }

  /** An integer label resolves exactly when it indexes an option, and then to its letter. */
  lemma IndexLabelIff(k: int, options: seq<string>)
    ensures ResolveLabel(Index(k), options).Choice? <==> 0 <= k < |options|
    ensures 0 <= k < |options| ==> ResolveLabel(Index(k), options).index == k
  {
  }

  /** The integer label k and the letter label chr(ord('A') + k), in either case, agree. */
  lemma IndexAndLetterAgree(k: nat, options: seq<string>)
    requires k < 10
    ensures ResolveLabel(Index(k), options) == ResolveLabel(Text(Spelling(Choice(k))), options)
    ensures ResolveLabel(Index(k), options) == ResolveLabel(Text([(0x61 + k) as char]), options)
  {
  }

  /** The cases pinned down by the unit tests, and a label equal to an option text. */
  lemma ResolveLabelExamples()
    ensures ResolveLabel(Text("B"), ["3", "4", "5"]) == Choice(1)
    ensures ResolveLabel(Index(1), ["Option A", "Option B", "Option C"]) == Choice(1)
    ensures ResolveLabel(Text("5"), ["3", "4", "5"]) == Unresolved
    ensures ResolveLabel(Text("Z"), ["3", "4"]) == Unresolved
    ensures ResolveLabel(Text("b"), ["x", "y"]) == Choice(1)
  {
  }
}
