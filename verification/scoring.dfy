/** Scoring in evaluate_model: count the positions where the true and the predicted
    letters agree and render the "<correct>/<total>" summary. */
module Scoring {
  import opened Wrappers
  import opened Chars
  import opened Letters

  /** Number of positions where the true and the predicted letter are equal
      (two "" sentinels are equal, so they count as a match). */
  function MatchCount(yTrue: seq<Letter>, yPred: seq<Letter>): (n: nat)
    requires |yTrue| == |yPred|
    ensures n <= |yTrue|
    decreases |yTrue|
  {
    if |yTrue| == 0 then 0
    else
      var last := |yTrue| - 1;
      MatchCount(yTrue[..last], yPred[..last]) + (if yTrue[last] == yPred[last] then 1 else 0)
  }

  /** The second loop of evaluate_model: walk both lists and count the matches. */
  method CountMatches(yTrue: seq<Letter>, yPred: seq<Letter>) returns (correct: nat)
    requires |yTrue| == |yPred|
    ensures correct == MatchCount(yTrue, yPred)
    ensures correct <= |yPred|
  {
    correct := 0;
    for i := 0 to |yTrue|
      invariant correct == MatchCount(yTrue[..i], yPred[..i])
    {
      assert yTrue[..i + 1][..i] == yTrue[..i] && yPred[..i + 1][..i] == yPred[..i];
      if yTrue[i] == yPred[i] {
        correct := correct + 1;
      }
    }
    assert yTrue[..|yTrue|] == yTrue && yPred[..|yPred|] == yPred;
  }

  /** The positions where the two lists agree. */
  ghost function MatchPositions(yTrue: seq<Letter>, yPred: seq<Letter>): set<int>
    requires |yTrue| == |yPred|
  {
    set i | 0 <= i < |yTrue| && yTrue[i] == yPred[i]
  }

  /** The match count is the number of positions where the lists agree. */
  lemma {:induction false} MatchCountIsPositions(yTrue: seq<Letter>, yPred: seq<Letter>)
    requires |yTrue| == |yPred|
    ensures MatchCount(yTrue, yPred) == |MatchPositions(yTrue, yPred)|
    decreases |yTrue|
  {
    if |yTrue| > 0 {
      var last := |yTrue| - 1;
      var a, b := yTrue[..last], yPred[..last];
      MatchCountIsPositions(a, b);
      var before := MatchPositions(a, b);
      assert last !in before;
      var now := if yTrue[last] == yPred[last] then before + {last} else before;
      forall i ensures i in MatchPositions(yTrue, yPred) <==> i in now {
        if 0 <= i < last { assert a[i] == yTrue[i] && b[i] == yPred[i]; }
      }
      assert MatchPositions(yTrue, yPred) == now;
    }
  }

  /** Every sample matches exactly when the two lists are equal. */
  lemma {:induction false} AllMatchIff(yTrue: seq<Letter>, yPred: seq<Letter>)
    requires |yTrue| == |yPred|
    ensures MatchCount(yTrue, yPred) == |yTrue| <==> yTrue == yPred
    decreases |yTrue|
  {
    if |yTrue| > 0 {
      var last := |yTrue| - 1;
      AllMatchIff(yTrue[..last], yPred[..last]);
      if yTrue == yPred {
        assert yTrue[..last] == yPred[..last];
      }
      if MatchCount(yTrue, yPred) == |yTrue| {
        assert yTrue == yTrue[..last] + [yTrue[last]] && yPred == yPred[..last] + [yPred[last]];
      }
    }
  }

  /** No sample matches exactly when the lists differ at every position. */
  lemma {:induction false} NoMatchIff(yTrue: seq<Letter>, yPred: seq<Letter>)
    requires |yTrue| == |yPred|
    ensures MatchCount(yTrue, yPred) == 0 <==> forall i :: 0 <= i < |yTrue| ==> yTrue[i] != yPred[i]
    decreases |yTrue|
  {
    if |yTrue| > 0 {
      var last := |yTrue| - 1;
      NoMatchIff(yTrue[..last], yPred[..last]);
      if MatchCount(yTrue, yPred) == 0 {
        forall i | 0 <= i < |yTrue| ensures yTrue[i] != yPred[i] {
          if i < last { assert yTrue[..last][i] == yTrue[i] && yPred[..last][i] == yPred[i]; }
        }
      }
      if forall i :: 0 <= i < |yTrue| ==> yTrue[i] != yPred[i] {
        forall i | 0 <= i < last ensures yTrue[..last][i] != yPred[..last][i] {
          assert yTrue[..last][i] == yTrue[i] && yPred[..last][i] == yPred[i];
        }
      }
    }
  }

  /** The counts the unit tests expect; the count depends on the order of the lists. */
  lemma MatchCountExamples()
    ensures MatchCount([Choice(0), Choice(1)], [Choice(0), Choice(1)]) == 2
    ensures MatchCount([Choice(0), Choice(1)], [Choice(1), Choice(0)]) == 0
    ensures MatchCount([Choice(1), Choice(1)], [Choice(1), Choice(0)]) == 1
    ensures MatchCount([Unresolved], [Unresolved]) == 1
  {
  }

  predicate AllDigits(s: string) {
    forall i :: 0 <= i < |s| ==> IsDigit(s[i])
  }

  /** The decimal digit character for d. */
  function Digit(d: nat): (c: char)
    requires d < 10
    ensures IsDigit(c) && c as int - '0' as int == d
  {
    ('0' as int + d) as char
  }

  /** The decimal text Python's f-string gives for a non-negative integer: no sign
      and no leading zero. */
  function Decimal(n: nat): (s: string)
    ensures |s| >= 1 && AllDigits(s)
    ensures s[0] == '0' ==> s == "0"
    decreases n
  {
    if n < 10 then [Digit(n)] else Decimal(n / 10) + [Digit(n % 10)]
  }

  /** The value of a string of decimal digits. */
  function ParseDecimal(s: string): nat
    requires AllDigits(s)
    decreases |s|
  {
    if s == [] then 0
    else 10 * ParseDecimal(s[..|s| - 1]) + (s[|s| - 1] as int - '0' as int)
  }

  lemma {:induction false} DecimalRoundTrip(n: nat)
    ensures ParseDecimal(Decimal(n)) == n
    decreases n
  {
    if n >= 10 {
      var s := Decimal(n);
      assert s[..|s| - 1] == Decimal(n / 10);
      DecimalRoundTrip(n / 10);
    }
  }

  /** correct_str: f"{correct_count}/{len(y_pred_letters)}". */
  function CorrectStr(correct: nat, total: nat): (s: string)
    ensures forall j :: 0 <= j < |s| ==> (s[j] == '/' <==> j == |Decimal(correct)|)
    ensures forall j :: 0 <= j < |s| && j != |Decimal(correct)| ==> IsDigit(s[j])
    ensures |s| >= |Decimal(correct)| + 2
    ensures s[|Decimal(correct)| + 1] == '0' ==> |s| == |Decimal(correct)| + 2
  {
    Decimal(correct) + "/" + Decimal(total)
  }

  /** Index of the first '/' at or after i (|s| if none). */
  function SlashIndex(s: string, i: nat): (k: nat)
    requires i <= |s|
    ensures i <= k <= |s|
    ensures k < |s| ==> s[k] == '/'
    ensures forall j :: i <= j < k ==> s[j] != '/'
    decreases |s| - i
  {
    if i == |s| || s[i] == '/' then i else SlashIndex(s, i + 1)
  }

  /** Reads back a "<correct>/<total>" summary: two non-empty digit strings around the first '/'. */
  function ParseCorrectStr(s: string): Option<(nat, nat)> {
    var k := SlashIndex(s, 0);
    if 0 < k < |s| - 1 && AllDigits(s[..k]) && AllDigits(s[k + 1..])
    then Some((ParseDecimal(s[..k]), ParseDecimal(s[k + 1..])))
    else None
  }

  /** The summary names the match count and the number of scored samples, in that
      order, and nothing else: reading it back gives both numbers. */
  lemma CorrectStrRoundTrip(correct: nat, total: nat)
    ensures ParseCorrectStr(CorrectStr(correct, total)) == Some((correct, total))
  {
    var a, b := Decimal(correct), Decimal(total);
    var s := CorrectStr(correct, total);
    forall j | 0 <= j < |a| ensures s[j] != '/' {
      assert s[j] == a[j] && IsDigit(a[j]);
    }
    assert s[|a|] == '/';
    assert SlashIndex(s, 0) == |a|;
    assert s[..|a|] == a && s[|a| + 1..] == b;
    DecimalRoundTrip(correct);
    DecimalRoundTrip(total);
  }

  /** With fewer than ten scored samples the total is one digit (as the cap test checks). */
  lemma SmallTotalIsOneDigit(correct: nat, total: nat)
    requires total < 10
    ensures CorrectStr(correct, total)[|Decimal(correct)| + 1..] == [Digit(total)]
  {
  }
}
