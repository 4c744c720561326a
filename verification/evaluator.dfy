/** evaluate_model: run the prediction service over the dataset up to a sample cap,
    resolve and normalize letters, and score them. */
module Evaluator {
  import opened Wrappers
  import Chars
  import opened Letters
  import opened Normalizer
  import opened Labels
  import opened Scoring

  /** The image handed to the prediction service, if any; its content is opaque here. */
  datatype Image = NoImage | Picture(bytes: seq<bv8>)

  /** One dataset record, as the dataset loader yields it. */
  datatype Sample = Sample(question: string, image: Image, options: seq<string>, answer: Label)

  /** The arguments of one model.predict(question, image, options) call. */
  datatype Query = Query(question: string, image: Image, options: seq<string>)

  /** The prediction service: the response to the call-th call (counting from 0) made
      with the given arguments. None stands for a None response. */
  type Oracle = (nat, Query) -> Option<string>

  /** The result: accuracy as the pair correct/total, and the summary string. */
  datatype EvaluationResult = EvaluationResult(correct: nat, total: nat, correctStr: string)

  function QueryOf(sample: Sample): Query {
    Query(sample.question, sample.image, sample.options)
  }

  /** The samples that are not skipped (non-empty options), in dataset order. */
  function Eligible(dataset: seq<Sample>): (e: seq<Sample>)
    ensures |e| <= |dataset|
    ensures forall k :: 0 <= k < |e| ==> e[k].options != []
    decreases |dataset|
  {
    if dataset == [] then []
    else (if dataset[0].options == [] then [] else [dataset[0]]) + Eligible(dataset[1..])
  }

  /** A sample is kept exactly when it is in the dataset and has options. */
  lemma {:induction false} EligibleMembers(dataset: seq<Sample>)
    ensures forall s :: s in Eligible(dataset) <==> s in dataset && s.options != []
    decreases |dataset|
  {
    if dataset != [] {
      EligibleMembers(dataset[1..]);
      assert dataset == [dataset[0]] + dataset[1..];
    }
  }

  /** The positions of the dataset that hold a sample with options. */
  ghost function EligiblePositions(dataset: seq<Sample>): set<int> {
    set k | 0 <= k < |dataset| && dataset[k].options != []
  }

  /** How many samples a run processes: the cap, but never below 0 nor above what is there. */
  function Budget(maxSamples: int, available: nat): (b: nat)
    ensures b <= available
    ensures maxSamples >= 0 ==> b <= maxSamples
    ensures maxSamples <= 0 ==> b == 0
    ensures maxSamples > 0 ==> b == available || b == maxSamples
  {
    if maxSamples <= 0 then 0 else if maxSamples < available then maxSamples else available
  }

  /** The samples a run processes: the first eligible ones, up to the cap. */
  function Processed(dataset: seq<Sample>, maxSamples: int): (p: seq<Sample>)
    ensures p <= Eligible(dataset)
    ensures maxSamples <= 0 ==> p == []
    ensures maxSamples > 0 ==> |p| == maxSamples || p == Eligible(dataset)
    ensures maxSamples >= 0 ==> |p| <= maxSamples
  {
    var e := Eligible(dataset);
    e[..Budget(maxSamples, |e|)]
  }

  /** The true letter of each processed sample. */
  function TrueLetters(samples: seq<Sample>): (ys: seq<Letter>)
    ensures |ys| == |samples|
    ensures forall k :: 0 <= k < |ys| ==> ys[k].Choice? ==> ys[k].index < |samples[k].options|
  {
    seq(|samples|, k requires 0 <= k < |samples| => ResolveLabel(samples[k].answer, samples[k].options))
  }

  /** The predicted letter of each processed sample: the k-th predict call answers the k-th sample. */
  function PredLetters(predict: Oracle, samples: seq<Sample>): (ys: seq<Letter>)
    ensures |ys| == |samples|
    ensures forall k :: 0 <= k < |ys| ==> ys[k].Choice? ==> ys[k].index < 10
  {
    var ys := seq(|samples|, k requires 0 <= k < |samples| => NormalizeToLetter(predict(k, QueryOf(samples[k]))));
    assert forall k :: 0 <= k < |ys| ==> ys[k] == NormalizeToLetter(predict(k, QueryOf(samples[k])));
    ys
  }

  lemma {:induction false} EligibleAppend(a: seq<Sample>, b: seq<Sample>)
    ensures Eligible(a + b) == Eligible(a) + Eligible(b)
    decreases |a|
  {
    if a != [] {
      assert (a + b)[1..] == a[1..] + b;
      EligibleAppend(a[1..], b);
    } else {
      assert a + b == b;
    }
  }

  /** Every sample with options is kept: as many samples are kept as there are
      positions holding a sample with options. */
  lemma {:induction false} EligibleCount(dataset: seq<Sample>)
    ensures |Eligible(dataset)| == |EligiblePositions(dataset)|
    decreases |dataset|
  {
    if dataset != [] {
      var last := |dataset| - 1;
      var front := dataset[..last];
      EligibleCount(front);
      EligibleAppend(front, [dataset[last]]);
      assert front + [dataset[last]] == dataset;
      assert Eligible([dataset[last]]) == if dataset[last].options == [] then [] else [dataset[last]] by {
        assert [dataset[last]][1..] == [];
      }
      var before := EligiblePositions(front);
      assert last !in before;
      var now := if dataset[last].options == [] then before else before + {last};
      forall k ensures k in EligiblePositions(dataset) <==> k in now {
        if 0 <= k < last { assert front[k] == dataset[k]; }
      }
      assert EligiblePositions(dataset) == now;
    }
  }

  /** One more sample of the dataset adds itself to the kept samples exactly when it has options. */
  lemma EligibleSnoc(dataset: seq<Sample>, i: nat)
    requires i < |dataset|
    ensures Eligible(dataset[..i + 1])
         == Eligible(dataset[..i]) + (if dataset[i].options == [] then [] else [dataset[i]])
  {
    EligibleAppend(dataset[..i], [dataset[i]]);
    assert dataset[..i + 1] == dataset[..i] + [dataset[i]];
    assert [dataset[i]][1..] == [];
  }

  /** Appending one processed sample appends its true and predicted letters. */
  lemma LettersSnoc(predict: Oracle, samples: seq<Sample>, sample: Sample)
    ensures TrueLetters(samples + [sample]) == TrueLetters(samples) + [ResolveLabel(sample.answer, sample.options)]
    ensures PredLetters(predict, samples + [sample])
         == PredLetters(predict, samples) + [NormalizeToLetter(predict(|samples|, QueryOf(sample)))]
  {
  }

  /** Where the first loop stops (the end of the dataset, or the cap), the samples it has
      taken are exactly the processed ones. */
  lemma {:induction false} StopPoint(dataset: seq<Sample>, i: nat, maxSamples: int)
    requires i <= |dataset|
    requires |Eligible(dataset[..i])| == 0 || |Eligible(dataset[..i])| <= maxSamples
    requires i == |dataset| || |Eligible(dataset[..i])| >= maxSamples
    ensures Processed(dataset, maxSamples) == Eligible(dataset[..i])
  {
    EligibleAppend(dataset[..i], dataset[i..]);
    assert dataset == dataset[..i] + dataset[i..];
    if i == |dataset| {
      assert dataset[i..] == [];
    }
  }

  /** The first loop of evaluate_model: for each sample, stop at the cap, skip empty
      option lists, otherwise call predict once and record the true and predicted letters. */
  method CollectLetters(predict: Oracle, dataset: seq<Sample>, maxSamples: int)
    returns (yTrue: seq<Letter>, yPred: seq<Letter>, ghost calls: seq<Query>)
    ensures |yTrue| == |yPred| == |calls| == |Processed(dataset, maxSamples)|
    ensures maxSamples >= 0 ==> |yPred| <= maxSamples
    ensures forall k :: 0 <= k < |calls| ==> calls[k] == QueryOf(Processed(dataset, maxSamples)[k])
    ensures yTrue == TrueLetters(Processed(dataset, maxSamples))
    ensures yPred == PredLetters(predict, Processed(dataset, maxSamples))
  {
    yTrue, yPred, calls := [], [], [];
    var processed := 0;
    var i := 0;
    ghost var taken: seq<Sample> := [];
    while i < |dataset|
      invariant 0 <= i <= |dataset|
      invariant taken == Eligible(dataset[..i])
      invariant processed == |yTrue| == |yPred| == |calls| == |taken|
      invariant processed == 0 || processed <= maxSamples
      invariant forall k :: 0 <= k < processed ==> calls[k] == QueryOf(taken[k])
      invariant yTrue == TrueLetters(taken)
      invariant yPred == PredLetters(predict, taken)
    {
      if processed >= maxSamples {
        break;
      }
      var sample := dataset[i];
      EligibleSnoc(dataset, i);
      if sample.options != [] {
        var query := Query(sample.question, sample.image, sample.options);
        var response := predict(processed, query);
        var predLetter := NormalizeToLetter(response);
        var trueLetter := ResolveLabel(sample.answer, sample.options);
        LettersSnoc(predict, taken, sample);
        yTrue := yTrue + [trueLetter];
        yPred := yPred + [predLetter];
        calls := calls + [query];
        taken := taken + [sample];
        processed := processed + 1;
      }
      i := i + 1;
    }
    StopPoint(dataset, i, maxSamples);
  }

  /** evaluate_model(model, dataset, max_samples): collect the letters, count the
      matches and report "<correct>/<total>". */
  method EvaluateModel(predict: Oracle, dataset: seq<Sample>, maxSamples: int := 50)
    returns (result: EvaluationResult)
    ensures result.total == |Processed(dataset, maxSamples)|
    ensures maxSamples >= 0 ==> result.total <= maxSamples
    ensures result.correct == MatchCount(TrueLetters(Processed(dataset, maxSamples)),
                                         PredLetters(predict, Processed(dataset, maxSamples)))
    ensures result.correct <= result.total
    ensures result.correctStr == CorrectStr(result.correct, result.total)
  {
    var yTrue, yPred, calls := CollectLetters(predict, dataset, maxSamples);
    var correct := CountMatches(yTrue, yPred);
    result := EvaluationResult(correct, |yPred|, CorrectStr(correct, |yPred|));
  }

  /** A sample with no options is skipped without using up any of the cap. */
  lemma SkipKeepsBudget(sample: Sample, rest: seq<Sample>, maxSamples: int)
    requires sample.options == []
    ensures Processed([sample] + rest, maxSamples) == Processed(rest, maxSamples)
  {
  }

  /** A sample with options is processed first when the cap allows one more, and the
      rest of the run has one sample less of budget. */
  lemma ProcessedConsumesBudget(sample: Sample, rest: seq<Sample>, maxSamples: int)
    requires sample.options != [] && maxSamples >= 1
    ensures Processed([sample] + rest, maxSamples) == [sample] + Processed(rest, maxSamples - 1)
  {
  }

  /** The number of processed samples is the cap or the number of dataset positions
      holding a sample with options, whichever is smaller (0 for a cap of 0 or below). */
  lemma ProcessedCount(dataset: seq<Sample>, maxSamples: int)
    ensures var n := |EligiblePositions(dataset)|;
      |Processed(dataset, maxSamples)| == if maxSamples <= 0 then 0 else if maxSamples < n then maxSamples else n
    ensures forall k :: 0 <= k < |Processed(dataset, maxSamples)| ==> Processed(dataset, maxSamples)[k].options != []
  {
    EligibleCount(dataset);
  }

  /** The end-to-end scenario of the unit tests: two samples labelled "B" and a service
      that always answers "B" score 2 out of 2; a cap of 1 scores one sample. */
  lemma TwoSampleScenario()
    ensures var dataset := [Sample("What is 2+2?", NoImage, ["3", "4", "5"], Text("B")),
                            Sample("What is 3+3?", NoImage, ["5", "6", "7"], Text("B"))];
      var predict: Oracle := (call, q) => Some("B");
      |Processed(dataset, 2)| == 2 &&
      MatchCount(TrueLetters(Processed(dataset, 2)), PredLetters(predict, Processed(dataset, 2))) == 2 &&
      |Processed(dataset, 1)| == 1
  {
    var s1 := Sample("What is 2+2?", NoImage, ["3", "4", "5"], Text("B"));
    var s2 := Sample("What is 3+3?", NoImage, ["5", "6", "7"], Text("B"));
    var dataset := [s1, s2];
    var predict: Oracle := (call, q) => Some("B");
    ProcessedConsumesBudget(s1, [s2], 2);
    ProcessedConsumesBudget(s2, [], 1);
    ProcessedConsumesBudget(s1, [s2], 1);
    assert [s1] + [s2] == dataset;
    var p := Processed(dataset, 2);
    assert p == [s1, s2];
    StandaloneTier("B", 0);
    ResolveLabelExamples();
    assert ResolveLabel(s2.answer, s2.options) == Choice(1) by {
      assert Chars.UpperStr("B") == "B";
    }
    var ts, ps := TrueLetters(p), PredLetters(predict, p);
    assert ts == ps;
    AllMatchIff(ts, ps);
  }

  /** The skip scenario of the unit tests: an empty-options sample in front of one
      real sample leaves exactly one predict call under a cap of 2. */
  lemma SkipScenario()
    ensures |Processed([Sample("Question?", NoImage, [], Text("A")),
                        Sample("Another?", NoImage, ["A", "B"], Text("A"))], 2)| == 1
  {
  }
}
