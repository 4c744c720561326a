# Verified model of the A2 benchmark evaluator

The A2 benchmark harness asks a multimodal model multiple-choice questions and scores
its answers. Its logic lives in `A2/evaluator.py`, and this project models that file in Dafny:

- `normalize_to_letter` turns a free-text response into one answer letter A..J. It strips
  the text, then looks for a *standalone* letter (a regex `\b([A-Ja-j])\b` match). If none
  is found, it falls back to the first `[A-Ja-j]` anywhere in the text. The match is
  upper-cased. Modelled in `normalizer.dfy` as pure functions with lemmas.
- `evaluate_model` loops over the dataset. It stops at the sample cap and skips samples
  without options. For each remaining sample it resolves the ground-truth label, calls
  `model.predict` once and normalizes the response. A second loop then counts matching
  letters, and the result is reported as `"<correct>/<total>"`. Modelled in
  `evaluator.dfy` (first loop, cap, skip), `labels.dfy` (label resolution) and
  `scoring.dfy` (second loop and summary string). Each loop is a method proved against
  specification functions.

Representation choices:

- A letter is the datatype `Letter = Unresolved | Choice(index)`. `Choice(k)` stands for
  the one-character string `chr(ord('A') + k)` and `Unresolved` for the `""` sentinel.
  Two letters are equal exactly when the Python strings are, so `""` matches `""` as in
  the source. `Letters.Spelling` gives back the string.
- The prediction service is an oracle `(nat, Query) -> Option<string>`. It gives the
  response to the k-th call, made with the arguments `(question, image, options)`.
  `None` stands for a `None` response. Because the call number is an argument, the oracle
  can answer the same question differently on different calls, as a stateful client can.
- A label is the tagged union `Text(s) | Index(i) | Other`.
- Accuracy is the integer pair `(correct, total)`.

The code follows its own rule for labels, and so does the model. A string label is
matched only against the option *letters*. It is never matched against the option
*texts*: the label `"5"` with options `["3","4","5"]` resolves to `""`, not to `C`
(`Labels.ResolveLabelExamples`), as the code at `A2/evaluator.py:41-46` does.

## Model

| member | source | states |
|---|---|---|
| `Normalizer.NormalizeToLetter` | A2/evaluator.py:5-15 | None or "" give the "" sentinel; every result is "" or a letter in A..J |
| `Chars.IsSpace` | A2/evaluator.py:10 | the whitespace set that str.strip() removes (Python's str.isspace); whitespace is never a word character |
| `Normalizer.Strip` | A2/evaluator.py:10 | str.strip(): the result is a slice s[lo..hi] of the input with only whitespace outside it, and it neither starts nor ends with whitespace |
| `Normalizer.StandaloneAt` | A2/evaluator.py:11 | the match condition of \b([A-Ja-j])\b at one position: an A-J/a-j (itself a word character) with no word character directly before or after |
| `Normalizer.FirstStandalone` | A2/evaluator.py:11-13 | the first-tier search returns the leftmost position where a letter A-J/a-j has no word character on either side, or "none" when there is no such position |
| `Normalizer.FirstChoice` | A2/evaluator.py:14-15 | the fallback search returns the leftmost A-J/a-j character, or "none" |
| `Normalizer.LetterOf` | A2/evaluator.py:13 | a matched character gives the upper-case letter, one of A..J |
| `Normalizer.Extract` | A2/evaluator.py:11-15 | the two-tier search always yields "" or a letter within A..J |
| `Normalizer.ExtractIgnoresPadding` | A2/evaluator.py:10-15 | non-word characters around a text change neither search, so they do not change the answer |
| `Normalizer.StripDoesNotMatter` | A2/evaluator.py:10-15 | for a non-empty response the answer equals the two-tier search on the unstripped text |
| `Normalizer.StandaloneTier` | A2/evaluator.py:11-13 | if the response has a standalone A-J/a-j, the answer is the upper case of the leftmost one |
| `Normalizer.FallbackTier` | A2/evaluator.py:14-15 | with no standalone letter, the answer is the upper case of the first A-J/a-j character anywhere |
| `Normalizer.UnresolvedIff` | A2/evaluator.py:11-15 | the answer is "" exactly when the response contains no A-J/a-j character (both directions) |
| `Normalizer.NormalizeIgnoresCase` | A2/evaluator.py:11-15 | two responses that differ only in letter case get the same answer |
| `Normalizer.NormalizeIgnoresPadding` | A2/evaluator.py:10 | leading and trailing whitespace do not change the answer ("  A  ", "\nB\n") |
| `Normalizer.NormalizeIdempotent` | A2/evaluator.py:7-15 | normalizing the string of a normalized answer gives the same answer back |
| `Normalizer.BareLetterExamples` | A2/tests/test_evaluator.py:13-23 | "J" gives J and "b" gives B |
| `Normalizer.AnswerIsExample` | A2/tests/test_evaluator.py:27 | "The answer is A" gives A, even though "The" contains h and e |
| `Normalizer.OptionIsExample` | A2/tests/test_evaluator.py:29 | "Option C is correct" gives C |
| `Normalizer.FallbackExample` | A2/evaluator.py:14-15 | "CAT" has no standalone letter, and the fallback gives C |
| `Chars.Upper` | A2/evaluator.py:13 | upper-casing maps A-J/a-j into A..J and keeps whitespace, word and letter classes |
| `Chars.UpperStr` | A2/evaluator.py:41 | label.upper(): same length, every character upper-cased, no lower-case ASCII letter left |
| `Letters.Spelling` | A2/evaluator.py:36 | Choice(k) is the one-character string chr(ord('A')+k); Unresolved is "" |
| `Labels.ResolveLabel` | A2/evaluator.py:36-46 | a resolved label is always the letter of an existing option (index below len(options)) |
| `Labels.TextLabelIff` | A2/evaluator.py:41-42 | a string label resolves iff it is one character whose upper case is the letter of some option; it then resolves to that letter |
| `Labels.IndexLabelIff` | A2/evaluator.py:43-44 | an integer label resolves iff 0 <= label < len(options); it then resolves to letters[label] |
| `Labels.IndexAndLetterAgree` | A2/evaluator.py:36-44 | the index k and the letter chr(ord('A')+k), in either case, resolve alike |
| `Labels.ResolveLabelExamples` | A2/evaluator.py:41-46 | "B" gives B; 1 gives B; option text "5" gives ""; "Z" with two options gives "" |
| `Scoring.MatchCount` | A2/evaluator.py:54-60 | the match count never exceeds the number of samples |
| `Scoring.CountMatches` | A2/evaluator.py:54-60 | the counting loop returns MatchCount of the two lists, at most len(y_pred_letters) |
| `Scoring.MatchCountIsPositions` | A2/evaluator.py:56-60 | the count equals the number of positions i with y_true[i] == y_pred[i] |
| `Scoring.AllMatchIff` | A2/evaluator.py:59-60 | every sample counts as correct exactly when the two lists are equal |
| `Scoring.NoMatchIff` | A2/evaluator.py:59-60 | no sample counts as correct exactly when the lists differ at every position |
| `Scoring.MatchCountExamples` | A2/tests/test_evaluator.py:68-103 | 2/2 for equal lists, 0/2 for swapped ones, 1/2 for one miss, "" against "" is a match |
| `Scoring.Decimal` | A2/evaluator.py:64 | an integer is printed as a non-empty string of digits without a leading zero |
| `Scoring.DecimalRoundTrip` | A2/evaluator.py:64 | reading the printed digits back gives the number |
| `Scoring.CorrectStr` | A2/evaluator.py:64 | f"{correct_count}/{len(y_pred_letters)}": exactly one '/', right after the digits of the match count, at least one digit after it, a leading '0' there only as the whole total, and digits everywhere else |
| `Scoring.CorrectStrRoundTrip` | A2/evaluator.py:64 | correct_str splits at its only '/' into exactly the match count and the number of samples |
| `Scoring.SmallTotalIsOneDigit` | A2/tests/test_evaluator.py:115 | with fewer than ten samples, the part after '/' is one digit |
| `Evaluator.Eligible` | A2/evaluator.py:32-33 | the samples kept are no more than the dataset's, and all have non-empty options |
| `Evaluator.EligibleMembers` | A2/evaluator.py:32-33 | a sample is kept exactly when it is in the dataset and has non-empty options (both directions) |
| `Evaluator.EligibleCount` | A2/evaluator.py:32-33 | as many samples are kept as there are dataset positions holding a sample with options |
| `Evaluator.Budget` | A2/evaluator.py:24-25 | the number of processed samples: 0 for a cap of 0 or below, otherwise the cap or the number available, never more than either |
| `Evaluator.Processed` | A2/evaluator.py:23-51 | the samples the first loop takes are a prefix of the kept samples: none for a cap of 0 or below, otherwise exactly max_samples of them or all of them |
| `Evaluator.TrueLetters` | A2/evaluator.py:41-46 | one true letter per processed sample, each "" or the letter of one of that sample's options |
| `Evaluator.PredLetters` | A2/evaluator.py:38-39 | one predicted letter per processed sample (the k-th predict call answers the k-th sample), each "" or within A..J |
| `Evaluator.CollectLetters` | A2/evaluator.py:19-53 | the first loop calls predict exactly once per processed sample, in dataset order, with (question, image, options); both lists have one entry per processed sample; at most max_samples entries; each entry is the resolved label and the normalized response |
| `Evaluator.EvaluateModel` | A2/evaluator.py:18-65 | max_samples defaults to 50; total is the number of processed samples (at most max_samples); correct is the match count of the true and predicted letters, at most total; correct_str is "<correct>/<total>" |
| `Evaluator.SkipKeepsBudget` | A2/evaluator.py:32-33 | a sample with no options is skipped without using up any of the cap |
| `Evaluator.ProcessedConsumesBudget` | A2/evaluator.py:23-51 | a sample with options, under a cap of at least 1, is processed first and leaves the rest one sample less of cap |
| `Evaluator.ProcessedCount` | A2/evaluator.py:21-51 | the number processed is min(max_samples, number of dataset positions holding a sample with options), or 0 for a cap of 0 or less; all of them have options |
| `Evaluator.TwoSampleScenario` | A2/tests/test_evaluator.py:48-77 | two "B"-labelled samples and a service answering "B" score 2 of 2; a cap of 1 processes one sample |
| `Evaluator.SkipScenario` | A2/tests/test_evaluator.py:118-142 | an empty-options sample in front of a real one leaves one processed sample under a cap of 2 |

## Left out

- Normalizer.NormalizeToLetter: word characters are ASCII letters, digits and `_`. Python's
  `\b` also counts non-ASCII letters and digits (for example `é`) as word characters. A
  letter next to one of them is standalone here but not in the source.
- Labels.ResolveLabel: `str.upper` is modelled as ASCII case mapping. Python also maps
  some non-ASCII characters onto A..J (`'ı'.upper()` is `'I'`). Such labels resolve in
  the source but not here.
- Letters.Spelling: requires the letter's code point to lie below the surrogate range
  (index at most 55230), because a Dafny char cannot be a surrogate while Python's `chr`
  can return one. Spelling is only used for answers A..J; resolution itself has no such bound.
- Labels.ResolveLabel: for a sample with more than 1,114,047 options, `chr` raises
  `ValueError` in the source. The model resolves such a sample as if the letters went on.
- Labels.ResolveLabel: the source treats `True`/`False` labels as the integers 1/0 (a
  `bool` is an `int` in Python). The tagged union leaves that to the caller, who can
  pass `Index(1)` or `Index(0)`.
- Normalizer.NormalizeToLetter: `str(pred)` on a non-string, truthy response is not
  modelled. The response is a string or `None`.
- Evaluator.EvaluateModel: `compute_accuracy` (sklearn's `accuracy_score`) and the
  float `round(acc, 4)` are left out. Accuracy is the pair (correct, total); when
  total > 0 it is correct / total. What sklearn does on empty lists is not modelled.
- The tqdm progress bar and every `print` diagnostic are observability only and are
  left out.
- The prediction service (`A2/model_interface.py`) is the oracle parameter. The HTTP
  call, image encoding and the catch-all that turns errors into `""` are not part of this
  model; the oracle may return `""`. The record of calls is a ghost output.
- Images are opaque (`Image`). The sample `id` is not used by the evaluator and is not
  modelled.
- The dataset loader (`A2/data_loader.py`, a wrapper over `ast.literal_eval` and
  HuggingFace I/O) and the command line (`A2/run_benchmark.py`) are not part of this
  model. Samples arrive already parsed.
