# MAD-HYPE result evaluation, modelled in Dafny

This project models how MAD-HYPE scores a clonal-pair solver against a
known repertoire. It covers `analyze_results` in `post_processing.py`, and
the input guard and joint classification of `compare_results`.

A solver returns candidates. Each candidate has a clone id, a confidence
score and a predicted frequency (the metadata's `'ij'` entry). The
evaluation runs in five stages:

1. **Ranking** (module `Ranking`). A stable sort by descending key ranks
   the candidates by score and the ground-truth clones by true frequency.
2. **FDR scan** (`FdrScan`). This walks the ranked list. It grows a curve
   of (false, true) identification counts. It stops at the first candidate
   after which `false > fdr * true`, and that candidate counts as accepted.
3. **Aggregation** (`Metrics`). It builds:
   - a 0/1 pattern over the ground-truth clones;
   - the frequency-weighted covered fraction;
   - the split of every clone into positive-matched, negative-matched or
     non-matched frequency pairs.
4. **Confidence rescale** (`Confidence`). A min-max rescale of the
   positive matches' log-confidences.
5. **Result record** (`Analysis`). The record holds everything above, plus
   the positive, negative and total counts.

`Analysis.Evaluate` is the specification of the whole routine.
`Analysis.AnalyzeResults` is the imperative version, proved equal to it.
Two parts of it are methods with loops:
- the scan, `FdrScan.Scan`;
- the assignment loop, `Metrics.Partition`.

`Comparison` models the guard of `compare_results` and its sorting of the
clone indices into four joint classes.

Modelling choices:
- **Ground-truth order.** The ground truth is the dictionary
  `cells: map<CloneId, real>` together with `order`, the dictionary's
  iteration order. `order` lists each key exactly once (`IsKeyOrder`). The
  frequency sort is stable, so `order` decides how equal frequencies are
  ordered.
- **Repeated candidate ids.** The dictionaries built from the ranked list
  keep the last candidate with a given id. `Clones.Lookup` models that, so
  repeated ids need no precondition. Only `PositivesAreTrueCount` asks for
  distinct ids, because with repeats the two counts can differ.
- **Logarithm.** The base-10 logarithm is a parameter, `log10: real -> real`.
- **Equal log-confidences.** When all positive log-confidences are equal,
  the rescale divides zero by zero. This always happens with a single
  positive match. numpy float division then yields NaN for every entry and
  raises no error. `Confidence.NotANumber(n)` stands for that list of `n`
  NaNs.
- **Warning.** The source prints a warning when the scan never reaches the
  target. Here it is the returned boolean `warning`.

Points where the model follows what the code does, rather than what one
might expect of such an evaluation:
- **Equal log-confidences give NaN, not a constant.** The rescale at
  `post_processing.py:104-106` divides by `max - min` unguarded. The model
  keeps numpy's NaN result (`Confidence.Normalize`) and does not substitute
  a value such as 0.5.
- **The scan stops on a false identification while the true count is
  zero.** The test at line 66 is `x1[-1] > fdr * y1[-1]`, and `1 > fdr * 0`
  holds for every target. So a false identification before any true one
  ends the scan (`FdrScan.FalseBeforeAnyTrueStops`); it is not skipped.
- **The crossing candidate is accepted.** The point is appended before the
  test, so `x1[-1] + y1[-1]` counts the candidate that crossed the target.
  In the example A, X, B with ground truth A 0.5, B 0.3, C 0.2 and target
  0.5, the scan stops after X at (1, 1). That gives pattern [1, 0, 0],
  covered fraction 0.5, and B as a negative match
  (`Analysis.WorkedExample`).
- **Duplicate candidate ids are never rejected.** The dictionaries at
  lines 87-90 keep the last candidate with a given id on each side of the
  cut, and the model resolves ids the same way (`Clones.Lookup`,
  `Metrics.PlaceOf`).
- **A wrong number of results is not an error.** `compare_results` returns
  `None` when it is not given exactly two results (lines 270-272); only
  differing frequency lists fail an assertion (line 275). The model returns
  `WrongCount` and `FreqsDiffer` respectively (`Comparison.CompareResults`).

## Model

| member | source | states |
|---|---|---|
| Ranking.SortDesc | post_processing.py:44-48 | Python's stable `sorted` with a negated key, used for the candidates (line 44) and the ground truth (line 48); its contract is stated by `SortDescPermutes`, `SortDescIsStable` and `StableSortIsUnique` |
| Ranking.SortDescPermutes | post_processing.py:44 | the ranked list holds exactly the input elements (same multiset) |
| Ranking.SortDescIsStable | post_processing.py:44 | the ranked list never increases in key, and each group of equal keys keeps its input order |
| Ranking.StableSortIsUnique | post_processing.py:44 | any list ordered by descending key that keeps ties in input order is the one `SortDesc` gives, so `SortDesc` models Python's stable `sorted` |
| Analysis.GroundTruthOrder | post_processing.py:48-52 | the frequency-sorted ground truth has one distinct label per dictionary key, each label paired with its own frequency, and the frequencies never increase |
| Analysis.TruthByFreq | post_processing.py:48-51 | the dictionary's items sorted by descending frequency; `GroundTruthOrder` states what it holds |
| Clones.Lookup | post_processing.py:87-90 | the dictionary lookup finds nothing exactly when no candidate has the id; otherwise it finds the last candidate with that id |
| FdrScan.FalseCurve | post_processing.py:55-65 | the list `x1` up to a given point: the false counts of the growing prefixes; `CurveShape`, `CurveNonDecreasing` and `Scan` state its properties |
| FdrScan.TrueCurve | post_processing.py:55-65 | the list `y1` up to a given point: the true counts of the growing prefixes; stated by the same lemmas as `FalseCurve` |
| FdrScan.Violates | post_processing.py:66 | the stopping test `false > fdr * true` on a prefix; `Accepted`, `FirstViolationIsAccepted` and `FalseBeforeAnyTrueStops` state where it first holds |
| FdrScan.Scan | post_processing.py:55-73 | the scan's curve is the (false, true) count curve over the first `Accepted` candidates, and the warning stays set exactly when no prefix violates the target |
| FdrScan.StopAfter | post_processing.py:58-68 | the first violating prefix length after `k`, or the list length: no prefix in between violates |
| FdrScan.Accepted | post_processing.py:66-73 | when some prefix violates, the accepted count is the 1-based rank of the first violating candidate, that candidate included; otherwise it is the whole list |
| FdrScan.CountsAddUp | post_processing.py:58-65 | every scanned candidate is either a false or a true identification |
| FdrScan.CurveShape | post_processing.py:55-65 | the curve starts at (0, 0); each candidate adds one to the true count if its id is a ground-truth key and to the false count otherwise; the last point's coordinates add up to the number of candidates scanned |
| FdrScan.CurveNonDecreasing | post_processing.py:58-65 | neither coordinate of the curve ever decreases |
| FdrScan.FirstViolationIsAccepted | post_processing.py:66-68 | the first violating rank is the accepted count |
| FdrScan.NeverViolated | post_processing.py:66-73 | when no prefix violates, the target is not reached and the whole list is accepted |
| FdrScan.FalseBeforeAnyTrueStops | post_processing.py:66-68 | a false identification that comes before any true one stops the scan, whatever the target |
| Metrics.Pattern | post_processing.py:78-79 | one bit per ground-truth clone; the bit is 1 when the clone's id is accepted (`PatternMeaning`, `PatternCountsAccepted`) |
| Metrics.FracRepertoire | post_processing.py:75-77 | the sum of the accepted clones' true frequencies (`FracIsPatternWeighted`, `FracRepertoireBounds`) |
| Metrics.FracIsPatternWeighted | post_processing.py:75-79 | the covered fraction is the sum of the true frequencies of exactly the clones whose pattern bit is 1 |
| Metrics.MaskedSumBounds | post_processing.py:75-77 | with non-negative frequencies, such a masked sum lies between 0 and the sum of all frequencies |
| Metrics.PatternCountsAccepted | post_processing.py:78-79 | the number of set pattern bits is the number of clones whose id is accepted |
| Metrics.PlaceOf | post_processing.py:93-101 | a clone is positive exactly when an accepted candidate names it, negative exactly when only a rejected one does, and non-matched exactly when none does; the matching candidate is the last with that id on its side of the cut |
| Metrics.PositiveMatched | post_processing.py:93-96 | the positive-matched pairs (true frequency, accepted candidate's predicted frequency) in ground-truth order; `PlaceOf` decides membership, and `PartitionIsExhaustive` and `PositivesFollowPattern` state its size |
| Metrics.PositiveLogScores | post_processing.py:93-96 | the log-confidences of the positive matches, one per positive pair (`PartitionIsExhaustive`) |
| Metrics.NegativeMatched | post_processing.py:97-99 | the pairs of clones named only by a rejected candidate (`PlaceOf`, `PartitionIsExhaustive`) |
| Metrics.NonMatchedPairs | post_processing.py:100-101 | the pairs `(f, f)` of clones no candidate names (`PlaceOf`, `PartitionIsExhaustive`) |
| Metrics.Partition | post_processing.py:93-101 | the assignment loop builds exactly the positive, negative and non-matched lists and the positive log-confidences of the specification |
| Metrics.PartitionIsExhaustive | post_processing.py:93-101 | the three lists' lengths add up to the number of clones; there is one log-confidence per positive match; a non-matched pair repeats the true frequency |
| Metrics.PositivesFollowPattern | post_processing.py:93-96 | there is one positive-matched pair per set pattern bit |
| Confidence.Normalize | post_processing.py:104-106 | the rescaled list keeps the length; it is NaN throughout exactly when the list is non-empty and its min equals its max |
| Confidence.RescaleFacts | post_processing.py:104-106 | a value between min and max rescales into [0, 1]; the min goes to 0 and the max to 1; the value is recovered as `min + r * (max - min)` |
| Confidence.RescaledAt | post_processing.py:104-106 | when min < max, every rescaled confidence lies in [0, 1], a smallest one is 0 and a largest one is 1 |
| Confidence.RescaleKeepsOrder | post_processing.py:104-106 | the rescale keeps the order of the log-confidences |
| Analysis.Evaluate | post_processing.py:23-129 | the result record, composed from the stage functions; `EvaluationCounts`, `PatternMeaning`, `CoverageAndCurve`, `FracRepertoireBounds` and `PositivesAreTrueCount` state its properties, and `AnalyzeResults` is proved equal to it |
| Analysis.AnalyzeResults | post_processing.py:23-129 | the routine returns exactly the specified evaluation, with the warning set exactly when the target FDR was never violated |
| Analysis.EvaluationCounts | post_processing.py:108-120 | one pattern bit and one frequency per clone; total is the number of clones; positives are the set bits and positives plus negatives is total; the three lists partition the clones; one confidence per positive pair |
| Analysis.PatternMeaning | post_processing.py:78-79 | a pattern bit is 1 exactly when one of the accepted ranked candidates names that clone |
| Analysis.CoverageAndCurve | post_processing.py:73-77 | the covered fraction is the pattern-weighted sum of the frequencies; the curve has accepted + 1 points, and its last point adds up to the accepted count |
| Analysis.FracRepertoireBounds | post_processing.py:75-77 | with non-negative true frequencies, the covered fraction lies between 0 and their sum |
| Analysis.PositivesAreTrueCount | post_processing.py:115 | with distinct candidate ids, the positives equal the true count of the curve's last point |
| Analysis.NoCandidates | post_processing.py:44-101 | with no candidates: the target is not reached, the curve is the origin, no bit is set, the covered fraction is 0 and every clone is non-matched |
| Analysis.WorkedExample | post_processing.py:23-129 | the full evaluation of a three-clone, three-candidate example, including the NaN confidence of a single positive match |
| Comparison.CompareResults | post_processing.py:270-293 | the guard: anything but two evaluations is rejected with its count; two evaluations with different frequency lists are rejected; otherwise each class gets its bars |
| Comparison.ClassBars | post_processing.py:290-293 | one class's bar positions and heights, each list cut to the shortest input as `zip` does; `ClassIndicesMeaning`, `BarsLineUp` and `ClassifiedPartition` state what they hold |
| Comparison.Min3 | post_processing.py:290-293 | the length of a three-way `zip` whose first input is `xrange(total)`: no longer than any input and equal to one of them, or 0 for a negative total |
| Comparison.JointOf | post_processing.py:285-291 | the four classes correspond one to one with the bit pairs (0,0), (1,0), (0,1) and (1,1) |
| Comparison.ClassIndicesMeaning | post_processing.py:290-291 | an index is listed in a class exactly when its bit pair falls in that class; the list is strictly increasing |
| Comparison.ClassesPartition | post_processing.py:285-291 | the four classes' index lists together have one entry per index |
| Comparison.BarsLineUp | post_processing.py:290-293 | each class's heights line up with its positions: the height at a position is that clone's frequency |
| Comparison.ClassifiedPartition | post_processing.py:283-293 | for two evaluations of matching lengths, every index below the total is in exactly the class of its bit pair, and every bar stands at a clone's index with that clone's frequency |
| Comparison.CompareTwoAnalyses | post_processing.py:270-283 | two evaluations of the same ground truth always pass the guard, with equal frequency lists and patterns as long as the total |

## Left out

- Plotting. `visualize_results`, the figures in `compare_results`,
  `savefig`, the blocking `raw_input` and the module-level `rcParams` are
  all user interface.
- Console output. The prints are left out; the scan's warning is returned
  as a boolean.
- `np.log10` and floating point. Arithmetic is over `real`, and the
  logarithm is a parameter. The only non-finite value modelled is the NaN
  of the all-equal rescale (`Confidence.NotANumber`). Infinite or NaN
  scores, and NaN keys in the sort, are not modelled.
- Python 2's dictionary iteration order. It is an input (`order`), not
  computed.
- Option handling in `analyze_results` (lines 30-37) is left out. This is
  the default `fdr` of 0.01, updated first from positional dictionaries and
  then from keyword arguments. `AnalyzeResults` takes the resulting `fdr`
  as a plain parameter.
- Non-positive scores are not modelled. `np.log10` turns a score of 0 into
  -inf and a negative score into NaN. The model applies the `log10`
  parameter to any score and treats the result as a real number.
- The dead local `fdr = 0.01` in `analyze_results`. The scan uses the
  option instead. The `silent` option is unused. Both are left out.
- A candidate whose metadata lacks `'ij'`. The source's `KeyError` handler
  would then send the clone to the next list. The model assumes every
  candidate has a predicted frequency.
- The failed assertion in `compare_results` is modelled as the outcome
  `FreqsDiffer`, not as an exception.
- The call to the undefined `test_settings()` at the end of the file is
  left out.
- The driver scripts `example.py` and `make_diagrams.py` are not part of this model.
  They are drivers around simulation code that is not available, with no
  evaluation logic of their own.
