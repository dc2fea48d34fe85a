/** The analysis routine: ranks the solver's candidates, scans them against
    the ground truth under the target FDR, and aggregates the evaluation
    result (acceptance pattern, covered fraction, counts, the three lists of
    frequency pairs, the rescaled confidences and the false/true curve). */
module Analysis {
  import opened Clones
  import opened Ranking
  import opened FdrScan
  import opened Metrics
  import opened Confidence

  /** A ground-truth clone and its true frequency. */
  type Clone = (CloneId, real)

  function ByScore(c: Candidate): real { c.score }

  function ByFreq(c: Clone): real { c.1 }

  function CloneLabel(c: Clone): CloneId { c.0 }

  function CandidateId(c: Candidate): CloneId { c.id }

  function SameId(l: CloneId): CloneId { l }

  /** No clone id occurs twice. */
  predicate DistinctLabels(labels: seq<CloneId>)
  {
    DistinctBy(labels, SameId)
  }

  /** No two candidates name the same clone. */
  predicate DistinctIds(cs: seq<Candidate>)
  {
    DistinctBy(cs, CandidateId)
  }

  /** `order` is an iteration order of the ground-truth dictionary: every key
      exactly once. */
  predicate IsKeyOrder(order: seq<CloneId>, cells: map<CloneId, real>)
  {
    && DistinctLabels(order)
    && |order| == |cells|
    && (forall k :: k in cells ==> k in order)
    && (forall k :: k in order ==> k in cells)
  }

  /** The candidates ranked by descending score, ties in input order. */
  function Rank(results: seq<Candidate>): seq<Candidate>
  {
    SortDesc(results, ByScore)
  }

  /** The dictionary's items in iteration order. */
  function Items(order: seq<CloneId>, cells: map<CloneId, real>): (items: seq<Clone>)
    requires IsKeyOrder(order, cells)
    ensures |items| == |order|
    ensures forall i :: 0 <= i < |order| ==> items[i] == (order[i], cells[order[i]])
  {
    seq(|order|, i requires 0 <= i < |order| => (order[i], cells[order[i]]))
  }

  /** The ground-truth clones by descending true frequency. */
  function TruthByFreq(order: seq<CloneId>, cells: map<CloneId, real>): seq<Clone>
    requires IsKeyOrder(order, cells)
  {
    SortDesc(Items(order, cells), ByFreq)
  }

  function Labels(truth: seq<Clone>): (labels: seq<CloneId>)
    ensures |labels| == |truth| && forall i :: 0 <= i < |truth| ==> labels[i] == truth[i].0
  {
    seq(|truth|, i requires 0 <= i < |truth| => truth[i].0)
  }

  function Freqs(truth: seq<Clone>): (freqs: seq<real>)
    ensures |freqs| == |truth| && forall i :: 0 <= i < |truth| ==> freqs[i] == truth[i].1
  {
    seq(|truth|, i requires 0 <= i < |truth| => truth[i].1)
  }

  /** The result record; `curveFalse` and `curveTrue` are the two lists of
      the `xy` entry. */
  datatype Evaluation = Evaluation(
    positiveMatchedFreqs: seq<FreqPair>,
    negativeMatchedFreqs: seq<FreqPair>,
    nonMatchedFreqs: seq<FreqPair>,
    positiveConfidence: Scaled,
    pattern: seq<Bit>,
    fracRepertoire: real,
    positives: int,
    negatives: int,
    total: int,
    freqs: seq<real>,
    curveFalse: seq<nat>,
    curveTrue: seq<nat>)

  /** What the analysis computes, stage by stage. */
  function Evaluate(results: seq<Candidate>, cells: map<CloneId, real>, order: seq<CloneId>,
                    fdr: real, log10: real -> real): Evaluation
    requires IsKeyOrder(order, cells)
  {
    var ranked := Rank(results);
    var truth := TruthByFreq(order, cells);
    var labels, freqs := Labels(truth), Freqs(truth);
    var n := Accepted(ranked, cells, fdr);
    var accepted := Ids(ranked)[..n];
    var pattern := Pattern(labels, accepted);
    Evaluation(
      PositiveMatched(labels, freqs, ranked, n, |labels|),
      NegativeMatched(labels, freqs, ranked, n, |labels|),
      NonMatchedPairs(labels, freqs, ranked, n, |labels|),
      Normalize(PositiveLogScores(labels, ranked, n, |labels|, log10)),
      pattern,
      FracRepertoire(labels, freqs, accepted),
      BitSum(pattern),
      |pattern| - BitSum(pattern),
      |pattern|,
      freqs,
      FalseCurve(ranked, cells, n),
      TrueCurve(ranked, cells, n))
  }

  /** The analysis routine. `warning` is set when the whole ranked list was
      scanned without violating the target FDR. */
  method AnalyzeResults(results: seq<Candidate>, cells: map<CloneId, real>, order: seq<CloneId>,
                        fdr: real, log10: real -> real)
    returns (ev: Evaluation, warning: bool)
    requires IsKeyOrder(order, cells)
    ensures ev == Evaluate(results, cells, order, fdr, log10)
    ensures warning <==> !FdrReached(Rank(results), cells, fdr)
  {
    var ranked := SortDesc(results, ByScore);
    var truth := SortDesc(Items(order, cells), ByFreq);
    var labels, freqs := Labels(truth), Freqs(truth);

    var falses, trues;
    falses, trues, warning := Scan(ranked, cells, fdr);
    CurveEnd(ranked, cells, Accepted(ranked, cells, fdr));
    var n := falses[|falses| - 1] + trues[|trues| - 1];
    assert n == Accepted(ranked, cells, fdr);

    var accepted := Ids(ranked)[..n];
    var pattern := Pattern(labels, accepted);
    var frac := FracRepertoire(labels, freqs, accepted);

    var positive, negative, nonMatched, logs := Partition(labels, freqs, ranked, n, log10);
    ev := Evaluation(positive, negative, nonMatched, Normalize(logs), pattern, frac,
                     BitSum(pattern), |pattern| - BitSum(pattern), |pattern|, freqs, falses, trues);
    EvaluationOf(results, cells, order, fdr, log10, ranked, labels, freqs, n);
  }

  /** The ground truth in frequency order: one label per clone, no label
      twice, exactly the dictionary's keys, each with its own frequency, and
      frequencies never increasing. */
  lemma GroundTruthOrder(order: seq<CloneId>, cells: map<CloneId, real>)
    requires IsKeyOrder(order, cells)
    ensures var truth := TruthByFreq(order, cells);
            && |Labels(truth)| == |Freqs(truth)| == |cells|
            && DistinctLabels(Labels(truth))
            && (forall k :: k in cells <==> k in Labels(truth))
            && (forall i :: 0 <= i < |truth| ==> Labels(truth)[i] in cells && Freqs(truth)[i] == cells[Labels(truth)[i]])
            && (forall i, j :: 0 <= i < j < |truth| ==> Freqs(truth)[i] >= Freqs(truth)[j])
  {
    var items := Items(order, cells);
    var truth := TruthByFreq(order, cells);
    SortDescPermutes(items, ByFreq);
    SortDescIsStable(items, ByFreq);
    assert |truth| == |multiset(truth)| == |multiset(items)| == |items|;
    assert DistinctBy(items, CloneLabel);
    PermutationKeepsDistinct(items, truth, CloneLabel);
    forall i | 0 <= i < |truth| ensures truth[i].0 in cells && truth[i].1 == cells[truth[i].0] {
      assert truth[i] in multiset(items);
      var k :| 0 <= k < |items| && items[k] == truth[i];
    }
    forall k | k in cells ensures k in Labels(truth) {
      var i :| 0 <= i < |order| && order[i] == k;
      assert items[i] in multiset(truth);
      var j :| 0 <= j < |truth| && truth[j] == items[i];
      assert Labels(truth)[j] == k;
    }
  }

  /** Accepting one more id that no earlier candidate had sets one more
      bit exactly when the id is a ground-truth label. */
  lemma PatternGrows(labels: seq<CloneId>, accepted: seq<CloneId>, id: CloneId)
    requires DistinctLabels(labels) && id !in accepted
    ensures BitSum(Pattern(labels, accepted + [id])) == BitSum(Pattern(labels, accepted)) + (if id in labels then 1 else 0)
  {
    PatternCountsAccepted(labels, accepted + [id]);
    PatternCountsAccepted(labels, accepted);
    var before := set i | 0 <= i < |labels| && labels[i] in accepted;
    var after := set i | 0 <= i < |labels| && labels[i] in accepted + [id];
    if id in labels {
      var j :| 0 <= j < |labels| && labels[j] == id;
      assert after == before + {j};
      assert j !in before;
    } else {
      assert after == before;
    }
  }

  /** With distinct candidate ids, the positives of the pattern are exactly
      the true identifications among the accepted candidates. */
  lemma {:induction false} PatternCountsTrue(labels: seq<CloneId>, cells: map<CloneId, real>, prefix: seq<Candidate>)
    requires DistinctLabels(labels) && (forall k :: k in cells <==> k in labels)
    requires DistinctIds(prefix)
    ensures BitSum(Pattern(labels, Ids(prefix))) == TrueCount(prefix, cells)
  {
    if prefix != [] {
      var m := |prefix| - 1;
      var x := prefix[m];
      PatternCountsTrue(labels, cells, prefix[..m]);
      assert Ids(prefix) == Ids(prefix[..m]) + [x.id];
      assert x.id !in Ids(prefix[..m]);
      PatternGrows(labels, Ids(prefix[..m]), x.id);
    } else {
      PatternCountsAccepted(labels, []);
      assert (set i | 0 <= i < |labels| && labels[i] in []) == {};
    }
  }

  lemma IdsPrefix(cs: seq<Candidate>, n: nat)
    requires n <= |cs|
    ensures Ids(cs)[..n] == Ids(cs[..n])
  {
  }

  /** The counts of an evaluation result: one pattern bit and one frequency
      per ground-truth clone; positives and negatives add up to the total
      and positives count the set bits; every clone is in exactly one of the
      three lists, the positive list has one entry per set bit, and one
      confidence accompanies each positive entry. */
  lemma EvaluationCounts(results: seq<Candidate>, cells: map<CloneId, real>, order: seq<CloneId>,
                         fdr: real, log10: real -> real)
    requires IsKeyOrder(order, cells)
    ensures var ev := Evaluate(results, cells, order, fdr, log10);
            && |ev.pattern| == |ev.freqs| == ev.total == |cells|
            && ev.positives + ev.negatives == ev.total
            && ev.positives == BitSum(ev.pattern)
            && |ev.positiveMatchedFreqs| + |ev.negativeMatchedFreqs| + |ev.nonMatchedFreqs| == ev.total
            && |ev.positiveMatchedFreqs| == ev.positives
            && ev.positiveConfidence.Length() == |ev.positiveMatchedFreqs|
  {
    var ranked := Rank(results);
    var truth := TruthByFreq(order, cells);
    var labels, freqs := Labels(truth), Freqs(truth);
    var n := Accepted(ranked, cells, fdr);
    GroundTruthOrder(order, cells);
    PartitionIsExhaustive(labels, freqs, ranked, n, |labels|, log10);
    PositivesFollowPattern(labels, freqs, ranked, n, |labels|);
    assert labels[..|labels|] == labels;
    IdsPrefix(ranked, n);
  }

  /** A pattern bit is set exactly when one of the accepted candidates names
      that ground-truth clone. */
  lemma PatternMeaning(results: seq<Candidate>, cells: map<CloneId, real>, order: seq<CloneId>,
                       fdr: real, log10: real -> real)
    requires IsKeyOrder(order, cells)
    ensures var ev := Evaluate(results, cells, order, fdr, log10);
            var n := Accepted(Rank(results), cells, fdr);
            var labels := Labels(TruthByFreq(order, cells));
            && |ev.pattern| == |labels|
            && forall i :: 0 <= i < |labels| ==>
                 (ev.pattern[i] == 1 <==> exists j :: 0 <= j < n && Rank(results)[j].id == labels[i])
  {
    var ranked := Rank(results);
    var labels := Labels(TruthByFreq(order, cells));
    var n := Accepted(ranked, cells, fdr);
    forall i | 0 <= i < |labels|
      ensures Pattern(labels, Ids(ranked)[..n])[i] == 1 <==> exists j :: 0 <= j < n && ranked[j].id == labels[i]
    {
      if labels[i] in Ids(ranked)[..n] {
        var j :| 0 <= j < n && Ids(ranked)[..n][j] == labels[i];
        assert ranked[j].id == labels[i];
      }
    }
  }

  /** The covered fraction sums the frequencies whose bit is set, and the
      curve has one point per accepted candidate after the origin, its last
      point adding up to that count. */
  lemma CoverageAndCurve(results: seq<Candidate>, cells: map<CloneId, real>, order: seq<CloneId>,
                         fdr: real, log10: real -> real)
    requires IsKeyOrder(order, cells)
    ensures var ev := Evaluate(results, cells, order, fdr, log10);
            var n := Accepted(Rank(results), cells, fdr);
            && |ev.freqs| == |ev.pattern|
            && ev.fracRepertoire == MaskedSum(ev.freqs, ev.pattern)
            && |ev.curveFalse| == |ev.curveTrue| == n + 1
            && ev.curveFalse[n] + ev.curveTrue[n] == n
  {
    var ranked := Rank(results);
    var truth := TruthByFreq(order, cells);
    var n := Accepted(ranked, cells, fdr);
    CurveShape(ranked, cells, n);
    FracIsPatternWeighted(Labels(truth), Freqs(truth), Ids(ranked)[..n]);
  }

  /** With non-negative true frequencies, the covered fraction lies between
      0 and the sum of all true frequencies. */
  lemma FracRepertoireBounds(results: seq<Candidate>, cells: map<CloneId, real>, order: seq<CloneId>,
                             fdr: real, log10: real -> real)
    requires IsKeyOrder(order, cells)
    requires forall k :: k in cells ==> 0.0 <= cells[k]
    ensures var ev := Evaluate(results, cells, order, fdr, log10);
            0.0 <= ev.fracRepertoire <= Sum(ev.freqs)
  {
    var ev := Evaluate(results, cells, order, fdr, log10);
    CoverageAndCurve(results, cells, order, fdr, log10);
    GroundTruthOrder(order, cells);
    MaskedSumBounds(ev.freqs, ev.pattern);
  }

  /** With distinct candidate ids, the positives are the true count of the
      curve's last point. (The negatives are the ground-truth clones left
      unaccepted, not the false count.) */
  lemma PositivesAreTrueCount(results: seq<Candidate>, cells: map<CloneId, real>, order: seq<CloneId>,
                              fdr: real, log10: real -> real)
    requires IsKeyOrder(order, cells) && DistinctIds(results)
    ensures var ev := Evaluate(results, cells, order, fdr, log10);
            ev.positives == ev.curveTrue[|ev.curveTrue| - 1]
  {
    var ranked := Rank(results);
    var truth := TruthByFreq(order, cells);
    var n := Accepted(ranked, cells, fdr);
    EvaluationCounts(results, cells, order, fdr, log10);
    CoverageAndCurve(results, cells, order, fdr, log10);
    GroundTruthOrder(order, cells);
    SortDescPermutes(results, ByScore);
    PermutationKeepsDistinct(results, ranked, CandidateId);
    IdsPrefix(ranked, n);
    PatternCountsTrue(Labels(truth), cells, ranked[..n]);
    CurveAt(ranked, cells, n);
  }

  /** No candidates at all: nothing is accepted, the curve is the origin
      alone, the target FDR is not reached, no bit is set, the covered
      fraction is 0 and every clone is non-matched. */
  lemma NoCandidates(cells: map<CloneId, real>, order: seq<CloneId>, fdr: real, log10: real -> real)
    requires IsKeyOrder(order, cells)
    ensures var ev := Evaluate([], cells, order, fdr, log10);
            && !FdrReached(Rank([]), cells, fdr)
            && ev.curveFalse == [0] && ev.curveTrue == [0]
            && ev.positives == 0 && ev.negatives == ev.total
            && (forall i :: 0 <= i < |ev.pattern| ==> ev.pattern[i] == 0)
            && ev.fracRepertoire == 0.0
            && ev.positiveMatchedFreqs == [] && ev.negativeMatchedFreqs == []
            && |ev.nonMatchedFreqs| == ev.total
  {
    var ev := Evaluate([], cells, order, fdr, log10);
    var truth := TruthByFreq(order, cells);
    var labels, freqs := Labels(truth), Freqs(truth);
    EvaluationCounts([], cells, order, fdr, log10);
    CoverageAndCurve([], cells, order, fdr, log10);
    assert Rank([]) == [];
    NothingPositive(labels, freqs, |labels|);
    FracIsPatternWeighted(labels, freqs, []);
    NoBitsNoMass(freqs, ev.pattern);
  }

  lemma {:induction false} NothingPositive(labels: seq<CloneId>, freqs: seq<real>, k: nat)
    requires |labels| == |freqs| && k <= |labels|
    ensures PositiveMatched(labels, freqs, [], 0, k) == [] && NegativeMatched(labels, freqs, [], 0, k) == []
  {
    if k > 0 {
      NothingPositive(labels, freqs, k - 1);
    }
  }

  lemma {:induction false} NoBitsNoMass(freqs: seq<real>, bits: seq<Bit>)
    requires |freqs| == |bits| && forall i :: 0 <= i < |bits| ==> bits[i] == 0
    ensures MaskedSum(freqs, bits) == 0.0
  {
    if freqs != [] {
      NoBitsNoMass(freqs[..|freqs| - 1], bits[..|bits| - 1]);
    }
  }

  /** A worked example: ground truth A 0.5, B 0.3, C 0.2; candidates A
      (score 0.9), X (0.8, not a clone) and B (0.5); target FDR 0.5. The
      point after X is (1, 1) and 1 > 0.5 * 1, so the scan stops there with
      two candidates accepted: only A is a positive, B is a negative match
      (named after the cut), C is non-matched, and the one positive
      log-confidence cannot be rescaled (its min equals its max). */
  lemma WorkedExample(cells: map<CloneId, real>, results: seq<Candidate>, log10: real -> real)
    requires cells == map["A" := 0.5, "B" := 0.3, "C" := 0.2]
    requires results == [Candidate("A", 0.9, 0.4), Candidate("X", 0.8, 0.1), Candidate("B", 0.5, 0.25)]
    ensures IsKeyOrder(["A", "B", "C"], cells) && FdrReached(Rank(results), cells, 0.5)
    ensures Evaluate(results, cells, ["A", "B", "C"], 0.5, log10)
         == Evaluation([(0.5, 0.4)], [(0.3, 0.25)], [(0.2, 0.2)], NotANumber(1), [1, 0, 0], 0.5,
                       1, 2, 3, [0.5, 0.3, 0.2], [0, 0, 1], [0, 1, 1])
  {
    var a, x, b := results[0], results[1], results[2];
    assert results == [a, x, b];
    var labels: seq<CloneId>, freqs := ["A", "B", "C"], [0.5, 0.3, 0.2];
    ExampleRank(a, x, b);
    ExampleTruth(cells);
    ExampleScan(cells, a, x, b);
    ExampleAccepted(a, x, b);
    EvaluationOf(results, cells, labels, 0.5, log10, results, labels, freqs, 2);
    ExamplePattern();
    ExampleFrac();
    ExampleMatches(a, x, b, log10);
    ExampleCounts(log10);
  }

  lemma ExampleAccepted(a: Candidate, x: Candidate, b: Candidate)
    requires a.id == "A" && x.id == "X"
    ensures Ids([a, x, b])[..2] == ["A", "X"]
  {
  }

  lemma ExampleCounts(log10: real -> real)
    ensures BitSum([1, 0, 0]) == 1
    ensures Normalize([log10(0.9)]) == NotANumber(1)
  {
    var p: seq<Bit> := [1, 0, 0];
    assert p[..2] == [1, 0] && p[..2][..1] == [1] && [1][..0] == [];
  }

  /** Evaluate spelled out once the ranking, the ground-truth order and the
      accepted count are known. */
  lemma EvaluationOf(results: seq<Candidate>, cells: map<CloneId, real>, order: seq<CloneId>,
                     fdr: real, log10: real -> real,
                     ranked: seq<Candidate>, labels: seq<CloneId>, freqs: seq<real>, n: nat)
    requires IsKeyOrder(order, cells)
    requires Rank(results) == ranked
    requires Labels(TruthByFreq(order, cells)) == labels && Freqs(TruthByFreq(order, cells)) == freqs
    requires Accepted(ranked, cells, fdr) == n
    ensures |labels| == |freqs| && n <= |ranked|
    ensures Evaluate(results, cells, order, fdr, log10)
         == Evaluation(PositiveMatched(labels, freqs, ranked, n, |labels|),
                       NegativeMatched(labels, freqs, ranked, n, |labels|),
                       NonMatchedPairs(labels, freqs, ranked, n, |labels|),
                       Normalize(PositiveLogScores(labels, ranked, n, |labels|, log10)),
                       Pattern(labels, Ids(ranked)[..n]),
                       FracRepertoire(labels, freqs, Ids(ranked)[..n]),
                       BitSum(Pattern(labels, Ids(ranked)[..n])),
                       |labels| - BitSum(Pattern(labels, Ids(ranked)[..n])),
                       |labels|, freqs, FalseCurve(ranked, cells, n), TrueCurve(ranked, cells, n))
  {
  }

  lemma ExampleRank(a: Candidate, x: Candidate, b: Candidate)
    requires a == Candidate("A", 0.9, 0.4) && x == Candidate("X", 0.8, 0.1) && b == Candidate("B", 0.5, 0.25)
    ensures Rank([a, x, b]) == [a, x, b]
  {
    assert SortDesc([b], ByScore) == [b];
    assert [x, b][1..] == [b] && [a, x, b][1..] == [x, b];
    assert SortDesc([x, b], ByScore) == Insert(x, [b], ByScore) == [x, b];
    assert SortDesc([a, x, b], ByScore) == Insert(a, [x, b], ByScore) == [a, x, b];
  }

  lemma ExampleTruth(cells: map<CloneId, real>)
    requires cells == map["A" := 0.5, "B" := 0.3, "C" := 0.2]
    ensures IsKeyOrder(["A", "B", "C"], cells)
    ensures TruthByFreq(["A", "B", "C"], cells) == [("A", 0.5), ("B", 0.3), ("C", 0.2)]
  {
    var items := Items(["A", "B", "C"], cells);
    assert items == [("A", 0.5), ("B", 0.3), ("C", 0.2)];
    assert SortDesc(items[2..], ByFreq) == [("C", 0.2)];
    assert SortDesc(items[1..], ByFreq) == [("B", 0.3), ("C", 0.2)];
  }

  lemma ExamplePattern()
    ensures Pattern(["A", "B", "C"], ["A", "X"]) == [1, 0, 0]
  {
  }

  lemma ExampleFrac()
    ensures FracRepertoire(["A", "B", "C"], [0.5, 0.3, 0.2], ["A", "X"]) == 0.5
  {
    var labels: seq<CloneId>, freqs := ["A", "B", "C"], [0.5, 0.3, 0.2];
    var accepted: seq<CloneId> := ["A", "X"];
    assert labels[..2] == ["A", "B"] && labels[..1] == ["A"] && labels[..0] == [];
    assert freqs[..2] == [0.5, 0.3] && freqs[..1] == [0.5] && freqs[..0] == [];
    assert AcceptedFreqs(labels[..1], freqs[..1], accepted) == [0.5];
    assert AcceptedFreqs(labels[..2], freqs[..2], accepted) == [0.5];
    assert AcceptedFreqs(labels, freqs, accepted) == [0.5];
    assert Sum([0.5]) == 0.5 by { assert [0.5][..0] == []; }
  }

  lemma ExampleMatches(a: Candidate, x: Candidate, b: Candidate, log10: real -> real)
    requires a == Candidate("A", 0.9, 0.4) && x == Candidate("X", 0.8, 0.1) && b == Candidate("B", 0.5, 0.25)
    ensures PositiveMatched(["A", "B", "C"], [0.5, 0.3, 0.2], [a, x, b], 2, 3) == [(0.5, 0.4)]
    ensures NegativeMatched(["A", "B", "C"], [0.5, 0.3, 0.2], [a, x, b], 2, 3) == [(0.3, 0.25)]
    ensures NonMatchedPairs(["A", "B", "C"], [0.5, 0.3, 0.2], [a, x, b], 2, 3) == [(0.2, 0.2)]
    ensures PositiveLogScores(["A", "B", "C"], [a, x, b], 2, 3, log10) == [log10(0.9)]
  {
    var labels: seq<CloneId>, freqs, ranked := ["A", "B", "C"], [0.5, 0.3, 0.2], [a, x, b];
    ExamplePlaces(a, x, b);
    assert labels[0] == "A" && labels[1] == "B" && labels[2] == "C";
    assert PositiveMatched(labels, freqs, ranked, 2, 1) == [(0.5, 0.4)];
    assert PositiveMatched(labels, freqs, ranked, 2, 2) == [(0.5, 0.4)];
    assert NegativeMatched(labels, freqs, ranked, 2, 1) == [];
    assert NegativeMatched(labels, freqs, ranked, 2, 2) == [(0.3, 0.25)];
    assert NonMatchedPairs(labels, freqs, ranked, 2, 1) == [];
    assert NonMatchedPairs(labels, freqs, ranked, 2, 2) == [];
    assert PositiveLogScores(labels, ranked, 2, 1, log10) == [log10(0.9)];
    assert PositiveLogScores(labels, ranked, 2, 2, log10) == [log10(0.9)];
  }

  lemma ExampleScan(cells: map<CloneId, real>, a: Candidate, x: Candidate, b: Candidate)
    requires cells == map["A" := 0.5, "B" := 0.3, "C" := 0.2]
    requires a == Candidate("A", 0.9, 0.4) && x == Candidate("X", 0.8, 0.1) && b == Candidate("B", 0.5, 0.25)
    ensures Accepted([a, x, b], cells, 0.5) == 2 && FdrReached([a, x, b], cells, 0.5)
    ensures FalseCurve([a, x, b], cells, 2) == [0, 0, 1] && TrueCurve([a, x, b], cells, 2) == [0, 1, 1]
  {
    var results := [a, x, b];
    assert results[..1] == [a] && results[..2] == [a, x] && results[..0] == [];
    assert [a][..0] == [] && [a, x][..1] == [a];
    assert a.id in cells && x.id !in cells;
    assert FalseCount([], cells) == 0 && TrueCount([], cells) == 0;
    assert FalseCount([a], cells) == FalseCount([a][..0], cells) + 0;
    assert TrueCount([a], cells) == TrueCount([a][..0], cells) + 1;
    assert FalseCount([a, x], cells) == FalseCount([a, x][..1], cells) + 1;
    assert TrueCount([a, x], cells) == TrueCount([a, x][..1], cells) + 0;
    assert FalseCurve(results, cells, 1) == [0, 0];
    assert TrueCurve(results, cells, 1) == [0, 1];
    assert !Violates(results[..1], cells, 0.5);
    assert Violates(results[..2], cells, 0.5);
    FirstViolationIsAccepted(results, cells, 0.5, 2);
  }

  lemma ExamplePlaces(a: Candidate, x: Candidate, b: Candidate)
    requires a == Candidate("A", 0.9, 0.4) && x == Candidate("X", 0.8, 0.1) && b == Candidate("B", 0.5, 0.25)
    ensures PlaceOf("A", [a, x, b], 2) == Positive(a)
    ensures PlaceOf("B", [a, x, b], 2) == Negative(b)
    ensures PlaceOf("C", [a, x, b], 2) == NonMatched
  {
    var results := [a, x, b];
    assert results[..2] == [a, x] && results[2..] == [b];
    assert [a, x][..1] == [a] && [a][..0] == [] && [b][..0] == [];
    assert Lookup([a, x], "A") == Some(a);
    assert Lookup([a, x], "B") == None && Lookup([b], "B") == Some(b);
    assert Lookup([a, x], "C") == None && Lookup([b], "C") == None;
  }
}
