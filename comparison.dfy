/** The comparison of two evaluations of the same repertoire: after a guard
    on its inputs, each ground-truth clone (by index) is classified by the
    pair of pattern bits the two evaluations give it. */
module Comparison {
  import opened Clones
  import opened Analysis

  /** The joint class of a clone: which of the two evaluations accepted it. */
  datatype Joint = Neither | OnlyFirst | OnlySecond | Both

  function JointOf(p1: Bit, p2: Bit): (j: Joint)
    ensures j.Neither? <==> p1 == 0 && p2 == 0
    ensures j.OnlyFirst? <==> p1 == 1 && p2 == 0
    ensures j.OnlySecond? <==> p1 == 0 && p2 == 1
    ensures j.Both? <==> p1 == 1 && p2 == 1
  {
    if p1 == 0 then (if p2 == 0 then Neither else OnlySecond)
    else (if p2 == 0 then OnlyFirst else Both)
  }

  /** The indices among the first `k` whose bit pair falls in class `j`, in
      increasing order. */
  function ClassIndices(p1: seq<Bit>, p2: seq<Bit>, j: Joint, k: nat): seq<nat>
    requires k <= |p1| && k <= |p2|
  {
    if k == 0 then []
    else ClassIndices(p1, p2, j, k - 1) + (if JointOf(p1[k - 1], p2[k - 1]) == j then [k - 1] else [])
  }

  /** The frequencies among the first `k` whose bit pair falls in class `j`. */
  function ClassFreqs(freqs: seq<real>, p1: seq<Bit>, p2: seq<Bit>, j: Joint, k: nat): seq<real>
    requires k <= |freqs| && k <= |p1| && k <= |p2|
  {
    if k == 0 then []
    else ClassFreqs(freqs, p1, p2, j, k - 1) + (if JointOf(p1[k - 1], p2[k - 1]) == j then [freqs[k - 1]] else [])
  }

  /** The bar positions (`xs`) and heights (`ys`) of one class. */
  datatype Bars = Bars(xs: seq<nat>, ys: seq<real>)

  /** The outcome of the comparison: a wrong number of evaluations (the
      routine returns nothing), frequency lists that differ (the routine's
      assertion fails), or the bars of the four classes. */
  datatype Outcome =
    | WrongCount(count: nat)
    | FreqsDiffer
    | Classified(neither: Bars, onlyFirst: Bars, onlySecond: Bars, both: Bars)

  /** Python's `zip` stops at the shortest input, and `xrange` of a
      negative total is empty. */
  function Min3(a: int, b: int, c: int): (m: nat)
    requires 0 <= b && 0 <= c
    ensures m <= b && m <= c && (0 <= a ==> m <= a)
    ensures m == a || m == b || m == c || (a < 0 && m == 0)
  {
    if a < 0 then 0
    else if a <= b && a <= c then a
    else if b <= c then b
    else c
  }

  function ClassBars(e1: Evaluation, e2: Evaluation, j: Joint): Bars
  {
    var p1, p2 := e1.pattern, e2.pattern;
    Bars(ClassIndices(p1, p2, j, Min3(e1.total, |p1|, |p2|)),
         ClassFreqs(e1.freqs, p1, p2, j, Min3(|e1.freqs|, |p1|, |p2|)))
  }

  function CompareResults(results: seq<Evaluation>): (r: Outcome)
    ensures r.WrongCount? <==> |results| != 2
    ensures r.WrongCount? ==> r.count == |results|
    ensures r.FreqsDiffer? <==> |results| == 2 && results[0].freqs != results[1].freqs
    ensures r.Classified? ==>
              && r.neither == ClassBars(results[0], results[1], Neither)
              && r.onlyFirst == ClassBars(results[0], results[1], OnlyFirst)
              && r.onlySecond == ClassBars(results[0], results[1], OnlySecond)
              && r.both == ClassBars(results[0], results[1], Both)
  {
    if |results| != 2 then WrongCount(|results|)
    else if results[0].freqs != results[1].freqs then FreqsDiffer
    else
      var e1, e2 := results[0], results[1];
      Classified(ClassBars(e1, e2, Neither), ClassBars(e1, e2, OnlyFirst),
                 ClassBars(e1, e2, OnlySecond), ClassBars(e1, e2, Both))
  }

  /** An index below `k` is listed in class `j` exactly when its bit pair
      falls in `j`; the list is strictly increasing. */
  lemma {:induction false} ClassIndicesMeaning(p1: seq<Bit>, p2: seq<Bit>, j: Joint, k: nat)
    requires k <= |p1| && k <= |p2|
    ensures forall i: nat :: i in ClassIndices(p1, p2, j, k) <==> i < k && JointOf(p1[i], p2[i]) == j
    ensures forall a, b :: 0 <= a < b < |ClassIndices(p1, p2, j, k)| ==>
              ClassIndices(p1, p2, j, k)[a] < ClassIndices(p1, p2, j, k)[b]
  {
    if k > 0 {
      var before := ClassIndices(p1, p2, j, k - 1);
      ClassIndicesMeaning(p1, p2, j, k - 1);
      forall a | 0 <= a < |before| ensures before[a] < k - 1 {
        assert before[a] in before;
      }
    }
  }

  /** The four classes together list every index below `k` exactly once. */
  lemma {:induction false} ClassesPartition(p1: seq<Bit>, p2: seq<Bit>, k: nat)
    requires k <= |p1| && k <= |p2|
    ensures |ClassIndices(p1, p2, Neither, k)| + |ClassIndices(p1, p2, OnlyFirst, k)|
            + |ClassIndices(p1, p2, OnlySecond, k)| + |ClassIndices(p1, p2, Both, k)| == k
  {
    if k > 0 {
      ClassesPartition(p1, p2, k - 1);
    }
  }

  /** Each bar's height is the frequency of the clone at its position. */
  lemma {:induction false} BarsLineUp(freqs: seq<real>, p1: seq<Bit>, p2: seq<Bit>, j: Joint, k: nat)
    requires k <= |freqs| && k <= |p1| && k <= |p2|
    ensures |ClassFreqs(freqs, p1, p2, j, k)| == |ClassIndices(p1, p2, j, k)|
    ensures forall t :: 0 <= t < |ClassIndices(p1, p2, j, k)| ==>
              ClassIndices(p1, p2, j, k)[t] < k &&
              ClassFreqs(freqs, p1, p2, j, k)[t] == freqs[ClassIndices(p1, p2, j, k)[t]]
  {
    if k > 0 {
      BarsLineUp(freqs, p1, p2, j, k - 1);
    }
  }

  /** One height per position, each the frequency of the clone there. */
  predicate LinedUp(b: Bars, freqs: seq<real>)
  {
    |b.ys| == |b.xs| && forall t :: 0 <= t < |b.xs| ==> b.xs[t] < |freqs| && b.ys[t] == freqs[b.xs[t]]
  }

  /** Two evaluations whose patterns, frequencies and totals all have the
      same length `m` pass the guard, and the four classes partition the
      indices `0 .. m - 1`, each bar standing at a clone's index with that
      clone's frequency. */
  lemma ClassifiedPartition(e1: Evaluation, e2: Evaluation, m: nat)
    requires |e1.pattern| == |e2.pattern| == |e1.freqs| == e1.total == m
    requires e1.freqs == e2.freqs
    ensures var r := CompareResults([e1, e2]);
            && r.Classified?
            && |r.neither.xs| + |r.onlyFirst.xs| + |r.onlySecond.xs| + |r.both.xs| == m
            && (forall i: nat :: i < m ==>
                  && (i in r.neither.xs <==> e1.pattern[i] == 0 && e2.pattern[i] == 0)
                  && (i in r.onlyFirst.xs <==> e1.pattern[i] == 1 && e2.pattern[i] == 0)
                  && (i in r.onlySecond.xs <==> e1.pattern[i] == 0 && e2.pattern[i] == 1)
                  && (i in r.both.xs <==> e1.pattern[i] == 1 && e2.pattern[i] == 1))
            && LinedUp(r.neither, e1.freqs) && LinedUp(r.onlyFirst, e1.freqs)
            && LinedUp(r.onlySecond, e1.freqs) && LinedUp(r.both, e1.freqs)
  {
    var p1, p2 := e1.pattern, e2.pattern;
    assert Min3(e1.total, |p1|, |p2|) == m && Min3(|e1.freqs|, |p1|, |p2|) == m;
    ClassesPartition(p1, p2, m);
    ClassIndicesMeaning(p1, p2, Neither, m);
    ClassIndicesMeaning(p1, p2, OnlyFirst, m);
    ClassIndicesMeaning(p1, p2, OnlySecond, m);
    ClassIndicesMeaning(p1, p2, Both, m);
    BarsLineUp(e1.freqs, p1, p2, Neither, m);
    BarsLineUp(e1.freqs, p1, p2, OnlyFirst, m);
    BarsLineUp(e1.freqs, p1, p2, OnlySecond, m);
    BarsLineUp(e1.freqs, p1, p2, Both, m);
  }

  /** Two evaluations of the same repertoire (the same ground truth and its
      iteration order; any candidates, targets and logarithm) pass the guard
      and the four classes partition the indices `0 .. total - 1`. */
  lemma CompareTwoAnalyses(results1: seq<Candidate>, results2: seq<Candidate>, cells: map<CloneId, real>,
                           order: seq<CloneId>, fdr1: real, fdr2: real, log10: real -> real)
    requires IsKeyOrder(order, cells)
    ensures var e1, e2 := Evaluate(results1, cells, order, fdr1, log10), Evaluate(results2, cells, order, fdr2, log10);
            && CompareResults([e1, e2]).Classified?
            && e1.total == e2.total == |cells|
            && |e1.pattern| == |e2.pattern| == |e1.freqs| == |cells|
  {
    EvaluationCounts(results1, cells, order, fdr1, log10);
    EvaluationCounts(results2, cells, order, fdr2, log10);
    assert Evaluate(results1, cells, order, fdr1, log10).freqs == Evaluate(results2, cells, order, fdr2, log10).freqs;
  }
}
