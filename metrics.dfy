/** The Metrics Aggregator: from the accepted count, the acceptance pattern
    over the ground-truth clones, the frequency-weighted coverage, and the
    split of the clones into positive-matched, negative-matched and
    non-matched frequency pairs. */
module Metrics {
  import opened Clones

  /** A clone's true frequency paired with a predicted one. */
  type FreqPair = (real, real)

  /** One bit per ground-truth clone (in the order of `labels`): 1 when the
      clone's id is among the accepted ranked ids. */
  function Pattern(labels: seq<CloneId>, accepted: seq<CloneId>): (p: seq<Bit>)
    ensures |p| == |labels|
  {
    seq(|labels|, i requires 0 <= i < |labels| => if labels[i] in accepted then 1 else 0)
  }

  /** The true frequencies of the accepted clones, in ground-truth order
      (the `freqs` list whose sum is the covered fraction). */
  function AcceptedFreqs(labels: seq<CloneId>, freqs: seq<real>, accepted: seq<CloneId>): seq<real>
    requires |labels| == |freqs|
  {
    if labels == [] then []
    else
      var m := |labels| - 1;
      AcceptedFreqs(labels[..m], freqs[..m], accepted) + (if labels[m] in accepted then [freqs[m]] else [])
  }

  /** Frequency-weighted coverage of the repertoire by the accepted ids. */
  function FracRepertoire(labels: seq<CloneId>, freqs: seq<real>, accepted: seq<CloneId>): real
    requires |labels| == |freqs|
  {
    Sum(AcceptedFreqs(labels, freqs, accepted))
  }

  /** Sum of the frequencies whose bit is set. */
  function MaskedSum(freqs: seq<real>, bits: seq<Bit>): real
    requires |freqs| == |bits|
  {
    if freqs == [] then 0.0
    else
      var m := |freqs| - 1;
      MaskedSum(freqs[..m], bits[..m]) + (if bits[m] == 1 then freqs[m] else 0.0)
  }

  predicate AllNonNegative(s: seq<real>)
  {
    forall i :: 0 <= i < |s| ==> 0.0 <= s[i]
  }

  lemma PatternPrefix(labels: seq<CloneId>, accepted: seq<CloneId>, m: nat)
    requires m <= |labels|
    ensures Pattern(labels, accepted)[..m] == Pattern(labels[..m], accepted)
  {
  }

  /** The covered fraction is the sum of the true frequencies of exactly
      the clones whose pattern bit is 1. */
  lemma {:induction false} FracIsPatternWeighted(labels: seq<CloneId>, freqs: seq<real>, accepted: seq<CloneId>)
    requires |labels| == |freqs|
    ensures FracRepertoire(labels, freqs, accepted) == MaskedSum(freqs, Pattern(labels, accepted))
  {
    if labels != [] {
      var m := |labels| - 1;
      FracIsPatternWeighted(labels[..m], freqs[..m], accepted);
      PatternPrefix(labels, accepted, m);
      SumAppend(AcceptedFreqs(labels[..m], freqs[..m], accepted), if labels[m] in accepted then [freqs[m]] else []);
    }
  }

  lemma {:induction false} SumAppend(a: seq<real>, b: seq<real>)
    ensures Sum(a + b) == Sum(a) + Sum(b)
  {
    if b != [] {
      assert (a + b)[..|a + b| - 1] == a + b[..|b| - 1];
      SumAppend(a, b[..|b| - 1]);
    } else {
      assert a + b == a;
    }
  }

  /** With non-negative frequencies, the masked sum lies between 0 and the
      sum of all frequencies. */
  lemma {:induction false} MaskedSumBounds(freqs: seq<real>, bits: seq<Bit>)
    requires |freqs| == |bits| && AllNonNegative(freqs)
    ensures 0.0 <= MaskedSum(freqs, bits) <= Sum(freqs)
  {
    if freqs != [] {
      var m := |freqs| - 1;
      MaskedSumBounds(freqs[..m], bits[..m]);
    }
  }

  /** The number of set bits is the number of clones whose id is accepted. */
  lemma {:induction false} PatternCountsAccepted(labels: seq<CloneId>, accepted: seq<CloneId>)
    ensures BitSum(Pattern(labels, accepted)) == |set i | 0 <= i < |labels| && labels[i] in accepted|
  {
    var p := Pattern(labels, accepted);
    if labels != [] {
      var m := |labels| - 1;
      PatternCountsAccepted(labels[..m], accepted);
      PatternPrefix(labels, accepted, m);
      var before := set i | 0 <= i < m && labels[..m][i] in accepted;
      var all := set i | 0 <= i < |labels| && labels[i] in accepted;
      if labels[m] in accepted {
        assert all == before + {m};
      } else {
        assert all == before;
      }
    }
  }

  /** Where a ground-truth clone lands: matched by an accepted candidate,
      matched only by a rejected one, or not guessed at all. */
  datatype Place = Positive(c: Candidate) | Negative(c: Candidate) | NonMatched

  /** The place of clone `id` when the first `n` ranked candidates are
      accepted. Like the dictionaries it models, a repeated id resolves to
      its last candidate on each side of the cut. */
  function PlaceOf(id: CloneId, ranked: seq<Candidate>, n: nat): (p: Place)
    requires n <= |ranked|
    ensures p.Positive? <==> id in Ids(ranked[..n])
    ensures p.Negative? <==> id !in Ids(ranked[..n]) && id in Ids(ranked[n..])
    ensures p.NonMatched? <==> id !in Ids(ranked)
    ensures p.Positive? ==> p.c.id == id && LastWithId(ranked[..n], id, p.c)
    ensures p.Negative? ==> p.c.id == id && LastWithId(ranked[n..], id, p.c)
  {
    IdsSplit(ranked, n);
    match Lookup(ranked[..n], id)
    case Some(c) => Positive(c)
    case None =>
      match Lookup(ranked[n..], id)
      case Some(c) => Negative(c)
      case None => NonMatched
  }

  lemma IdsSplit(cs: seq<Candidate>, n: nat)
    requires n <= |cs|
    ensures Ids(cs) == Ids(cs[..n]) + Ids(cs[n..])
  {
  }

  /** The positive-matched pairs of the first `k` clones: the clone's true
      frequency and its accepted candidate's predicted frequency. */
  function PositiveMatched(labels: seq<CloneId>, freqs: seq<real>, ranked: seq<Candidate>, n: nat, k: nat): seq<FreqPair>
    requires |labels| == |freqs| && n <= |ranked| && k <= |labels|
  {
    if k == 0 then []
    else
      PositiveMatched(labels, freqs, ranked, n, k - 1) +
      match PlaceOf(labels[k - 1], ranked, n)
      case Positive(c) => [(freqs[k - 1], c.predFreq)]
      case _ => []
  }

  /** The log-confidences of the positive-matched clones among the first
      `k`, in the same order. */
  function PositiveLogScores(labels: seq<CloneId>, ranked: seq<Candidate>, n: nat, k: nat, log10: real -> real): seq<real>
    requires n <= |ranked| && k <= |labels|
  {
    if k == 0 then []
    else
      PositiveLogScores(labels, ranked, n, k - 1, log10) +
      match PlaceOf(labels[k - 1], ranked, n)
      case Positive(c) => [log10(c.score)]
      case _ => []
  }

  /** The negative-matched pairs of the first `k` clones: true frequency and
      the predicted frequency of the rejected candidate naming the clone. */
  function NegativeMatched(labels: seq<CloneId>, freqs: seq<real>, ranked: seq<Candidate>, n: nat, k: nat): seq<FreqPair>
    requires |labels| == |freqs| && n <= |ranked| && k <= |labels|
  {
    if k == 0 then []
    else
      NegativeMatched(labels, freqs, ranked, n, k - 1) +
      match PlaceOf(labels[k - 1], ranked, n)
      case Negative(c) => [(freqs[k - 1], c.predFreq)]
      case _ => []
  }

  /** The pairs of the first `k` clones that no candidate names: the true
      frequency paired with itself. */
  function NonMatchedPairs(labels: seq<CloneId>, freqs: seq<real>, ranked: seq<Candidate>, n: nat, k: nat): seq<FreqPair>
    requires |labels| == |freqs| && n <= |ranked| && k <= |labels|
  {
    if k == 0 then []
    else
      NonMatchedPairs(labels, freqs, ranked, n, k - 1) +
      match PlaceOf(labels[k - 1], ranked, n)
      case NonMatched => [(freqs[k - 1], freqs[k - 1])]
      case _ => []
  }

  /** The assignment loop: walks the ground-truth clones in order and
      appends each to exactly one of the three lists (and, for a positive
      match, its log-confidence to a fourth). */
  method Partition(labels: seq<CloneId>, freqs: seq<real>, ranked: seq<Candidate>, n: nat, log10: real -> real)
    returns (positive: seq<FreqPair>, negative: seq<FreqPair>, nonMatched: seq<FreqPair>, confidence: seq<real>)
    requires |labels| == |freqs| && n <= |ranked|
    ensures positive == PositiveMatched(labels, freqs, ranked, n, |labels|)
    ensures negative == NegativeMatched(labels, freqs, ranked, n, |labels|)
    ensures nonMatched == NonMatchedPairs(labels, freqs, ranked, n, |labels|)
    ensures confidence == PositiveLogScores(labels, ranked, n, |labels|, log10)
  {
    positive, negative, nonMatched, confidence := [], [], [], [];
    var i := 0;
    while i < |labels|
      invariant 0 <= i <= |labels|
      invariant positive == PositiveMatched(labels, freqs, ranked, n, i)
      invariant negative == NegativeMatched(labels, freqs, ranked, n, i)
      invariant nonMatched == NonMatchedPairs(labels, freqs, ranked, n, i)
      invariant confidence == PositiveLogScores(labels, ranked, n, i, log10)
    {
      var cell, trueFreq := labels[i], freqs[i];
      match Lookup(ranked[..n], cell) {
        case Some(c) =>
          positive := positive + [(trueFreq, c.predFreq)];
          confidence := confidence + [log10(c.score)];
        case None =>
          match Lookup(ranked[n..], cell) {
            case Some(c) =>
              negative := negative + [(trueFreq, c.predFreq)];
            case None =>
              nonMatched := nonMatched + [(trueFreq, trueFreq)];
          }
      }
      i := i + 1;
    }
  }

  /** Every clone lands in exactly one list: the three lengths add up to
      the number of clones, one log-confidence accompanies each positive
      match, and a non-matched pair repeats the true frequency. */
  lemma {:induction false} PartitionIsExhaustive(labels: seq<CloneId>, freqs: seq<real>, ranked: seq<Candidate>, n: nat, k: nat, log10: real -> real)
    requires |labels| == |freqs| && n <= |ranked| && k <= |labels|
    ensures |PositiveMatched(labels, freqs, ranked, n, k)| + |NegativeMatched(labels, freqs, ranked, n, k)|
            + |NonMatchedPairs(labels, freqs, ranked, n, k)| == k
    ensures |PositiveLogScores(labels, ranked, n, k, log10)| == |PositiveMatched(labels, freqs, ranked, n, k)|
    ensures forall e :: e in NonMatchedPairs(labels, freqs, ranked, n, k) ==> e.0 == e.1
  {
    if k > 0 {
      PartitionIsExhaustive(labels, freqs, ranked, n, k - 1, log10);
    }
  }

  /** The positive-matched clones are exactly those with pattern bit 1. */
  lemma {:induction false} PositivesFollowPattern(labels: seq<CloneId>, freqs: seq<real>, ranked: seq<Candidate>, n: nat, k: nat)
    requires |labels| == |freqs| && n <= |ranked| && k <= |labels|
    ensures |PositiveMatched(labels, freqs, ranked, n, k)| == BitSum(Pattern(labels[..k], Ids(ranked[..n])))
  {
    if k > 0 {
      PositivesFollowPattern(labels, freqs, ranked, n, k - 1);
      PatternPrefix(labels[..k], Ids(ranked[..n]), k - 1);
      assert labels[..k][..k - 1] == labels[..k - 1];
    }
  }
}
