/** The FDR Threshold Finder: walks the ranked candidates, counting false
    and true identifications, and stops at the first candidate after which
    the false count exceeds `fdr` times the true count. */
module FdrScan {
  import opened Clones

  /** Candidates of `s` whose clone is absent from the ground truth. */
  function FalseCount(s: seq<Candidate>, cells: map<CloneId, real>): nat
  {
    if s == [] then 0
    else FalseCount(s[..|s| - 1], cells) + (if s[|s| - 1].id in cells then 0 else 1)
  }

  /** Candidates of `s` whose clone is present in the ground truth. */
  function TrueCount(s: seq<Candidate>, cells: map<CloneId, real>): nat
  {
    if s == [] then 0
    else TrueCount(s[..|s| - 1], cells) + (if s[|s| - 1].id in cells then 1 else 0)
  }

  /** Every candidate is either a false or a true identification. */
  lemma {:induction false} CountsAddUp(s: seq<Candidate>, cells: map<CloneId, real>)
    ensures FalseCount(s, cells) + TrueCount(s, cells) == |s|
  {
    if s != [] {
      CountsAddUp(s[..|s| - 1], cells);
    }
  }

  /** After the candidates `s`, the false count exceeds the tolerated
      fraction `fdr` of the true count. */
  predicate Violates(s: seq<Candidate>, cells: map<CloneId, real>, fdr: real)
  {
    Exceeds(FalseCount(s, cells), TrueCount(s, cells), fdr)
  }

  /** The stopping test on one point of the curve: `false > fdr * true`. */
  predicate Exceeds(falses: nat, trues: nat, fdr: real)
  {
    falses as real > fdr * trues as real
  }

  /** Some non-empty prefix of the ranked list violates the target FDR. */
  predicate FdrReached(ranked: seq<Candidate>, cells: map<CloneId, real>, fdr: real)
  {
    exists k :: 1 <= k <= |ranked| && Violates(ranked[..k], cells, fdr)
  }

  /** The first violating rank above `k`, or the list's length when no
      prefix longer than `k` violates. */
  function StopAfter(ranked: seq<Candidate>, cells: map<CloneId, real>, fdr: real, k: nat): (n: nat)
    requires k <= |ranked|
    ensures k <= n <= |ranked|
    ensures forall j :: k < j < n ==> !Violates(ranked[..j], cells, fdr)
    ensures n == |ranked| || Violates(ranked[..n], cells, fdr)
    decreases |ranked| - k
  {
    if k == |ranked| then k
    else if Violates(ranked[..k + 1], cells, fdr) then k + 1
    else StopAfter(ranked, cells, fdr, k + 1)
  }

  /** The number of candidates the scan accepts: the 1-based rank of the
      first candidate whose point violates the target FDR, that candidate
      included, or the whole list when none does. */
  function Accepted(ranked: seq<Candidate>, cells: map<CloneId, real>, fdr: real): (n: nat)
    ensures n <= |ranked|
    ensures FdrReached(ranked, cells, fdr) ==>
              1 <= n && Violates(ranked[..n], cells, fdr) &&
              forall j :: 1 <= j < n ==> !Violates(ranked[..j], cells, fdr)
    ensures !FdrReached(ranked, cells, fdr) ==> n == |ranked|
  {
    StopAfter(ranked, cells, fdr, 0)
  }

  /** The false-count coordinates of the curve's first `n + 1` points. */
  function FalseCurve(ranked: seq<Candidate>, cells: map<CloneId, real>, n: nat): seq<nat>
    requires n <= |ranked|
  {
    if n == 0 then [0] else FalseCurve(ranked, cells, n - 1) + [FalseCount(ranked[..n], cells)]
  }

  /** The true-count coordinates of the curve's first `n + 1` points. */
  function TrueCurve(ranked: seq<Candidate>, cells: map<CloneId, real>, n: nat): seq<nat>
    requires n <= |ranked|
  {
    if n == 0 then [0] else TrueCurve(ranked, cells, n - 1) + [TrueCount(ranked[..n], cells)]
  }

  /** The scan (the loop that grows `x1` and `y1`): the curve it builds has
      one point per accepted candidate after the origin, and `warning` stays
      set exactly when the target FDR was never violated. */
  method Scan(ranked: seq<Candidate>, cells: map<CloneId, real>, fdr: real)
    returns (falses: seq<nat>, trues: seq<nat>, warning: bool)
    ensures falses == FalseCurve(ranked, cells, Accepted(ranked, cells, fdr))
    ensures trues == TrueCurve(ranked, cells, Accepted(ranked, cells, fdr))
    ensures warning <==> !FdrReached(ranked, cells, fdr)
  {
    falses, trues := [0], [0];
    warning := true;
    var i := 0;
    while i < |ranked|
      invariant 0 <= i <= |ranked|
      invariant falses == FalseCurve(ranked, cells, i) && trues == TrueCurve(ranked, cells, i)
      invariant forall j :: 1 <= j <= i ==> !Violates(ranked[..j], cells, fdr)
    {
      CurveShape(ranked, cells, i);
      CountStep(ranked, cells, i);
      if ranked[i].id in cells {
        falses, trues := falses + [falses[i]], trues + [trues[i] + 1];
      } else {
        falses, trues := falses + [falses[i] + 1], trues + [trues[i]];
      }
      i := i + 1;
      if Exceeds(falses[i], trues[i], fdr) {
        warning := false;
        FirstViolationIsAccepted(ranked, cells, fdr, i);
        break;
      }
    }
    if warning {
      NeverViolated(ranked, cells, fdr);
    }
  }

  /** Going from point (f0, t0) to point (f1, t1) for candidate `c` adds one
      to exactly one coordinate: the true count when `c` names a clone of
      the ground truth, the false count otherwise. */
  predicate Step(c: Candidate, cells: map<CloneId, real>, f0: nat, t0: nat, f1: nat, t1: nat)
  {
    if c.id in cells then f1 == f0 && t1 == t0 + 1 else f1 == f0 + 1 && t1 == t0
  }

  /** The curve starts at the origin; each candidate appends one point that
      adds one to the true count if its clone is in the ground truth and to
      the false count otherwise; so both coordinates never decrease and the
      last point's coordinates add up to the number of candidates scanned. */
  lemma CurveShape(ranked: seq<Candidate>, cells: map<CloneId, real>, n: nat)
    requires n <= |ranked|
    ensures |FalseCurve(ranked, cells, n)| == |TrueCurve(ranked, cells, n)| == n + 1
    ensures FalseCurve(ranked, cells, n)[0] == 0 && TrueCurve(ranked, cells, n)[0] == 0
    ensures forall i :: 0 <= i < n ==>
              Step(ranked[i], cells, FalseCurve(ranked, cells, n)[i], TrueCurve(ranked, cells, n)[i],
                   FalseCurve(ranked, cells, n)[i + 1], TrueCurve(ranked, cells, n)[i + 1])
    ensures FalseCurve(ranked, cells, n)[n] + TrueCurve(ranked, cells, n)[n] == n
  {
    CurveAt(ranked, cells, n);
    forall i | 0 <= i < n
      ensures Step(ranked[i], cells, FalseCurve(ranked, cells, n)[i], TrueCurve(ranked, cells, n)[i],
                   FalseCurve(ranked, cells, n)[i + 1], TrueCurve(ranked, cells, n)[i + 1])
    {
      CountStep(ranked, cells, i);
    }
    assert ranked[..0] == [];
    CountsAddUp(ranked[..n], cells);
  }

  /** The curve has `n + 1` points, and its last point adds up to `n`. */
  lemma CurveEnd(ranked: seq<Candidate>, cells: map<CloneId, real>, n: nat)
    requires n <= |ranked|
    ensures |FalseCurve(ranked, cells, n)| == |TrueCurve(ranked, cells, n)| == n + 1
    ensures FalseCurve(ranked, cells, n)[n] + TrueCurve(ranked, cells, n)[n] == n
  {
    CurveShape(ranked, cells, n);
  }

  /** Neither coordinate of the curve ever decreases. */
  lemma CurveNonDecreasing(ranked: seq<Candidate>, cells: map<CloneId, real>, n: nat, i: nat, j: nat)
    requires i <= j <= n <= |ranked|
    ensures |FalseCurve(ranked, cells, n)| == |TrueCurve(ranked, cells, n)| == n + 1
    ensures FalseCurve(ranked, cells, n)[i] <= FalseCurve(ranked, cells, n)[j]
    ensures TrueCurve(ranked, cells, n)[i] <= TrueCurve(ranked, cells, n)[j]
  {
    CurveAt(ranked, cells, n);
    CountsGrow(ranked, cells, i, j);
  }

  lemma {:induction false} CountsGrow(s: seq<Candidate>, cells: map<CloneId, real>, i: nat, j: nat)
    requires i <= j <= |s|
    ensures FalseCount(s[..i], cells) <= FalseCount(s[..j], cells)
    ensures TrueCount(s[..i], cells) <= TrueCount(s[..j], cells)
    decreases j - i
  {
    if i < j {
      CountStep(s, cells, i);
      CountsGrow(s, cells, i + 1, j);
    }
  }

  /** Point `i` of the curve holds the counts after `i` candidates. */
  lemma {:induction false} CurveAt(ranked: seq<Candidate>, cells: map<CloneId, real>, n: nat)
    requires n <= |ranked|
    ensures |FalseCurve(ranked, cells, n)| == |TrueCurve(ranked, cells, n)| == n + 1
    ensures forall i :: 0 <= i <= n ==>
              FalseCurve(ranked, cells, n)[i] == FalseCount(ranked[..i], cells)
              && TrueCurve(ranked, cells, n)[i] == TrueCount(ranked[..i], cells)
  {
    if n > 0 {
      CurveAt(ranked, cells, n - 1);
    }
  }

  /** One more candidate adds one to exactly one of the two counts. */
  lemma CountStep(s: seq<Candidate>, cells: map<CloneId, real>, j: nat)
    requires j < |s|
    ensures FalseCount(s[..j + 1], cells) == FalseCount(s[..j], cells) + (if s[j].id in cells then 0 else 1)
    ensures TrueCount(s[..j + 1], cells) == TrueCount(s[..j], cells) + (if s[j].id in cells then 1 else 0)
  {
    assert s[..j + 1][..j] == s[..j];
  }

  /** The first violating rank is the accepted count. */
  lemma FirstViolationIsAccepted(ranked: seq<Candidate>, cells: map<CloneId, real>, fdr: real, n: nat)
    requires 1 <= n <= |ranked| && Violates(ranked[..n], cells, fdr)
    requires forall j :: 1 <= j < n ==> !Violates(ranked[..j], cells, fdr)
    ensures Accepted(ranked, cells, fdr) == n
  {
    assert FdrReached(ranked, cells, fdr);
  }

  /** When no prefix violates, the whole list is accepted. */
  lemma NeverViolated(ranked: seq<Candidate>, cells: map<CloneId, real>, fdr: real)
    requires forall j :: 1 <= j <= |ranked| ==> !Violates(ranked[..j], cells, fdr)
    ensures !FdrReached(ranked, cells, fdr) && Accepted(ranked, cells, fdr) == |ranked|
  {
  }

  /** With no true identification yet, the first false one already stops
      the scan, whatever the target: `1 > fdr * 0`. */
  lemma FalseBeforeAnyTrueStops(ranked: seq<Candidate>, cells: map<CloneId, real>, fdr: real, k: nat)
    requires k < |ranked| && ranked[k].id !in cells
    requires forall j :: 0 <= j < k ==> ranked[j].id !in cells
    ensures Accepted(ranked, cells, fdr) <= k + 1
    ensures FdrReached(ranked, cells, fdr)
  {
    NoTrueBefore(ranked, cells, k);
    assert ranked[..k + 1][..k] == ranked[..k];
    assert Violates(ranked[..k + 1], cells, fdr);
  }

  lemma {:induction false} NoTrueBefore(ranked: seq<Candidate>, cells: map<CloneId, real>, k: nat)
    requires k <= |ranked|
    requires forall j :: 0 <= j < k ==> ranked[j].id !in cells
    ensures TrueCount(ranked[..k], cells) == 0
  {
    if k > 0 {
      assert ranked[..k][..k - 1] == ranked[..k - 1];
      NoTrueBefore(ranked, cells, k - 1);
    }
  }
}
