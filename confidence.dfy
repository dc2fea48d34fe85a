/** The Confidence Normalizer: a min-max rescale of the positive matches'
    log-confidences, `(p - min) / (max - min)` for each `p`. */
module Confidence {

  function Min(s: seq<real>): (m: real)
    requires s != []
    ensures m in s && forall i :: 0 <= i < |s| ==> m <= s[i]
  {
    if |s| == 1 then s[0]
    else
      var m := Min(s[..|s| - 1]);
      if s[|s| - 1] < m then s[|s| - 1] else m
  }

  function Max(s: seq<real>): (m: real)
    requires s != []
    ensures m in s && forall i :: 0 <= i < |s| ==> s[i] <= m
  {
    if |s| == 1 then s[0]
    else
      var m := Max(s[..|s| - 1]);
      if s[|s| - 1] > m then s[|s| - 1] else m
  }

  /** The rescaled list. When the values are not all equal, each is
      rescaled; when they are (one positive match is enough), the
      denominator is zero and numpy's floating-point division turns every
      entry into NaN, which `NotANumber` stands for, keeping the length. */
  datatype Scaled = Rescaled(values: seq<real>) | NotANumber(count: nat)
  {
    function Length(): nat
    {
      match this
      case Rescaled(vs) => |vs|
      case NotANumber(n) => n
    }
  }

  function Normalize(logs: seq<real>): (r: Scaled)
    ensures r.Length() == |logs|
    ensures r.NotANumber? <==> logs != [] && Min(logs) == Max(logs)
  {
    if logs == [] then Rescaled([])
    else
      var lo, hi := Min(logs), Max(logs);
      if hi == lo then NotANumber(|logs|)
      else Rescaled(seq(|logs|, i requires 0 <= i < |logs| => Rescale(logs[i], lo, hi)))
  }

  /** One value min-max rescaled. */
  function Rescale(p: real, lo: real, hi: real): real
    requires lo < hi
  {
    (p - lo) / (hi - lo)
  }

  /** A value between the bounds lands in [0, 1], the bounds themselves on
      0 and 1, and the value is recovered from its rescaled form. */
  lemma RescaleFacts(p: real, lo: real, hi: real)
    requires lo <= p <= hi && lo < hi
    ensures 0.0 <= Rescale(p, lo, hi) <= 1.0
    ensures p == lo ==> Rescale(p, lo, hi) == 0.0
    ensures p == hi ==> Rescale(p, lo, hi) == 1.0
    ensures p == lo + Rescale(p, lo, hi) * (hi - lo)
  {
    var q := (p - lo) / (hi - lo);
    assert q * (hi - lo) == p - lo;
  }

  lemma RescaleMonotone(p: real, q: real, lo: real, hi: real)
    requires p <= q && lo < hi
    ensures Rescale(p, lo, hi) <= Rescale(q, lo, hi)
  {
    var a, b := (p - lo) / (hi - lo), (q - lo) / (hi - lo);
    assert a * (hi - lo) == p - lo && b * (hi - lo) == q - lo;
  }

  /** The rescaled value at one position: in [0, 1], 0 for a smallest
      log-confidence and 1 for a largest. */
  lemma RescaledAt(logs: seq<real>, i: nat)
    requires i < |logs| && Min(logs) < Max(logs)
    ensures Normalize(logs).Rescaled?
    ensures 0.0 <= Normalize(logs).values[i] <= 1.0
    ensures logs[i] == Min(logs) ==> Normalize(logs).values[i] == 0.0
    ensures logs[i] == Max(logs) ==> Normalize(logs).values[i] == 1.0
  {
    RescaleFacts(logs[i], Min(logs), Max(logs));
  }

  /** The rescale keeps the order of the values. */
  lemma RescaleKeepsOrder(logs: seq<real>, i: nat, j: nat)
    requires i < |logs| && j < |logs| && logs[i] <= logs[j] && Min(logs) < Max(logs)
    ensures Normalize(logs).Rescaled? && Normalize(logs).values[i] <= Normalize(logs).values[j]
  {
    RescaleMonotone(logs[i], logs[j], Min(logs), Max(logs));
  }
}
