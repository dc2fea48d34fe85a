/** Entities shared by every stage of the evaluation: clone identifiers,
    the solver's scored candidates, and small helpers over them. */
module Clones {

  /** A clone is identified by the signature of its receptor-chain pair. */
  type CloneId = string

  /** A 0/1 flag, the element type of an acceptance pattern. */
  type Bit = b: int | 0 <= b <= 1

  /** One guess of the solver: the clone it names, its confidence score and
      the frequency it predicts for that clone (the `ij` field of its
      metadata). */
  datatype Candidate = Candidate(id: CloneId, score: real, predFreq: real)

  datatype Option<T> = None | Some(value: T)

  /** The identifiers of a candidate list, in the same order. */
  function Ids(cs: seq<Candidate>): (r: seq<CloneId>)
    ensures |r| == |cs|
    ensures forall i :: 0 <= i < |cs| ==> r[i] == cs[i].id
  {
    if cs == [] then [] else Ids(cs[..|cs| - 1]) + [cs[|cs| - 1].id]
  }

  /** `c` is the last candidate of `cs` whose id is `id`. */
  predicate LastWithId(cs: seq<Candidate>, id: CloneId, c: Candidate)
  {
    exists k :: 0 <= k < |cs| && cs[k] == c && forall j :: k < j < |cs| ==> cs[j].id != id
  }

  /** The entry a dictionary built from `cs` holds for `id`: when an id
      occurs more than once, the later candidate overwrites the earlier. */
  function Lookup(cs: seq<Candidate>, id: CloneId): (r: Option<Candidate>)
    ensures r.None? <==> id !in Ids(cs)
    ensures r.Some? ==> r.value.id == id && LastWithId(cs, id, r.value)
  {
    if cs == [] then None
    else if cs[|cs| - 1].id == id then Some(cs[|cs| - 1])
    else Lookup(cs[..|cs| - 1], id)
  }

  /** Sum of a sequence of reals. */
  function Sum(s: seq<real>): real
  {
    if s == [] then 0.0 else Sum(s[..|s| - 1]) + s[|s| - 1]
  }

  /** Sum of a sequence of bits. */
  function BitSum(s: seq<Bit>): (n: nat)
    ensures n <= |s|
  {
    if s == [] then 0 else BitSum(s[..|s| - 1]) + s[|s| - 1]
  }
}
