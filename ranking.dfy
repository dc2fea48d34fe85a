/** The Ranker: a stable sort by descending key. The evaluation sorts the
    solver's candidates by score and the ground-truth clones by frequency
    with the same stable sort, so it is defined once, over any element type
    and key. */
module Ranking {

  /** Keys never increase from left to right. */
  predicate NonIncreasing<T>(s: seq<T>, key: T -> real)
  {
    forall i, j :: 0 <= i < j < |s| ==> key(s[i]) >= key(s[j])
  }

  /** The elements of `s` whose key is `v`, in their order in `s`. A sort
      is stable exactly when it leaves every such subsequence unchanged. */
  function WithKey<T>(s: seq<T>, key: T -> real, v: real): seq<T>
  {
    if s == [] then [] else (if key(s[0]) == v then [s[0]] else []) + WithKey(s[1..], key, v)
  }

  /** `r` orders `s` by descending key, keeping elements of equal key in
      their input order. */
  ghost predicate StablySortedFrom<T>(r: seq<T>, s: seq<T>, key: T -> real)
  {
    NonIncreasing(r, key) && forall v :: WithKey(r, key, v) == WithKey(s, key, v)
  }

  /** Places `x` in front of the first element whose key is not greater
      than its own. */
  function Insert<T>(x: T, s: seq<T>, key: T -> real): seq<T>
  {
    if s == [] || key(x) >= key(s[0]) then [x] + s else [s[0]] + Insert(x, s[1..], key)
  }

  /** Stable sort by descending key: the model of Python's `sorted` with a
      negated key, which is guaranteed stable. */
  function SortDesc<T>(s: seq<T>, key: T -> real): seq<T>
  {
    if s == [] then [] else Insert(s[0], SortDesc(s[1..], key), key)
  }

  lemma {:induction false} InsertPermutes<T>(x: T, s: seq<T>, key: T -> real)
    ensures multiset(Insert(x, s, key)) == multiset(s) + multiset{x}
  {
    if s != [] && key(x) < key(s[0]) {
      InsertPermutes(x, s[1..], key);
      assert s == [s[0]] + s[1..];
    }
  }

  lemma {:induction false} InsertOrdered<T>(x: T, s: seq<T>, key: T -> real)
    requires NonIncreasing(s, key)
    ensures NonIncreasing(Insert(x, s, key), key)
  {
    if s != [] && key(x) < key(s[0]) {
      var t := Insert(x, s[1..], key);
      InsertOrdered(x, s[1..], key);
      InsertPermutes(x, s[1..], key);
      forall k | 0 <= k < |t| ensures key(s[0]) >= key(t[k]) {
        assert t[k] in multiset(t);
        assert t[k] == x || t[k] in multiset(s[1..]);
        if t[k] != x {
          var j :| 0 <= j < |s[1..]| && s[1..][j] == t[k];
          assert s[j + 1] == t[k];
        }
      }
    }
  }

  lemma {:induction false} InsertKeepsTies<T>(x: T, s: seq<T>, key: T -> real, v: real)
    ensures WithKey(Insert(x, s, key), key, v)
         == if key(x) == v then [x] + WithKey(s, key, v) else WithKey(s, key, v)
  {
    if s == [] || key(x) >= key(s[0]) {
      assert ([x] + s)[1..] == s;
    } else {
      var t := Insert(x, s[1..], key);
      InsertKeepsTies(x, s[1..], key, v);
      assert ([s[0]] + t)[1..] == t;
    }
  }

  /** The ranked list holds exactly the input elements. */
  lemma {:induction false} SortDescPermutes<T>(s: seq<T>, key: T -> real)
    ensures multiset(SortDesc(s, key)) == multiset(s)
  {
    if s != [] {
      SortDescPermutes(s[1..], key);
      InsertPermutes(s[0], SortDesc(s[1..], key), key);
      assert s == [s[0]] + s[1..];
    }
  }

  /** The ranked list is ordered by descending key, and elements with equal
      keys keep their input order. */
  lemma {:induction false} SortDescIsStable<T>(s: seq<T>, key: T -> real)
    ensures StablySortedFrom(SortDesc(s, key), s, key)
  {
    if s != [] {
      var t := SortDesc(s[1..], key);
      SortDescIsStable(s[1..], key);
      InsertOrdered(s[0], t, key);
      forall v ensures WithKey(SortDesc(s, key), key, v) == WithKey(s, key, v) {
        InsertKeepsTies(s[0], t, key, v);
      }
    }
  }

  lemma WithKeyHead<T>(s: seq<T>, key: T -> real)
    requires s != []
    ensures WithKey(s, key, key(s[0])) != [] && WithKey(s, key, key(s[0]))[0] == s[0]
  {
  }

  /** Every element of a tie class comes from the sequence. */
  lemma {:induction false} WithKeyMember<T>(s: seq<T>, key: T -> real, v: real, y: T)
    requires y in WithKey(s, key, v)
    ensures key(y) == v && y in s
  {
    if s != [] {
      if key(s[0]) == v && y == s[0] {
      } else {
        assert y in WithKey(s[1..], key, v);
        WithKeyMember(s[1..], key, v, y);
      }
    }
  }

  /** A stable descending order of a sequence is unique: any sequence that
      is ordered by descending key and keeps every tie class in input order
      is the one SortDesc computes. So SortDesc models every stable sort,
      whatever algorithm the sort uses. */
  lemma {:induction false} StableSortIsUnique<T>(r: seq<T>, s: seq<T>, key: T -> real)
    requires StablySortedFrom(r, s, key)
    ensures r == SortDesc(s, key)
  {
    SortDescIsStable(s, key);
    SameTiesSameOrder(r, SortDesc(s, key), key);
  }

  /** Two ordered sequences with the same tie classes start alike. */
  lemma SameTiesSameHead<T>(a: seq<T>, b: seq<T>, key: T -> real)
    requires a != [] && b != []
    requires NonIncreasing(a, key) && NonIncreasing(b, key)
    requires forall v :: WithKey(a, key, v) == WithKey(b, key, v)
    ensures a[0] == b[0]
  {
    var ka, kb := key(a[0]), key(b[0]);
    WithKeyHead(a, key);
    WithKeyHead(b, key);
    // the head of each has a key that occurs in the other, whose head key is therefore no smaller
    assert WithKey(b, key, ka) == WithKey(a, key, ka);
    WithKeyMember(b, key, ka, a[0]);
    assert WithKey(a, key, kb) == WithKey(b, key, kb);
    WithKeyMember(a, key, kb, b[0]);
    assert ka == kb;
  }

  /** Dropping the common head keeps the tie classes equal. */
  lemma SameTiesOfTails<T>(a: seq<T>, b: seq<T>, key: T -> real, v: real)
    requires a != [] && b != [] && a[0] == b[0]
    requires WithKey(a, key, v) == WithKey(b, key, v)
    ensures WithKey(a[1..], key, v) == WithKey(b[1..], key, v)
  {
    var h := if key(a[0]) == v then [a[0]] else [];
    assert WithKey(a, key, v) == h + WithKey(a[1..], key, v);
    assert WithKey(b, key, v) == h + WithKey(b[1..], key, v);
    assert (h + WithKey(a[1..], key, v))[|h|..] == WithKey(a[1..], key, v);
    assert (h + WithKey(b[1..], key, v))[|h|..] == WithKey(b[1..], key, v);
  }

  lemma {:induction false} SameTiesSameOrder<T>(a: seq<T>, b: seq<T>, key: T -> real)
    requires NonIncreasing(a, key) && NonIncreasing(b, key)
    requires forall v :: WithKey(a, key, v) == WithKey(b, key, v)
    ensures a == b
  {
    if a == [] && b == [] {
    } else if a == [] {
      WithKeyHead(b, key);
      assert false;
    } else if b == [] {
      WithKeyHead(a, key);
      assert false;
    } else {
      SameTiesSameHead(a, b, key);
      forall v ensures WithKey(a[1..], key, v) == WithKey(b[1..], key, v) {
        SameTiesOfTails(a, b, key, v);
      }
      SameTiesSameOrder(a[1..], b[1..], key);
      assert a == [a[0]] + a[1..] && b == [b[0]] + b[1..];
    }
  }

  /** No two elements of `s` share a key under `f`. */
  predicate DistinctBy<T, K(==)>(s: seq<T>, f: T -> K)
  {
    forall i, j :: 0 <= i < j < |s| ==> f(s[i]) != f(s[j])
  }

  /** Reordering keeps keys distinct. */
  lemma PermutationKeepsDistinct<T, K>(s: seq<T>, r: seq<T>, f: T -> K)
    requires multiset(s) == multiset(r) && DistinctBy(s, f)
    ensures DistinctBy(r, f)
  {
    forall i, j | 0 <= i < j < |r| ensures f(r[i]) != f(r[j]) {
      if f(r[i]) == f(r[j]) {
        assert r[i] in multiset(s) && r[j] in multiset(s);
        var k1 :| 0 <= k1 < |s| && s[k1] == r[i];
        var k2 :| 0 <= k2 < |s| && s[k2] == r[j];
        assert k1 == k2;
        CountAtLeastTwo(r, i, j);
        CountAtMostOne(s, f, r[i]);
      }
    }
  }

  lemma CountAtLeastTwo<T>(s: seq<T>, i: nat, j: nat)
    requires i < j < |s| && s[i] == s[j]
    ensures multiset(s)[s[i]] >= 2
  {
    assert s == s[..j] + [s[j]] + s[j + 1..];
    assert s[i] in s[..j];
  }

  lemma {:induction false} CountAtMostOne<T, K>(s: seq<T>, f: T -> K, x: T)
    requires DistinctBy(s, f)
    ensures multiset(s)[x] <= 1
  {
    if s != [] {
      var m := |s| - 1;
      assert s == s[..m] + [s[m]];
      CountAtMostOne(s[..m], f, x);
      if s[m] == x {
        assert x !in s[..m];
      }
    }
  }
}
