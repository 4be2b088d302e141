/**
 * Orderings and the two sorts the bot relies on:
 *  - `SortedSet`, Python's `sorted(set(xs))`: strictly increasing, duplicate-free;
 *  - `SortDesc`, a stable sort by a descending key, the shape of
 *    `sorted(rows, key=..., reverse=True)` and of `sort_values(..., ascending=False)`;
 * plus pandas' `head`/`tail` slicing.
 */
module Order {

  ghost predicate StrictTotalOrder<T(!new)>(lt: (T, T) -> bool) {
    && (forall x :: !lt(x, x))
    && (forall x, y, z :: lt(x, y) && lt(y, z) ==> lt(x, z))
    && (forall x, y :: x != y ==> lt(x, y) || lt(y, x))
  }

  predicate StrictlyIncreasing<T>(s: seq<T>, lt: (T, T) -> bool) {
    forall i, j :: 0 <= i < j < |s| ==> lt(s[i], s[j])
  }

  ghost predicate NonIncreasing<T>(s: seq<T>, key: T -> real) {
    forall i, j :: 0 <= i < j < |s| ==> key(s[j]) <= key(s[i])
  }

  /** Items with equal keys appear in increasing `rank`. */
  ghost predicate StableBy<T>(s: seq<T>, key: T -> real, rank: T -> int) {
    forall i, j :: 0 <= i < j < |s| && key(s[i]) == key(s[j]) ==> rank(s[i]) < rank(s[j])
  }

  // ---------------------------------------------------------------------------
  // sorted(set(xs))
  // ---------------------------------------------------------------------------

  /** Inserts `x` into an increasing sequence unless it is already there. */
  function InsertUnique<T(==)>(x: T, s: seq<T>, lt: (T, T) -> bool): seq<T>
  {
    if |s| == 0 then [x]
    else if x == s[0] then s
    else if lt(x, s[0]) then [x] + s
    else [s[0]] + InsertUnique(x, s[1..], lt)
  }

  function SortedSet<T(==)>(xs: seq<T>, lt: (T, T) -> bool): seq<T>
  {
    if |xs| == 0 then [] else InsertUnique(xs[0], SortedSet(xs[1..], lt), lt)
  }

  lemma {:induction false} InsertUniqueSpec<T(!new)>(x: T, s: seq<T>, lt: (T, T) -> bool)
    requires StrictTotalOrder(lt)
    requires StrictlyIncreasing(s, lt)
    ensures StrictlyIncreasing(InsertUnique(x, s, lt), lt)
    ensures forall y :: y in InsertUnique(x, s, lt) <==> y == x || y in s
    decreases |s|
  {
    if |s| > 0 && x != s[0] && !lt(x, s[0]) {
      InsertUniqueSpec(x, s[1..], lt);
      var r := InsertUnique(x, s, lt);
      assert lt(s[0], x);
      forall i, j | 0 <= i < j < |r|
        ensures lt(r[i], r[j])
      {
        if i == 0 {
          assert r[j] in InsertUnique(x, s[1..], lt);
          if r[j] != x {
            var k :| 0 <= k < |s[1..]| && s[1..][k] == r[j];
            assert s[k + 1] == r[j];
          }
        }
      }
    }
  }

  /** `sorted(set(xs))`: strictly increasing and holding exactly the items of `xs`. */
  lemma {:induction false} SortedSetSpec<T(!new)>(xs: seq<T>, lt: (T, T) -> bool)
    requires StrictTotalOrder(lt)
    ensures StrictlyIncreasing(SortedSet(xs, lt), lt)
    ensures forall y :: y in SortedSet(xs, lt) <==> y in xs
    decreases |xs|
  {
    if |xs| > 0 {
      SortedSetSpec(xs[1..], lt);
      InsertUniqueSpec(xs[0], SortedSet(xs[1..], lt), lt);
      assert xs == [xs[0]] + xs[1..];
    }
  }

  lemma FirstIsLeast<T(!new)>(s: seq<T>, lt: (T, T) -> bool)
    requires |s| > 0 && StrictlyIncreasing(s, lt)
    ensures forall y :: y in s ==> y == s[0] || lt(s[0], y)
  {
  }

  /** A strictly increasing sequence is determined by its set of items. */
  lemma {:induction false} IncreasingUnique<T(!new)>(a: seq<T>, b: seq<T>, lt: (T, T) -> bool)
    requires StrictTotalOrder(lt)
    requires StrictlyIncreasing(a, lt) && StrictlyIncreasing(b, lt)
    requires forall y :: y in a <==> y in b
    ensures a == b
    decreases |a|
  {
    if |b| > 0 {
      assert b[0] in a;
    }
    if |a| > 0 {
      assert a[0] in b;
      assert |b| > 0;
      assert b[0] in a;
      FirstIsLeast(a, lt);
      FirstIsLeast(b, lt);
      assert a[0] == b[0];
      forall y
        ensures y in a[1..] <==> y in b[1..]
      {
        if y in a[1..] {
          var k :| 0 <= k < |a[1..]| && a[1..][k] == y;
          assert lt(a[0], a[k + 1]);
          assert y != b[0];
          assert y in b;
        }
        if y in b[1..] {
          var k :| 0 <= k < |b[1..]| && b[1..][k] == y;
          assert lt(b[0], b[k + 1]);
          assert y != a[0];
          assert y in a;
        }
      }
      IncreasingUnique(a[1..], b[1..], lt);
      assert a == [a[0]] + a[1..] && b == [b[0]] + b[1..];
    } else {
      assert |b| == 0;
    }
  }

  // ---------------------------------------------------------------------------
  // Stable descending sort
  // ---------------------------------------------------------------------------

  /** Places `x` in front of the first item whose key does not exceed its own. */
  function InsertDesc<T>(x: T, s: seq<T>, key: T -> real): (r: seq<T>)
    ensures |r| == |s| + 1
    ensures multiset(r) == multiset(s) + multiset{x}
  {
    if |s| == 0 || key(s[0]) <= key(x) then [x] + s
    else
      var t := InsertDesc(x, s[1..], key);
      assert s == [s[0]] + s[1..];
      [s[0]] + t
  }

  /** Insertion sort, descending by `key`; earlier items win ties. */
  function SortDesc<T>(s: seq<T>, key: T -> real): (r: seq<T>)
    ensures |r| == |s|
    ensures multiset(r) == multiset(s)
    ensures NonIncreasing(r, key)
  {
    if |s| == 0 then []
    else
      var t := SortDesc(s[1..], key);
      InsertDescOrdered(s[0], t, key);
      HeadAndRest(s);
      InsertDesc(s[0], t, key)
  }

  lemma HeadAndRest<T>(s: seq<T>)
    requires |s| > 0
    ensures multiset(s) == multiset(s[1..]) + multiset{s[0]}
  {
    assert s == [s[0]] + s[1..];
  }

  lemma {:induction false} InsertDescOrdered<T>(x: T, s: seq<T>, key: T -> real)
    requires NonIncreasing(s, key)
    ensures NonIncreasing(InsertDesc(x, s, key), key)
    decreases |s|
  {
    if |s| > 0 && key(x) < key(s[0]) {
      InsertDescOrdered(x, s[1..], key);
      var r := InsertDesc(x, s, key);
      forall j | 0 < j < |r|
        ensures key(r[j]) <= key(r[0])
      {
        assert r[j] in multiset(InsertDesc(x, s[1..], key));
        assert r[j] in multiset(s[1..]) + multiset{x};
        if r[j] != x {
          assert r[j] in s[1..];
          var k :| 0 <= k < |s[1..]| && s[1..][k] == r[j];
          assert s[k + 1] == r[j];
        }
      }
    }
  }

  lemma {:induction false} InsertDescStable<T>(x: T, s: seq<T>, key: T -> real, rank: T -> int)
    requires NonIncreasing(s, key) && StableBy(s, key, rank)
    requires forall y :: y in s ==> rank(x) < rank(y)
    ensures StableBy(InsertDesc(x, s, key), key, rank)
    decreases |s|
  {
    if |s| == 0 || key(s[0]) <= key(x) {
      InsertInFrontStable(x, s, key, rank);
    } else {
      InsertDescStable(x, s[1..], key, rank);
      InsertBehindStable(x, s, key, rank);
    }
  }

  lemma InsertInFrontStable<T>(x: T, s: seq<T>, key: T -> real, rank: T -> int)
    requires StableBy(s, key, rank)
    requires forall y :: y in s ==> rank(x) < rank(y)
    ensures StableBy([x] + s, key, rank)
  {
    var r := [x] + s;
    forall i, j | 0 <= i < j < |r| && key(r[i]) == key(r[j])
      ensures rank(r[i]) < rank(r[j])
    {
      assert r[j] == s[j - 1];
      if i > 0 {
        assert r[i] == s[i - 1];
      }
    }
  }

  /** The head of `s` stays in front when its key exceeds that of `x`. */
  lemma InsertBehindStable<T>(x: T, s: seq<T>, key: T -> real, rank: T -> int)
    requires |s| > 0 && key(x) < key(s[0])
    requires StableBy(s, key, rank)
    requires StableBy(InsertDesc(x, s[1..], key), key, rank)
    ensures StableBy(InsertDesc(x, s, key), key, rank)
  {
    var rest := InsertDesc(x, s[1..], key);
    var r := [s[0]] + rest;
    assert InsertDesc(x, s, key) == r;
    forall i, j | 0 <= i < j < |r| && key(r[i]) == key(r[j])
      ensures rank(r[i]) < rank(r[j])
    {
      assert r[j] == rest[j - 1];
      if i > 0 {
        assert r[i] == rest[i - 1];
      } else {
        InsertDescMember(x, s[1..], key, r[j]);
        HeadRankBelow(s, key, rank, r[j]);
      }
    }
  }

  lemma InsertDescMember<T>(x: T, s: seq<T>, key: T -> real, y: T)
    requires y in InsertDesc(x, s, key)
    ensures y == x || y in s
  {
    assert y in multiset(InsertDesc(x, s, key));
  }

  /** In a stable sequence the head ranks below every later item with its key. */
  lemma HeadRankBelow<T>(s: seq<T>, key: T -> real, rank: T -> int, y: T)
    requires |s| > 0 && StableBy(s, key, rank)
    requires y in s[1..] && key(y) == key(s[0])
    ensures rank(s[0]) < rank(y)
  {
    var k :| 0 <= k < |s[1..]| && s[1..][k] == y;
    assert s[k + 1] == y;
  }

  /** Sorting keeps the input order among equal keys. */
  lemma {:induction false} SortDescStable<T>(s: seq<T>, key: T -> real, rank: T -> int)
    requires forall i, j :: 0 <= i < j < |s| ==> rank(s[i]) < rank(s[j])
    ensures StableBy(SortDesc(s, key), key, rank)
    decreases |s|
  {
    if |s| > 0 {
      var t := SortDesc(s[1..], key);
      SortDescStable(s[1..], key, rank);
      forall y | y in t
        ensures rank(s[0]) < rank(y)
      {
        assert y in multiset(s[1..]);
        var k :| 0 <= k < |s[1..]| && s[1..][k] == y;
        assert s[k + 1] == y;
      }
      InsertDescStable(s[0], t, key, rank);
    }
  }

  // ---------------------------------------------------------------------------
  // pandas head / tail
  // ---------------------------------------------------------------------------

  /** pandas `head(n)`: the first `n` items; for negative `n`, all but the last `-n`. */
  function Head<T>(s: seq<T>, n: int): (r: seq<T>)
    ensures |r| <= |s| && r == s[..|r|]
    ensures n >= 0 ==> |r| == if n < |s| then n else |s|
    ensures n < 0 ==> |r| == if |s| + n > 0 then |s| + n else 0
  {
    if n >= 0 then (if n < |s| then s[..n] else s)
    else if |s| + n > 0 then s[..|s| + n]
    else []
  }

  /** pandas `tail(n)` for `n >= 0`: the last `n` items, or all of them. */
  function Tail<T>(s: seq<T>, n: nat): seq<T>
  {
    if n < |s| then s[|s| - n..] else s
  }

  // ---------------------------------------------------------------------------
  // Column sums over a list of records
  // ---------------------------------------------------------------------------

  function SumBy<T>(s: seq<T>, f: T -> int): int {
    if |s| == 0 then 0 else f(s[0]) + SumBy(s[1..], f)
  }

  lemma {:induction false} SumByAppend<T>(a: seq<T>, b: seq<T>, f: T -> int)
    ensures SumBy(a + b, f) == SumBy(a, f) + SumBy(b, f)
    decreases |a|
  {
    if |a| > 0 {
      assert (a + b)[1..] == a[1..] + b;
      SumByAppend(a[1..], b, f);
    } else {
      assert a + b == b;
    }
  }

  /** Taking one item out of a list takes its value out of the sum. */
  lemma SumByRemove<T>(b: seq<T>, j: int, f: T -> int)
    requires 0 <= j < |b|
    ensures SumBy(b, f) == f(b[j]) + SumBy(b[..j] + b[j + 1..], f)
  {
    assert b == b[..j] + ([b[j]] + b[j + 1..]);
    SumByAppend(b[..j], [b[j]] + b[j + 1..], f);
    SumByAppend([b[j]], b[j + 1..], f);
    SumByAppend(b[..j], b[j + 1..], f);
  }

  lemma MultisetRemove<T>(b: seq<T>, j: int)
    requires 0 <= j < |b|
    ensures multiset(b[..j] + b[j + 1..]) == multiset(b) - multiset{b[j]}
  {
    assert b == b[..j] + [b[j]] + b[j + 1..];
  }

  /** Reordering a list does not change a column sum. */
  lemma {:induction false} SumByPermutation<T>(a: seq<T>, b: seq<T>, f: T -> int)
    requires multiset(a) == multiset(b)
    ensures SumBy(a, f) == SumBy(b, f)
    decreases |a|
  {
    if |a| == 0 {
      assert |b| == |multiset(b)| == 0;
    } else {
      var x := a[0];
      assert x in multiset(b);
      var j :| 0 <= j < |b| && b[j] == x;
      SumByRemove(b, j, f);
      MultisetRemove(b, j);
      assert a == [x] + a[1..];
      assert multiset(a[1..]) == multiset(a) - multiset{x};
      SumByPermutation(a[1..], b[..j] + b[j + 1..], f);
    }
  }

  // ---------------------------------------------------------------------------
  // Duplicate-freedom survives reordering
  // ---------------------------------------------------------------------------

  predicate Distinct<T(==)>(s: seq<T>) {
    forall i, j :: 0 <= i < j < |s| ==> s[i] != s[j]
  }

  lemma {:induction false} DistinctCountsOnce<T>(s: seq<T>, x: T)
    requires Distinct(s)
    ensures multiset(s)[x] <= 1
    decreases |s|
  {
    if |s| > 0 {
      assert s == [s[0]] + s[1..];
      DistinctCountsOnce(s[1..], s[0]);
      DistinctCountsOnce(s[1..], x);
      assert s[0] !in s[1..];
    }
  }

  lemma RepeatCountsTwice<T>(s: seq<T>, i: int, j: int)
    requires 0 <= i < j < |s| && s[i] == s[j]
    ensures multiset(s)[s[i]] >= 2
  {
    assert s == s[..i] + [s[i]] + s[i + 1..j] + [s[j]] + s[j + 1..];
  }

  lemma PermutationKeepsDistinct<T>(a: seq<T>, b: seq<T>)
    requires multiset(a) == multiset(b) && Distinct(a)
    ensures Distinct(b)
  {
    forall i, j | 0 <= i < j < |b|
      ensures b[i] != b[j]
    {
      DistinctCountsOnce(a, b[i]);
      if b[i] == b[j] {
        RepeatCountsTwice(b, i, j);
      }
    }
  }
}
