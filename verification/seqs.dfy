/**
 * Sequence helpers shared by the whole model: order-preserving filtering,
 * first-seen de-duplication and sums over sequences. Every recursive definition
 * here peels off the LAST element, mirroring the left-to-right loops and
 * `reduce` calls of the modelled code.
 */
module Seqs {

  /** `r` can be obtained from `s` by deleting elements (greedy match from the back). */
  predicate IsSubsequence<T(==)>(r: seq<T>, s: seq<T>)
    decreases |s|
  {
    if |r| == 0 then true
    else if |s| == 0 then false
    else if r[|r| - 1] == s[|s| - 1] then IsSubsequence(r[..|r| - 1], s[..|s| - 1])
    else IsSubsequence(r, s[..|s| - 1])
  }

  /** Every sequence is a subsequence of itself. */
  lemma {:induction false} IsSubsequenceOfSelf<T>(s: seq<T>)
    ensures IsSubsequence(s, s)
  {
    if |s| > 0 {
      IsSubsequenceOfSelf(s[..|s| - 1]);
    }
  }

  /** `Array.prototype.filter`: the elements satisfying `p`, in their original order. */
  function Filter<T>(s: seq<T>, p: T -> bool): (r: seq<T>)
    ensures |r| <= |s|
    ensures forall i :: 0 <= i < |r| ==> p(r[i])
  {
    if |s| == 0 then []
    else
      var init := s[..|s| - 1];
      var x := s[|s| - 1];
      Filter(init, p) + (if p(x) then [x] else [])
  }

  /** One step of the filter: the last element is kept when it satisfies `p`. */
  lemma FilterLast<T>(s: seq<T>, p: T -> bool)
    requires |s| > 0
    ensures Filter(s, p) == Filter(s[..|s| - 1], p) + (if p(s[|s| - 1]) then [s[|s| - 1]] else [])
  {
  }

  /** Nothing is kept when no element satisfies `p`. */
  lemma {:induction false} FilterNone<T>(s: seq<T>, p: T -> bool)
    requires forall i :: 0 <= i < |s| ==> !p(s[i])
    ensures Filter(s, p) == []
  {
    if |s| > 0 {
      FilterNone(s[..|s| - 1], p);
    }
  }

  /** The filter keeps exactly the satisfying elements, in order. */
  lemma {:induction false} FilterMembers<T(!new)>(s: seq<T>, p: T -> bool)
    ensures forall x :: x in Filter(s, p) <==> x in s && p(x)
    ensures IsSubsequence(Filter(s, p), s)
  {
    if |s| > 0 {
      var init := s[..|s| - 1];
      var x := s[|s| - 1];
      var f := Filter(init, p);
      FilterMembers(init, p);
      assert s == init + [x];
      assert s[..|s| - 1] == init;
      if p(x) {
        assert (f + [x])[..|f|] == f;
      } else {
        assert Filter(s, p) == f;
        if |f| > 0 {
          assert p(f[|f| - 1]);
          assert f[|f| - 1] != s[|s| - 1];
        }
      }
    }
  }

  /** Filtering keeps every occurrence of a satisfying element and no other. */
  lemma {:induction false} FilterCount<T(!new)>(s: seq<T>, p: T -> bool, x: T)
    ensures multiset(Filter(s, p))[x] == if p(x) then multiset(s)[x] else 0
  {
    if |s| > 0 {
      var init := s[..|s| - 1];
      FilterCount(init, p, x);
      assert s == init + [s[|s| - 1]];
    }
  }

  /** `FilterCount` for every element at once. */
  lemma FilterCounts<T(!new)>(s: seq<T>, p: T -> bool)
    ensures forall x :: multiset(Filter(s, p))[x] == if p(x) then multiset(s)[x] else 0
  {
    forall x {
      FilterCount(s, p, x);
    }
  }

  /** Filtering with a predicate that every element satisfies changes nothing. */
  lemma {:induction false} FilterKeepsAll<T(!new)>(s: seq<T>, p: T -> bool)
    requires forall i :: 0 <= i < |s| ==> p(s[i])
    ensures Filter(s, p) == s
  {
    if |s| > 0 {
      FilterKeepsAll(s[..|s| - 1], p);
      assert s == s[..|s| - 1] + [s[|s| - 1]];
    }
  }

  /** Filtering distributes over concatenation. */
  lemma {:induction false} FilterAppend<T(!new)>(a: seq<T>, b: seq<T>, p: T -> bool)
    ensures Filter(a + b, p) == Filter(a, p) + Filter(b, p)
  {
    if |b| == 0 {
      assert a + b == a;
    } else {
      var b' := b[..|b| - 1];
      assert (a + b)[..|a + b| - 1] == a + b';
      FilterAppend(a, b', p);
      var x := b[|b| - 1];
      assert Filter(a + b, p) == Filter(a + b', p) + (if p(x) then [x] else []);
      assert Filter(b, p) == Filter(b', p) + (if p(x) then [x] else []);
    }
  }

  predicate NoDuplicates<T(==)>(s: seq<T>) {
    forall i, j :: 0 <= i < j < |s| ==> s[i] != s[j]
  }

  /** Index of the first occurrence of `x` in `s`. */
  function FirstIndex<T(==)>(s: seq<T>, x: T): (k: nat)
    requires x in s
    ensures k < |s| && s[k] == x
    ensures forall j :: 0 <= j < k ==> s[j] != x
  {
    var init := s[..|s| - 1];
    if x in init then FirstIndex(init, x) else |s| - 1
  }

  /**
   * The distinct elements of `s` in first-seen order: what iterating `s` into a
   * JavaScript `Set` (or `Map` keyed by the element) and reading it back gives.
   */
  function Distinct<T(==,!new)>(s: seq<T>): (r: seq<T>)
    ensures NoDuplicates(r)
    ensures forall x :: x in r <==> x in s
    ensures forall i, j :: 0 <= i < j < |r| ==> FirstIndex(s, r[i]) < FirstIndex(s, r[j])
  {
    if |s| == 0 then []
    else
      var init := s[..|s| - 1];
      var d := Distinct(init);
      var x := s[|s| - 1];
      if x in d then d else d + [x]
  }

  lemma DistinctLast<T(!new)>(s: seq<T>)
    requires |s| > 0
    ensures var d := Distinct(s[..|s| - 1]);
            Distinct(s) == if s[|s| - 1] in d then d else d + [s[|s| - 1]]
  {
  }

  /** An element of a sequence is an element of any permutation of it. */
  lemma PermutationMember<T>(a: seq<T>, b: seq<T>, i: int)
    requires multiset(a) == multiset(b) && 0 <= i < |a|
    ensures a[i] in b
  {
    assert a[i] in multiset(a);
  }

  /** Sum of `f` over `s` (a `reduce` with a real accumulator starting at 0). */
  function Sum<T>(s: seq<T>, f: T -> real): real {
    if |s| == 0 then 0.0 else Sum(s[..|s| - 1], f) + f(s[|s| - 1])
  }

  lemma {:induction false} SumAppend<T>(a: seq<T>, b: seq<T>, f: T -> real)
    ensures Sum(a + b, f) == Sum(a, f) + Sum(b, f)
  {
    if |b| == 0 {
      assert a + b == a;
    } else {
      var b' := b[..|b| - 1];
      assert (a + b)[..|a + b| - 1] == a + b';
      SumAppend(a, b', f);
    }
  }

  lemma SumSingle<T>(x: T, f: T -> real)
    ensures Sum([x], f) == f(x)
  {
    assert [x][..0] == [];
  }

  /** Reordering the summed sequence does not change the sum. */
  lemma {:induction false} SumPermutation<T>(a: seq<T>, b: seq<T>, f: T -> real)
    requires multiset(a) == multiset(b)
    ensures Sum(a, f) == Sum(b, f)
    decreases |a|
  {
    if |a| > 0 {
      var x := a[|a| - 1];
      var a' := a[..|a| - 1];
      assert a == a' + [x];
      assert x in multiset(b);
      var j :| 0 <= j < |b| && b[j] == x;
      var b' := b[..j] + b[j + 1..];
      RemoveAt(b, j);
      SumRemoveAt(b, j, f);
      assert multiset(a') == multiset(a) - multiset{x};
      SumPermutation(a', b', f);
      SumAppend(a', [x], f);
      assert Sum([x], f) == f(x) by { assert [x][..0] == []; }
    }
  }

  /** Removing the element at `j` removes one copy of it from the multiset. */
  lemma RemoveAt<T>(b: seq<T>, j: int)
    requires 0 <= j < |b|
    ensures multiset(b[..j] + b[j + 1..]) == multiset(b) - multiset{b[j]}
  {
    assert b == b[..j] + [b[j]] + b[j + 1..];
  }

  /** Removing the element at `j` takes its term out of the sum. */
  lemma SumRemoveAt<T>(b: seq<T>, j: int, f: T -> real)
    requires 0 <= j < |b|
    ensures Sum(b, f) == Sum(b[..j] + b[j + 1..], f) + f(b[j])
  {
    var front, right := b[..j + 1], b[j + 1..];
    assert Sum(b, f) == Sum(front, f) + Sum(right, f) by {
      assert b == front + right;
      SumAppend(front, right, f);
    }
    assert Sum(front, f) == Sum(b[..j], f) + f(b[j]) by {
      assert front[..j] == b[..j];
    }
    SumAppend(b[..j], right, f);
  }

  /** Sum of a pointwise sum is the sum of the sums. */
  lemma {:induction false} SumAdd<T>(s: seq<T>, f: T -> real, g: T -> real, h: T -> real)
    requires forall i :: 0 <= i < |s| ==> h(s[i]) == f(s[i]) + g(s[i])
    ensures Sum(s, h) == Sum(s, f) + Sum(s, g)
  {
    if |s| > 0 {
      SumAdd(s[..|s| - 1], f, g, h);
    }
  }

  /** Sum of `f` over `s` with an integer accumulator. */
  function IntSum<T>(s: seq<T>, f: T -> int): int {
    if |s| == 0 then 0 else IntSum(s[..|s| - 1], f) + f(s[|s| - 1])
  }

  lemma {:induction false} IntSumAppend<T>(a: seq<T>, b: seq<T>, f: T -> int)
    ensures IntSum(a + b, f) == IntSum(a, f) + IntSum(b, f)
  {
    if |b| == 0 {
      assert a + b == a;
    } else {
      var b' := b[..|b| - 1];
      assert (a + b)[..|a + b| - 1] == a + b';
      IntSumAppend(a, b', f);
    }
  }

  lemma IntSumSingle<T>(x: T, f: T -> int)
    ensures IntSum([x], f) == f(x)
  {
    assert [x][..0] == [];
  }

  lemma {:induction false} IntSumCongruent<T>(s: seq<T>, f: T -> int, g: T -> int)
    requires forall i :: 0 <= i < |s| ==> f(s[i]) == g(s[i])
    ensures IntSum(s, f) == IntSum(s, g)
  {
    if |s| > 0 {
      IntSumCongruent(s[..|s| - 1], f, g);
    }
  }

  /** Sum of a pointwise sum is the sum of the sums. */
  lemma {:induction false} IntSumAdd<T>(s: seq<T>, f: T -> int, g: T -> int, h: T -> int)
    requires forall i :: 0 <= i < |s| ==> h(s[i]) == f(s[i]) + g(s[i])
    ensures IntSum(s, h) == IntSum(s, f) + IntSum(s, g)
  {
    if |s| > 0 {
      IntSumAdd(s[..|s| - 1], f, g, h);
    }
  }

  /** Row `x` of a table `f`. */
  function Row<A, B>(f: (A, B) -> int, x: A): B -> int {
    y => f(x, y)
  }

  /** Column `y` of a table `f`. */
  function Column<A, B>(f: (A, B) -> int, y: B): A -> int {
    x => f(x, y)
  }

  /** Each row's sum over the columns `ys`. */
  function RowSums<A, B>(ys: seq<B>, f: (A, B) -> int): A -> int {
    x => IntSum(ys, Row(f, x))
  }

  /** Each column's sum over the rows `xs`. */
  function ColumnSums<A, B>(xs: seq<A>, f: (A, B) -> int): B -> int {
    y => IntSum(xs, Column(f, y))
  }

  /** The two orders of summing a table of integers agree (Fubini for finite sums). */
  lemma {:induction false} IntSumSwap<A, B>(xs: seq<A>, ys: seq<B>, f: (A, B) -> int)
    ensures IntSum(xs, RowSums(ys, f)) == IntSum(ys, ColumnSums(xs, f))
  {
    if |xs| == 0 {
      IntSumZero(ys, ColumnSums(xs, f));
    } else {
      var xs' := xs[..|xs| - 1];
      var last := xs[|xs| - 1];
      IntSumSwap(xs', ys, f);
      IntSumAdd(ys, ColumnSums(xs', f), Row(f, last), ColumnSums(xs, f));
    }
  }

  lemma {:induction false} IntSumZero<T>(s: seq<T>, f: T -> int)
    requires forall i :: 0 <= i < |s| ==> f(s[i]) == 0
    ensures IntSum(s, f) == 0
  {
    if |s| > 0 {
      IntSumZero(s[..|s| - 1], f);
    }
  }

  /** A sum of non-negative terms is non-negative. */
  lemma {:induction false} IntSumNonNegative<T>(s: seq<T>, f: T -> int)
    requires forall i :: 0 <= i < |s| ==> f(s[i]) >= 0
    ensures IntSum(s, f) >= 0
  {
    if |s| > 0 {
      IntSumNonNegative(s[..|s| - 1], f);
    }
  }
}
