/**
 * What the two catalog grids (the SKU grid and the style grid) have in
 * common: the free-text search box, the 21-per-page slicing with its page
 * count and clamping, and the strip of page links with "…" gaps.
 */
module CatalogGrid {
  import opened Seqs
  import opened Text

  // ---------------------------------------------------------------------------
  // Search
  // ---------------------------------------------------------------------------

  /** `String(filter || "").trim().toLowerCase()`: the query the rows are matched against. */
  function Query(filter: string): (q: string)
    ensures q == "" <==> AllWhitespace(filter)
    ensures |q| <= |filter|
  {
    ToLower(Trim(filter))
  }

  /** Upper- or lower-case, the search box yields the same query. */
  lemma QueryIgnoresCase(filter: string)
    ensures Query(ToLower(filter)) == Query(filter)
  {
    TrimLower(filter);
    LowerIdempotent(Trim(filter));
  }

  /**
   * A row matches when its truthy searchable fields, joined by single spaces
   * and lower-cased, contain the query.
   */
  predicate Matches(fields: seq<string>, q: string) {
    Contains(ToLower(JoinNonEmpty(fields)), q)
  }

  /**
   * The grid's filter: an empty (or whitespace-only) search returns the very
   * same list; any other search keeps exactly the matching rows, in order.
   */
  function Search<T(!new)>(rows: seq<T>, fields: T -> seq<string>, filter: string): (r: seq<T>)
    ensures AllWhitespace(filter) ==> r == rows
    ensures IsSubsequence(r, rows)
    ensures forall x :: x in r <==> x in rows && (AllWhitespace(filter) || Matches(fields(x), Query(filter)))
    ensures forall x :: multiset(r)[x] ==
              if AllWhitespace(filter) || Matches(fields(x), Query(filter)) then multiset(rows)[x] else 0
  {
    var q := Query(filter);
    if q == "" then
      IsSubsequenceOfSelf(rows);
      rows
    else
      FilterMembers(rows, x => Matches(fields(x), q));
      FilterCounts(rows, x => Matches(fields(x), q));
      Filter(rows, x => Matches(fields(x), q))
  }

  // ---------------------------------------------------------------------------
  // Pages of 21 rows
  // ---------------------------------------------------------------------------

  const PageSize: nat := 21

  /** `Math.max(1, Math.ceil(n / PAGE_SIZE))`: at least one page, and just enough pages for `n` rows. */
  function TotalPages(n: nat): (t: nat)
    ensures t >= 1
    ensures n == 0 ==> t == 1
    ensures n > 0 ==> (t - 1) * PageSize < n <= t * PageSize
  {
    if n == 0 then 1 else (n + PageSize - 1) / PageSize
  }

  /** Where `Array.prototype.slice` puts a bound: negative bounds count from the end; both are clamped. */
  function SliceIndex(k: int, len: nat): (i: nat)
    ensures i <= len
    ensures 0 <= k ==> i == if k <= len then k else len
  {
    if k < 0 then (if len + k < 0 then 0 else len + k)
    else if k > len then len
    else k
  }

  /** `s.slice(start, end)`. */
  function JsSlice<T>(s: seq<T>, start: int, end: int): seq<T> {
    var i, j := SliceIndex(start, |s|), SliceIndex(end, |s|);
    if i < j then s[i..j] else []
  }

  /**
   * `rows.slice((page - 1) * PAGE_SIZE, (page - 1) * PAGE_SIZE + PAGE_SIZE)`:
   * never more than a page; for a page number from 1 up, the rows from the
   * page's first index on, as many as remain up to a page.
   */
  function PageItems<T>(rows: seq<T>, page: int): (r: seq<T>)
    ensures |r| <= PageSize
    ensures page >= 1 ==>
              var start := (page - 1) * PageSize;
              && |r| == (if |rows| <= start then 0 else if |rows| - start < PageSize then |rows| - start else PageSize)
              && forall k :: 0 <= k < |r| ==> r[k] == rows[start + k]
  {
    var start := (page - 1) * PageSize;
    JsSlice(rows, start, start + PageSize)
  }

  /** The pages 1 to `k`, one after the other. */
  function FirstPages<T>(rows: seq<T>, k: nat): seq<T> {
    if k == 0 then [] else FirstPages(rows, k - 1) + PageItems(rows, k)
  }

  /** Reading pages 1, 2, … in turn shows the rows in order, none twice and none skipped. */
  lemma {:induction false} FirstPagesArePrefix<T>(rows: seq<T>, k: nat)
    ensures FirstPages(rows, k) == rows[..if k * PageSize <= |rows| then k * PageSize else |rows|]
  {
    if k > 0 {
      FirstPagesArePrefix(rows, k - 1);
      var page := PageItems(rows, k);
      var start := (k - 1) * PageSize;
      var end := if k * PageSize <= |rows| then k * PageSize else |rows|;
      if start <= |rows| {
        assert page == rows[start..end];
        assert rows[..start] + rows[start..end] == rows[..end];
      } else {
        assert page == [];
      }
    }
  }

  /** All `totalPages` pages together are exactly the rows. */
  lemma PagesCoverRows<T>(rows: seq<T>)
    ensures FirstPages(rows, TotalPages(|rows|)) == rows
  {
    FirstPagesArePrefix(rows, TotalPages(|rows|));
  }

  /** The effect that pulls a page past the end back to the last page. */
  function ClampPage(page: int, totalPages: int): (r: int)
    ensures r <= totalPages
    ensures page <= totalPages ==> r == page
  {
    if page > totalPages then totalPages else page
  }

  /** Once clamped, a page of a non-empty list is never empty. */
  lemma ClampedPageNotEmpty<T>(rows: seq<T>, page: int)
    requires |rows| > 0 && page >= 1
    ensures PageItems(rows, ClampPage(page, TotalPages(|rows|))) != []
  {
    var p := ClampPage(page, TotalPages(|rows|));
    assert (p - 1) * PageSize < |rows| by {
      assert p - 1 <= TotalPages(|rows|) - 1;
    }
  }

  // ---------------------------------------------------------------------------
  // The page-link strip
  // ---------------------------------------------------------------------------

  /** One entry of the strip: a page number, or the "…" marking skipped pages. */
  datatype PageLink = PageNumber(n: int) | Ellipsis

  /**
   * The page numbers offered before range filtering: the first, the last, the
   * current page and its neighbours, pages 2-4 near the start and the last
   * four pages near the end.
   */
  function Candidates(current: int, total: int): set<int> {
    {1, total, current, current - 1, current + 1}
    + (if current <= 3 then {2, 3, 4} else {})
    + (if current >= total - 2 then {total - 1, total - 2, total - 3} else {})
  }

  /** The pages the candidate set always offers, and the ones it adds near either end. */
  lemma CandidatesInclude(current: int, total: int)
    ensures 1 in Candidates(current, total) && total in Candidates(current, total)
    ensures forall k :: current - 1 <= k <= current + 1 ==> k in Candidates(current, total)
    ensures current <= 3 ==> forall k :: 2 <= k <= 4 ==> k in Candidates(current, total)
    ensures current >= total - 2 ==> forall k :: total - 3 <= k <= total - 1 ==> k in Candidates(current, total)
  {
    var c := Candidates(current, total);
    forall k | current - 1 <= k <= current + 1
      ensures k in c
    {
      assert k == current - 1 || k == current || k == current + 1;
    }
    if current <= 3 {
      forall k | 2 <= k <= 4
        ensures k in c
      {
        assert k == 2 || k == 3 || k == 4;
      }
    }
    if current >= total - 2 {
      forall k | total - 3 <= k <= total - 1
        ensures k in c
      {
        assert k == total - 3 || k == total - 2 || k == total - 1;
      }
    }
  }

  predicate StrictlyIncreasing(s: seq<int>) {
    forall i, j :: 0 <= i < j < |s| ==> s[i] < s[j]
  }

  /**
   * `[...pages].filter(n => n >= 1 && n <= k).sort((a, b) => a - b)`: the
   * members of `pages` between 1 and `k`, ascending.
   */
  function InRangeAscending(pages: set<int>, k: int): (r: seq<int>)
    decreases k
    ensures StrictlyIncreasing(r)
    ensures forall x :: x in r <==> x in pages && 1 <= x <= k
  {
    if k <= 0 then []
    else
      var r0 := InRangeAscending(pages, k - 1);
      assert forall i :: 0 <= i < |r0| ==> r0[i] < k by {
        forall i | 0 <= i < |r0|
          ensures r0[i] < k
        {
          assert r0[i] in r0;
        }
      }
      r0 + (if k in pages then [k] else [])
  }

  /** A set of numbers has only one ascending listing: the sort above is THE sorted order. */
  lemma {:induction false} AscendingIsUnique(a: seq<int>, b: seq<int>)
    requires StrictlyIncreasing(a) && StrictlyIncreasing(b)
    requires forall x :: x in a <==> x in b
    ensures a == b
  {
    assert |a| > 0 ==> a[|a| - 1] in a;
    assert |b| > 0 ==> b[|b| - 1] in b;
    if |a| > 0 && |b| > 0 {
      var x, y := a[|a| - 1], b[|b| - 1];
      LastIsMax(b, x);
      LastIsMax(a, y);
      assert x == y;
      var a', b' := a[..|a| - 1], b[..|b| - 1];
      InitMembers(a);
      InitMembers(b);
      forall z
        ensures z in a' <==> z in b'
      {
        assert z in a' <==> z in a && z < x;
        assert z in b' <==> z in b && z < y;
      }
      AscendingIsUnique(a', b');
      assert a == a' + [x] && b == b' + [y];
    }
  }

  lemma LastIsMax(s: seq<int>, z: int)
    requires StrictlyIncreasing(s) && z in s
    ensures z <= s[|s| - 1]
  {
  }

  /** Dropping the last (largest) element drops exactly that number. */
  lemma InitMembers(s: seq<int>)
    requires StrictlyIncreasing(s) && |s| > 0
    ensures forall z :: z in s[..|s| - 1] <==> z in s && z < s[|s| - 1]
  {
    forall z
      ensures z in s[..|s| - 1] <==> z in s && z < s[|s| - 1]
    {
      if z in s {
        var i :| 0 <= i < |s| && s[i] == z;
        if i < |s| - 1 {
          assert s[..|s| - 1][i] == z;
        }
      }
    }
  }

  /** The output loop: each number, preceded by "…" when it skips ahead of the previous one. */
  function WithEllipses(s: seq<int>): seq<PageLink> {
    if |s| == 0 then []
    else
      var init := s[..|s| - 1];
      var n := s[|s| - 1];
      WithEllipses(init) + Step(init, n)
  }

  /** What the loop pushes for `n`: "…" first when `n` skips ahead of the previous number. */
  function Step(prev: seq<int>, n: int): (r: seq<PageLink>)
    ensures r == [PageNumber(n)] || r == [Ellipsis, PageNumber(n)]
  {
    if |prev| > 0 && n - prev[|prev| - 1] > 1 then [Ellipsis, PageNumber(n)] else [PageNumber(n)]
  }

  /** One turn of the output loop over a prefix of the sorted pages. */
  lemma WithEllipsesPrefix(s: seq<int>, i: int)
    requires 0 <= i < |s|
    ensures WithEllipses(s[..i + 1])
         == WithEllipses(s[..i]) + (if i > 0 && s[i] - s[i - 1] > 1 then [Ellipsis, PageNumber(s[i])] else [PageNumber(s[i])])
  {
    assert s[..i + 1][..i] == s[..i];
  }

  /** The page numbers of a strip, in order, ellipses dropped. */
  function Numbers(r: seq<PageLink>): seq<int> {
    if |r| == 0 then []
    else Numbers(r[..|r| - 1]) + (if r[|r| - 1].PageNumber? then [r[|r| - 1].n] else [])
  }

  /** The numbers of a strip are exactly its page links. */
  lemma {:induction false} NumbersMembers(r: seq<PageLink>)
    ensures forall x :: x in Numbers(r) <==> PageNumber(x) in r
  {
    if |r| > 0 {
      var init := r[..|r| - 1];
      NumbersMembers(init);
      assert r == init + [r[|r| - 1]];
    }
  }

  /** An "…" at `i` stands between two numbers more than one apart. */
  predicate EllipsisBetween(r: seq<PageLink>, i: int)
    requires 0 <= i < |r|
  {
    r[i].Ellipsis? ==>
      && 0 < i < |r| - 1
      && r[i - 1].PageNumber? && r[i + 1].PageNumber?
      && r[i + 1].n - r[i - 1].n > 1
  }

  /** Two numbers side by side at `i` and `i + 1` are consecutive. */
  predicate NumbersAdjacent(r: seq<PageLink>, i: int)
    requires 0 <= i < |r| - 1
  {
    r[i].PageNumber? && r[i + 1].PageNumber? ==> r[i + 1].n - r[i].n == 1
  }

  /**
   * The ellipsis rule: the strip starts and ends with a number, an "…"
   * stands only between two numbers more than one apart (so never twice in a
   * row), and two numbers side by side are consecutive.
   */
  predicate WellSeparated(r: seq<PageLink>) {
    && (|r| > 0 ==> r[0].PageNumber? && r[|r| - 1].PageNumber?)
    && (forall i :: 0 <= i < |r| ==> EllipsisBetween(r, i))
    && (forall i :: 0 <= i < |r| - 1 ==> NumbersAdjacent(r, i))
  }

  /** The strip ends with the last number. */
  lemma WithEllipsesLast(s: seq<int>)
    requires |s| > 0
    ensures |WithEllipses(s)| > 0 && WithEllipses(s)[|WithEllipses(s)| - 1] == PageNumber(s[|s| - 1])
  {
  }

  /** Inserting the ellipses loses and adds no number. */
  lemma {:induction false} WithEllipsesNumbers(s: seq<int>)
    ensures Numbers(WithEllipses(s)) == s
  {
    if |s| > 0 {
      var init := s[..|s| - 1];
      WithEllipsesNumbers(init);
      assert s == init + [s[|s| - 1]];
      NumbersOfStep(init, s[|s| - 1]);
    }
  }

  lemma NumbersOfStep(init: seq<int>, n: int)
    requires Numbers(WithEllipses(init)) == init
    ensures Numbers(WithEllipses(init + [n])) == init + [n]
  {
    var s := init + [n];
    assert s[..|s| - 1] == init;
    var w := WithEllipses(init);
    var step := Step(init, n);
    assert WithEllipses(s) == w + step;
    NumbersAppend(w, step);
    assert Numbers(step) == [n] by {
      assert [PageNumber(n)][..0] == [];
      assert [Ellipsis, PageNumber(n)][..1] == [Ellipsis];
      assert [Ellipsis][..0] == [];
    }
  }

  /** Inserting the ellipses into ascending numbers follows the ellipsis rule. */
  lemma {:induction false} WithEllipsesSeparated(s: seq<int>)
    requires StrictlyIncreasing(s)
    ensures WellSeparated(WithEllipses(s))
  {
    if |s| > 0 {
      var init := s[..|s| - 1];
      var n := s[|s| - 1];
      WithEllipsesSeparated(init);
      var w := WithEllipses(init);
      if |init| > 0 {
        WithEllipsesLast(init);
        assert init[|init| - 1] < n;
      }
      if |init| > 0 && n - init[|init| - 1] > 1 {
        assert WithEllipses(s) == w + [Ellipsis, PageNumber(n)];
        AppendAfterGap(w, n);
      } else {
        assert WithEllipses(s) == w + [PageNumber(n)];
        AppendNext(w, n);
      }
    }
  }

  /** Appending the next consecutive number keeps the ellipsis rule. */
  lemma AppendNext(w: seq<PageLink>, n: int)
    requires WellSeparated(w)
    requires |w| > 0 ==> w[|w| - 1].PageNumber? && n - w[|w| - 1].n == 1
    ensures WellSeparated(w + [PageNumber(n)])
  {
    var r := w + [PageNumber(n)];
    forall i | 0 <= i < |r|
      ensures EllipsisBetween(r, i)
    {
      if i < |w| {
        assert EllipsisBetween(w, i);
        if 0 < i {
          assert r[i - 1] == w[i - 1];
        }
        if i < |w| - 1 {
          assert r[i + 1] == w[i + 1];
        }
      }
    }
    forall i | 0 <= i < |r| - 1
      ensures NumbersAdjacent(r, i)
    {
      if i < |w| - 1 {
        assert NumbersAdjacent(w, i);
        assert r[i] == w[i] && r[i + 1] == w[i + 1];
      }
    }
  }

  /** Appending "…" and a number more than one past the last keeps the ellipsis rule. */
  lemma AppendAfterGap(w: seq<PageLink>, n: int)
    requires WellSeparated(w)
    requires |w| > 0 && w[|w| - 1].PageNumber? && n - w[|w| - 1].n > 1
    ensures WellSeparated(w + [Ellipsis, PageNumber(n)])
  {
    var r := w + [Ellipsis, PageNumber(n)];
    assert |r| == |w| + 2 && r[|w|] == Ellipsis && r[|w| + 1] == PageNumber(n);
    forall i | 0 <= i < |r|
      ensures EllipsisBetween(r, i)
    {
      if i < |w| {
        assert EllipsisBetween(w, i);
        if 0 < i {
          assert r[i - 1] == w[i - 1];
        }
        if i < |w| - 1 {
          assert r[i + 1] == w[i + 1];
        }
      } else if i == |w| {
        assert r[i - 1] == w[|w| - 1];
      }
    }
    forall i | 0 <= i < |r| - 1
      ensures NumbersAdjacent(r, i)
    {
      if i < |w| - 1 {
        assert NumbersAdjacent(w, i);
        assert r[i] == w[i] && r[i + 1] == w[i + 1];
      }
    }
  }

  lemma {:induction false} NumbersAppend(a: seq<PageLink>, b: seq<PageLink>)
    ensures Numbers(a + b) == Numbers(a) + Numbers(b)
  {
    if |b| == 0 {
      assert a + b == a;
    } else {
      var b' := b[..|b| - 1];
      assert (a + b)[..|a + b| - 1] == a + b';
      NumbersAppend(a, b');
    }
  }
}
