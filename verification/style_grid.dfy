/**
 * The style grid: a brand's styles, narrowed by the search box, shown 21 per
 * page under a strip of page links. The grid carries its own copy of the
 * page-link algorithm, written with set chaining and a set literal.
 */
module StyleGrid {
  import opened Seqs
  import opened Text
  import opened CatalogGrid

  datatype Style = Style(
    brandName: string,
    styleName: string,
    styleID: string,
    partNumber: string,
    baseCategory: string)

  /** The searchable fields of a style, in the order they are joined. */
  function SearchFields(s: Style): seq<string> {
    [s.brandName, s.styleName, s.styleID, s.partNumber, s.baseCategory]
  }

  /**
   * `filtered`: a blank search shows every style; otherwise exactly the styles
   * whose joined fields contain the trimmed, lower-cased search, in order.
   */
  function FilterStyles(styles: seq<Style>, filter: string): (r: seq<Style>)
    ensures AllWhitespace(filter) ==> r == styles
    ensures IsSubsequence(r, styles)
    ensures forall s :: s in r <==> s in styles && (AllWhitespace(filter) || Matches(SearchFields(s), Query(filter)))
    ensures forall s :: multiset(r)[s] ==
              if AllWhitespace(filter) || Matches(SearchFields(s), Query(filter)) then multiset(styles)[s] else 0
  {
    Search(styles, SearchFields, filter)
  }

  /** Typing the search in upper or lower case shows the same styles. */
  lemma SearchIgnoresCase(styles: seq<Style>, filter: string)
    ensures FilterStyles(styles, ToLower(filter)) == FilterStyles(styles, filter)
  {
    QueryIgnoresCase(filter);
  }

  /**
   * `getPaginationPages`: the candidate pages that lie in 1..total, ascending
   * and without repeats, always showing the first, the last, the current
   * page and its neighbours, pages 2-4 near the start and the last four near
   * the end, with "…" exactly where numbers are skipped.
   */
  function GetPaginationPages(current: int, total: int): (r: seq<PageLink>)
    ensures StrictlyIncreasing(Numbers(r))
    ensures forall x :: PageNumber(x) in r <==> x in Candidates(current, total) && 1 <= x <= total
    ensures WellSeparated(r)
    ensures total >= 1 ==> PageNumber(1) in r && PageNumber(total) in r
    ensures forall k :: current - 1 <= k <= current + 1 && 1 <= k <= total ==> PageNumber(k) in r
    ensures current <= 3 ==> forall k :: 2 <= k <= 4 && k <= total ==> PageNumber(k) in r
    ensures current >= total - 2 ==> forall k :: total - 3 <= k <= total - 1 && 1 <= k ==> PageNumber(k) in r
  {
    var sorted := InRangeAscending(Candidates(current, total), total);
    WithEllipsesNumbers(sorted);
    WithEllipsesSeparated(sorted);
    NumbersMembers(WithEllipses(sorted));
    CandidatesInclude(current, total);
    WithEllipses(sorted)
  }

  /**
   * Away from both ends the strip is `1 … c-1 c c+1 … total`: the first and
   * last page, the current page with its neighbours, and a gap on each side.
   */
  lemma MiddlePageStrip(c: int, total: int)
    requires 4 <= c <= total - 3
    ensures GetPaginationPages(c, total)
         == [PageNumber(1), Ellipsis, PageNumber(c - 1), PageNumber(c), PageNumber(c + 1), Ellipsis, PageNumber(total)]
  {
    MiddleCandidates(c, total);
    MiddleEllipses(c, total);
  }

  lemma MiddleCandidates(c: int, total: int)
    requires 4 <= c <= total - 3
    ensures InRangeAscending(Candidates(c, total), total) == [1, c - 1, c, c + 1, total]
  {
    var sorted := [1, c - 1, c, c + 1, total];
    assert Candidates(c, total) == {1, c - 1, c, c + 1, total};
    assert StrictlyIncreasing(sorted);
    AscendingIsUnique(InRangeAscending(Candidates(c, total), total), sorted);
  }

  lemma MiddleEllipses(c: int, total: int)
    requires 4 <= c <= total - 3
    ensures WithEllipses([1, c - 1, c, c + 1, total])
         == [PageNumber(1), Ellipsis, PageNumber(c - 1), PageNumber(c), PageNumber(c + 1), Ellipsis, PageNumber(total)]
  {
    var sorted := [1, c - 1, c, c + 1, total];
    assert WithEllipses(sorted[..1]) == [PageNumber(1)] by {
      assert sorted[..1][..0] == [];
    }
    assert WithEllipses(sorted[..2]) == [PageNumber(1), Ellipsis, PageNumber(c - 1)] by {
      assert sorted[..2][..1] == sorted[..1];
    }
    assert WithEllipses(sorted[..3]) == [PageNumber(1), Ellipsis, PageNumber(c - 1), PageNumber(c)] by {
      assert sorted[..3][..2] == sorted[..2];
    }
    assert WithEllipses(sorted[..4]) == [PageNumber(1), Ellipsis, PageNumber(c - 1), PageNumber(c), PageNumber(c + 1)] by {
      assert sorted[..4][..3] == sorted[..3];
    }
    assert sorted[..5] == sorted;
  }
}
