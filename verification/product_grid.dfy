/**
 * The product grid: raw SKU rows, narrowed by the search box, grouped into
 * one card per style (each with a display image), shown 21 cards per page
 * under its own copy of the page-link strip, written as a loop.
 */
module ProductGrid {
  import opened Wrappers
  import opened Seqs
  import opened Text
  import opened FirstSeen
  import opened CatalogGrid
  import StyleGrid

  /** One SKU row as the catalog returns it (a missing field is the empty string). */
  datatype Sku = Sku(
    brandName: string,
    styleName: string,
    styleID: string,
    sku: string,
    colorName: string,
    colorFrontImage: string,
    colorSwatchImage: string,
    colorBackImage: string)

  /** The searchable fields of a SKU row, in the order they are joined. */
  function SearchFields(p: Sku): seq<string> {
    [p.brandName, p.styleName, p.styleID, p.sku, p.colorName]
  }

  /**
   * `filteredSkus`: a blank search shows every row; otherwise exactly the rows
   * whose joined fields contain the trimmed, lower-cased search, in order.
   */
  function FilterSkus(products: seq<Sku>, filter: string): (r: seq<Sku>)
    ensures AllWhitespace(filter) ==> r == products
    ensures IsSubsequence(r, products)
    ensures forall p :: p in r <==> p in products && (AllWhitespace(filter) || Matches(SearchFields(p), Query(filter)))
    ensures forall p :: multiset(r)[p] ==
              if AllWhitespace(filter) || Matches(SearchFields(p), Query(filter)) then multiset(products)[p] else 0
  {
    Search(products, SearchFields, filter)
  }

  // ---------------------------------------------------------------------------
  // Grouping by style
  // ---------------------------------------------------------------------------

  datatype StyleGroup = StyleGroup(styleID: string, styleName: string, brandName: string, skus: seq<Sku>)

  function StyleIdOf(p: Sku): string {
    p.styleID
  }

  /** The rows of one style. */
  function HasStyle(id: string): Sku -> bool {
    (p: Sku) => p.styleID == id
  }

  /** `map.has(styleId)` / `map.get(styleId)`: where the group of a style sits, if it exists. */
  function GroupIndex(groups: seq<StyleGroup>, id: string): (r: Option<nat>)
    ensures r.Some? ==> r.value < |groups| && groups[r.value].styleID == id
    ensures r.None? ==> forall k :: 0 <= k < |groups| ==> groups[k].styleID != id
  {
    if |groups| == 0 then None
    else if groups[|groups| - 1].styleID == id then Some(|groups| - 1)
    else GroupIndex(groups[..|groups| - 1], id)
  }

  /**
   * The grouping loop: a row without a styleID is skipped; the first row of a
   * style opens its group with that row's style and brand names; every row is
   * pushed onto its style's group.
   */
  function GroupSkus(rows: seq<Sku>): seq<StyleGroup> {
    if |rows| == 0 then []
    else
      var g := GroupSkus(rows[..|rows| - 1]);
      var x := rows[|rows| - 1];
      if x.styleID == "" then g
      else
        match GroupIndex(g, x.styleID)
        case Some(k) => g[k := g[k].(skus := g[k].skus + [x])]
        case None => g + [StyleGroup(x.styleID, x.styleName, x.brandName, [x])]
  }

  /** The group a style's first row opens, holding every row of that style. */
  function GroupOf(rows: seq<Sku>, head: Sku): StyleGroup {
    StyleGroup(head.styleID, head.styleName, head.brandName, Filter(rows, HasStyle(head.styleID)))
  }

  /**
   * What the grouping computes, stated without the loop: one group per
   * distinct styleID, in first-seen order, named after the style's first row
   * and holding exactly that style's rows, in order.
   */
  lemma {:induction false} GroupSkusSpec(rows: seq<Sku>)
    ensures var g := GroupSkus(rows);
            var heads := FirstByKey(rows, StyleIdOf);
            && |g| == |heads|
            && forall k :: 0 <= k < |g| ==> g[k] == GroupOf(rows, heads[k])
  {
    if |rows| > 0 {
      var init := rows[..|rows| - 1];
      var x := rows[|rows| - 1];
      GroupSkusSpec(init);
      FirstByKeyKeys(init, StyleIdOf);
      FirstByKeyLast(rows, StyleIdOf);
      var g0 := GroupSkus(init);
      var heads0 := FirstByKey(init, StyleIdOf);
      var keys0 := KeysOf(heads0, StyleIdOf);
      assert forall k :: 0 <= k < |g0| ==> g0[k].styleID == keys0[k];
      forall id | id != x.styleID
        ensures Filter(rows, HasStyle(id)) == Filter(init, HasStyle(id))
      {
        FilterLast(rows, HasStyle(id));
      }
      if x.styleID == "" {
        assert GroupSkus(rows) == g0;
        forall k | 0 <= k < |g0|
          ensures g0[k] == GroupOf(rows, heads0[k])
        {
          assert heads0[k].styleID == keys0[k] != "";
        }
      } else if GroupIndex(g0, x.styleID).Some? {
        GroupJoin(rows);
      } else {
        GroupOpen(rows);
      }
    }
  }

  /** The last row joins the existing group of its style. */
  lemma GroupJoin(rows: seq<Sku>)
    requires |rows| > 0
    requires var init := rows[..|rows| - 1];
             var g0 := GroupSkus(init);
             var heads0 := FirstByKey(init, StyleIdOf);
             && |g0| == |heads0|
             && (forall k :: 0 <= k < |g0| ==> g0[k] == GroupOf(init, heads0[k]))
             && rows[|rows| - 1].styleID != ""
             && GroupIndex(g0, rows[|rows| - 1].styleID).Some?
    ensures var g := GroupSkus(rows);
            var heads := FirstByKey(rows, StyleIdOf);
            && |g| == |heads|
            && forall k :: 0 <= k < |g| ==> g[k] == GroupOf(rows, heads[k])
  {
    var init := rows[..|rows| - 1];
    var x := rows[|rows| - 1];
    var g0 := GroupSkus(init);
    var heads0 := FirstByKey(init, StyleIdOf);
    var keys0 := KeysOf(heads0, StyleIdOf);
    var j := GroupIndex(g0, x.styleID).value;
    FirstByKeyKeys(init, StyleIdOf);
    FirstByKeyLast(rows, StyleIdOf);
    assert keys0[j] == x.styleID;
    assert FirstByKey(rows, StyleIdOf) == heads0;
    var g := GroupSkus(rows);
    assert g == g0[j := g0[j].(skus := g0[j].skus + [x])];
    forall k | 0 <= k < |g|
      ensures g[k] == GroupOf(rows, heads0[k])
    {
      FilterLast(rows, HasStyle(heads0[k].styleID));
      assert heads0[k].styleID == keys0[k];
      if k != j {
        assert keys0[k] != keys0[j];
      }
    }
  }

  /** The last row opens a new group for its style. */
  lemma GroupOpen(rows: seq<Sku>)
    requires |rows| > 0
    requires var init := rows[..|rows| - 1];
             var g0 := GroupSkus(init);
             var heads0 := FirstByKey(init, StyleIdOf);
             && |g0| == |heads0|
             && (forall k :: 0 <= k < |g0| ==> g0[k] == GroupOf(init, heads0[k]))
             && rows[|rows| - 1].styleID != ""
             && GroupIndex(g0, rows[|rows| - 1].styleID).None?
    ensures var g := GroupSkus(rows);
            var heads := FirstByKey(rows, StyleIdOf);
            && |g| == |heads|
            && forall k :: 0 <= k < |g| ==> g[k] == GroupOf(rows, heads[k])
  {
    var init := rows[..|rows| - 1];
    var x := rows[|rows| - 1];
    var g0 := GroupSkus(init);
    var heads0 := FirstByKey(init, StyleIdOf);
    NewStyleUnseen(rows);
    var g := GroupSkus(rows);
    assert g == g0 + [StyleGroup(x.styleID, x.styleName, x.brandName, [x])];
    forall k | 0 <= k < |g|
      ensures g[k] == GroupOf(rows, (heads0 + [x])[k])
    {
      if k < |g0| {
        assert g0[k] == GroupOf(init, heads0[k]);
        GroupOfOtherStyle(rows, heads0[k]);
      } else {
        GroupOfNewStyle(rows);
      }
    }
  }

  /**
   * When no group has the last row's style, that style was never seen before:
   * the loop keeps the row, and every earlier head has another style.
   */
  lemma NewStyleUnseen(rows: seq<Sku>)
    requires |rows| > 0
    requires var init := rows[..|rows| - 1];
             var g0 := GroupSkus(init);
             var heads0 := FirstByKey(init, StyleIdOf);
             && |g0| == |heads0|
             && (forall k :: 0 <= k < |g0| ==> g0[k] == GroupOf(init, heads0[k]))
             && rows[|rows| - 1].styleID != ""
             && GroupIndex(g0, rows[|rows| - 1].styleID).None?
    ensures var init := rows[..|rows| - 1];
            var x := rows[|rows| - 1];
            var heads0 := FirstByKey(init, StyleIdOf);
            && FirstByKey(rows, StyleIdOf) == heads0 + [x]
            && FirstKeyIndex(init, StyleIdOf, x.styleID).None?
            && forall k :: 0 <= k < |heads0| ==> heads0[k].styleID != x.styleID
  {
    var init := rows[..|rows| - 1];
    var x := rows[|rows| - 1];
    var g0 := GroupSkus(init);
    var heads0 := FirstByKey(init, StyleIdOf);
    var keys0 := KeysOf(heads0, StyleIdOf);
    assert x.styleID !in keys0 by {
      forall k | 0 <= k < |keys0|
        ensures keys0[k] != x.styleID
      {
        assert g0[k].styleID == keys0[k];
      }
    }
    FirstByKeyLast(rows, StyleIdOf);
    if FirstKeyIndex(init, StyleIdOf, x.styleID).Some? {
      FirstByKeyCovers(init, StyleIdOf, x.styleID);
      assert false;
    }
    forall k | 0 <= k < |heads0|
      ensures heads0[k].styleID != x.styleID
    {
      assert keys0[k] == heads0[k].styleID;
    }
  }

  /** A row of another style leaves a group as it was. */
  lemma GroupOfOtherStyle(rows: seq<Sku>, head: Sku)
    requires |rows| > 0 && head.styleID != rows[|rows| - 1].styleID
    ensures GroupOf(rows, head) == GroupOf(rows[..|rows| - 1], head)
  {
    FilterLast(rows, HasStyle(head.styleID));
  }

  /** The first row of a style forms a group of its own. */
  lemma GroupOfNewStyle(rows: seq<Sku>)
    requires |rows| > 0
    requires FirstKeyIndex(rows[..|rows| - 1], StyleIdOf, rows[|rows| - 1].styleID).None?
    ensures var x := rows[|rows| - 1];
            GroupOf(rows, x) == StyleGroup(x.styleID, x.styleName, x.brandName, [x])
  {
    var x := rows[|rows| - 1];
    FilterLast(rows, HasStyle(x.styleID));
    FilterNone(rows[..|rows| - 1], HasStyle(x.styleID));
  }

  /**
   * Every row with a styleID lands in exactly one group, the one of its own
   * style; a row without a styleID lands in none. The groups' styleIDs are
   * distinct and non-empty.
   */
  lemma GroupsPartitionRows(rows: seq<Sku>)
    ensures var g := GroupSkus(rows);
            && (forall k :: 0 <= k < |g| ==> g[k].styleID != "")
            && (forall k, k' :: 0 <= k < k' < |g| ==> g[k].styleID != g[k'].styleID)
            && (forall i, k :: 0 <= i < |rows| && 0 <= k < |g| ==> (rows[i] in g[k].skus <==> rows[i].styleID == g[k].styleID))
            && (forall i :: 0 <= i < |rows| && rows[i].styleID != "" ==> GroupIndex(g, rows[i].styleID).Some?)
  {
    var g := GroupSkus(rows);
    var heads := FirstByKey(rows, StyleIdOf);
    var keys := KeysOf(heads, StyleIdOf);
    GroupSkusSpec(rows);
    FirstByKeyKeys(rows, StyleIdOf);
    assert forall k :: 0 <= k < |g| ==> g[k].styleID == keys[k];
    forall i, k | 0 <= i < |rows| && 0 <= k < |g|
      ensures rows[i] in g[k].skus <==> rows[i].styleID == g[k].styleID
    {
      FilterMembers(rows, HasStyle(g[k].styleID));
    }
    forall i | 0 <= i < |rows| && rows[i].styleID != ""
      ensures GroupIndex(g, rows[i].styleID).Some?
    {
      var k :| 0 <= k < |keys| && keys[k] == rows[i].styleID;
      assert g[k].styleID == rows[i].styleID;
    }
  }

  // ---------------------------------------------------------------------------
  // The card image
  // ---------------------------------------------------------------------------

  /** `x && x.trim()`: a present, non-blank image path. */
  predicate NonBlank(x: string) {
    Trim(x) != ""
  }

  /** The `find` test: the row has a non-blank front, swatch or back image. */
  predicate HasImage(p: Sku) {
    NonBlank(p.colorFrontImage) || NonBlank(p.colorSwatchImage) || NonBlank(p.colorBackImage)
  }

  /** `skus.find(...)`: the index of the first row with an image, if any. */
  function FirstWithImage(skus: seq<Sku>): (r: Option<nat>)
    ensures r.None? <==> forall i :: 0 <= i < |skus| ==> !HasImage(skus[i])
    ensures r.Some? ==> r.value < |skus| && HasImage(skus[r.value])
    ensures r.Some? ==> forall j :: 0 <= j < r.value ==> !HasImage(skus[j])
  {
    FirstWhere(skus, HasImage)
  }

  /**
   * `displayImage`: the first truthy one of the front, swatch and back images
   * of the first row that has a non-blank image, or "" when no row has one.
   * The chosen path is never empty when some row has an image.
   */
  function DisplayImage(skus: seq<Sku>): (img: string)
    ensures (forall i :: 0 <= i < |skus| ==> !HasImage(skus[i])) ==> img == ""
    ensures (exists i :: 0 <= i < |skus| && HasImage(skus[i])) ==> img != ""
    ensures img != "" ==>
              var p := skus[FirstWithImage(skus).value];
              img in {p.colorFrontImage, p.colorSwatchImage, p.colorBackImage}
    ensures FirstWithImage(skus).Some? ==>
              var p := skus[FirstWithImage(skus).value];
              && (p.colorFrontImage != "" ==> img == p.colorFrontImage)
              && (p.colorFrontImage == "" && p.colorSwatchImage != "" ==> img == p.colorSwatchImage)
              && (p.colorFrontImage == "" && p.colorSwatchImage == "" ==> img == p.colorBackImage)
  {
    match FirstWithImage(skus)
    case None => ""
    case Some(i) =>
      var p := skus[i];
      if p.colorFrontImage != "" then p.colorFrontImage
      else if p.colorSwatchImage != "" then p.colorSwatchImage
      else p.colorBackImage
  }

  /**
   * The `find` test trims but the chosen path is not trimmed: a blank front
   * image beats the swatch that made the row qualify.
   */
  lemma BlankFrontImageIsShown(p: Sku)
    requires p.colorFrontImage == " " && NonBlank(p.colorSwatchImage)
    ensures DisplayImage([p]) == " "
  {
    assert [p][..0] == [];
  }

  datatype StyleCard = StyleCard(styleID: string, styleName: string, brandName: string, skus: seq<Sku>, displayImage: string)

  function Card(g: StyleGroup): StyleCard {
    StyleCard(g.styleID, g.styleName, g.brandName, g.skus, DisplayImage(g.skus))
  }

  /**
   * The card of style `id` among `rows`: the style and brand names of the
   * style's first row, exactly that style's rows in order, and their display
   * image.
   */
  predicate IsCardOf(rows: seq<Sku>, id: string, c: StyleCard) {
    && FirstKeyIndex(rows, StyleIdOf, id).Some?
    && var first := rows[FirstKeyIndex(rows, StyleIdOf, id).value];
       var skus := Filter(rows, HasStyle(id));
       c == StyleCard(id, first.styleName, first.brandName, skus, DisplayImage(skus))
  }

  /** Group k of the loop becomes the card of the k-th distinct styleID. */
  lemma CardOfGroup(rows: seq<Sku>, k: nat)
    requires k < |GroupSkus(rows)|
    ensures var ids := Distinct(PresentKeys(rows, StyleIdOf));
            k < |ids| && IsCardOf(rows, ids[k], Card(GroupSkus(rows)[k]))
  {
    GroupSkusSpec(rows);
    FirstByKeyOrder(rows, StyleIdOf);
    FirstByKeyKeepsFirstAt(rows, StyleIdOf, k);
  }

  /**
   * The cards of `rows`: one per distinct non-empty styleID, in first-seen
   * order, card k being the card of the k-th such styleID.
   */
  function StyleCards(rows: seq<Sku>): (cards: seq<StyleCard>)
    ensures var ids := Distinct(PresentKeys(rows, StyleIdOf));
            && |cards| == |ids|
            && forall k :: 0 <= k < |cards| ==> IsCardOf(rows, ids[k], cards[k])
  {
    var g := GroupSkus(rows);
    GroupSkusSpec(rows);
    FirstByKeyOrder(rows, StyleIdOf);
    var cards := seq(|g|, k requires 0 <= k < |g| => Card(g[k]));
    assert forall k :: 0 <= k < |cards| ==> IsCardOf(rows, Distinct(PresentKeys(rows, StyleIdOf))[k], cards[k]) by {
      forall k | 0 <= k < |cards| {
        CardOfGroup(rows, k);
      }
    }
    cards
  }

  /** `styleGroups`: the cards of the searched rows. */
  function StyleGroups(products: seq<Sku>, filter: string): seq<StyleCard> {
    StyleCards(FilterSkus(products, filter))
  }

  /**
   * The cards are paged, not the rows: the pages of the grid together show
   * every card once, and a page clamped into range is never empty.
   */
  lemma CardPages(rows: seq<Sku>, page: int)
    requires page >= 1
    ensures var cards := StyleCards(rows);
            && FirstPages(cards, TotalPages(|cards|)) == cards
            && (|cards| > 0 ==> PageItems(cards, ClampPage(page, TotalPages(|cards|))) != [])
  {
    var cards := StyleCards(rows);
    PagesCoverRows(cards);
    if |cards| > 0 {
      ClampedPageNotEmpty(cards, page);
    }
  }

  // ---------------------------------------------------------------------------
  // The page-link strip, the grid's own loop
  // ---------------------------------------------------------------------------

  /**
   * `getPaginationPages` as this grid writes it: the candidate set built one
   * `add` at a time, then the sorted in-range pages walked with a loop. It
   * returns exactly what the style grid's copy returns, for every input.
   */
  method GetPaginationPages(current: int, total: int) returns (result: seq<PageLink>)
    ensures result == StyleGrid.GetPaginationPages(current, total)
  {
    var pages: set<int> := {};
    pages := pages + {1};
    pages := pages + {total};
    pages := pages + {current};
    pages := pages + {current - 1};
    pages := pages + {current + 1};
    assert pages == {1, total, current, current - 1, current + 1};
    ghost var always := pages;
    if current <= 3 {
      pages := pages + {2};
      pages := pages + {3};
      pages := pages + {4};
      assert pages == always + {2, 3, 4};
    }
    assert pages == always + (if current <= 3 then {2, 3, 4} else {});
    ghost var early := pages;
    if current >= total - 2 {
      pages := pages + {total - 1};
      pages := pages + {total - 2};
      pages := pages + {total - 3};
      assert pages == early + {total - 1, total - 2, total - 3};
    }
    assert pages == Candidates(current, total);
    var sorted := InRangeAscending(pages, total);
    result := InsertEllipses(sorted);
  }

  /** The output loop: each page number, preceded by "…" when it skips ahead of the previous one. */
  method InsertEllipses(sorted: seq<int>) returns (result: seq<PageLink>)
    ensures result == WithEllipses(sorted)
  {
    result := [];
    var i := 0;
    while i < |sorted|
      invariant 0 <= i <= |sorted|
      invariant result == WithEllipses(sorted[..i])
    {
      var n := sorted[i];
      ghost var before := result;
      if i > 0 && n - sorted[i - 1] > 1 {
        result := result + [Ellipsis];
      }
      result := result + [PageNumber(n)];
      assert result == before + (if i > 0 && n - sorted[i - 1] > 1 then [Ellipsis, PageNumber(n)] else [PageNumber(n)]);
      WithEllipsesPrefix(sorted, i);
      i := i + 1;
    }
    assert sorted[..|sorted|] == sorted;
  }
}
