/**
 * The product page of one style: the colour swatches, the SKUs of the
 * selected colour, and the stock table of warehouses by sizes with its row,
 * column and grand totals.
 */
module ProductPage {
  import opened Wrappers
  import opened Seqs
  import opened Text
  import opened FirstSeen

  /** One warehouse's stock of a SKU (`qty` already read as a number, a missing one as 0). */
  datatype WarehouseStock = WarehouseStock(warehouseAbbr: string, dropship: bool, qty: int)

  /** The `raw` record of a SKU, a missing field being the empty string or no warehouses. */
  datatype RawSku = RawSku(
    colorCode: string,
    colorName: string,
    colorSwatchImage: string,
    sizeName: string,
    warehouses: seq<WarehouseStock>)

  // ---------------------------------------------------------------------------
  // Colours and the selected colour's SKUs
  // ---------------------------------------------------------------------------

  datatype ColorOption = ColorOption(colorCode: string, colorName: string, swatch: string)

  function ColorCodeOf(p: RawSku): string {
    p.colorCode
  }

  function CodeOfOption(c: ColorOption): string {
    c.colorCode
  }

  function ColorOf(p: RawSku): ColorOption {
    ColorOption(p.colorCode, p.colorName, p.colorSwatchImage)
  }

  /** `colors`: the colour map built over the SKUs, one option per colour code. */
  function Colors(products: seq<RawSku>): seq<ColorOption> {
    var heads := FirstByKey(products, ColorCodeOf);
    seq(|heads|, k requires 0 <= k < |heads| => ColorOf(heads[k]))
  }

  /**
   * One option per distinct non-empty colour code, in first-seen order, each
   * with the name and swatch of the first SKU of that colour.
   */
  lemma ColorsSpec(products: seq<RawSku>)
    ensures var r := Colors(products);
            && KeysOf(r, CodeOfOption) == Distinct(PresentKeys(products, ColorCodeOf))
            && forall k :: 0 <= k < |r| ==>
                 && FirstKeyIndex(products, ColorCodeOf, r[k].colorCode).Some?
                 && r[k] == ColorOf(products[FirstKeyIndex(products, ColorCodeOf, r[k].colorCode).value])
  {
    var heads := FirstByKey(products, ColorCodeOf);
    var r := Colors(products);
    FirstByKeyOrder(products, ColorCodeOf);
    FirstByKeyKeepsFirst(products, ColorCodeOf);
    assert KeysOf(r, CodeOfOption) == KeysOf(heads, ColorCodeOf);
    forall k | 0 <= k < |r|
      ensures FirstKeyIndex(products, ColorCodeOf, r[k].colorCode).Some?
      ensures r[k] == ColorOf(products[FirstKeyIndex(products, ColorCodeOf, r[k].colorCode).value])
    {
      assert r[k].colorCode == ColorCodeOf(heads[k]);
    }
  }

  function HasColor(code: string): RawSku -> bool {
    (p: RawSku) => p.colorCode == code
  }

  /** `skusForSelectedColor`: exactly the SKUs of the selected colour, in order. */
  function SkusForColor(products: seq<RawSku>, selected: string): (r: seq<RawSku>)
    ensures IsSubsequence(r, products)
    ensures forall p :: p in r <==> p in products && p.colorCode == selected
    ensures forall p :: multiset(r)[p] == if p.colorCode == selected then multiset(products)[p] else 0
  {
    FilterMembers(products, HasColor(selected));
    FilterCounts(products, HasColor(selected));
    Filter(products, HasColor(selected))
  }

  /** `selectedSku`: the first SKU of the selected colour, or none when the colour has none. */
  function SelectedSku(products: seq<RawSku>, selected: string): (r: Option<RawSku>)
    ensures r.None? <==> forall i :: 0 <= i < |products| ==> products[i].colorCode != selected
    ensures r.Some? ==> r.value == products[FirstKeyIndex(products, ColorCodeOf, selected).value]
  {
    var skus := SkusForColor(products, selected);
    FilterHead(products, HasColor(selected));
    FirstWhereIsFirstKey(products, selected);
    if |skus| > 0 then Some(skus[0]) else None
  }

  lemma {:induction false} FirstWhereIsFirstKey(products: seq<RawSku>, code: string)
    ensures FirstWhere(products, HasColor(code)) == FirstKeyIndex(products, ColorCodeOf, code)
  {
    if |products| > 0 {
      FirstWhereIsFirstKey(products[..|products| - 1], code);
    }
  }

  /** The head of a filter is the element `findIndex` finds. */
  lemma {:induction false} FilterHead(s: seq<RawSku>, p: RawSku -> bool)
    ensures |Filter(s, p)| > 0 <==> FirstWhere(s, p).Some?
    ensures |Filter(s, p)| > 0 ==> Filter(s, p)[0] == s[FirstWhere(s, p).value]
  {
    if |s| > 0 {
      var init := s[..|s| - 1];
      FilterHead(init, p);
      FilterLast(s, p);
      if |Filter(init, p)| == 0 {
        assert FirstWhere(init, p).None?;
      }
    }
  }

  // ---------------------------------------------------------------------------
  // Table axes
  // ---------------------------------------------------------------------------

  function SizeNameOf(p: RawSku): string {
    p.sizeName
  }

  /**
   * `sizeColumns`: the sizes of the selected colour's SKUs, without repeats,
   * in first-seen order, a SKU without a size contributing none.
   */
  function SizeColumns(skus: seq<RawSku>): seq<string> {
    Distinct(PresentKeys(skus, SizeNameOf))
  }

  /** A size is a column exactly when it is non-empty and some SKU carries it. */
  lemma SizeColumnsMembers(skus: seq<RawSku>, z: string)
    ensures z in SizeColumns(skus) <==> z != "" && FirstKeyIndex(skus, SizeNameOf, z).Some?
  {
    var keys := KeysOf(skus, SizeNameOf);
    FilterMembers(keys, IsNonEmpty);
    if FirstKeyIndex(skus, SizeNameOf, z).Some? {
      assert keys[FirstKeyIndex(skus, SizeNameOf, z).value] == z;
    }
  }

  /** The columns are distinct and ordered by the position of the first SKU of each size. */
  lemma SizeColumnsInOrder(skus: seq<RawSku>)
    ensures var r := SizeColumns(skus);
            && NoDuplicates(r)
            && (forall j, k :: 0 <= j < k < |r| ==>
                  FirstKeyIndex(skus, SizeNameOf, r[j]).GetOr(|skus|) < FirstKeyIndex(skus, SizeNameOf, r[k]).GetOr(|skus|))
  {
    var r := SizeColumns(skus);
    var heads := FirstByKey(skus, SizeNameOf);
    FirstByKeyOrder(skus, SizeNameOf);
    FirstByKeyInOrder(skus, SizeNameOf);
    forall j, k | 0 <= j < k < |r|
      ensures FirstKeyIndex(skus, SizeNameOf, r[j]).GetOr(|skus|) < FirstKeyIndex(skus, SizeNameOf, r[k]).GetOr(|skus|)
    {
      assert r[j] == KeysOf(heads, SizeNameOf)[j] == SizeNameOf(heads[j]);
      assert r[k] == KeysOf(heads, SizeNameOf)[k] == SizeNameOf(heads[k]);
    }
  }

  datatype WarehouseRow = WarehouseRow(warehouseAbbr: string, dropship: bool)

  function AbbrOf(w: WarehouseStock): string {
    w.warehouseAbbr
  }

  function RowAbbr(r: WarehouseRow): string {
    r.warehouseAbbr
  }

  /** Every warehouse entry of the SKUs, SKU by SKU: the two nested loops flattened. */
  function AllStock(skus: seq<RawSku>): seq<WarehouseStock> {
    if |skus| == 0 then [] else AllStock(skus[..|skus| - 1]) + skus[|skus| - 1].warehouses
  }

  /** Lexicographic order on strings by character code. */
  predicate StringLe(a: string, b: string) {
    |a| == 0 || (|b| > 0 && (a[0] < b[0] || (a[0] == b[0] && StringLe(a[1..], b[1..]))))
  }

  lemma {:induction false} StringLeTotal(a: string, b: string)
    ensures StringLe(a, b) || StringLe(b, a)
  {
    if |a| > 0 && |b| > 0 && a[0] == b[0] {
      StringLeTotal(a[1..], b[1..]);
    }
  }

  lemma {:induction false} StringLeAntisymmetric(a: string, b: string)
    requires StringLe(a, b) && StringLe(b, a)
    ensures a == b
  {
    if |a| > 0 && |b| > 0 {
      StringLeAntisymmetric(a[1..], b[1..]);
      assert a == [a[0]] + a[1..] && b == [b[0]] + b[1..];
    }
  }

  lemma {:induction false} StringLeTransitive(a: string, b: string, c: string)
    requires StringLe(a, b) && StringLe(b, c)
    ensures StringLe(a, c)
  {
    if |a| > 0 && a[0] == b[0] && b[0] == c[0] {
      StringLeTransitive(a[1..], b[1..], c[1..]);
    }
  }

  predicate SortedByAbbr(s: seq<WarehouseRow>) {
    forall i, j :: 0 <= i < j < |s| ==> StringLe(s[i].warehouseAbbr, s[j].warehouseAbbr)
  }

  predicate DistinctAbbrs(s: seq<WarehouseRow>) {
    forall i, j :: 0 <= i < j < |s| ==> s[i].warehouseAbbr != s[j].warehouseAbbr
  }

  /** Inserts `x` before the first row it does not follow. */
  function Insert(s: seq<WarehouseRow>, x: WarehouseRow): (r: seq<WarehouseRow>)
    requires SortedByAbbr(s)
    ensures multiset(r) == multiset(s) + multiset{x}
    ensures SortedByAbbr(r)
  {
    if |s| == 0 then [x]
    else if StringLe(x.warehouseAbbr, s[0].warehouseAbbr) then
      InsertFront(s, x);
      [x] + s
    else
      StringLeTotal(x.warehouseAbbr, s[0].warehouseAbbr);
      var rest := Insert(s[1..], x);
      assert s == [s[0]] + s[1..];
      InsertBehind(s, x, rest);
      [s[0]] + rest
  }

  lemma InsertFront(s: seq<WarehouseRow>, x: WarehouseRow)
    requires SortedByAbbr(s) && |s| > 0 && StringLe(x.warehouseAbbr, s[0].warehouseAbbr)
    ensures SortedByAbbr([x] + s)
  {
    var r := [x] + s;
    forall i, j | 0 <= i < j < |r|
      ensures StringLe(r[i].warehouseAbbr, r[j].warehouseAbbr)
    {
      if i == 0 && j > 1 {
        StringLeTransitive(x.warehouseAbbr, s[0].warehouseAbbr, s[j - 1].warehouseAbbr);
      }
    }
  }

  /** A row of `rest` is `x` or a row of `s` after the first. */
  lemma InsertedFrom(s: seq<WarehouseRow>, x: WarehouseRow, rest: seq<WarehouseRow>, j: int)
    requires |s| > 0 && multiset(rest) == multiset(s[1..]) + multiset{x}
    requires 0 <= j < |rest|
    ensures rest[j] == x || exists k :: 1 <= k < |s| && s[k] == rest[j]
  {
    var y := rest[j];
    assert y in multiset(rest);
    if y != x {
      assert y in multiset(s[1..]);
      var k :| 0 <= k < |s[1..]| && s[1..][k] == y;
      assert s[k + 1] == y;
    }
  }

  lemma InsertBehind(s: seq<WarehouseRow>, x: WarehouseRow, rest: seq<WarehouseRow>)
    requires SortedByAbbr(s) && |s| > 0 && StringLe(s[0].warehouseAbbr, x.warehouseAbbr)
    requires SortedByAbbr(rest) && multiset(rest) == multiset(s[1..]) + multiset{x}
    ensures SortedByAbbr([s[0]] + rest)
  {
    var r := [s[0]] + rest;
    forall i, j | 0 <= i < j < |r|
      ensures StringLe(r[i].warehouseAbbr, r[j].warehouseAbbr)
    {
      if i == 0 {
        InsertedFrom(s, x, rest, j - 1);
      }
    }
  }

  /** Inserting a row under a new abbreviation keeps the abbreviations distinct. */
  lemma {:induction false} InsertKeepsDistinct(s: seq<WarehouseRow>, x: WarehouseRow)
    requires SortedByAbbr(s) && DistinctAbbrs(s)
    requires forall i :: 0 <= i < |s| ==> s[i].warehouseAbbr != x.warehouseAbbr
    ensures DistinctAbbrs(Insert(s, x))
  {
    if |s| > 0 && !StringLe(x.warehouseAbbr, s[0].warehouseAbbr) {
      var rest := Insert(s[1..], x);
      InsertKeepsDistinct(s[1..], x);
      var r := [s[0]] + rest;
      assert Insert(s, x) == r;
      forall i, j | 0 <= i < j < |r|
        ensures r[i].warehouseAbbr != r[j].warehouseAbbr
      {
        if i == 0 {
          InsertedFrom(s, x, rest, j - 1);
        } else {
          assert r[i] == rest[i - 1] && r[j] == rest[j - 1];
        }
      }
    }
  }

  /** Sorting by abbreviation: insertion sort, one row at a time. */
  function SortByAbbr(s: seq<WarehouseRow>): (r: seq<WarehouseRow>)
    ensures multiset(r) == multiset(s)
    ensures SortedByAbbr(r)
  {
    if |s| == 0 then []
    else
      var r := Insert(SortByAbbr(s[..|s| - 1]), s[|s| - 1]);
      assert s == s[..|s| - 1] + [s[|s| - 1]];
      r
  }

  /** Rows with distinct abbreviations stay distinct through the sort. */
  lemma {:induction false} SortKeepsDistinct(s: seq<WarehouseRow>)
    requires DistinctAbbrs(s)
    ensures DistinctAbbrs(SortByAbbr(s))
  {
    if |s| > 0 {
      var init := s[..|s| - 1];
      var x := s[|s| - 1];
      var sorted := SortByAbbr(init);
      SortKeepsDistinct(init);
      forall i | 0 <= i < |sorted|
        ensures sorted[i].warehouseAbbr != x.warehouseAbbr
      {
        assert sorted[i] in multiset(sorted);
        assert sorted[i] in multiset(init);
        var k :| 0 <= k < |init| && init[k] == sorted[i];
        assert s[k] == sorted[i];
      }
      InsertKeepsDistinct(sorted, x);
    }
  }

  function RowOf(w: WarehouseStock): WarehouseRow {
    WarehouseRow(w.warehouseAbbr, w.dropship)
  }

  /** The first warehouse entry under each non-empty abbreviation: the `rows` map. */
  function FirstStock(skus: seq<RawSku>): seq<WarehouseStock> {
    FirstByKey(AllStock(skus), AbbrOf)
  }

  function RowsOf(heads: seq<WarehouseStock>): seq<WarehouseRow> {
    seq(|heads|, k requires 0 <= k < |heads| => RowOf(heads[k]))
  }

  /**
   * `warehouseRows`: one row per distinct non-empty warehouse abbreviation of
   * the selected colour's SKUs, keeping the first entry's dropship flag, in
   * ascending order of abbreviation.
   */
  function WarehouseRows(skus: seq<RawSku>): seq<WarehouseRow> {
    SortByAbbr(RowsOf(FirstStock(skus)))
  }

  /** Every row is built from one of the first-seen warehouse entries. */
  lemma WarehouseRowFrom(skus: seq<RawSku>, i: int)
    requires 0 <= i < |WarehouseRows(skus)|
    ensures exists k :: 0 <= k < |FirstStock(skus)| && WarehouseRows(skus)[i] == RowOf(FirstStock(skus)[k])
  {
    var rows := RowsOf(FirstStock(skus));
    PermutationMember(WarehouseRows(skus), rows, i);
    var k :| 0 <= k < |rows| && rows[k] == WarehouseRows(skus)[i];
  }

  /** Every first-seen warehouse entry gives a row. */
  lemma WarehouseRowFor(skus: seq<RawSku>, k: int)
    requires 0 <= k < |FirstStock(skus)|
    ensures exists i :: 0 <= i < |WarehouseRows(skus)| && WarehouseRows(skus)[i] == RowOf(FirstStock(skus)[k])
  {
    var rows := RowsOf(FirstStock(skus));
    PermutationMember(rows, WarehouseRows(skus), k);
  }

  /** The rows ascend strictly by abbreviation, so no abbreviation has two rows. */
  lemma WarehouseRowsSorted(skus: seq<RawSku>)
    ensures var r := WarehouseRows(skus);
            forall i, j :: 0 <= i < j < |r| ==>
              StringLe(r[i].warehouseAbbr, r[j].warehouseAbbr) && r[i].warehouseAbbr != r[j].warehouseAbbr
  {
    var heads := FirstStock(skus);
    var rows := RowsOf(heads);
    FirstByKeyKeys(AllStock(skus), AbbrOf);
    forall i, j | 0 <= i < j < |rows|
      ensures rows[i].warehouseAbbr != rows[j].warehouseAbbr
    {
      assert KeysOf(heads, AbbrOf)[i] == rows[i].warehouseAbbr;
      assert KeysOf(heads, AbbrOf)[j] == rows[j].warehouseAbbr;
    }
    SortKeepsDistinct(rows);
  }

  /** A warehouse has a row exactly when its abbreviation is non-empty and some entry of the SKUs carries it. */
  lemma WarehouseRowsCover(skus: seq<RawSku>, a: string)
    ensures a in KeysOf(WarehouseRows(skus), RowAbbr) <==> a != "" && FirstKeyIndex(AllStock(skus), AbbrOf, a).Some?
  {
    if a in KeysOf(WarehouseRows(skus), RowAbbr) {
      WarehouseRowHasEntry(skus, a);
    }
    if a != "" && FirstKeyIndex(AllStock(skus), AbbrOf, a).Some? {
      WarehouseEntryHasRow(skus, a);
    }
  }

  lemma WarehouseRowHasEntry(skus: seq<RawSku>, a: string)
    requires a in KeysOf(WarehouseRows(skus), RowAbbr)
    ensures a != "" && FirstKeyIndex(AllStock(skus), AbbrOf, a).Some?
  {
    var r := WarehouseRows(skus);
    var heads := FirstStock(skus);
    var i :| 0 <= i < |r| && KeysOf(r, RowAbbr)[i] == a;
    WarehouseRowFrom(skus, i);
    var k :| 0 <= k < |heads| && r[i] == RowOf(heads[k]);
    FirstByKeyKeys(AllStock(skus), AbbrOf);
    FirstByKeyKeepsFirst(AllStock(skus), AbbrOf);
    assert AbbrOf(heads[k]) == a;
  }

  lemma WarehouseEntryHasRow(skus: seq<RawSku>, a: string)
    requires a != "" && FirstKeyIndex(AllStock(skus), AbbrOf, a).Some?
    ensures a in KeysOf(WarehouseRows(skus), RowAbbr)
  {
    var r := WarehouseRows(skus);
    var heads := FirstStock(skus);
    FirstByKeyCovers(AllStock(skus), AbbrOf, a);
    var k :| 0 <= k < |heads| && KeysOf(heads, AbbrOf)[k] == a;
    WarehouseRowFor(skus, k);
    var i :| 0 <= i < |r| && r[i] == RowOf(heads[k]);
    assert KeysOf(r, RowAbbr)[i] == a;
  }

  /** Each row carries the dropship flag of the first entry for its warehouse. */
  lemma WarehouseRowKeepsFirst(skus: seq<RawSku>, i: int)
    requires 0 <= i < |WarehouseRows(skus)|
    ensures var row := WarehouseRows(skus)[i];
            var stock := AllStock(skus);
            && FirstKeyIndex(stock, AbbrOf, row.warehouseAbbr).Some?
            && row.dropship == stock[FirstKeyIndex(stock, AbbrOf, row.warehouseAbbr).value].dropship
  {
    var heads := FirstStock(skus);
    var row := WarehouseRows(skus)[i];
    WarehouseRowFrom(skus, i);
    var k :| 0 <= k < |heads| && row == RowOf(heads[k]);
    FirstByKeyKeepsFirstAt(AllStock(skus), AbbrOf, k);
    assert AbbrOf(heads[k]) == row.warehouseAbbr && heads[k].dropship == row.dropship;
  }

  // ---------------------------------------------------------------------------
  // The stock table
  // ---------------------------------------------------------------------------

  /** `stockTable[abbr][size]`. */
  type Table = map<string, map<string, int>>

  /** One write of the fill loop: `table[abbr][size] = qty`. */
  datatype Placement = Placement(abbr: string, size: string, qty: int)

  /** The writes one SKU makes: one per warehouse entry with an abbreviation. */
  function SkuPlacements(ws: seq<WarehouseStock>, size: string): seq<Placement> {
    if |ws| == 0 then []
    else
      var w := ws[|ws| - 1];
      SkuPlacements(ws[..|ws| - 1], size) + (if w.warehouseAbbr == "" then [] else [Placement(w.warehouseAbbr, size, w.qty)])
  }

  /** Every write of the fill loop, in order; a SKU without a size makes none. */
  function Placements(skus: seq<RawSku>): seq<Placement> {
    if |skus| == 0 then []
    else
      var p := skus[|skus| - 1];
      Placements(skus[..|skus| - 1]) + (if p.sizeName == "" then [] else SkuPlacements(p.warehouses, p.sizeName))
  }

  /** `if (!table[abbr]) table[abbr] = {}; table[abbr][size] = qty`. */
  function SetCell(t: Table, p: Placement): Table {
    t[p.abbr := (if p.abbr in t then t[p.abbr] else map[])[p.size := p.qty]]
  }

  function Fill(t: Table, ps: seq<Placement>): Table {
    if |ps| == 0 then t else SetCell(Fill(t, ps[..|ps| - 1]), ps[|ps| - 1])
  }

  function Abbrs(rows: seq<WarehouseRow>): seq<string> {
    KeysOf(rows, RowAbbr)
  }

  /** The zeroed table: a cell of 0 for every warehouse row and size column. */
  function ZeroTable(rows: seq<WarehouseRow>, cols: seq<string>): Table {
    map a | a in Abbrs(rows) :: map s | s in cols :: 0
  }

  /** `stockTable`: the zeroed table, then every write in order. */
  function StockTable(skus: seq<RawSku>, rows: seq<WarehouseRow>, cols: seq<string>): Table {
    Fill(ZeroTable(rows, cols), Placements(skus))
  }

  /** `Number(stockTable?.[abbr]?.[size] || 0)`: a missing cell reads as 0. */
  function Cell(t: Table, a: string, s: string): int {
    if a in t && s in t[a] then t[a][s] else 0
  }

  /** The quantity of the last write to a cell, if any write reaches it. */
  function LastWrite(ps: seq<Placement>, a: string, s: string): Option<int> {
    if |ps| == 0 then None
    else if ps[|ps| - 1].abbr == a && ps[|ps| - 1].size == s then Some(ps[|ps| - 1].qty)
    else LastWrite(ps[..|ps| - 1], a, s)
  }

  /** After the writes, a cell holds the last write to it, or what it held before; no cell disappears. */
  lemma {:induction false} FillCell(t: Table, ps: seq<Placement>, a: string, s: string)
    ensures Cell(Fill(t, ps), a, s) == match LastWrite(ps, a, s) case Some(q) => q case None => Cell(t, a, s)
    ensures a in t && s in t[a] ==> a in Fill(t, ps) && s in Fill(t, ps)[a]
  {
    if |ps| > 0 {
      FillCell(t, ps[..|ps| - 1], a, s);
    }
  }

  /**
   * Every (warehouse row, size column) cell of the table exists, and holds
   * the quantity of the last warehouse entry written to it, or 0 when none was.
   */
  lemma StockTableCells(skus: seq<RawSku>, rows: seq<WarehouseRow>, cols: seq<string>, a: string, s: string)
    requires a in Abbrs(rows) && s in cols
    ensures var t := StockTable(skus, rows, cols);
            && a in t && s in t[a]
            && t[a][s] == LastWrite(Placements(skus), a, s).GetOr(0)
  {
    FillCell(ZeroTable(rows, cols), Placements(skus), a, s);
  }

  /** Later writes to a cell win: a SKU listed after another overwrites its quantity. */
  lemma LaterWriteWins(ps: seq<Placement>, p: Placement)
    ensures LastWrite(ps + [p], p.abbr, p.size) == Some(p.qty)
  {
  }

  // ---------------------------------------------------------------------------
  // Totals
  // ---------------------------------------------------------------------------

  /** A row's total: its cells summed over the size columns. */
  function RowTotal(t: Table, a: string, cols: seq<string>): int {
    IntSum(cols, s => Cell(t, a, s))
  }

  /** A column's total: its cells summed over the warehouse rows. */
  function ColTotal(t: Table, s: string, rows: seq<WarehouseRow>): int {
    IntSum(rows, (r: WarehouseRow) => Cell(t, r.warehouseAbbr, s))
  }

  /** `rowTotals`: each row's total, by abbreviation. */
  function RowTotals(t: Table, rows: seq<WarehouseRow>, cols: seq<string>): map<string, int> {
    map a | a in Abbrs(rows) :: RowTotal(t, a, cols)
  }

  /** `colTotals`: each column's total, by size. */
  function ColTotals(t: Table, rows: seq<WarehouseRow>, cols: seq<string>): map<string, int> {
    map s | s in cols :: ColTotal(t, s, rows)
  }

  function Lookup(m: map<string, int>, k: string): int {
    if k in m then m[k] else 0
  }

  /** `grandTotal`: the column totals summed over the size columns. */
  function GrandTotal(t: Table, rows: seq<WarehouseRow>, cols: seq<string>): int {
    var colTotals := ColTotals(t, rows, cols);
    IntSum(cols, s => Lookup(colTotals, s))
  }

  /** Adding up the columns and adding up the rows give the same grand total. */
  lemma GrandTotalIsSumOfRowTotals(t: Table, rows: seq<WarehouseRow>, cols: seq<string>)
    ensures GrandTotal(t, rows, cols) == IntSum(rows, (r: WarehouseRow) => Lookup(RowTotals(t, rows, cols), r.warehouseAbbr))
  {
    var colTotals := ColTotals(t, rows, cols);
    var rowTotals := RowTotals(t, rows, cols);
    var f := (r: WarehouseRow, s: string) => Cell(t, r.warehouseAbbr, s);
    forall j | 0 <= j < |cols|
      ensures Lookup(colTotals, cols[j]) == ColumnSums(rows, f)(cols[j])
    {
      IntSumCongruent(rows, (r: WarehouseRow) => Cell(t, r.warehouseAbbr, cols[j]), Column(f, cols[j]));
    }
    IntSumCongruent(cols, s => Lookup(colTotals, s), ColumnSums(rows, f));
    forall i | 0 <= i < |rows|
      ensures Lookup(rowTotals, rows[i].warehouseAbbr) == RowSums(cols, f)(rows[i])
    {
      assert KeysOf(rows, RowAbbr)[i] == rows[i].warehouseAbbr;
      IntSumCongruent(cols, s => Cell(t, rows[i].warehouseAbbr, s), Row(f, rows[i]));
    }
    IntSumCongruent(rows, (r: WarehouseRow) => Lookup(rowTotals, r.warehouseAbbr), RowSums(cols, f));
    IntSumSwap(rows, cols, f);
  }
}
