/**
 * The adjusted pricing engine: adjuster sums, the unit sell price in dollar or
 * percent markup mode, internal line and quote totals, and the customer-facing
 * per-size pricing table. Money is exact (`real`), so there is no rounding here.
 */
module QuotePricing {
  import opened Wrappers
  import opened Seqs
  import opened QuoteTypes

  // ---------------------------------------------------------------------------
  // Adjusters
  // ---------------------------------------------------------------------------

  predicate IsPerItem(a: Adjuster) {
    a.kind == PerItemKind
  }

  predicate IsFlat(a: Adjuster) {
    a.kind == FlatKind
  }

  /** Adjusters that take part in pricing at all: any other `type` is ignored. */
  predicate IsPricedAdjuster(a: Adjuster) {
    IsPerItem(a) || IsFlat(a)
  }

  function Amount(a: Adjuster): real {
    a.amount
  }

  /** Sum of `amount` over the "perItem" adjusters (filter, then reduce). */
  function PerItemAdjusterTotal(adjusters: seq<Adjuster>): real {
    Sum(Filter(adjusters, IsPerItem), Amount)
  }

  /** Sum of `amount` over the "flat" adjusters (filter, then reduce). */
  function FlatAdjusterTotal(adjusters: seq<Adjuster>): real {
    Sum(Filter(adjusters, IsFlat), Amount)
  }

  /**
   * The two adjuster totals split the adjusters that take part in pricing:
   * together they are the sum over exactly the "perItem" and "flat" adjusters.
   */
  lemma {:induction false} AdjusterTotalsPartition(adjusters: seq<Adjuster>)
    ensures PerItemAdjusterTotal(adjusters) + FlatAdjusterTotal(adjusters)
         == Sum(Filter(adjusters, IsPricedAdjuster), Amount)
  {
    if |adjusters| > 0 {
      var init := adjusters[..|adjusters| - 1];
      var a := adjusters[|adjusters| - 1];
      AdjusterTotalsPartition(init);
      SumAppend(Filter(init, IsPerItem), if IsPerItem(a) then [a] else [], Amount);
      SumAppend(Filter(init, IsFlat), if IsFlat(a) then [a] else [], Amount);
      SumAppend(Filter(init, IsPricedAdjuster), if IsPricedAdjuster(a) then [a] else [], Amount);
      assert Sum([a], Amount) == a.amount by { assert [a][..0] == []; }
    }
  }

  /** Appending adjusters adds their totals. */
  lemma AdjusterTotalsAppend(a: seq<Adjuster>, b: seq<Adjuster>)
    ensures PerItemAdjusterTotal(a + b) == PerItemAdjusterTotal(a) + PerItemAdjusterTotal(b)
    ensures FlatAdjusterTotal(a + b) == FlatAdjusterTotal(a) + FlatAdjusterTotal(b)
  {
    FilterAppend(a, b, IsPerItem);
    SumAppend(Filter(a, IsPerItem), Filter(b, IsPerItem), Amount);
    FilterAppend(a, b, IsFlat);
    SumAppend(Filter(a, IsFlat), Filter(b, IsFlat), Amount);
  }

  /** The order of the adjusters never changes either total. */
  lemma AdjusterTotalsReorder(a: seq<Adjuster>, b: seq<Adjuster>)
    requires multiset(a) == multiset(b)
    ensures PerItemAdjusterTotal(a) == PerItemAdjusterTotal(b)
    ensures FlatAdjusterTotal(a) == FlatAdjusterTotal(b)
  {
    forall x: Adjuster
      ensures multiset(Filter(a, IsPerItem))[x] == multiset(Filter(b, IsPerItem))[x]
      ensures multiset(Filter(a, IsFlat))[x] == multiset(Filter(b, IsFlat))[x]
    {
      FilterCount(a, IsPerItem, x);
      FilterCount(b, IsPerItem, x);
      FilterCount(a, IsFlat, x);
      FilterCount(b, IsFlat, x);
    }
    assert multiset(Filter(a, IsPerItem)) == multiset(Filter(b, IsPerItem));
    assert multiset(Filter(a, IsFlat)) == multiset(Filter(b, IsFlat));
    SumPermutation(Filter(a, IsPerItem), Filter(b, IsPerItem), Amount);
    SumPermutation(Filter(a, IsFlat), Filter(b, IsFlat), Amount);
  }

  // ---------------------------------------------------------------------------
  // Unit sell price
  // ---------------------------------------------------------------------------

  /** `lineItem.markupType || "dollar"`: an absent markup type means dollars. */
  function EffectiveMarkupType(markupType: string): string {
    if markupType == "" then DollarMarkup else markupType
  }

  /**
   * Unit sell price: markup first (added dollars, or a percentage of the cost
   * for ANY markup type other than "dollar"), then the per-item adjusters, which
   * the percentage never scales.
   */
  function UnitSellPrice(unitCost: real, markupType: string, markupPerItem: real, perItemAdjusters: real): (r: real)
    ensures markupType == DollarMarkup ==> r - unitCost - perItemAdjusters == markupPerItem
  {
    var marked := if markupType == DollarMarkup then unitCost + markupPerItem
                  else unitCost * (1.0 + markupPerItem / 100.0);
    marked + perItemAdjusters
  }

  /**
   * In every mode the per-item adjusters shift the price one-for-one; in any
   * mode other than "dollar" the markup is that percentage of the cost.
   */
  lemma UnitSellPriceMarkup(unitCost: real, markupType: string, markupPerItem: real, perItemAdjusters: real)
    ensures UnitSellPrice(unitCost, markupType, markupPerItem, perItemAdjusters)
         == UnitSellPrice(unitCost, markupType, markupPerItem, 0.0) + perItemAdjusters
    ensures markupType != DollarMarkup ==>
              UnitSellPrice(unitCost, markupType, markupPerItem, 0.0) - unitCost == unitCost * markupPerItem / 100.0
  {
  }

  /** `costBySize[size] || 0`. */
  function UnitCost(p: PriceInputs, size: string): real {
    if size in p.costBySize then p.costBySize[size] else 0.0
  }

  /** The unit sell price both the internal and the customer path use for `size`. */
  function UnitSell(p: PriceInputs, size: string): real {
    UnitSellPrice(UnitCost(p, size), EffectiveMarkupType(p.markupType), p.markupPerItem,
                  PerItemAdjusterTotal(p.adjusters))
  }

  // ---------------------------------------------------------------------------
  // Internal line totals
  // ---------------------------------------------------------------------------

  /** Sizes with a positive quantity are the only ones the internal totals count. */
  predicate IsCountedSize(e: SizeEntry) {
    e.qty > 0
  }

  /** `price * qty` for one size row. */
  function Extended(price: real, qty: int): real {
    price * qty as real
  }

  /** Quantity counted for one size: `qty` when positive, else nothing. */
  function CountedQty(e: SizeEntry): int {
    if e.qty > 0 then e.qty else 0
  }

  function CostOf(p: PriceInputs, e: SizeEntry): real {
    if e.qty > 0 then Extended(UnitCost(p, e.size), e.qty) else 0.0
  }

  function SellOf(p: PriceInputs, e: SizeEntry): real {
    if e.qty > 0 then Extended(UnitSell(p, e.size), e.qty) else 0.0
  }

  function ProfitOf(p: PriceInputs, e: SizeEntry): real {
    if e.qty > 0 then Extended(UnitSell(p, e.size) - UnitCost(p, e.size), e.qty) else 0.0
  }

  /** Quantity over the counted sizes of `s`. */
  function QtySum(s: seq<SizeEntry>): int {
    if |s| == 0 then 0 else QtySum(s[..|s| - 1]) + CountedQty(s[|s| - 1])
  }

  /** Cost over the counted sizes of `s`. */
  function CostSum(p: PriceInputs, s: seq<SizeEntry>): real {
    if |s| == 0 then 0.0 else CostSum(p, s[..|s| - 1]) + CostOf(p, s[|s| - 1])
  }

  /** Sell price over the counted sizes of `s`, before the flat adjusters. */
  function SellSum(p: PriceInputs, s: seq<SizeEntry>): real {
    if |s| == 0 then 0.0 else SellSum(p, s[..|s| - 1]) + SellOf(p, s[|s| - 1])
  }

  /** Profit over the counted sizes of `s`, before the flat adjusters. */
  function ProfitSum(p: PriceInputs, s: seq<SizeEntry>): real {
    if |s| == 0 then 0.0 else ProfitSum(p, s[..|s| - 1]) + ProfitOf(p, s[|s| - 1])
  }

  /** The counted quantity is never negative. */
  lemma {:induction false} QtySumNonNegative(s: seq<SizeEntry>)
    ensures QtySum(s) >= 0
  {
    if |s| > 0 {
      QtySumNonNegative(s[..|s| - 1]);
    }
  }

  /** Per size, profit is sell minus cost; so it is over any run of sizes. */
  lemma {:induction false} ProfitIsSellMinusCost(p: PriceInputs, s: seq<SizeEntry>)
    ensures ProfitSum(p, s) == SellSum(p, s) - CostSum(p, s)
  {
    if |s| > 0 {
      ProfitIsSellMinusCost(p, s[..|s| - 1]);
      var e := s[|s| - 1];
      ExtendedDifference(UnitSell(p, e.size), UnitCost(p, e.size), e.qty);
    }
  }

  lemma ExtendedDifference(a: real, b: real, qty: int)
    ensures Extended(a - b, qty) == Extended(a, qty) - Extended(b, qty)
  {
  }

  /**
   * The size sums only see the cost table and the unit sell price: two inputs
   * that agree on those give the same sums.
   */
  lemma {:induction false} SizeSumsAgree(p: PriceInputs, q: PriceInputs, s: seq<SizeEntry>)
    requires p.costBySize == q.costBySize
    requires forall i :: 0 <= i < |s| ==> UnitSell(p, s[i].size) == UnitSell(q, s[i].size)
    ensures CostSum(p, s) == CostSum(q, s)
    ensures SellSum(p, s) == SellSum(q, s)
    ensures ProfitSum(p, s) == ProfitSum(q, s)
  {
    if |s| > 0 {
      SizeSumsAgree(p, q, s[..|s| - 1]);
      assert UnitSell(p, s[|s| - 1].size) == UnitSell(q, s[|s| - 1].size);
    }
  }

  /** Dropping the non-positive quantities changes none of the size sums. */
  lemma {:induction false} SizeSumsSkipUncounted(p: PriceInputs, s: seq<SizeEntry>)
    ensures QtySum(Filter(s, IsCountedSize)) == QtySum(s)
    ensures CostSum(p, Filter(s, IsCountedSize)) == CostSum(p, s)
    ensures SellSum(p, Filter(s, IsCountedSize)) == SellSum(p, s)
    ensures ProfitSum(p, Filter(s, IsCountedSize)) == ProfitSum(p, s)
  {
    if |s| > 0 {
      var init := s[..|s| - 1];
      var e := s[|s| - 1];
      var f := Filter(init, IsCountedSize);
      SizeSumsSkipUncounted(p, init);
      if IsCountedSize(e) {
        assert Filter(s, IsCountedSize) == f + [e];
        assert (f + [e])[..|f|] == f;
      } else {
        assert Filter(s, IsCountedSize) == f;
      }
    }
  }

  datatype LineTotals = LineTotals(
    qtyTotal: int,
    sellTotal: real,
    profit: real,
    costTotal: real,
    unitSellAvg: real,
    perItemAdjusters: real,
    flatAdjusters: real)

  /**
   * Internal totals of one line item: per-size sums over the positive
   * quantities, then the flat adjusters added once to sell total and profit.
   */
  function LineItemTotalsAdjusted(p: PriceInputs): (t: LineTotals)
    ensures t.profit == t.sellTotal - t.costTotal
    ensures t.qtyTotal >= 0
    ensures t.qtyTotal > 0 ==> t.unitSellAvg * t.qtyTotal as real == t.sellTotal
    ensures t.qtyTotal == 0 ==> t.unitSellAvg == 0.0
  {
    var flat := FlatAdjusterTotal(p.adjusters);
    var qty := QtySum(p.sizeQty);
    var sell := SellSum(p, p.sizeQty) + flat;
    ProfitIsSellMinusCost(p, p.sizeQty);
    QtySumNonNegative(p.sizeQty);
    LineTotals(qty, sell, ProfitSum(p, p.sizeQty) + flat, CostSum(p, p.sizeQty),
               if qty > 0 then sell / qty as real else 0.0,
               PerItemAdjusterTotal(p.adjusters), flat)
  }

  /**
   * The loop of the source, accumulating quantity, cost, sell and profit over
   * the sizes in key order and skipping non-positive quantities; it computes
   * exactly the totals defined above.
   */
  method ComputeLineItemTotals(p: PriceInputs) returns (t: LineTotals)
    ensures t == LineItemTotalsAdjusted(p)
  {
    var perItem := PerItemAdjusterTotal(p.adjusters);
    var flat := FlatAdjusterTotal(p.adjusters);
    var qtyTotal := 0;
    var sellTotal := 0.0;
    var profit := 0.0;
    var costTotal := 0.0;
    var i := 0;
    while i < |p.sizeQty|
      invariant 0 <= i <= |p.sizeQty|
      invariant qtyTotal == QtySum(p.sizeQty[..i])
      invariant costTotal == CostSum(p, p.sizeQty[..i])
      invariant sellTotal == SellSum(p, p.sizeQty[..i])
      invariant profit == ProfitSum(p, p.sizeQty[..i])
    {
      var size := p.sizeQty[i].size;
      var qty := p.sizeQty[i].qty;
      assert p.sizeQty[..i + 1][..i] == p.sizeQty[..i];
      if qty > 0 {
        var unitCost := UnitCost(p, size);
        var unitSell := UnitSellPrice(unitCost, EffectiveMarkupType(p.markupType), p.markupPerItem, perItem);
        qtyTotal := qtyTotal + qty;
        costTotal := costTotal + Extended(unitCost, qty);
        sellTotal := sellTotal + Extended(unitSell, qty);
        profit := profit + Extended(unitSell - unitCost, qty);
      }
      i := i + 1;
    }
    assert p.sizeQty[..i] == p.sizeQty;
    sellTotal := sellTotal + flat;
    profit := profit + flat;
    var unitSellAvg := if qtyTotal > 0 then sellTotal / qtyTotal as real else 0.0;
    t := LineTotals(qtyTotal, sellTotal, profit, costTotal, unitSellAvg, perItem, flat);
  }

  /** Sizes with a quantity of 0 or less contribute nothing to any internal total. */
  lemma NonPositiveSizesIgnored(p: PriceInputs)
    ensures LineItemTotalsAdjusted(p.(sizeQty := Filter(p.sizeQty, IsCountedSize)))
         == LineItemTotalsAdjusted(p)
  {
    var q := p.(sizeQty := Filter(p.sizeQty, IsCountedSize));
    SizeSumsSkipUncounted(p, p.sizeQty);
    SizeSumsAgree(q, p, q.sizeQty);
  }

  /**
   * A flat adjuster is added once, whatever the quantities: appending one raises
   * sell total and profit by its amount and leaves quantity and cost alone.
   */
  lemma FlatAdjusterAddedOnce(p: PriceInputs, a: Adjuster)
    requires IsFlat(a)
    ensures var before := LineItemTotalsAdjusted(p);
            var after := LineItemTotalsAdjusted(p.(adjusters := p.adjusters + [a]));
            && after.sellTotal == before.sellTotal + a.amount
            && after.profit == before.profit + a.amount
            && after.costTotal == before.costTotal
            && after.qtyTotal == before.qtyTotal
  {
    var q := p.(adjusters := p.adjusters + [a]);
    SingleAdjusterTotals(a);
    AdjusterTotalsAppend(p.adjusters, [a]);
    assert PerItemAdjusterTotal(q.adjusters) == PerItemAdjusterTotal(p.adjusters);
    assert FlatAdjusterTotal(q.adjusters) == FlatAdjusterTotal(p.adjusters) + a.amount;
    SizeSumsAgree(q, p, p.sizeQty);
  }

  /** The totals of a single adjuster. */
  lemma SingleAdjusterTotals(a: Adjuster)
    ensures PerItemAdjusterTotal([a]) == if IsPerItem(a) then a.amount else 0.0
    ensures FlatAdjusterTotal([a]) == if IsFlat(a) then a.amount else 0.0
  {
    assert [a][..0] == [];
    assert Sum([a], Amount) == a.amount;
  }

  // ---------------------------------------------------------------------------
  // Quote totals (internal)
  // ---------------------------------------------------------------------------

  datatype QuoteTotals = QuoteTotals(totalQty: int, sellTotal: real, profit: real)

  function LineQty(p: PriceInputs): int {
    LineItemTotalsAdjusted(p).qtyTotal
  }

  function LineSell(p: PriceInputs): real {
    LineItemTotalsAdjusted(p).sellTotal
  }

  function LineProfit(p: PriceInputs): real {
    LineItemTotalsAdjusted(p).profit
  }

  function LineCost(p: PriceInputs): real {
    LineItemTotalsAdjusted(p).costTotal
  }

  function NegLineCost(p: PriceInputs): real {
    -LineCost(p)
  }

  /**
   * Quote totals fold the line totals field by field. The quote's profit is its
   * sell total minus the summed line costs, and quantities never go negative.
   */
  function QuoteTotalsAdjusted(items: seq<PriceInputs>): (t: QuoteTotals)
    ensures t.totalQty >= 0
    ensures t.profit == t.sellTotal - Sum(items, LineCost)
  {
    IntSumNonNegative(items, LineQty);
    SumAdd(items, LineSell, NegLineCost, LineProfit);
    SumNegateLines(items);
    QuoteTotals(IntSum(items, LineQty), Sum(items, LineSell), Sum(items, LineProfit))
  }

  lemma {:induction false} SumNegateLines(items: seq<PriceInputs>)
    ensures Sum(items, NegLineCost) == -Sum(items, LineCost)
  {
    if |items| > 0 {
      SumNegateLines(items[..|items| - 1]);
    }
  }

  /** Totals of a concatenation are the element-wise sums; no line items give zeros. */
  lemma QuoteTotalsAppend(a: seq<PriceInputs>, b: seq<PriceInputs>)
    ensures QuoteTotalsAdjusted([]) == QuoteTotals(0, 0.0, 0.0)
    ensures var ta := QuoteTotalsAdjusted(a);
            var tb := QuoteTotalsAdjusted(b);
            QuoteTotalsAdjusted(a + b)
              == QuoteTotals(ta.totalQty + tb.totalQty, ta.sellTotal + tb.sellTotal, ta.profit + tb.profit)
  {
    IntSumAppend(a, b, LineQty);
    SumAppend(a, b, LineSell);
    SumAppend(a, b, LineProfit);
  }

  /**
   * The totals of a one-line quote are that line's quantity, sell total and
   * profit; with `QuoteTotalsAppend` this pins the quote totals down as the
   * field-by-field sums of the line totals.
   */
  lemma QuoteTotalsSingle(p: PriceInputs)
    ensures QuoteTotalsAdjusted([p]) == QuoteTotals(LineQty(p), LineSell(p), LineProfit(p))
  {
    IntSumSingle(p, LineQty);
    SumSingle(p, LineSell);
    SumSingle(p, LineProfit);
  }

  // ---------------------------------------------------------------------------
  // Customer-facing pricing
  // ---------------------------------------------------------------------------

  /** One row of the customer table. It has no cost or profit field at all. */
  datatype PriceRow = PriceRow(size: string, qty: int, unitSell: real, total: real)

  datatype CustomerPricing = CustomerPricing(
    rows: seq<PriceRow>,
    totalQty: int,
    lineTotal: real,
    flatAdjusters: real,
    perItemAdjusters: real)

  function RowFor(p: PriceInputs, e: SizeEntry): PriceRow {
    var unitSell := UnitSell(p, e.size);
    PriceRow(e.size, e.qty, unitSell, Extended(unitSell, e.qty))
  }

  function RowTotal(r: PriceRow): real {
    r.total
  }

  function RowQty(r: PriceRow): int {
    r.qty
  }

  function EntryQty(e: SizeEntry): int {
    e.qty
  }

  /** What the source's `.map` callbacks add to `lineTotal` and `totalQty`, over `s`. */
  function RawSellSum(p: PriceInputs, s: seq<SizeEntry>): real {
    if |s| == 0 then 0.0 else RawSellSum(p, s[..|s| - 1]) + Extended(UnitSell(p, s[|s| - 1].size), s[|s| - 1].qty)
  }

  /** Cost of every size at its quantity, whatever its sign. */
  function RawCostSum(p: PriceInputs, s: seq<SizeEntry>): real {
    if |s| == 0 then 0.0 else RawCostSum(p, s[..|s| - 1]) + Extended(UnitCost(p, s[|s| - 1].size), s[|s| - 1].qty)
  }

  /** One row per size, in key order. */
  function CustomerRows(p: PriceInputs): (rows: seq<PriceRow>)
    ensures |rows| == |p.sizeQty|
    ensures forall i :: 0 <= i < |rows| ==> rows[i] == RowFor(p, p.sizeQty[i])
    ensures Sum(rows, RowTotal) == RawSellSum(p, p.sizeQty)
    ensures IntSum(rows, RowQty) == IntSum(p.sizeQty, EntryQty)
  {
    var rows := seq(|p.sizeQty|, i requires 0 <= i < |p.sizeQty| => RowFor(p, p.sizeQty[i]));
    RowsSums(p, p.sizeQty, rows);
    rows
  }

  /**
   * The customer pricing table: one row per `sizeQty` key in key order (zero
   * and negative quantities included), each row's total is unit sell times
   * quantity, and the line total is the sum of the row totals plus the flat
   * adjusters.
   */
  function LineItemCustomerPricing(p: PriceInputs): (c: CustomerPricing)
    ensures |c.rows| == |p.sizeQty|
    ensures forall i :: 0 <= i < |c.rows| ==>
              && c.rows[i].size == p.sizeQty[i].size
              && c.rows[i].qty == p.sizeQty[i].qty
              && c.rows[i].unitSell == UnitSell(p, p.sizeQty[i].size)
              && c.rows[i].total == Extended(c.rows[i].unitSell, c.rows[i].qty)
    ensures c.lineTotal == Sum(c.rows, RowTotal) + c.flatAdjusters
    ensures c.totalQty == IntSum(c.rows, RowQty)
    ensures c.flatAdjusters == FlatAdjusterTotal(p.adjusters)
  {
    var rows := CustomerRows(p);
    var flat := FlatAdjusterTotal(p.adjusters);
    CustomerPricing(rows, IntSum(p.sizeQty, EntryQty), RawSellSum(p, p.sizeQty) + flat,
                    flat, PerItemAdjusterTotal(p.adjusters))
  }

  lemma {:induction false} RowsSums(p: PriceInputs, entries: seq<SizeEntry>, rows: seq<PriceRow>)
    requires |rows| == |entries|
    requires forall i :: 0 <= i < |rows| ==> rows[i] == RowFor(p, entries[i])
    ensures Sum(rows, RowTotal) == RawSellSum(p, entries)
    ensures IntSum(rows, RowQty) == IntSum(entries, EntryQty)
  {
    if |rows| > 0 {
      RowsSums(p, entries[..|entries| - 1], rows[..|rows| - 1]);
    }
  }

  /**
   * With no negative quantity, the customer table agrees with the internal
   * totals: its line total is the internal sell total and its quantity the
   * internal quantity (zero-quantity rows contribute nothing).
   */
  lemma CustomerPricingMatchesInternal(p: PriceInputs)
    requires NoNegativeQuantities(p)
    ensures LineItemCustomerPricing(p).lineTotal == LineItemTotalsAdjusted(p).sellTotal
    ensures LineItemCustomerPricing(p).totalQty == LineItemTotalsAdjusted(p).qtyTotal
  {
    CustomerSumsMatch(p, p.sizeQty);
  }

  lemma {:induction false} CustomerSumsMatch(p: PriceInputs, s: seq<SizeEntry>)
    requires forall i :: 0 <= i < |s| ==> s[i].qty >= 0
    ensures RawSellSum(p, s) == SellSum(p, s)
    ensures IntSum(s, EntryQty) == QtySum(s)
  {
    if |s| > 0 {
      CustomerSumsMatch(p, s[..|s| - 1]);
      var e := s[|s| - 1];
      assert e.qty >= 0;
      assert Extended(UnitSell(p, e.size), e.qty) == SellOf(p, e);
    }
  }

  /**
   * A negative quantity separates the two paths: the customer table counts it,
   * the internal totals skip it.
   */
  lemma NegativeQuantityDivergence()
    ensures var p := PriceInputs([SizeEntry("M", -1)], map[], DollarMarkup, 1.0, []);
            && LineItemCustomerPricing(p).lineTotal == -1.0
            && LineItemTotalsAdjusted(p).sellTotal == 0.0
  {
    var p := PriceInputs([SizeEntry("M", -1)], map[], DollarMarkup, 1.0, []);
    assert Filter(p.adjusters, IsPerItem) == [];
    assert Filter(p.adjusters, IsFlat) == [];
    assert p.sizeQty[..0] == [];
    assert UnitSell(p, "M") == 1.0;
  }

  datatype CustomerTotals = CustomerTotals(totalQty: int, sellTotal: real)

  function CustomerLineQty(p: PriceInputs): int {
    LineItemCustomerPricing(p).totalQty
  }

  function CustomerLineTotal(p: PriceInputs): real {
    LineItemCustomerPricing(p).lineTotal
  }

  /** Customer quote totals: the sums of the line tables' quantities and line totals. */
  function QuoteCustomerTotals(items: seq<PriceInputs>): (t: CustomerTotals)
    ensures items == [] ==> t == CustomerTotals(0, 0.0)
  {
    CustomerTotals(IntSum(items, CustomerLineQty), Sum(items, CustomerLineTotal))
  }

  /** A one-line quote shows that line's table quantity and line total. */
  lemma QuoteCustomerTotalsSingle(p: PriceInputs)
    ensures QuoteCustomerTotals([p]) == CustomerTotals(CustomerLineQty(p), CustomerLineTotal(p))
  {
    IntSumSingle(p, CustomerLineQty);
    SumSingle(p, CustomerLineTotal);
  }

  /** The customer totals of a concatenation are the sums of the parts' totals. */
  lemma QuoteCustomerTotalsAppend(a: seq<PriceInputs>, b: seq<PriceInputs>)
    ensures var ta := QuoteCustomerTotals(a);
            var tb := QuoteCustomerTotals(b);
            QuoteCustomerTotals(a + b) == CustomerTotals(ta.totalQty + tb.totalQty, ta.sellTotal + tb.sellTotal)
  {
    IntSumAppend(a, b, CustomerLineQty);
    SumAppend(a, b, CustomerLineTotal);
  }

  predicate NoNegativeQuantities(p: PriceInputs) {
    forall i :: 0 <= i < |p.sizeQty| ==> p.sizeQty[i].qty >= 0
  }

  /** Without negative quantities, the customer and internal quote totals agree. */
  lemma {:induction false} QuoteCustomerTotalsMatchInternal(items: seq<PriceInputs>)
    requires forall i :: 0 <= i < |items| ==> NoNegativeQuantities(items[i])
    ensures QuoteCustomerTotals(items).totalQty == QuoteTotalsAdjusted(items).totalQty
    ensures QuoteCustomerTotals(items).sellTotal == QuoteTotalsAdjusted(items).sellTotal
  {
    if |items| > 0 {
      var init := items[..|items| - 1];
      QuoteCustomerTotalsMatchInternal(init);
      CustomerPricingMatchesInternal(items[|items| - 1]);
    }
  }
}
