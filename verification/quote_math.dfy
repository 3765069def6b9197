/**
 * The legacy totals helpers still used by older pages: dollar markup only, a
 * size is skipped only when its quantity is exactly 0, every money field of a
 * line is rounded to cents on its own, and quote totals add up the rounded
 * line fields.
 */
module QuoteMath {
  import opened Seqs
  import opened QuoteTypes
  import opened QuotePricing
  import opened Money

  datatype LegacyLineTotals = LegacyLineTotals(
    totalQty: int,
    costSubtotal: real,
    sellSubtotal: real,
    sellTotal: real,
    profit: real,
    perItemAdj: real,
    flatAdj: real)

  /**
   * Unit sell price of the legacy path: cost plus markup plus per-item
   * adjusters, whatever `markupType` says.
   */
  function LegacyUnitSell(p: PriceInputs, size: string): real {
    UnitCost(p, size) + p.markupPerItem + PerItemAdjusterTotal(p.adjusters)
  }

  /** `if (!qty) continue`: only a zero quantity is skipped; negatives count. */
  predicate IsLegacyCounted(e: SizeEntry) {
    e.qty != 0
  }

  function LegacyQtySum(s: seq<SizeEntry>): int {
    if |s| == 0 then 0
    else
      var e := s[|s| - 1];
      LegacyQtySum(s[..|s| - 1]) + (if IsLegacyCounted(e) then e.qty else 0)
  }

  function LegacyCostSum(p: PriceInputs, s: seq<SizeEntry>): real {
    if |s| == 0 then 0.0
    else
      var e := s[|s| - 1];
      LegacyCostSum(p, s[..|s| - 1]) + (if IsLegacyCounted(e) then Extended(UnitCost(p, e.size), e.qty) else 0.0)
  }

  function LegacySellSum(p: PriceInputs, s: seq<SizeEntry>): real {
    if |s| == 0 then 0.0
    else
      var e := s[|s| - 1];
      LegacySellSum(p, s[..|s| - 1]) + (if IsLegacyCounted(e) then Extended(LegacyUnitSell(p, e.size), e.qty) else 0.0)
  }

  /**
   * Legacy line totals. Every money field is a whole number of cents, and
   * because sell total, cost and profit are rounded separately the profit may
   * differ from sell total minus cost by one cent either way.
   */
  function LineItemTotals(p: PriceInputs): (t: LegacyLineTotals)
    ensures IsWholeCents(t.costSubtotal) && IsWholeCents(t.sellSubtotal) && IsWholeCents(t.sellTotal)
    ensures IsWholeCents(t.profit) && IsWholeCents(t.perItemAdj) && IsWholeCents(t.flatAdj)
    ensures -0.01 <= t.profit - (t.sellTotal - t.costSubtotal) <= 0.01
    ensures t.totalQty == IntSum(p.sizeQty, EntryQty)
    ensures var raw := RawSellSum(p.(markupType := DollarMarkup), p.sizeQty);
            t.sellSubtotal == Round2(raw) && t.sellTotal == Round2(raw + FlatAdjusterTotal(p.adjusters))
    ensures t.costSubtotal == Round2(RawCostSum(p, p.sizeQty))
    ensures var raw := RawSellSum(p.(markupType := DollarMarkup), p.sizeQty);
            t.profit == Round2(raw + FlatAdjusterTotal(p.adjusters) - RawCostSum(p, p.sizeQty))
    ensures t.perItemAdj == Round2(PerItemAdjusterTotal(p.adjusters))
    ensures t.flatAdj == Round2(FlatAdjusterTotal(p.adjusters))
  {
    LegacySumsAreRawSums(p, p.sizeQty);
    var flat := FlatAdjusterTotal(p.adjusters);
    var cost := LegacyCostSum(p, p.sizeQty);
    var sellSubtotal := LegacySellSum(p, p.sizeQty);
    var sellTotal := sellSubtotal + flat;
    RoundedDifference(sellTotal, cost);
    LegacyLineTotals(
      LegacyQtySum(p.sizeQty),
      Round2(cost),
      Round2(sellSubtotal),
      Round2(sellTotal),
      Round2(sellTotal - cost),
      Round2(PerItemAdjusterTotal(p.adjusters)),
      Round2(flat))
  }

  /** Rounding a difference and differencing the roundings agree to within a cent. */
  lemma RoundedDifference(a: real, b: real)
    ensures -0.01 <= Round2(a - b) - (Round2(a) - Round2(b)) <= 0.01
  {
    var ra, rb, rd := Round2(a), Round2(b), Round2(a - b);
    var i, j, k := (100.0 * ra).Floor, (100.0 * rb).Floor, (100.0 * rd).Floor;
    var n := k - i + j;
    assert 100.0 * (rd - (ra - rb)) == n as real;
    assert -1.5 < n as real < 1.5;
    assert -1 <= n <= 1;
  }

  /**
   * Where the two engines coincide: with dollar markup and no negative
   * quantity the legacy line totals are the adjusted totals rounded to cents
   * (and the quantity is the same).
   */
  lemma LegacyMatchesAdjusted(p: PriceInputs)
    requires EffectiveMarkupType(p.markupType) == DollarMarkup
    requires NoNegativeQuantities(p)
    ensures var legacy := LineItemTotals(p);
            var adjusted := LineItemTotalsAdjusted(p);
            && legacy.totalQty == adjusted.qtyTotal
            && legacy.costSubtotal == Round2(adjusted.costTotal)
            && legacy.sellTotal == Round2(adjusted.sellTotal)
            && legacy.sellSubtotal == Round2(adjusted.sellTotal - adjusted.flatAdjusters)
            && legacy.profit == Round2(adjusted.profit)
            && legacy.flatAdj == Round2(adjusted.flatAdjusters)
            && legacy.perItemAdj == Round2(adjusted.perItemAdjusters)
  {
    LegacySumsMatch(p, p.sizeQty);
    ProfitIsSellMinusCost(p, p.sizeQty);
  }

  lemma {:induction false} LegacySumsMatch(p: PriceInputs, s: seq<SizeEntry>)
    requires EffectiveMarkupType(p.markupType) == DollarMarkup
    requires forall i :: 0 <= i < |s| ==> s[i].qty >= 0
    ensures LegacyQtySum(s) == QtySum(s)
    ensures LegacyCostSum(p, s) == CostSum(p, s)
    ensures LegacySellSum(p, s) == SellSum(p, s)
  {
    if |s| > 0 {
      LegacySumsMatch(p, s[..|s| - 1]);
      var e := s[|s| - 1];
      assert e.qty >= 0;
      assert LegacyUnitSell(p, e.size) == UnitSell(p, e.size);
    }
  }

  /** The legacy totals never read `markupType`: every markup type gives the same totals. */
  lemma LegacyIgnoresMarkupType(p: PriceInputs, m: string)
    ensures LineItemTotals(p.(markupType := m)) == LineItemTotals(p)
  {
    LegacySumsIgnoreMarkupType(p, m, p.sizeQty);
  }

  lemma {:induction false} LegacySumsIgnoreMarkupType(p: PriceInputs, m: string, s: seq<SizeEntry>)
    ensures LegacyCostSum(p.(markupType := m), s) == LegacyCostSum(p, s)
    ensures LegacySellSum(p.(markupType := m), s) == LegacySellSum(p, s)
  {
    if |s| > 0 {
      LegacySumsIgnoreMarkupType(p, m, s[..|s| - 1]);
    }
  }

  /**
   * Over every quantity, negatives included, the legacy sums are the plain
   * sums over all sizes (a zero quantity adds nothing either way): the legacy
   * quantity is the summed `qty`, the legacy cost is every size's cost, and
   * the legacy sell subtotal is the customer table's row total priced in
   * dollar mode.
   */
  lemma {:induction false} LegacySumsAreRawSums(p: PriceInputs, s: seq<SizeEntry>)
    ensures LegacyQtySum(s) == IntSum(s, EntryQty)
    ensures LegacyCostSum(p, s) == RawCostSum(p, s)
    ensures LegacySellSum(p, s) == RawSellSum(p.(markupType := DollarMarkup), s)
  {
    if |s| > 0 {
      LegacySumsAreRawSums(p, s[..|s| - 1]);
      var e := s[|s| - 1];
      assert LegacyUnitSell(p, e.size) == UnitSell(p.(markupType := DollarMarkup), e.size);
    }
  }

  /** The legacy path ignores a percentage markup and adds it as dollars. */
  lemma PercentMarkupDivergence()
    ensures var p := PriceInputs([SizeEntry("M", 1)], map["M" := 10.0], "percent", 50.0, []);
            && LineItemTotalsAdjusted(p).sellTotal == 15.0
            && LineItemTotals(p).sellTotal == 60.0
  {
    var p := PriceInputs([SizeEntry("M", 1)], map["M" := 10.0], "percent", 50.0, []);
    assert Filter(p.adjusters, IsPerItem) == [];
    assert Filter(p.adjusters, IsFlat) == [];
    assert p.sizeQty[..0] == [];
    assert UnitSell(p, "M") == 15.0;
    assert LegacyUnitSell(p, "M") == 60.0;
    Round2WholeCents(60.0);
  }

  /** A negative quantity lowers the legacy quantity; the adjusted engine skips it. */
  lemma NegativeQuantityLegacyDivergence()
    ensures var p := PriceInputs([SizeEntry("M", -1)], map[], DollarMarkup, 0.0, []);
            && LineItemTotals(p).totalQty == -1
            && LineItemTotalsAdjusted(p).qtyTotal == 0
  {
    var p := PriceInputs([SizeEntry("M", -1)], map[], DollarMarkup, 0.0, []);
    assert p.sizeQty[..0] == [];
  }

  /** Rounding each field apart can break `profit == sellTotal - costSubtotal` by a cent. */
  lemma LegacyProfitOffByACent()
    ensures var t := LineItemTotals(PriceInputs([SizeEntry("M", 1)], map["M" := 0.004], DollarMarkup, 0.002, []));
            t.profit != t.sellTotal - t.costSubtotal
  {
    var p := PriceInputs([SizeEntry("M", 1)], map["M" := 0.004], DollarMarkup, 0.002, []);
    assert Filter(p.adjusters, IsPerItem) == [];
    assert Filter(p.adjusters, IsFlat) == [];
    assert p.sizeQty[..0] == [];
    assert LegacyCostSum(p, p.sizeQty) == 0.004;
    assert LegacySellSum(p, p.sizeQty) == 0.006;
    assert (100.0 * 0.006 + 0.5).Floor == 1;
    assert (100.0 * 0.004 + 0.5).Floor == 0;
    assert (100.0 * 0.002 + 0.5).Floor == 0;
  }

  datatype LegacyQuoteTotals = LegacyQuoteTotals(
    totalQty: int,
    costSubtotal: real,
    sellSubtotal: real,
    sellTotal: real,
    profit: real)

  function LegacyQty(p: PriceInputs): int {
    LineItemTotals(p).totalQty
  }

  function LegacyCost(p: PriceInputs): real {
    LineItemTotals(p).costSubtotal
  }

  function LegacySellSubtotal(p: PriceInputs): real {
    LineItemTotals(p).sellSubtotal
  }

  function LegacySell(p: PriceInputs): real {
    LineItemTotals(p).sellTotal
  }

  function LegacyProfit(p: PriceInputs): real {
    LineItemTotals(p).profit
  }

  /**
   * Legacy quote totals: the line items' ROUNDED fields added up, so every
   * money total is still a whole number of cents.
   */
  function GetQuoteTotals(items: seq<PriceInputs>): (t: LegacyQuoteTotals)
    ensures items == [] ==> t == LegacyQuoteTotals(0, 0.0, 0.0, 0.0, 0.0)
    ensures IsWholeCents(t.costSubtotal) && IsWholeCents(t.sellSubtotal)
    ensures IsWholeCents(t.sellTotal) && IsWholeCents(t.profit)
  {
    SumWholeCents(items, LegacyCost);
    SumWholeCents(items, LegacySellSubtotal);
    SumWholeCents(items, LegacySell);
    SumWholeCents(items, LegacyProfit);
    LegacyQuoteTotals(
      IntSum(items, LegacyQty),
      Sum(items, LegacyCost),
      Sum(items, LegacySellSubtotal),
      Sum(items, LegacySell),
      Sum(items, LegacyProfit))
  }

  /** A one-line legacy quote shows that line's rounded fields. */
  lemma GetQuoteTotalsSingle(p: PriceInputs)
    ensures var l := LineItemTotals(p);
            GetQuoteTotals([p]) == LegacyQuoteTotals(l.totalQty, l.costSubtotal, l.sellSubtotal, l.sellTotal, l.profit)
  {
    IntSumSingle(p, LegacyQty);
    SumSingle(p, LegacyCost);
    SumSingle(p, LegacySellSubtotal);
    SumSingle(p, LegacySell);
    SumSingle(p, LegacyProfit);
  }

  /**
   * The legacy totals of a concatenation are the sums of the parts' totals;
   * with `GetQuoteTotalsSingle`, the quote totals are the field-by-field sums
   * of the rounded line totals.
   */
  lemma GetQuoteTotalsAppend(a: seq<PriceInputs>, b: seq<PriceInputs>)
    ensures var ta := GetQuoteTotals(a);
            var tb := GetQuoteTotals(b);
            GetQuoteTotals(a + b) == LegacyQuoteTotals(
              ta.totalQty + tb.totalQty, ta.costSubtotal + tb.costSubtotal, ta.sellSubtotal + tb.sellSubtotal,
              ta.sellTotal + tb.sellTotal, ta.profit + tb.profit)
  {
    IntSumAppend(a, b, LegacyQty);
    SumAppend(a, b, LegacyCost);
    SumAppend(a, b, LegacySellSubtotal);
    SumAppend(a, b, LegacySell);
    SumAppend(a, b, LegacyProfit);
  }

  /** A sum of whole-cent values is a whole number of cents. */
  lemma {:induction false} SumWholeCents(items: seq<PriceInputs>, f: PriceInputs -> real)
    requires forall i :: 0 <= i < |items| ==> IsWholeCents(f(items[i]))
    ensures IsWholeCents(Sum(items, f))
  {
    if |items| == 0 {
      assert 100.0 * 0.0 == 0.0;
    } else {
      SumWholeCents(items[..|items| - 1], f);
      WholeCentsAdd(Sum(items[..|items| - 1], f), f(items[|items| - 1]));
    }
  }

  /**
   * Round-then-sum is not sum-then-round: two lines of half a cent each show
   * one cent apiece, so the legacy quote says two cents where rounding the
   * exact quote total gives one.
   */
  lemma QuoteRoundingDivergence()
    ensures var p := HalfCentLine();
            && GetQuoteTotals([p, p]).sellTotal == 0.02
            && Round2(QuoteTotalsAdjusted([p, p]).sellTotal) == 0.01
  {
    PairSellTotals(HalfCentLine());
    HalfCentLineTotals();
    assert Round2(0.01) == 0.01 by {
      assert (100.0 * 0.01 + 0.5).Floor == 1;
    }
  }

  /** The sell totals, legacy and adjusted, of a quote holding the same line twice. */
  lemma PairSellTotals(p: PriceInputs)
    ensures GetQuoteTotals([p, p]).sellTotal == LegacySell(p) + LegacySell(p)
    ensures QuoteTotalsAdjusted([p, p]).sellTotal == LineSell(p) + LineSell(p)
  {
    SumPair(p, p, LegacySell);
    SumPair(p, p, LineSell);
  }

  /** One shirt whose cost, and so whose sell price, is half a cent. */
  function HalfCentLine(): PriceInputs {
    PriceInputs([SizeEntry("M", 1)], map["M" := 0.005], DollarMarkup, 0.0, [])
  }

  lemma HalfCentLineTotals()
    ensures LegacySell(HalfCentLine()) == 0.01
    ensures LineSell(HalfCentLine()) == 0.005
  {
    var p := HalfCentLine();
    assert Filter(p.adjusters, IsPerItem) == [];
    assert Filter(p.adjusters, IsFlat) == [];
    assert p.sizeQty[..0] == [];
    assert LegacySellSum(p, p.sizeQty) == 0.005;
    assert SellSum(p, p.sizeQty) == 0.005;
    assert (100.0 * 0.005 + 0.5).Floor == 1;
  }

  lemma SumPair(a: PriceInputs, b: PriceInputs, f: PriceInputs -> real)
    ensures Sum([a, b], f) == f(a) + f(b)
  {
    assert [a, b][..1] == [a];
    assert [a][..0] == [];
    assert Sum([a], f) == f(a);
    assert Sum([a, b], f) == Sum([a], f) + f(b);
  }
}
