# Screen-print quote calculator — a Dafny model of its core

This project models the logic at the heart of the screen-print quote calculator:

- **Pricing engine.** It turns a line item into totals:
  - a line item is a garment with a size run, a cost table, a markup and adjusters;
  - the model covers the current adjusted engine, the legacy round-to-cents engine and the `round2` money helper.
- **Client quote store.** A repository of at most three quotes with their line items and responses.
- **Editors.** The adjuster editor and the size-run editor.
- **Share-token store and routes.** The server side of sending a quote to a customer:
  - a random hex token maps to a snapshot of the quote;
  - the customer can view a cost-free projection of it;
  - the customer can approve or reject it.
- **Catalog pages:**
  - the product grid's search, grouping of SKU rows into style cards, image choice and pagination;
  - the style grid's search and pagination;
  - the product page's colour list, size columns, warehouse rows and stock table with its totals.

Everything is modelled as pure functions over immutable values:

- money is `real`;
- quantities are `int`;
- strings are `seq<char>`;
- a JavaScript object used as a dictionary becomes either an association list (its key order matters) or a `map`.

The JavaScript coercions the source relies on are resolved when a value enters the model:

- a missing number becomes 0;
- a missing string becomes "";
- `|| default` becomes an explicit choice.

Modules follow the source files:

| module | models |
|---|---|
| `Money` | `client/src/utils/money.js` |
| `QuoteTypes` | the shared entities; the `sizeQty` object as an ordered dictionary |
| `QuotePricing` | `client/src/utils/quotePricing.js` |
| `QuoteMath` | `client/src/utils/quoteMath.js` (legacy engine) |
| `AdjustersEditor`, `SizeRunGrid` | the two editors |
| `QuoteStore` | `client/src/store/quoteStore.js` |
| `ShareTokenStore` | `server/src/shareTokenStore.js` |
| `QuoteShareRoutes` | `server/src/routes/quoteShareRoutes.js` |
| `Text`, `CatalogGrid` | the search and paging logic both grids share |
| `ProductGrid` | `client/src/components/ProductGrid.jsx` |
| `StyleGrid` | `client/src/components/StyleGrid.jsx` |
| `ProductPage` | the derived data of `client/src/pages/ProductPage.jsx` |
| `FirstSeen` | the "first element per key" `Map` loop the catalog pages repeat |
| `Seqs`, `Wrappers` | generic sequence facts and `Option` |

### Behaviour of the code worth knowing

- **Rounding.** `round2` (`client/src/utils/money.js:9-11`) is `Math.round`, so halves round towards +infinity, not away from zero.
- **Customer pricing table.** `getLineItemCustomerPricing` (`client/src/utils/quotePricing.js:109-125`) has a row for every size key, including sizes with quantity 0 or less, and those quantities count in its totals. The internal totals skip such sizes; `QuotePricing.NegativeQuantityDivergence` exhibits the difference.
- **Customer-safe projection.** `makeCustomerSafeQuote` (`server/src/routes/quoteShareRoutes.js:139`) copies each line item's `costBySize` table, so unit costs reach the customer (`QuoteShareRoutes.SafeQuoteExposesCost`).
- **Legacy engine.** `client/src/utils/quoteMath.js` rounds each line before summing and always adds the markup as dollars. `QuoteMath.PercentMarkupDivergence` and `QuoteMath.QuoteRoundingDivergence` show where it disagrees with the adjusted engine.
- **Quote status when sending.** The share route (`server/src/routes/quoteShareRoutes.js:21-23`) sets the quote's status to "pending" after minting the token. The store keeps the same object, so the stored snapshot is "pending".
- **The status rule.** Two actions take a `status` and a `responses` list from their patch independently, so either can break the "keep latest status" rule of `addResponse` (`client/src/store/quoteStore.js:121`):
  - `createQuote` (`client/src/store/quoteStore.js:54-71`);
  - `updateQuote`, through `{...q, ...patch}` (`client/src/store/quoteStore.js:101`); `QuoteStore.UpdateQuoteCanBreakStatusRule` shows it.

  `QuoteStore.AddResponseKeepsStatusInvariant` therefore assumes the rule already holds. `QuoteStore.RunKeepsStatusRule` keeps it over any run of actions in which a created quote meets the rule and no `updateQuote` patch sets `status` or `responses`.
- **The three-quote cap** is enforced only inside `createQuote` (`client/src/store/quoteStore.js:44-50`). A store loaded with more quotes keeps them; `QuoteStore.RunRespectsCap` starts from at most three.
- **Display image.** `client/src/components/ProductGrid.jsx:52-63` trims in the `find` test but picks the untrimmed path, so a front image of a single space is shown even when the SKU qualified through another image (`ProductGrid.BlankFrontImageIsShown`).

## Model

| member | source | states |
|---|---|---|
| Money.Round2 | client/src/utils/money.js:9-11 | the result is a whole number of cents within half a cent of the input (above by at most, below strictly), and 0 stays 0 |
| Money.Round2WholeCents | client/src/utils/money.js:9-11 | an amount already in whole cents is returned unchanged |
| Money.Round2Idempotent | client/src/utils/money.js:9-11 | rounding a rounded amount again changes nothing |
| QuoteMath.RoundedDifference | client/src/utils/money.js:9-11 | rounding a difference and taking the difference of the roundings differ by at most one cent |
| QuoteMath.LineItemTotals | client/src/utils/quoteMath.js:3-48 | for every input, negative quantities included: the quantity is the summed qty of every size; cost subtotal is the cost of every size rounded to cents; sell subtotal and sell total (with the flat adjusters) are the dollar-mode customer-table sums rounded to cents; profit is sell total minus cost rounded once; the per-item and flat adjuster fields are their totals rounded; every money field is in whole cents, and profit is within a cent of sell total minus cost subtotal |
| QuoteMath.LegacyIgnoresMarkupType | client/src/utils/quoteMath.js:3-48 | the legacy totals are the same for every markup type |
| QuoteMath.LegacySumsIgnoreMarkupType | client/src/utils/quoteMath.js:22-33 | the legacy cost and sell sums over any sizes do not depend on the markup type |
| QuoteMath.LegacySumsAreRawSums | client/src/utils/quoteMath.js:22-33 | over any quantities, negatives included, the legacy quantity is the summed qty, the legacy cost is the cost of every size, and the legacy sell sum is the dollar-mode customer-table row total |
| QuoteMath.LegacySumsMatch | client/src/utils/quoteMath.js:22-33 | for a dollar markup and no negative quantities the legacy per-size sums equal the adjusted engine's quantity, cost and sell sums |
| QuoteMath.LegacyMatchesAdjusted | client/src/utils/quoteMath.js:3-48 | for a dollar markup and no negative quantities each legacy field is the adjusted engine's field rounded to cents (quantity equal) |
| QuoteMath.PercentMarkupDivergence | client/src/utils/quoteMath.js:27-32 | a 50 % markup on a 10.00 shirt sells for 15.00 in the adjusted engine but 60.00 in the legacy one, which adds the percentage as dollars |
| QuoteMath.NegativeQuantityLegacyDivergence | client/src/utils/quoteMath.js:22-26 | a quantity of -1 lowers the legacy quantity to -1 while the adjusted engine skips it |
| QuoteMath.LegacyProfitOffByACent | client/src/utils/quoteMath.js:35-47 | rounding fields separately makes the legacy profit differ from sell total minus cost subtotal on a concrete line |
| QuoteMath.GetQuoteTotals | client/src/utils/quoteMath.js:50-71 | no line items give all-zero totals; every money total of a quote is in whole cents |
| QuoteMath.GetQuoteTotalsSingle | client/src/utils/quoteMath.js:50-71 | a one-line quote's totals are that line's rounded quantity, cost, sell subtotal, sell total and profit |
| QuoteMath.GetQuoteTotalsAppend | client/src/utils/quoteMath.js:50-71 | the totals of two line lists joined are the field-by-field sums of their totals |
| QuoteMath.SumWholeCents | client/src/utils/quoteMath.js:53-70 | adding up whole-cent line fields gives a whole-cent quote field |
| QuoteMath.QuoteRoundingDivergence | client/src/utils/quoteMath.js:50-71 | two half-cent lines total 0.02 in the legacy quote but 0.01 when the exact total is rounded once |
| QuotePricing.PerItemAdjusterTotal | client/src/utils/quotePricing.js:4-8 | the sum of the "perItem" amounts; its properties are stated by AdjusterTotalsPartition, AdjusterTotalsAppend, AdjusterTotalsReorder and SingleAdjusterTotals |
| QuotePricing.FlatAdjusterTotal | client/src/utils/quotePricing.js:10-14 | the sum of the "flat" amounts; its properties are stated by the same four lemmas |
| QuotePricing.AdjusterTotalsPartition | client/src/utils/quotePricing.js:4-14 | the per-item and flat totals together are the sum over exactly the adjusters of those two types; other types count nowhere |
| QuotePricing.AdjusterTotalsAppend | client/src/utils/quotePricing.js:4-14 | each adjuster total of a concatenation is the sum of the parts' totals |
| QuotePricing.AdjusterTotalsReorder | client/src/utils/quotePricing.js:4-14 | reordering the adjusters changes neither total |
| QuotePricing.SingleAdjusterTotals | client/src/utils/quotePricing.js:4-14 | one adjuster contributes its amount to the total of its own type and nothing to the other |
| QuotePricing.UnitSellPrice | client/src/utils/quotePricing.js:17-30 | under the "dollar" markup the sell price exceeds cost plus per-item adjusters by exactly the markup |
| QuotePricing.UnitSellPriceMarkup | client/src/utils/quotePricing.js:17-30 | per-item adjusters shift the price one-for-one in every mode; any mode other than "dollar" adds markup percent of the cost |
| QuotePricing.QtySumNonNegative | client/src/utils/quotePricing.js:46-58 | the counted quantity is never negative |
| QuotePricing.ProfitIsSellMinusCost | client/src/utils/quotePricing.js:58-61 | the per-size profit sum equals the sell sum minus the cost sum |
| QuotePricing.SizeSumsSkipUncounted | client/src/utils/quotePricing.js:46-48 | dropping the sizes with quantity 0 or less leaves every per-size sum unchanged |
| QuotePricing.LineItemTotalsAdjusted | client/src/utils/quotePricing.js:33-79 | profit is sell total minus cost total; quantity is non-negative; the average unit price times the quantity is the sell total, and 0 when nothing is counted |
| QuotePricing.ComputeLineItemTotals | client/src/utils/quotePricing.js:33-79 | the source's single loop over the size keys computes exactly the totals of the per-size sums definition |
| QuotePricing.NonPositiveSizesIgnored | client/src/utils/quotePricing.js:46-48 | removing every size with quantity 0 or less gives identical line totals |
| QuotePricing.FlatAdjusterAddedOnce | client/src/utils/quotePricing.js:64-66 | appending a flat adjuster raises sell total and profit by its amount once, whatever the quantities, and leaves quantity and cost alone |
| QuotePricing.QuoteTotalsAdjusted | client/src/utils/quotePricing.js:82-95 | the quote quantity is non-negative and quote profit is quote sell total minus the summed line costs |
| QuotePricing.QuoteTotalsAppend | client/src/utils/quotePricing.js:82-95 | no line items give zeros, and the totals of two lists joined are the sums of their totals |
| QuotePricing.QuoteTotalsSingle | client/src/utils/quotePricing.js:82-95 | a one-line quote's totals are that line's quantity, sell total and profit |
| QuotePricing.CustomerRows | client/src/utils/quotePricing.js:109-125 | one row per size key, in key order, whose totals and quantities add up to the raw per-size sums |
| QuotePricing.LineItemCustomerPricing | client/src/utils/quotePricing.js:98-131 | one row per size key; line total is the sum of row totals plus the flat adjusters; total quantity is the sum of row quantities |
| QuotePricing.CustomerSumsMatch | client/src/utils/quotePricing.js:109-125 | without negative quantities the customer table's sums equal the internal per-size sums |
| QuotePricing.CustomerPricingMatchesInternal | client/src/utils/quotePricing.js:98-131 | without negative quantities the customer line total and quantity equal the internal sell total and quantity |
| QuotePricing.NegativeQuantityDivergence | client/src/utils/quotePricing.js:109-125 | a quantity of -1 makes the customer line total -1.00 while the internal sell total stays 0 |
| QuotePricing.QuoteCustomerTotals | client/src/utils/quotePricing.js:134-145 | no line items give zero customer totals |
| QuotePricing.QuoteCustomerTotalsSingle | client/src/utils/quotePricing.js:134-145 | a one-line quote's customer totals are that line's table quantity and line total |
| QuotePricing.QuoteCustomerTotalsAppend | client/src/utils/quotePricing.js:134-145 | the customer totals of two line lists joined are the sums of their totals |
| QuotePricing.QuoteCustomerTotalsMatchInternal | client/src/utils/quotePricing.js:134-145 | without negative quantities the customer quote totals equal the internal quote totals |
| QuoteTypes.Keys | client/src/utils/quotePricing.js:46 | the size keys in enumeration order, one per entry |
| QuoteTypes.Lookup | client/src/utils/quotePricing.js:47 | a size is found exactly when it is a key, and then with that entry's quantity |
| QuoteTypes.Put | client/src/components/SizeRunGrid.jsx:8 | setting a size keeps keys distinct, keeps the key order (a new key goes last), reads back the new quantity and leaves every other size's quantity alone |
| QuoteTypes.Remove | client/src/components/SizeRunGrid.jsx:11-13 | deleting a size makes it absent; the remaining keys are the old keys without it, in their old order; every other size's quantity is left alone and keys stay distinct |
| SizeRunGrid.SizeMap | client/src/components/SizeRunGrid.jsx:5 | a missing value is the empty size run |
| SizeRunGrid.SetSize | client/src/components/SizeRunGrid.jsx:7-16 | an empty or zero input removes the size, leaving the other keys in their order; any other input sets it, in place when the size exists and as the last key when it is new; other sizes' quantities are untouched and keys stay distinct |
| SizeRunGrid.SetSizeKeepsNoZeros | client/src/components/SizeRunGrid.jsx:7-16 | a size run without zero quantities keeps that property after any edit |
| AdjustersEditor.AdjusterList | client/src/components/AdjustersEditor.jsx:8 | a missing list is empty, a present one is used as is |
| AdjustersEditor.AddAdjuster | client/src/components/AdjustersEditor.jsx:10-21 | the list grows by one at the end, by an adjuster with id "adj_" followed by the uid, an empty name, the per-item type and amount 0 |
| AdjustersEditor.AddAdjusterKeepsTotals | client/src/components/AdjustersEditor.jsx:10-21 | adding the blank adjuster changes neither adjuster total, so no price moves |
| AdjustersEditor.RemoveAdjuster | client/src/components/AdjustersEditor.jsx:23-25 | the result keeps, in order, exactly the adjusters with a different id, each as many times as before |
| AdjustersEditor.RemoveUndoesAdd | client/src/components/AdjustersEditor.jsx:10-25 | removing an adjuster just added under a fresh id restores the list |
| AdjustersEditor.PatchAdjuster | client/src/components/AdjustersEditor.jsx:27-29 | same length; adjusters with another id are unchanged and those with the id are patched |
| AdjustersEditor.PatchAmountShiftsTotal | client/src/components/AdjustersEditor.jsx:27-29 | changing an adjuster's amount shifts its type's total by exactly the change |
| QuoteStore.NewCustomer | client/src/store/quoteStore.js:60-66 | each field the customer patch carries is taken from it and every other field is ""; no patch gives an all-blank customer |
| QuoteStore.NewQuote | client/src/store/quoteStore.js:52-71 | the new quote gets the id, `createdAt` and `updatedAt` from two separate clock readings, no line items, the customer built from the patch, a token exactly when the patch has a non-empty one, and each other patched field or its default ("Untitled Quote", "draft") |
| QuoteStore.NewQuoteDefaults | client/src/store/quoteStore.js:54-71 | an empty patch gives an untitled draft with no customer data, token or responses, which satisfies the status rule |
| QuoteStore.CreateQuote | client/src/store/quoteStore.js:41-80 | at three or more quotes nothing changes and no id is returned; otherwise the new quote goes first, becomes active and its id is returned |
| QuoteStore.DeleteQuote | client/src/store/quoteStore.js:82-92 | keeps, in order, exactly the quotes with another id, each as many times as before, and clears the active id only if it was the deleted one |
| QuoteStore.DeleteUndoesCreate | client/src/store/quoteStore.js:41-92 | deleting a quote just created under a fresh id restores the quotes, with no active quote |
| QuoteStore.SetActiveQuote | client/src/store/quoteStore.js:94 | only the active id changes |
| QuoteStore.EmptyPatchOnlyTouchesTime | client/src/store/quoteStore.js:97-107 | an empty patch changes nothing but the update time |
| QuoteStore.PatchQuoteIdempotent | client/src/store/quoteStore.js:97-107 | applying the same patch twice is applying it once at the later time |
| QuoteStore.PatchQuote | client/src/store/quoteStore.js:101 | every field the patch carries replaces the quote's field, every other field is kept, and the update time is the new time |
| QuoteStore.UpdateQuote | client/src/store/quoteStore.js:97-107 | quotes with another id are unchanged; each quote with the id becomes that quote patched at the new time |
| QuoteStore.AddResponse | client/src/store/quoteStore.js:110-129 | the response, dated by one clock reading, is appended to each quote with the id, which takes its status and a second clock reading as `updatedAt` and changes in nothing else; others are unchanged; an unknown id changes nothing |
| QuoteStore.AddResponseKeepsStatusInvariant | client/src/store/quoteStore.js:110-129 | if every quote's status is its latest response's status (or "draft" with none), that remains so |
| QuoteStore.AddLineItemToQuote | client/src/store/quoteStore.js:132-150 | the line item is appended under the returned "line_" id to each quote with the id, which changes in nothing but its line items and update time; others are unchanged |
| QuoteStore.WithoutLine | client/src/store/quoteStore.js:159 | keeps, in order, exactly the line items with another id, each as many times as before |
| QuoteStore.RemoveLineItem | client/src/store/quoteStore.js:152-166 | only quotes with the id change, losing exactly the line items with the line id and taking the new time, and nothing else |
| QuoteStore.RemoveUndoesAdd | client/src/store/quoteStore.js:132-166 | removing a line item just added under a fresh id restores the list |
| QuoteStore.PatchLineItem | client/src/store/quoteStore.js:177 | every field the patch carries replaces the line item's field and every other field is kept |
| QuoteStore.PatchLines | client/src/store/quoteStore.js:176-178 | line items with the id are patched, the others unchanged |
| QuoteStore.UpdateLineItem | client/src/store/quoteStore.js:168-185 | only quotes with the id change: each becomes the old quote with exactly the line items of the line id patched and the new update time |
| QuoteStore.StepRespectsCap | client/src/store/quoteStore.js:44-50 | no store action takes a store below the cap of three above it, or grows a store already at or over it |
| QuoteStore.RunRespectsCap | client/src/store/quoteStore.js:41-186 | from at most three quotes, no sequence of store actions ever holds more than three |
| QuoteStore.StepKeepsStatusRule | client/src/store/quoteStore.js:41-186 | from a store where every quote's status is its latest response's status (or "draft" with none), every action keeps that, provided a created quote meets the rule and an `updateQuote` patch sets neither `status` nor `responses` |
| QuoteStore.RunKeepsStatusRule | client/src/store/quoteStore.js:41-186 | under the same two conditions on each action, every sequence of store actions keeps the status rule |
| QuoteStore.UpdateQuoteCanBreakStatusRule | client/src/store/quoteStore.js:97-107 | an `updateQuote` patch setting a status other than "draft" on a quote without responses breaks the status rule |
| ShareTokenStore.HexEncode | server/src/shareTokenStore.js:7 | two lower-case hex characters per random byte |
| ShareTokenStore.HexRoundTrip | server/src/shareTokenStore.js:7 | the token decodes back to the random bytes it was made from |
| ShareTokenStore.HexEncodeInjective | server/src/shareTokenStore.js:7 | different random bytes give different tokens |
| ShareTokenStore.CreateShareToken | server/src/shareTokenStore.js:6-16 | the token is 64 hex characters and maps to the quote with no response; other tokens are untouched; a fresh token adds exactly one key |
| ShareTokenStore.GetShareToken | server/src/shareTokenStore.js:18-20 | an entry is returned exactly for a known token |
| ShareTokenStore.SetResponse | server/src/shareTokenStore.js:22-33 | an unknown token gives null and no change; a known one gets the response with notes defaulted to "" and the time, and nothing else changes |
| ShareTokenStore.LastResponseWins | server/src/shareTokenStore.js:22-33 | a second response replaces the first: the store is as if only the second had been given |
| ShareTokenStore.ResponseKeepsQuote | server/src/shareTokenStore.js:22-33 | recording a response never alters the token's quote or creation time |
| ShareTokenStore.MintedTokenIsFound | server/src/shareTokenStore.js:6-20 | a just-minted token is found with its quote and no response |
| ShareTokenStore.TokensOnlyGrow | server/src/shareTokenStore.js:3-33 | no sequence of store calls ever forgets a token |
| QuoteShareRoutes.MakeCustomerSafeQuote | server/src/routes/quoteShareRoutes.js:117-142 | id and name are kept; notes and each customer field are the quote's value or ""; each line item keeps its id, title, brand, style number, colour, image and every pricing input |
| QuoteShareRoutes.SafeQuotePricing | server/src/routes/quoteShareRoutes.js:128-140 | each projected line item gets exactly the customer pricing of the line item it came from |
| QuoteShareRoutes.SafeQuoteExposesCost | server/src/routes/quoteShareRoutes.js:139 | each unit cost of the quote appears in the projection |
| QuoteShareRoutes.SafeQuoteIdempotent | server/src/routes/quoteShareRoutes.js:117-142 | projecting an already projected quote changes nothing |
| QuoteShareRoutes.ShareLink | server/src/routes/quoteShareRoutes.js:26-27 | the link ends with the token |
| QuoteShareRoutes.Send | server/src/routes/quoteShareRoutes.js:11-77 | a missing quote, missing email or id mismatch gives 400 with no store change or email; otherwise a token is minted for the quote marked "pending", the email carries the link, and the reply is 200 or 500 on email failure |
| QuoteShareRoutes.View | server/src/routes/quoteShareRoutes.js:83-94 | an unknown token gives 404, a known one the safe projection and the stored response |
| QuoteShareRoutes.Respond | server/src/routes/quoteShareRoutes.js:100-112 | an unknown token gives 404 and a status other than approved or rejected gives 400, neither storing anything; otherwise the response is stored and returned |
| QuoteShareRoutes.ViewAfterRespond | server/src/routes/quoteShareRoutes.js:83-112 | after a response the view shows it next to the unchanged quote |
| QuoteShareRoutes.SecondResponseWins | server/src/routes/quoteShareRoutes.js:100-112 | a customer responding twice is left with the second decision |
| QuoteShareRoutes.SentQuoteIsViewable | server/src/routes/quoteShareRoutes.js:11-94 | the token of a valid send can be viewed, with no response yet, even if the email failed |
| Text.Trim | client/src/components/ProductGrid.jsx:11 | the result is a slice of the input with only whitespace cut from either end, has no whitespace at either end, and is empty exactly when the input is all whitespace |
| Text.ToLower | client/src/components/ProductGrid.jsx:11 | lower-cases character by character, keeping the length |
| Text.LowerIdempotent | client/src/components/ProductGrid.jsx:11 | lower-casing twice is lower-casing once |
| Text.TrimLower | client/src/components/ProductGrid.jsx:11 | trimming and lower-casing commute |
| CatalogGrid.Query | client/src/components/ProductGrid.jsx:11-12 | the query is empty exactly when the filter is all whitespace |
| CatalogGrid.QueryIgnoresCase | client/src/components/ProductGrid.jsx:11 | an upper- or lower-case filter gives the same query |
| CatalogGrid.Search | client/src/components/ProductGrid.jsx:10-28 | a blank filter keeps all rows; otherwise exactly the rows whose joined fields contain the query, in order and each as many times as before |
| CatalogGrid.TotalPages | client/src/components/ProductGrid.jsx:83 | at least one page, and the fewest pages of 21 that hold every row |
| CatalogGrid.SliceIndex | client/src/components/ProductGrid.jsx:93 | a slice bound is clamped into the sequence |
| CatalogGrid.PageItems | client/src/components/ProductGrid.jsx:91-94 | at most 21 rows, and for page p ≥ 1 exactly rows 21(p-1) up to 21p that exist |
| CatalogGrid.FirstPagesArePrefix | client/src/components/ProductGrid.jsx:91-94 | the first k pages together are the first 21k rows |
| CatalogGrid.PagesCoverRows | client/src/components/ProductGrid.jsx:83-94 | all pages together show every row once, in order |
| CatalogGrid.ClampPage | client/src/components/ProductGrid.jsx:85-88 | a page past the end moves to the last page; others stay |
| CatalogGrid.ClampedPageNotEmpty | client/src/components/ProductGrid.jsx:83-94 | with some rows, a clamped page never shows an empty page |
| CatalogGrid.Candidates | client/src/components/ProductGrid.jsx:98-114 | the candidate page numbers; which pages they hold is stated by CandidatesInclude |
| CatalogGrid.CandidatesInclude | client/src/components/ProductGrid.jsx:98-114 | the candidates hold the first and last page, the current page and its neighbours, 2-4 near the start and the last four near the end |
| CatalogGrid.InRangeAscending | client/src/components/ProductGrid.jsx:116-118 | the candidates within 1..total, strictly ascending |
| CatalogGrid.AscendingIsUnique | client/src/components/ProductGrid.jsx:116-118 | two strictly ascending sequences with the same members are equal |
| CatalogGrid.WithEllipses | client/src/components/ProductGrid.jsx:120-126 | the strip with "…" between gaps; stated by WithEllipsesNumbers and WithEllipsesSeparated |
| CatalogGrid.Step | client/src/components/ProductGrid.jsx:124-125 | each page number is emitted alone or after one "…" |
| CatalogGrid.WithEllipsesNumbers | client/src/components/ProductGrid.jsx:120-126 | dropping the "…" entries gives back the sorted page numbers |
| CatalogGrid.WithEllipsesSeparated | client/src/components/ProductGrid.jsx:120-126 | a "…" sits exactly between two page numbers more than one apart |
| ProductGrid.FilterSkus | client/src/components/ProductGrid.jsx:10-28 | a blank filter keeps all SKUs; otherwise exactly the SKUs whose brand, style name, style ID, SKU or colour contains the query, in order and each as many times as before |
| ProductGrid.GroupIndex | client/src/components/ProductGrid.jsx:38 | finds the group with a style ID, or reports that none has it |
| ProductGrid.GroupSkus | client/src/components/ProductGrid.jsx:31-48 | the grouping loop; what it computes is stated by GroupSkusSpec and GroupsPartitionRows |
| ProductGrid.GroupSkusSpec | client/src/components/ProductGrid.jsx:31-48 | one group per distinct style ID in first-seen order, named after its first row, holding exactly that style's rows |
| ProductGrid.GroupJoin | client/src/components/ProductGrid.jsx:38-47 | a row whose style already has a group is appended to that group only |
| ProductGrid.GroupOpen | client/src/components/ProductGrid.jsx:38-47 | a row with a new style ID opens a new last group holding just that row |
| ProductGrid.GroupsPartitionRows | client/src/components/ProductGrid.jsx:31-48 | style IDs of groups are non-empty and distinct; each row is in exactly its own style's group; rows without a style ID are in none |
| ProductGrid.FirstWithImage | client/src/components/ProductGrid.jsx:52-57 | the first SKU with a non-blank front, swatch or back image, or none |
| ProductGrid.DisplayImage | client/src/components/ProductGrid.jsx:52-63 | empty exactly when no SKU has an image; otherwise, of the first SKU with a non-blank image, the front image if non-empty, else the swatch if non-empty, else the back |
| ProductGrid.BlankFrontImageIsShown | client/src/components/ProductGrid.jsx:52-63 | a single-space front image is chosen over a real swatch |
| ProductGrid.CardOfGroup | client/src/components/ProductGrid.jsx:31-69 | the k-th group of the loop becomes the card of the k-th distinct style ID |
| ProductGrid.StyleCards | client/src/components/ProductGrid.jsx:31-69 | one card per distinct non-empty style ID of the rows, in first-seen order; card k carries the names of its style's first row, exactly that style's rows in order, and their display image |
| ProductGrid.StyleGroups | client/src/components/ProductGrid.jsx:10-69 | the cards of the searched SKUs: StyleCards applied to FilterSkus, each stated by its own contract |
| ProductGrid.CardPages | client/src/components/ProductGrid.jsx:83-94 | for any rows, cards, not SKUs, are paged: the pages show every card once, and a clamped page is not empty |
| ProductGrid.GetPaginationPages | client/src/components/ProductGrid.jsx:97-128 | the loop-based strip equals the style grid's strip for every current page and total |
| ProductGrid.InsertEllipses | client/src/components/ProductGrid.jsx:120-127 | the loop inserting "…" computes the ellipsis strip of its input |
| StyleGrid.FilterStyles | client/src/components/StyleGrid.jsx:11-28 | a blank filter keeps all styles; otherwise exactly the styles whose brand, name, style ID, part number or category contains the query, in order and each as many times as before |
| StyleGrid.SearchIgnoresCase | client/src/components/StyleGrid.jsx:12 | the filter's letter case does not change the styles shown |
| StyleGrid.GetPaginationPages | client/src/components/StyleGrid.jsx:44-56 | page numbers ascend strictly and are exactly the candidates in 1..total; "…" marks every gap; first, last, current ± 1 and the end runs are shown |
| StyleGrid.MiddlePageStrip | client/src/components/StyleGrid.jsx:44-56 | away from both ends the strip is 1 … c-1 c c+1 … total |
| FirstSeen.FirstKeyIndex | client/src/pages/ProductPage.jsx:69 | the position of the first element with a key, or none when no element has it |
| FirstSeen.FirstWhere | client/src/components/ProductGrid.jsx:52-57 | the position of the first element satisfying the test, or none |
| FirstSeen.FirstByKeyOrder | client/src/pages/ProductPage.jsx:58-79 | the keys kept by the Map loop are the distinct non-empty keys in first-seen order |
| FirstSeen.FirstByKeyKeepsFirst | client/src/pages/ProductPage.jsx:69-75 | the element kept under each key is the first element with that key |
| FirstSeen.FirstByKeyInOrder | client/src/pages/ProductPage.jsx:78 | kept elements are ordered by their keys' first occurrences |
| FirstSeen.FirstByKeyKeys | client/src/pages/ProductPage.jsx:58-79 | kept keys are distinct and non-empty, and every non-empty key of the input is kept |
| ProductPage.Colors | client/src/pages/ProductPage.jsx:58-79 | the colour list; stated by ColorsSpec |
| ProductPage.ColorsSpec | client/src/pages/ProductPage.jsx:58-79 | one colour per distinct non-empty colour code in first-seen order, with the name and swatch of that colour's first SKU |
| ProductPage.SkusForColor | client/src/pages/ProductPage.jsx:81-83 | exactly the SKUs of the selected colour, in order and each as many times as before |
| ProductPage.SelectedSku | client/src/pages/ProductPage.jsx:90-92 | none exactly when no SKU has the colour; otherwise the first SKU of that colour |
| ProductPage.SizeColumns | client/src/pages/ProductPage.jsx:95-104 | the size columns; stated by SizeColumnsMembers and SizeColumnsInOrder |
| ProductPage.SizeColumnsMembers | client/src/pages/ProductPage.jsx:95-104 | a size is a column exactly when it is non-empty and some SKU has it |
| ProductPage.SizeColumnsInOrder | client/src/pages/ProductPage.jsx:95-104 | columns are distinct and ordered by each size's first SKU |
| ProductPage.Insert | client/src/pages/ProductPage.jsx:126-128 | inserting a row into sorted rows gives sorted rows with the same rows plus it |
| ProductPage.SortByAbbr | client/src/pages/ProductPage.jsx:126-128 | the sort is a permutation of its input, sorted by warehouse abbreviation |
| ProductPage.SortKeepsDistinct | client/src/pages/ProductPage.jsx:126-128 | sorting keeps abbreviations distinct |
| ProductPage.WarehouseRows | client/src/pages/ProductPage.jsx:107-129 | the sorted warehouse rows; stated by WarehouseRowFrom, WarehouseRowFor, WarehouseRowsSorted, WarehouseRowsCover and WarehouseRowKeepsFirst |
| ProductPage.WarehouseRowFrom | client/src/pages/ProductPage.jsx:107-129 | every warehouse row comes from a first entry for some warehouse |
| ProductPage.WarehouseRowFor | client/src/pages/ProductPage.jsx:107-129 | every first entry for a warehouse has a row |
| ProductPage.WarehouseRowsSorted | client/src/pages/ProductPage.jsx:126-128 | rows ascend strictly by abbreviation, so no warehouse has two rows |
| ProductPage.WarehouseRowsCover | client/src/pages/ProductPage.jsx:107-129 | an abbreviation has a row exactly when it is non-empty and some SKU's warehouse list has it |
| ProductPage.WarehouseRowKeepsFirst | client/src/pages/ProductPage.jsx:117-122 | each row's dropship flag is that of the first entry for its warehouse |
| ProductPage.FillCell | client/src/pages/ProductPage.jsx:142-155 | after the fill a cell holds the last quantity written to it, or its earlier value; existing cells stay |
| ProductPage.StockTable | client/src/pages/ProductPage.jsx:132-158 | the stock table; stated by StockTableCells and LaterWriteWins |
| ProductPage.StockTableCells | client/src/pages/ProductPage.jsx:132-158 | every row × column cell exists and holds the last warehouse quantity written for it, or 0 |
| ProductPage.LaterWriteWins | client/src/pages/ProductPage.jsx:153 | a later entry for the same warehouse and size overwrites an earlier one |
| ProductPage.RowTotals | client/src/pages/ProductPage.jsx:186-201 | each row's cells summed over the size columns; related to the grand total by GrandTotalIsSumOfRowTotals |
| ProductPage.ColTotals | client/src/pages/ProductPage.jsx:203-218 | each column's cells summed over the warehouse rows; related by GrandTotalIsSumOfRowTotals |
| ProductPage.GrandTotal | client/src/pages/ProductPage.jsx:220-224 | the column totals summed; GrandTotalIsSumOfRowTotals states it equals the sum of the row totals |
| ProductPage.GrandTotalIsSumOfRowTotals | client/src/pages/ProductPage.jsx:186-224 | the grand total, summed over column totals, equals the sum of the row totals |

## Left out

- Persistence to `localStorage`, the `alert` when the quote cap is reached, React state, effects, scrolling and all rendering: these are I/O and UI, not logic.
- `uid()`, `Date.now()`, `new Date()` and `crypto.randomBytes` have no deterministic model. They become parameters: `uid`, `now` and `randomBytes`. Where one action reads the clock twice, the model takes two readings, which need not be equal:
  - `createQuote` takes `created` and `updated`;
  - `addResponse` takes `date` and `now`.
  - `CreateShareToken` does not assume the token is fresh, because the source overwrites on a collision. The freshness facts are stated under a `token !in tokens` condition.
- Delivering the email and building its HTML body are not modelled.
  - `Send` takes the delivery result as the `delivered` flag.
  - The email is modelled as recipient, subject and link.
  - The origin is a parameter, standing for `CLIENT_ORIGIN` or the request host.
- `toMoney` (locale currency formatting) is display only.
- `round2`'s `Number.EPSILON` nudge is left out. `Round2` rounds the exact value. With floating point left out, the nudge has no exact counterpart.
- Floating-point arithmetic: money is exact `real`, so the model says nothing about binary rounding errors in sums.
- JavaScript coercions of malformed input (`Number("abc")`, numeric strings, non-array adjusters, numeric `styleID`s, `NaN`) are left out. Fields arrive already typed.
  - `SizeRunGrid.SetSize` takes the input as either an empty entry or an integer.
- `Text.ToLower`: lower-cases ASCII letters only, because full Unicode case mapping is not modelled.
- `ProductPage.SortByAbbr`: orders by character code (the `StringLe` order), not by the locale-aware `localeCompare`, which depends on the runtime's collation tables.
- `priceBySize` on the product page, image URL building and the product page's selection state are not part of this model.
- `ShareTokenStore.HexDecode` is not in the source. It exists only to state that the hex encoding loses no information.
- The catalog and supplier routes, the PDF export and the remaining pages are outside the core.
- `QuoteTypes.Put`: keys keep insertion order (a new key goes last). JavaScript enumerates integer-like keys such as "6" or "10" first, in ascending numeric order, whenever `Object.keys` or `Object.entries` walks `sizeQty` (`client/src/utils/quotePricing.js:46`, `client/src/utils/quotePricing.js:109`, `client/src/utils/quoteMath.js:22`). Sizes are names like "S" or "2XL", so the model does not reorder numeric keys.
- `ProductPage.SkusForColor`: a SKU without a `colorCode` is modelled with the code "". The source's `p?.raw?.colorCode === selectedColorCode` (`client/src/pages/ProductPage.jsx:82`) never matches `undefined`, so for the selection "" the model would list such SKUs while the source lists none.
- `QuoteMath.GetQuoteTotals`: its own contract states the empty case and whole cents only. That it sums the rounded line fields is stated by `GetQuoteTotalsSingle` together with `GetQuoteTotalsAppend`.
- `QuotePricing.QuoteTotalsAdjusted`: its own contract states the sign of the quantity and the profit identity only. That it sums the line totals is stated by `QuoteTotalsSingle` together with `QuoteTotalsAppend`.
- `QuotePricing.QuoteCustomerTotals`: its own contract states the empty case only. That it sums the line tables is stated by `QuoteCustomerTotalsSingle` together with `QuoteCustomerTotalsAppend`.
