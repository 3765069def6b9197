/**
 * The operator's quote repository as a pure state value. Every action is a
 * function from the state (and its arguments) to the next state. `uid()` and
 * `Date.now()` become parameters; persistence to local storage and the
 * `alert` on the cap are left out.
 */
module QuoteStore {
  import opened Wrappers
  import opened Seqs
  import opened QuoteTypes

  const MaxQuotes: nat := 3
  const UntitledQuote: string := "Untitled Quote"

  datatype StoreState = StoreState(quotes: seq<Quote>, activeQuoteId: Option<string>)

  // ---------------------------------------------------------------------------
  // createQuote
  // ---------------------------------------------------------------------------

  /** The spread `...(patch.customer || {})`: fields present in the patch override. */
  datatype CustomerPatch = CustomerPatch(
    name: Option<string>,
    company: Option<string>,
    email: Option<string>,
    phone: Option<string>)

  /** The fields `createQuote` reads from its patch; "" and `None` are both falsy. */
  datatype NewQuotePatch = NewQuotePatch(
    name: string,
    status: string,
    customer: Option<CustomerPatch>,
    notes: string,
    shareToken: string,
    responses: Option<seq<Response>>)

  const EmptyNewQuotePatch: NewQuotePatch := NewQuotePatch("", "", None, "", "", None)

  /** A spread field: the patch's value when it carries one, otherwise the old value. */
  predicate Merged<T(==)>(merged: T, patched: Option<T>, prior: T) {
    if patched.Some? then merged == patched.value else merged == prior
  }

  /** `patch.x || fallback` for a string field. */
  function OrElse(s: string, fallback: string): string {
    if s != "" then s else fallback
  }

  /**
   * `{name: "", email: "", company: "", phone: "", ...(patch.customer || {})}`:
   * each field the patch carries overrides the blank default.
   */
  function NewCustomer(patch: Option<CustomerPatch>): (c: Customer)
    ensures patch.None? ==> c == EmptyCustomer
    ensures patch.Some? ==>
              && Merged(c.name, patch.value.name, "")
              && Merged(c.company, patch.value.company, "")
              && Merged(c.email, patch.value.email, "")
              && Merged(c.phone, patch.value.phone, "")
  {
    match patch
    case None => EmptyCustomer
    case Some(p) => Customer(p.name.GetOr(""), p.company.GetOr(""), p.email.GetOr(""), p.phone.GetOr(""))
  }

  /**
   * The quote `createQuote` builds. `createdAt` and `updatedAt` come from two
   * separate clock readings, which need not be equal.
   */
  function NewQuote(id: string, patch: NewQuotePatch, created: int, updated: int): (q: Quote)
    ensures q.id == id && q.createdAt == created && q.updatedAt == updated
    ensures q.lineItems == []
    ensures q.name == (if patch.name == "" then UntitledQuote else patch.name)
    ensures q.status == (if patch.status == "" then Draft else patch.status)
    ensures q.notes == patch.notes
    ensures q.responses == patch.responses.GetOr([])
    ensures q.customer == NewCustomer(patch.customer)
    ensures q.shareToken == (if patch.shareToken == "" then None else Some(patch.shareToken))
  {
    Quote(id, OrElse(patch.name, UntitledQuote), created, updated, OrElse(patch.status, Draft),
          NewCustomer(patch.customer), OrElse(patch.notes, ""), [],
          if patch.shareToken == "" then None else Some(patch.shareToken),
          patch.responses.GetOr([]))
  }

  datatype Created = Created(state: StoreState, id: Option<string>)

  /**
   * `createQuote`: refused (null, state unchanged) once there are 3 quotes;
   * otherwise the new quote goes first, the others keep their order, and it
   * becomes the active quote.
   */
  function CreateQuote(s: StoreState, patch: NewQuotePatch, uid: string, created: int, updated: int): (c: Created)
    ensures |s.quotes| >= MaxQuotes ==> c == Created(s, None)
    ensures |s.quotes| < MaxQuotes ==>
              && c.id == Some("quote_" + uid)
              && c.state.activeQuoteId == c.id
              && |c.state.quotes| == |s.quotes| + 1
              && c.state.quotes[0] == NewQuote("quote_" + uid, patch, created, updated)
              && c.state.quotes[1..] == s.quotes
  {
    if |s.quotes| >= MaxQuotes then Created(s, None)
    else
      var id := "quote_" + uid;
      Created(StoreState([NewQuote(id, patch, created, updated)] + s.quotes, Some(id)), Some(id))
  }

  /** A quote created from an empty patch is an untitled draft with no history. */
  lemma NewQuoteDefaults(id: string, created: int, updated: int)
    ensures var q := NewQuote(id, EmptyNewQuotePatch, created, updated);
            && q.name == UntitledQuote
            && q.status == Draft
            && q.customer == EmptyCustomer
            && q.notes == ""
            && q.lineItems == []
            && q.shareToken == None
            && q.responses == []
            && StatusMatchesResponses(q)
  {
  }

  // ---------------------------------------------------------------------------
  // deleteQuote / setActiveQuote
  // ---------------------------------------------------------------------------

  /**
   * `deleteQuote`: drop every quote with that id, keep the rest in order; the
   * active quote is cleared only if it was the deleted one.
   */
  function DeleteQuote(s: StoreState, id: string): (r: StoreState)
    ensures IsSubsequence(r.quotes, s.quotes)
    ensures forall q :: q in r.quotes <==> q in s.quotes && q.id != id
    ensures forall q :: multiset(r.quotes)[q] == if q.id != id then multiset(s.quotes)[q] else 0
    ensures r.activeQuoteId == (if s.activeQuoteId == Some(id) then None else s.activeQuoteId)
  {
    FilterMembers(s.quotes, (q: Quote) => q.id != id);
    FilterCounts(s.quotes, (q: Quote) => q.id != id);
    StoreState(Filter(s.quotes, (q: Quote) => q.id != id),
               if s.activeQuoteId == Some(id) then None else s.activeQuoteId)
  }

  /** Deleting a quote that was just created (under an id no other quote has) undoes it. */
  lemma DeleteUndoesCreate(s: StoreState, patch: NewQuotePatch, uid: string, created: int, updated: int)
    requires |s.quotes| < MaxQuotes
    requires forall i :: 0 <= i < |s.quotes| ==> s.quotes[i].id != "quote_" + uid
    ensures DeleteQuote(CreateQuote(s, patch, uid, created, updated).state, "quote_" + uid)
         == StoreState(s.quotes, None)
  {
    var id := "quote_" + uid;
    var p := (q: Quote) => q.id != id;
    var q := NewQuote(id, patch, created, updated);
    FilterAppend([q], s.quotes, p);
    FilterKeepsAll(s.quotes, p);
    assert Filter([q], p) == [] by { assert [q][..0] == []; }
    assert [q] + s.quotes == CreateQuote(s, patch, uid, created, updated).state.quotes;
  }

  function SetActiveQuote(s: StoreState, id: Option<string>): (r: StoreState)
    ensures r.quotes == s.quotes && r.activeQuoteId == id
  {
    s.(activeQuoteId := id)
  }

  // ---------------------------------------------------------------------------
  // updateQuote / addResponse
  // ---------------------------------------------------------------------------

  /** `{...q, ...patch, updatedAt: now()}`: present patch fields win, the time is always bumped. */
  datatype QuotePatch = QuotePatch(
    id: Option<string>,
    name: Option<string>,
    createdAt: Option<int>,
    status: Option<string>,
    customer: Option<Customer>,
    notes: Option<string>,
    lineItems: Option<seq<LineItem>>,
    shareToken: Option<Option<string>>,
    responses: Option<seq<Response>>)

  const EmptyQuotePatch: QuotePatch := QuotePatch(None, None, None, None, None, None, None, None, None)

  function PatchQuote(q: Quote, patch: QuotePatch, now: int): (r: Quote)
    ensures r.updatedAt == now
    ensures Merged(r.id, patch.id, q.id) && Merged(r.name, patch.name, q.name)
    ensures Merged(r.createdAt, patch.createdAt, q.createdAt) && Merged(r.status, patch.status, q.status)
    ensures Merged(r.customer, patch.customer, q.customer) && Merged(r.notes, patch.notes, q.notes)
    ensures Merged(r.lineItems, patch.lineItems, q.lineItems) && Merged(r.shareToken, patch.shareToken, q.shareToken)
    ensures Merged(r.responses, patch.responses, q.responses)
  {
    Quote(patch.id.GetOr(q.id), patch.name.GetOr(q.name), patch.createdAt.GetOr(q.createdAt), now,
          patch.status.GetOr(q.status), patch.customer.GetOr(q.customer), patch.notes.GetOr(q.notes),
          patch.lineItems.GetOr(q.lineItems), patch.shareToken.GetOr(q.shareToken),
          patch.responses.GetOr(q.responses))
  }

  /** An empty patch only moves `updatedAt`. */
  lemma EmptyPatchOnlyTouchesTime(q: Quote, now: int)
    ensures PatchQuote(q, EmptyQuotePatch, now) == q.(updatedAt := now)
  {
  }

  /** Applying the same patch twice is applying it once. */
  lemma PatchQuoteIdempotent(q: Quote, patch: QuotePatch, now: int, later: int)
    ensures PatchQuote(PatchQuote(q, patch, now), patch, later) == PatchQuote(q, patch, later)
  {
  }

  predicate HasId(q: Quote, id: string) {
    q.id == id
  }

  /** `updateQuote`: the quotes with that id are patched; every other quote is untouched. */
  function UpdateQuote(s: StoreState, id: string, patch: QuotePatch, now: int): (r: StoreState)
    ensures |r.quotes| == |s.quotes| && r.activeQuoteId == s.activeQuoteId
    ensures forall i :: 0 <= i < |s.quotes| && s.quotes[i].id != id ==> r.quotes[i] == s.quotes[i]
    ensures forall i :: 0 <= i < |s.quotes| && s.quotes[i].id == id ==>
              && r.quotes[i].updatedAt == now
              && (patch.name.None? ==> r.quotes[i].name == s.quotes[i].name)
              && (patch.lineItems.None? ==> r.quotes[i].lineItems == s.quotes[i].lineItems)
              && (patch.status.Some? ==> r.quotes[i].status == patch.status.value)
              && r.quotes[i] == PatchQuote(s.quotes[i], patch, now)
  {
    s.(quotes := seq(|s.quotes|, i requires 0 <= i < |s.quotes| =>
                       if s.quotes[i].id == id then PatchQuote(s.quotes[i], patch, now) else s.quotes[i]))
  }

  function WithResponse(q: Quote, status: string, notes: string, date: int, now: int): Quote {
    q.(responses := q.responses + [Response(status, notes, date)], status := status, updatedAt := now)
  }

  /**
   * `addResponse`: each quote with that id gets `{status, notes, date}`
   * appended to its history and takes that status; notes default to "". An
   * unknown id changes nothing. The response's `date` and the quote's
   * `updatedAt` come from two separate clock readings.
   */
  function AddResponse(s: StoreState, id: string, status: string, notes: Option<string>, date: int, now: int): (r: StoreState)
    ensures |r.quotes| == |s.quotes| && r.activeQuoteId == s.activeQuoteId
    ensures forall i :: 0 <= i < |s.quotes| && s.quotes[i].id != id ==> r.quotes[i] == s.quotes[i]
    ensures forall i :: 0 <= i < |s.quotes| && s.quotes[i].id == id ==>
              && r.quotes[i].responses == s.quotes[i].responses + [Response(status, notes.GetOr(""), date)]
              && StatusMatchesResponses(r.quotes[i])
              && r.quotes[i].lineItems == s.quotes[i].lineItems
              && r.quotes[i].id == id
              && r.quotes[i] == s.quotes[i].(responses := r.quotes[i].responses, status := status, updatedAt := now)
    ensures (forall i :: 0 <= i < |s.quotes| ==> s.quotes[i].id != id) ==> r == s
  {
    var r := s.(quotes := seq(|s.quotes|, i requires 0 <= i < |s.quotes| =>
                          if s.quotes[i].id == id then WithResponse(s.quotes[i], status, notes.GetOr(""), date, now)
                          else s.quotes[i]));
    assert (forall i :: 0 <= i < |s.quotes| ==> s.quotes[i].id != id) ==> r.quotes == s.quotes;
    r
  }

  /** The status rule ("keep latest status") survives `addResponse` for every quote that satisfied it. */
  lemma AddResponseKeepsStatusInvariant(s: StoreState, id: string, status: string, notes: Option<string>, date: int, now: int)
    requires forall i :: 0 <= i < |s.quotes| ==> StatusMatchesResponses(s.quotes[i])
    ensures var r := AddResponse(s, id, status, notes, date, now);
            forall i :: 0 <= i < |r.quotes| ==> StatusMatchesResponses(r.quotes[i])
  {
  }

  // ---------------------------------------------------------------------------
  // Line items
  // ---------------------------------------------------------------------------

  function WithLineItems(q: Quote, items: seq<LineItem>, now: int): Quote {
    q.(updatedAt := now, lineItems := items)
  }

  datatype Added = Added(state: StoreState, lineId: string)

  /**
   * `addLineItemToQuote`: the item, under the fresh id `line_<uid>`, goes at
   * the end of every quote with that id; other quotes are untouched.
   */
  function AddLineItemToQuote(s: StoreState, quoteId: string, item: LineItem, uid: string, now: int): (a: Added)
    ensures a.lineId == "line_" + uid
    ensures |a.state.quotes| == |s.quotes| && a.state.activeQuoteId == s.activeQuoteId
    ensures forall i :: 0 <= i < |s.quotes| && s.quotes[i].id != quoteId ==> a.state.quotes[i] == s.quotes[i]
    ensures forall i :: 0 <= i < |s.quotes| && s.quotes[i].id == quoteId ==>
              && a.state.quotes[i].lineItems == s.quotes[i].lineItems + [item.(id := a.lineId)]
              && a.state.quotes[i].updatedAt == now
              && a.state.quotes[i] == s.quotes[i].(lineItems := a.state.quotes[i].lineItems, updatedAt := now)
  {
    var lineId := "line_" + uid;
    var s' := s.(quotes := seq(|s.quotes|, i requires 0 <= i < |s.quotes| =>
                          if s.quotes[i].id == quoteId
                          then WithLineItems(s.quotes[i], s.quotes[i].lineItems + [item.(id := lineId)], now)
                          else s.quotes[i]));
    Added(s', lineId)
  }

  function WithoutLine(items: seq<LineItem>, lineItemId: string): (r: seq<LineItem>)
    ensures IsSubsequence(r, items)
    ensures forall li :: li in r <==> li in items && li.id != lineItemId
    ensures forall li :: multiset(r)[li] == if li.id != lineItemId then multiset(items)[li] else 0
  {
    FilterMembers(items, (li: LineItem) => li.id != lineItemId);
    FilterCounts(items, (li: LineItem) => li.id != lineItemId);
    Filter(items, (li: LineItem) => li.id != lineItemId)
  }

  /**
   * `removeLineItem`: in each quote with that id, drop the line items with
   * that line id and keep the rest in order.
   */
  function RemoveLineItem(s: StoreState, quoteId: string, lineItemId: string, now: int): (r: StoreState)
    ensures |r.quotes| == |s.quotes| && r.activeQuoteId == s.activeQuoteId
    ensures forall i :: 0 <= i < |s.quotes| && s.quotes[i].id != quoteId ==> r.quotes[i] == s.quotes[i]
    ensures forall i :: 0 <= i < |s.quotes| && s.quotes[i].id == quoteId ==>
              && r.quotes[i].lineItems == WithoutLine(s.quotes[i].lineItems, lineItemId)
              && r.quotes[i].updatedAt == now
              && r.quotes[i] == s.quotes[i].(lineItems := r.quotes[i].lineItems, updatedAt := now)
  {
    s.(quotes := seq(|s.quotes|, i requires 0 <= i < |s.quotes| =>
                   if s.quotes[i].id == quoteId
                   then WithLineItems(s.quotes[i], WithoutLine(s.quotes[i].lineItems, lineItemId), now)
                   else s.quotes[i]))
  }

  /** Removing a line item just added under a fresh line id gives back the old list. */
  lemma RemoveUndoesAdd(items: seq<LineItem>, item: LineItem, lineId: string)
    requires forall j :: 0 <= j < |items| ==> items[j].id != lineId
    ensures WithoutLine(items + [item.(id := lineId)], lineId) == items
  {
    var p := (li: LineItem) => li.id != lineId;
    FilterAppend(items, [item.(id := lineId)], p);
    FilterKeepsAll(items, p);
    assert Filter([item.(id := lineId)], p) == [] by { assert [item.(id := lineId)][..0] == []; }
  }

  /** `{...li, ...patch}` over the line-item fields. */
  datatype LineItemPatch = LineItemPatch(
    id: Option<string>,
    title: Option<string>,
    brand: Option<string>,
    styleNumber: Option<string>,
    color: Option<string>,
    image: Option<string>,
    sizeQty: Option<SizeQty>,
    costBySize: Option<map<string, real>>,
    markupType: Option<string>,
    markupPerItem: Option<real>,
    adjusters: Option<seq<Adjuster>>)

  function PatchLineItem(li: LineItem, p: LineItemPatch): (r: LineItem)
    ensures Merged(r.id, p.id, li.id) && Merged(r.title, p.title, li.title) && Merged(r.brand, p.brand, li.brand)
    ensures Merged(r.styleNumber, p.styleNumber, li.styleNumber) && Merged(r.color, p.color, li.color)
    ensures Merged(r.image, p.image, li.image) && Merged(r.sizeQty, p.sizeQty, li.sizeQty)
    ensures Merged(r.costBySize, p.costBySize, li.costBySize) && Merged(r.markupType, p.markupType, li.markupType)
    ensures Merged(r.markupPerItem, p.markupPerItem, li.markupPerItem) && Merged(r.adjusters, p.adjusters, li.adjusters)
  {
    LineItem(p.id.GetOr(li.id), p.title.GetOr(li.title), p.brand.GetOr(li.brand),
             p.styleNumber.GetOr(li.styleNumber), p.color.GetOr(li.color), p.image.GetOr(li.image),
             p.sizeQty.GetOr(li.sizeQty), p.costBySize.GetOr(li.costBySize),
             p.markupType.GetOr(li.markupType), p.markupPerItem.GetOr(li.markupPerItem),
             p.adjusters.GetOr(li.adjusters))
  }

  function PatchLines(items: seq<LineItem>, lineItemId: string, patch: LineItemPatch): (r: seq<LineItem>)
    ensures |r| == |items|
    ensures forall j :: 0 <= j < |items| && items[j].id != lineItemId ==> r[j] == items[j]
    ensures forall j :: 0 <= j < |items| && items[j].id == lineItemId ==> r[j] == PatchLineItem(items[j], patch)
  {
    seq(|items|, j requires 0 <= j < |items| =>
          if items[j].id == lineItemId then PatchLineItem(items[j], patch) else items[j])
  }

  /**
   * `updateLineItem`: in each quote with that id, merge the patch into the
   * line items with that line id; count and order of line items never change.
   */
  function UpdateLineItem(s: StoreState, quoteId: string, lineItemId: string, patch: LineItemPatch, now: int): (r: StoreState)
    ensures |r.quotes| == |s.quotes| && r.activeQuoteId == s.activeQuoteId
    ensures forall i :: 0 <= i < |s.quotes| && s.quotes[i].id != quoteId ==> r.quotes[i] == s.quotes[i]
    ensures forall i :: 0 <= i < |s.quotes| && s.quotes[i].id == quoteId ==>
              && |r.quotes[i].lineItems| == |s.quotes[i].lineItems|
              && (forall j :: 0 <= j < |s.quotes[i].lineItems| && s.quotes[i].lineItems[j].id != lineItemId ==>
                    r.quotes[i].lineItems[j] == s.quotes[i].lineItems[j])
              && r.quotes[i].updatedAt == now
              && r.quotes[i] == s.quotes[i].(lineItems := PatchLines(s.quotes[i].lineItems, lineItemId, patch), updatedAt := now)
  {
    s.(quotes := seq(|s.quotes|, i requires 0 <= i < |s.quotes| =>
                   if s.quotes[i].id == quoteId
                   then WithLineItems(s.quotes[i], PatchLines(s.quotes[i].lineItems, lineItemId, patch), now)
                   else s.quotes[i]))
  }

  // ---------------------------------------------------------------------------
  // The quote cap over any run of actions
  // ---------------------------------------------------------------------------

  datatype Action =
    | CreateQuoteAction(patch: NewQuotePatch, uid: string, created: int, updated: int)
    | DeleteQuoteAction(id: string)
    | SetActiveQuoteAction(activeId: Option<string>)
    | UpdateQuoteAction(id: string, quotePatch: QuotePatch, now: int)
    | AddResponseAction(id: string, status: string, notes: Option<string>, date: int, now: int)
    | AddLineItemAction(id: string, item: LineItem, uid: string, now: int)
    | RemoveLineItemAction(id: string, lineItemId: string, now: int)
    | UpdateLineItemAction(id: string, lineItemId: string, linePatch: LineItemPatch, now: int)

  function Step(s: StoreState, a: Action): StoreState {
    match a
    case CreateQuoteAction(patch, uid, created, updated) => CreateQuote(s, patch, uid, created, updated).state
    case DeleteQuoteAction(id) => DeleteQuote(s, id)
    case SetActiveQuoteAction(activeId) => SetActiveQuote(s, activeId)
    case UpdateQuoteAction(id, patch, now) => UpdateQuote(s, id, patch, now)
    case AddResponseAction(id, status, notes, date, now) => AddResponse(s, id, status, notes, date, now)
    case AddLineItemAction(id, item, uid, now) => AddLineItemToQuote(s, id, item, uid, now).state
    case RemoveLineItemAction(id, lineItemId, now) => RemoveLineItem(s, id, lineItemId, now)
    case UpdateLineItemAction(id, lineItemId, patch, now) => UpdateLineItem(s, id, lineItemId, patch, now)
  }

  function Run(s: StoreState, actions: seq<Action>): StoreState {
    if |actions| == 0 then s else Step(Run(s, actions[..|actions| - 1]), actions[|actions| - 1])
  }

  /** Only `createQuote` adds a quote, and only below the cap. */
  lemma StepRespectsCap(s: StoreState, a: Action)
    ensures |Step(s, a).quotes| <= if |s.quotes| < MaxQuotes then MaxQuotes else |s.quotes|
  {
    if a.DeleteQuoteAction? {
      assert |DeleteQuote(s, a.id).quotes| <= |s.quotes|;
    }
  }

  /**
   * Starting at most at the cap (an empty or well-kept store), no run of
   * actions ever holds more than 3 quotes.
   */
  lemma {:induction false} RunRespectsCap(s: StoreState, actions: seq<Action>)
    requires |s.quotes| <= MaxQuotes
    ensures |Run(s, actions).quotes| <= MaxQuotes
  {
    if |actions| > 0 {
      RunRespectsCap(s, actions[..|actions| - 1]);
      StepRespectsCap(Run(s, actions[..|actions| - 1]), actions[|actions| - 1]);
    }
  }

  // ---------------------------------------------------------------------------
  // The status rule over any run of actions
  // ---------------------------------------------------------------------------

  /** Every quote's status is its latest response's status, or "draft" with none. */
  predicate AllStatusesMatch(s: StoreState) {
    forall i :: 0 <= i < |s.quotes| ==> StatusMatchesResponses(s.quotes[i])
  }

  /**
   * The actions that cannot break the status rule: `createQuote` with a patch
   * whose quote meets it, and `updateQuote` with a patch that sets neither
   * `status` nor `responses`; every other action qualifies.
   */
  predicate KeepsStatusRule(a: Action) {
    match a
    case CreateQuoteAction(patch, uid, created, updated) =>
      StatusMatchesResponses(NewQuote("quote_" + uid, patch, created, updated))
    case UpdateQuoteAction(_, patch, _) => patch.status.None? && patch.responses.None?
    case _ => true
  }

  /** One action of that kind keeps the status rule for every quote. */
  lemma StepKeepsStatusRule(s: StoreState, a: Action)
    requires AllStatusesMatch(s) && KeepsStatusRule(a)
    ensures AllStatusesMatch(Step(s, a))
  {
    var r := Step(s, a);
    match a
    case CreateQuoteAction(patch, uid, created, updated) =>
      if |s.quotes| < MaxQuotes {
        forall i | 0 <= i < |r.quotes|
          ensures StatusMatchesResponses(r.quotes[i])
        {
          if i > 0 { assert r.quotes[i] == s.quotes[i - 1]; }
        }
      }
    case DeleteQuoteAction(id) =>
      forall i | 0 <= i < |r.quotes|
        ensures StatusMatchesResponses(r.quotes[i])
      {
        assert r.quotes[i] in s.quotes;
      }
    case SetActiveQuoteAction(_) =>
    case UpdateQuoteAction(id, patch, now) =>
    case AddResponseAction(id, status, notes, date, now) =>
      AddResponseKeepsStatusInvariant(s, id, status, notes, date, now);
    case AddLineItemAction(id, item, uid, now) =>
    case RemoveLineItemAction(id, lineItemId, now) =>
    case UpdateLineItemAction(id, lineItemId, patch, now) =>
  }

  /**
   * Starting from a store that meets the status rule, every run of such
   * actions keeps it.
   */
  lemma {:induction false} RunKeepsStatusRule(s: StoreState, actions: seq<Action>)
    requires AllStatusesMatch(s)
    requires forall i :: 0 <= i < |actions| ==> KeepsStatusRule(actions[i])
    ensures AllStatusesMatch(Run(s, actions))
  {
    if |actions| > 0 {
      RunKeepsStatusRule(s, actions[..|actions| - 1]);
      StepKeepsStatusRule(Run(s, actions[..|actions| - 1]), actions[|actions| - 1]);
    }
  }

  /** `updateQuote` with a `status` patch breaks the rule: a draft with no responses turns "approved". */
  lemma UpdateQuoteCanBreakStatusRule(s: StoreState, status: string, now: int)
    requires |s.quotes| == 1 && StatusMatchesResponses(s.quotes[0]) && s.quotes[0].responses == []
    requires status != Draft
    ensures !AllStatusesMatch(UpdateQuote(s, s.quotes[0].id, EmptyQuotePatch.(status := Some(status)), now))
  {
    var r := UpdateQuote(s, s.quotes[0].id, EmptyQuotePatch.(status := Some(status)), now);
    assert r.quotes[0].status == status;
  }
}
