/**
 * The entities shared by the pricing engine, the quote repository and the
 * share-token workflow: adjusters, size runs, line items, responses and quotes.
 *
 * JavaScript's untyped fields become typed ones: a missing number is 0, a
 * missing string is "" and an enumeration-like field (`markupType`, adjuster
 * `type`, `status`) keeps its raw string so that unexpected values keep the
 * source's behaviour.
 */
module QuoteTypes {
  import opened Wrappers
  import Seqs

  const PerItemKind: string := "perItem"
  const FlatKind: string := "flat"
  const DollarMarkup: string := "dollar"

  const Draft: string := "draft"
  const Pending: string := "pending"
  const Approved: string := "approved"
  const Rejected: string := "rejected"

  /** A named price modification: per unit (`perItem`) or once per line (`flat`). */
  datatype Adjuster = Adjuster(id: string, name: string, kind: string, amount: real)

  /**
   * One `size: qty` property of a line item's `sizeQty` object. The object is
   * an association list whose order is the object's key enumeration order.
   */
  datatype SizeEntry = SizeEntry(size: string, qty: int)

  type SizeQty = seq<SizeEntry>

  /** The size labels in key order (`Object.keys(sizeQty)`). */
  function Keys(m: SizeQty): (r: seq<string>)
    ensures |r| == |m|
    ensures forall i :: 0 <= i < |m| ==> r[i] == m[i].size
  {
    seq(|m|, i requires 0 <= i < |m| => m[i].size)
  }

  /** Object keys are unique. */
  predicate DistinctSizes(m: SizeQty) {
    forall i, j :: 0 <= i < j < |m| ==> m[i].size != m[j].size
  }

  /** `sizeQty[size]`, or `None` when the key is absent. */
  function Lookup(m: SizeQty, size: string): (r: Option<int>)
    ensures r.Some? <==> size in Keys(m)
    ensures DistinctSizes(m) ==> forall i :: 0 <= i < |m| && m[i].size == size ==> r == Some(m[i].qty)
  {
    if |m| == 0 then None
    else if m[|m| - 1].size == size then Some(m[|m| - 1].qty)
    else Lookup(m[..|m| - 1], size)
  }

  /** `{ ...m, [size]: qty }`: overwrite in place, or append a new key at the end. */
  function Put(m: SizeQty, size: string, qty: int): (r: SizeQty)
    ensures DistinctSizes(m) ==> DistinctSizes(r)
    ensures size in Keys(m) ==> Keys(r) == Keys(m)
    ensures size !in Keys(m) ==> Keys(r) == Keys(m) + [size]
    ensures Lookup(r, size) == Some(qty)
    ensures forall k :: k != size ==> Lookup(r, k) == Lookup(m, k)
    ensures forall i :: 0 <= i < |r| ==> r[i] in m || r[i] == SizeEntry(size, qty)
  {
    if size in Keys(m) then
      var r := seq(|m|, i requires 0 <= i < |m| => if m[i].size == size then SizeEntry(size, qty) else m[i]);
      assert Keys(r) == Keys(m);
      PutLookup(m, r, size, qty);
      r
    else
      var r := m + [SizeEntry(size, qty)];
      assert Keys(r) == Keys(m) + [size];
      assert r[..|r| - 1] == m;
      r
  }

  lemma {:induction false} PutLookup(m: SizeQty, r: SizeQty, size: string, qty: int)
    requires |r| == |m|
    requires forall i :: 0 <= i < |m| ==> r[i] == if m[i].size == size then SizeEntry(size, qty) else m[i]
    requires size in Keys(m)
    ensures Lookup(r, size) == Some(qty)
    ensures forall k :: k != size ==> Lookup(r, k) == Lookup(m, k)
  {
    var n := |m| - 1;
    if m[n].size != size {
      assert size in Keys(m[..n]) by {
        var i :| 0 <= i < |m| && Keys(m)[i] == size;
        assert Keys(m[..n])[i] == size;
      }
      PutLookup(m[..n], r[..n], size, qty);
    } else {
      forall k | k != size
        ensures Lookup(r, k) == Lookup(m, k)
      {
        PutLookupOther(m[..n], r[..n], size, qty, k);
      }
    }
  }

  lemma {:induction false} PutLookupOther(m: SizeQty, r: SizeQty, size: string, qty: int, k: string)
    requires |r| == |m|
    requires forall i :: 0 <= i < |m| ==> r[i] == if m[i].size == size then SizeEntry(size, qty) else m[i]
    requires k != size
    ensures Lookup(r, k) == Lookup(m, k)
  {
    if |m| > 0 {
      PutLookupOther(m[..|m| - 1], r[..|r| - 1], size, qty, k);
    }
  }

  /** The key test `delete m[size]` keeps: every key other than `size`. */
  function OtherKey(size: string): string -> bool {
    (k: string) => k != size
  }

  /** `delete m[size]`: drop the key, keeping the other keys in order. */
  function Remove(m: SizeQty, size: string): (r: SizeQty)
    ensures Keys(r) == Seqs.Filter(Keys(m), OtherKey(size))
    ensures Lookup(r, size) == None
    ensures forall k :: k != size ==> Lookup(r, k) == Lookup(m, k)
    ensures forall i :: 0 <= i < |r| ==> r[i] in m
    ensures DistinctSizes(m) ==> DistinctSizes(r)
  {
    if |m| == 0 then []
    else
      var init := m[..|m| - 1];
      var last := m[|m| - 1];
      var r' := Remove(init, size);
      RemoveKeysStep(m, r', size);
      RemoveLookupStep(m, r', size);
      if last.size == size then r'
      else
        var r := r' + [last];
        RemoveStep(m, r', r, size);
        r
  }

  /** One step of `Remove` keeps the key order: the last key survives unless it is `size`. */
  lemma RemoveKeysStep(m: SizeQty, r': SizeQty, size: string)
    requires |m| > 0 && Keys(r') == Seqs.Filter(Keys(m[..|m| - 1]), OtherKey(size))
    ensures m[|m| - 1].size == size ==> Keys(r') == Seqs.Filter(Keys(m), OtherKey(size))
    ensures m[|m| - 1].size != size ==> Keys(r' + [m[|m| - 1]]) == Seqs.Filter(Keys(m), OtherKey(size))
  {
    var n := |m| - 1;
    assert Keys(m)[..n] == Keys(m[..n]);
    Seqs.FilterLast(Keys(m), OtherKey(size));
    assert Keys(r' + [m[n]]) == Keys(r') + [m[n].size];
  }

  /** One step of `Remove` keeps every other key's lookup and leaves `size` absent. */
  lemma RemoveLookupStep(m: SizeQty, r': SizeQty, size: string)
    requires |m| > 0 && Lookup(r', size) == None
    requires forall k :: k != size ==> Lookup(r', k) == Lookup(m[..|m| - 1], k)
    ensures m[|m| - 1].size == size ==>
              Lookup(r', size) == None && forall k :: k != size ==> Lookup(r', k) == Lookup(m, k)
    ensures m[|m| - 1].size != size ==>
              var r := r' + [m[|m| - 1]];
              Lookup(r, size) == None && forall k :: k != size ==> Lookup(r, k) == Lookup(m, k)
  {
    var n := |m| - 1;
    if m[n].size != size {
      var r := r' + [m[n]];
      assert r[..|r| - 1] == r';
    }
  }

  lemma RemoveStep(m: SizeQty, r': SizeQty, r: SizeQty, size: string)
    requires |m| > 0 && m[|m| - 1].size != size && r == r' + [m[|m| - 1]]
    requires forall i :: 0 <= i < |r'| ==> r'[i] in m[..|m| - 1]
    requires DistinctSizes(m[..|m| - 1]) ==> DistinctSizes(r')
    ensures forall i :: 0 <= i < |r| ==> r[i] in m
    ensures DistinctSizes(m) ==> DistinctSizes(r)
  {
    var last := m[|m| - 1];
    assert m == m[..|m| - 1] + [last];
    if DistinctSizes(m) {
      forall i | 0 <= i < |r'|
        ensures r'[i].size != last.size
      {
        var j :| 0 <= j < |m| - 1 && m[j] == r'[i];
      }
    }
  }

  /**
   * The fields the pricing functions read from a line item. Both the
   * operator-side line item and its customer-safe projection expose them.
   */
  datatype PriceInputs = PriceInputs(
    sizeQty: SizeQty,
    costBySize: map<string, real>,
    markupType: string,
    markupPerItem: real,
    adjusters: seq<Adjuster>)

  /** One product/colour of a quote with its quantity-per-size breakdown. */
  datatype LineItem = LineItem(
    id: string,
    title: string,
    brand: string,
    styleNumber: string,
    color: string,
    image: string,
    sizeQty: SizeQty,
    costBySize: map<string, real>,
    markupType: string,
    markupPerItem: real,
    adjusters: seq<Adjuster>)
  {
    function Pricing(): PriceInputs {
      PriceInputs(sizeQty, costBySize, markupType, markupPerItem, adjusters)
    }
  }

  datatype Customer = Customer(name: string, company: string, email: string, phone: string)

  const EmptyCustomer: Customer := Customer("", "", "", "")

  /** One entry of a quote's response history. */
  datatype Response = Response(status: string, notes: string, date: int)

  datatype Quote = Quote(
    id: string,
    name: string,
    createdAt: int,
    updatedAt: int,
    status: string,
    customer: Customer,
    notes: string,
    lineItems: seq<LineItem>,
    shareToken: Option<string>,
    responses: seq<Response>)

  /**
   * The quote status rule: the status is the status of the latest response
   * (`addResponse` keeps the latest status), or "draft" while there is none.
   */
  predicate StatusMatchesResponses(q: Quote) {
    if |q.responses| == 0 then q.status == Draft
    else q.status == q.responses[|q.responses| - 1].status
  }
}
