/**
 * The list operations of the adjusters editor. The editor hands each new list
 * to its `onChange` callback; here the new list is the result.
 */
module AdjustersEditor {
  import opened Wrappers
  import opened Seqs
  import opened QuoteTypes
  import opened QuotePricing

  /** `Array.isArray(adjusters) ? adjusters : []`. */
  function AdjusterList(adjusters: Option<seq<Adjuster>>): (list: seq<Adjuster>)
    ensures adjusters.None? ==> list == []
    ensures adjusters.Some? ==> list == adjusters.value
  {
    adjusters.GetOr([])
  }

  /** The adjuster the "Add" button creates: per item, unnamed, worth nothing. */
  function BlankAdjuster(uid: string): Adjuster {
    Adjuster("adj_" + uid, "", PerItemKind, 0.0)
  }

  /** `addAdjuster`: one blank per-item adjuster at the end. */
  function AddAdjuster(adjusters: Option<seq<Adjuster>>, uid: string): (next: seq<Adjuster>)
    ensures |next| == |AdjusterList(adjusters)| + 1
    ensures next[..|next| - 1] == AdjusterList(adjusters)
    ensures next[|next| - 1].id == "adj_" + uid && next[|next| - 1].name == ""
    ensures next[|next| - 1].kind == PerItemKind && next[|next| - 1].amount == 0.0
  {
    var list := AdjusterList(adjusters);
    assert (list + [BlankAdjuster(uid)])[..|list|] == list;
    list + [BlankAdjuster(uid)]
  }

  /** Adding a blank adjuster changes neither adjuster total, so no price moves. */
  lemma AddAdjusterKeepsTotals(adjusters: Option<seq<Adjuster>>, uid: string)
    ensures var list := AdjusterList(adjusters);
            var next := AddAdjuster(adjusters, uid);
            && PerItemAdjusterTotal(next) == PerItemAdjusterTotal(list)
            && FlatAdjusterTotal(next) == FlatAdjusterTotal(list)
  {
    var list := AdjusterList(adjusters);
    AdjusterTotalsAppend(list, [BlankAdjuster(uid)]);
    SingleAdjusterTotals(BlankAdjuster(uid));
  }

  /** `removeAdjuster`: every adjuster with that id goes; the others keep their order. */
  function RemoveAdjuster(adjusters: Option<seq<Adjuster>>, id: string): (next: seq<Adjuster>)
    ensures IsSubsequence(next, AdjusterList(adjusters))
    ensures forall a :: a in next <==> a in AdjusterList(adjusters) && a.id != id
    ensures forall a :: multiset(next)[a] == if a.id != id then multiset(AdjusterList(adjusters))[a] else 0
  {
    var list := AdjusterList(adjusters);
    FilterMembers(list, (a: Adjuster) => a.id != id);
    FilterCounts(list, (a: Adjuster) => a.id != id);
    Filter(list, (a: Adjuster) => a.id != id)
  }

  /** Removing the adjuster just added (its id being new) gives the old list back. */
  lemma RemoveUndoesAdd(adjusters: Option<seq<Adjuster>>, uid: string)
    requires forall a :: a in AdjusterList(adjusters) ==> a.id != "adj_" + uid
    ensures RemoveAdjuster(Some(AddAdjuster(adjusters, uid)), "adj_" + uid) == AdjusterList(adjusters)
  {
    var list := AdjusterList(adjusters);
    var p := (a: Adjuster) => a.id != "adj_" + uid;
    var b := BlankAdjuster(uid);
    assert AddAdjuster(adjusters, uid) == list + [b];
    FilterAppend(list, [b], p);
    FilterKeepsAll(list, p);
    assert Filter([b], p) == [] by { assert [b][..0] == []; }
  }

  /** The fields a patch may carry; `{...a, ...patch}` lets present ones win. */
  datatype AdjusterPatch = AdjusterPatch(
    id: Option<string>,
    name: Option<string>,
    kind: Option<string>,
    amount: Option<real>)

  function Patched(a: Adjuster, patch: AdjusterPatch): Adjuster {
    Adjuster(patch.id.GetOr(a.id), patch.name.GetOr(a.name), patch.kind.GetOr(a.kind), patch.amount.GetOr(a.amount))
  }

  /** `patchAdjuster`: merge the patch into the adjusters with that id only; same length. */
  function PatchAdjuster(adjusters: Option<seq<Adjuster>>, id: string, patch: AdjusterPatch): (next: seq<Adjuster>)
    ensures |next| == |AdjusterList(adjusters)|
    ensures forall i :: 0 <= i < |next| && AdjusterList(adjusters)[i].id != id ==> next[i] == AdjusterList(adjusters)[i]
    ensures forall i :: 0 <= i < |next| && AdjusterList(adjusters)[i].id == id ==>
              next[i] == Patched(AdjusterList(adjusters)[i], patch)
  {
    var list := AdjusterList(adjusters);
    seq(|list|, i requires 0 <= i < |list| => if list[i].id == id then Patched(list[i], patch) else list[i])
  }

  /**
   * Changing only the amount of the single adjuster with that id moves its
   * total by exactly the change.
   */
  lemma PatchAmountShiftsTotal(adjusters: seq<Adjuster>, k: nat, amount: real)
    requires k < |adjusters|
    requires forall i :: 0 <= i < |adjusters| && i != k ==> adjusters[i].id != adjusters[k].id
    ensures var a := adjusters[k];
            var next := PatchAdjuster(Some(adjusters), a.id, AdjusterPatch(None, None, None, Some(amount)));
            && (IsFlat(a) ==> FlatAdjusterTotal(next) == FlatAdjusterTotal(adjusters) + amount - a.amount)
            && (IsPerItem(a) ==> PerItemAdjusterTotal(next) == PerItemAdjusterTotal(adjusters) + amount - a.amount)
  {
    var a := adjusters[k];
    var next := PatchAdjuster(Some(adjusters), a.id, AdjusterPatch(None, None, None, Some(amount)));
    var a' := a.(amount := amount);
    assert next == adjusters[..k] + [a'] + adjusters[k + 1..];
    assert adjusters == adjusters[..k] + [a] + adjusters[k + 1..];
    AdjusterTotalsAppend(adjusters[..k] + [a'], adjusters[k + 1..]);
    AdjusterTotalsAppend(adjusters[..k], [a']);
    AdjusterTotalsAppend(adjusters[..k] + [a], adjusters[k + 1..]);
    AdjusterTotalsAppend(adjusters[..k], [a]);
    SingleAdjusterTotals(a);
    SingleAdjusterTotals(a');
  }
}
