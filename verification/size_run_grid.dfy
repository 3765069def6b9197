/**
 * The size-run editor's `setSize`: write one size's quantity into the
 * `sizeQty` object, deleting the key when the quantity is blank or zero.
 */
module SizeRunGrid {
  import opened Wrappers
  import opened QuoteTypes
  import Seqs

  /** What the quantity box holds: nothing, or a number. */
  datatype QtyInput = Blank | Number(n: int)

  /** `!next[size] || Number(next[size]) === 0`. */
  predicate ClearsSize(input: QtyInput) {
    input.Blank? || input.n == 0
  }

  /** `value || {}`. */
  function SizeMap(value: Option<SizeQty>): (m: SizeQty)
    ensures value.None? ==> m == []
  {
    value.GetOr([])
  }

  /**
   * `setSize`: set the key (in place, or appended if new), then delete it
   * again when the input is blank or zero. Every other size keeps its
   * quantity and its place in the key order; a new size goes last.
   */
  function SetSize(value: Option<SizeQty>, size: string, input: QtyInput): (next: SizeQty)
    ensures ClearsSize(input) ==> Lookup(next, size) == None
    ensures !ClearsSize(input) ==> Lookup(next, size) == Some(input.n)
    ensures forall k :: k != size ==> Lookup(next, k) == Lookup(SizeMap(value), k)
    ensures DistinctSizes(SizeMap(value)) ==> DistinctSizes(next)
    ensures ClearsSize(input) ==> Keys(next) == Seqs.Filter(Keys(SizeMap(value)), OtherKey(size))
    ensures !ClearsSize(input) && size in Keys(SizeMap(value)) ==> Keys(next) == Keys(SizeMap(value))
    ensures !ClearsSize(input) && size !in Keys(SizeMap(value)) ==> Keys(next) == Keys(SizeMap(value)) + [size]
  {
    var sizeQty := SizeMap(value);
    var next := Put(sizeQty, size, if input.Number? then input.n else 0);
    if ClearsSize(input) then
      FilterDropsAppendedKey(Keys(sizeQty), size);
      Remove(next, size)
    else next
  }

  /** Appending `size` and then dropping it gives the keys without it. */
  lemma FilterDropsAppendedKey(keys: seq<string>, size: string)
    ensures Seqs.Filter(keys + [size], OtherKey(size)) == Seqs.Filter(keys, OtherKey(size))
  {
    Seqs.FilterLast(keys + [size], OtherKey(size));
    assert (keys + [size])[..|keys|] == keys;
  }

  /** No size holds a zero quantity. */
  predicate NoZeros(m: SizeQty) {
    forall i :: 0 <= i < |m| ==> m[i].qty != 0
  }

  /** The editor never leaves a zero quantity behind: a zero-free map stays zero-free. */
  lemma SetSizeKeepsNoZeros(value: Option<SizeQty>, size: string, input: QtyInput)
    requires NoZeros(SizeMap(value))
    ensures NoZeros(SetSize(value, size, input))
  {
    var sizeQty := SizeMap(value);
    var qty := if input.Number? then input.n else 0;
    PutOnlyZeroAt(sizeQty, size, qty);
    if ClearsSize(input) {
      RemoveDropsZero(Put(sizeQty, size, qty), size);
    }
  }

  /** After a put, only the written size can hold a zero. */
  lemma PutOnlyZeroAt(m: SizeQty, size: string, qty: int)
    requires NoZeros(m)
    ensures var r := Put(m, size, qty);
            forall i :: 0 <= i < |r| ==> r[i].qty != 0 || (r[i].size == size && r[i].qty == qty)
  {
    var r := Put(m, size, qty);
    forall i | 0 <= i < |r| && r[i] != SizeEntry(size, qty)
      ensures r[i].qty != 0
    {
      var k :| 0 <= k < |m| && m[k] == r[i];
    }
  }

  /** Removing the only size that may hold a zero leaves none. */
  lemma RemoveDropsZero(m: SizeQty, size: string)
    requires forall i :: 0 <= i < |m| ==> m[i].qty != 0 || m[i].size == size
    ensures NoZeros(Remove(m, size))
  {
    var r := Remove(m, size);
    forall i | 0 <= i < |r|
      ensures r[i].qty != 0
    {
      LookupAbsent(r, size, i);
      var k :| 0 <= k < |m| && m[k] == r[i];
    }
  }

  /** A key that is not found occurs nowhere in the map. */
  lemma LookupAbsent(m: SizeQty, size: string, i: nat)
    requires i < |m| && Lookup(m, size) == None
    ensures m[i].size != size
  {
    assert Keys(m)[i] == m[i].size;
  }
}
