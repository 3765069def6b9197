/**
 * First-seen de-duplication by a string key: the `new Map()` loops of the
 * catalog pages that skip an element whose key is falsy (the empty string)
 * and otherwise store an element only when its key is not in the map yet, so
 * that `Array.from(map.values())` lists the first element seen under each key,
 * in the order the keys first appeared.
 */
module FirstSeen {
  import opened Wrappers
  import opened Seqs
  import opened Text

  /** The key of every element, in order. */
  function KeysOf<T>(s: seq<T>, key: T -> string): (r: seq<string>)
    ensures |r| == |s|
    ensures forall i :: 0 <= i < |s| ==> r[i] == key(s[i])
  {
    if |s| == 0 then [] else KeysOf(s[..|s| - 1], key) + [key(s[|s| - 1])]
  }

  /** The non-empty keys of `s`, in order, repeats included. */
  function PresentKeys<T>(s: seq<T>, key: T -> string): seq<string> {
    Filter(KeysOf(s, key), IsNonEmpty)
  }

  /** The map-building loop: the first element under each non-empty key. */
  function FirstByKey<T>(s: seq<T>, key: T -> string): seq<T> {
    if |s| == 0 then []
    else
      var d := FirstByKey(s[..|s| - 1], key);
      var x := s[|s| - 1];
      if key(x) == "" || key(x) in KeysOf(d, key) then d else d + [x]
  }

  /** Index of the first element of `s` whose key is `k`, if any. */
  function FirstKeyIndex<T>(s: seq<T>, key: T -> string, k: string): (r: Option<nat>)
    ensures r.None? <==> forall i :: 0 <= i < |s| ==> key(s[i]) != k
    ensures r.Some? ==> r.value < |s| && key(s[r.value]) == k
    ensures r.Some? ==> forall j :: 0 <= j < r.value ==> key(s[j]) != k
  {
    if |s| == 0 then None
    else
      var f := FirstKeyIndex(s[..|s| - 1], key, k);
      if f.Some? then Some(f.value)
      else if key(s[|s| - 1]) == k then Some(|s| - 1)
      else None
  }

  /** `Array.prototype.findIndex`, with `None` for -1: the first element satisfying `p`. */
  function FirstWhere<T>(s: seq<T>, p: T -> bool): (r: Option<nat>)
    ensures r.None? <==> forall i :: 0 <= i < |s| ==> !p(s[i])
    ensures r.Some? ==> r.value < |s| && p(s[r.value])
    ensures r.Some? ==> forall j :: 0 <= j < r.value ==> !p(s[j])
  {
    if |s| == 0 then None
    else
      var f := FirstWhere(s[..|s| - 1], p);
      if f.Some? then Some(f.value)
      else if p(s[|s| - 1]) then Some(|s| - 1)
      else None
  }

  /** One step of the loop: the element at the end is kept exactly when its key is new and non-empty. */
  lemma FirstByKeyLast<T>(s: seq<T>, key: T -> string)
    requires |s| > 0
    ensures var d := FirstByKey(s[..|s| - 1], key);
            var x := s[|s| - 1];
            FirstByKey(s, key) == if key(x) == "" || key(x) in KeysOf(d, key) then d else d + [x]
  {
  }

  /** The keys of the loop's result are the distinct non-empty keys of `s` in first-seen order. */
  lemma {:induction false} FirstByKeyOrder<T>(s: seq<T>, key: T -> string)
    ensures KeysOf(FirstByKey(s, key), key) == Distinct(PresentKeys(s, key))
  {
    if |s| > 0 {
      var init := s[..|s| - 1];
      var x := s[|s| - 1];
      var d := FirstByKey(init, key);
      FirstByKeyOrder(init, key);
      FirstByKeyLast(s, key);
      PresentKeysLast(s, key);
      var f := PresentKeys(init, key);
      var k := key(x);
      if k == "" {
        assert FirstByKey(s, key) == d;
        assert PresentKeys(s, key) == f;
      } else {
        var g := f + [k];
        assert PresentKeys(s, key) == g;
        DistinctLast(g);
        assert g[..|g| - 1] == f && g[|g| - 1] == k;
        if k in KeysOf(d, key) {
          assert FirstByKey(s, key) == d;
          assert Distinct(g) == Distinct(f);
        } else {
          assert FirstByKey(s, key) == d + [x];
          assert Distinct(g) == Distinct(f) + [k];
          assert KeysOf(d + [x], key) == KeysOf(d, key) + [k];
        }
      }
    }
  }

  lemma PresentKeysLast<T>(s: seq<T>, key: T -> string)
    requires |s| > 0
    ensures var x := s[|s| - 1];
            PresentKeys(s, key) == PresentKeys(s[..|s| - 1], key) + (if key(x) != "" then [key(x)] else [])
  {
    assert KeysOf(s, key)[..|s| - 1] == KeysOf(s[..|s| - 1], key);
  }

  /** A non-empty key that occurs in `s` is among the kept keys. */
  lemma {:induction false} FirstByKeyCovers<T>(s: seq<T>, key: T -> string, k: string)
    requires k != "" && FirstKeyIndex(s, key, k).Some?
    ensures k in KeysOf(FirstByKey(s, key), key)
  {
    var init := s[..|s| - 1];
    var x := s[|s| - 1];
    var d := FirstByKey(init, key);
    FirstByKeyLast(s, key);
    if FirstKeyIndex(init, key, k).Some? {
      FirstByKeyCovers(init, key, k);
      if key(x) != "" && key(x) !in KeysOf(d, key) {
        assert KeysOf(d + [x], key) == KeysOf(d, key) + [key(x)];
      }
    } else {
      assert key(x) == k;
      if k !in KeysOf(d, key) {
        assert KeysOf(d + [x], key) == KeysOf(d, key) + [key(x)];
      }
    }
  }

  /** The element kept under each key is the first element of `s` carrying that key. */
  lemma {:induction false} FirstByKeyKeepsFirst<T>(s: seq<T>, key: T -> string)
    ensures var r := FirstByKey(s, key);
            forall j :: 0 <= j < |r| ==>
              && FirstKeyIndex(s, key, key(r[j])).Some?
              && r[j] == s[FirstKeyIndex(s, key, key(r[j])).value]
  {
    if |s| > 0 {
      var init := s[..|s| - 1];
      var x := s[|s| - 1];
      var d := FirstByKey(init, key);
      FirstByKeyKeepsFirst(init, key);
      FirstByKeyLast(s, key);
      var r := FirstByKey(s, key);
      forall j | 0 <= j < |r|
        ensures FirstKeyIndex(s, key, key(r[j])).Some?
        ensures r[j] == s[FirstKeyIndex(s, key, key(r[j])).value]
      {
        if j < |d| {
          assert r[j] == d[j];
          assert FirstKeyIndex(init, key, key(d[j])).Some?;
        } else {
          assert r == d + [x] && r[j] == x;
          if FirstKeyIndex(init, key, key(x)).Some? {
            FirstByKeyCovers(init, key, key(x));
            assert false;
          }
        }
      }
    }
  }

  /** `FirstByKeyKeepsFirst` for one kept element. */
  lemma FirstByKeyKeepsFirstAt<T>(s: seq<T>, key: T -> string, j: int)
    requires 0 <= j < |FirstByKey(s, key)|
    ensures var x := FirstByKey(s, key)[j];
            FirstKeyIndex(s, key, key(x)).Some? && x == s[FirstKeyIndex(s, key, key(x)).value]
  {
    FirstByKeyKeepsFirst(s, key);
  }

  /** The kept elements appear in the order of their keys' first occurrences in `s`. */
  lemma {:induction false} FirstByKeyInOrder<T>(s: seq<T>, key: T -> string)
    ensures var r := FirstByKey(s, key);
            forall j, k :: 0 <= j < k < |r| ==>
              FirstKeyIndex(s, key, key(r[j])).GetOr(|s|) < FirstKeyIndex(s, key, key(r[k])).GetOr(|s|)
  {
    if |s| > 0 {
      var init := s[..|s| - 1];
      var x := s[|s| - 1];
      var d := FirstByKey(init, key);
      FirstByKeyInOrder(init, key);
      FirstByKeyKeepsFirst(init, key);
      FirstByKeyLast(s, key);
      var r := FirstByKey(s, key);
      forall j, k | 0 <= j < k < |r|
        ensures FirstKeyIndex(s, key, key(r[j])).GetOr(|s|) < FirstKeyIndex(s, key, key(r[k])).GetOr(|s|)
      {
        assert r[j] == d[j];
        assert FirstKeyIndex(init, key, key(d[j])).Some?;
        if k < |d| {
          assert r[k] == d[k];
          assert FirstKeyIndex(init, key, key(d[k])).Some?;
        } else {
          assert r == d + [x] && r[k] == x;
          if FirstKeyIndex(init, key, key(x)).Some? {
            FirstByKeyCovers(init, key, key(x));
          }
        }
      }
    }
  }

  /** The kept elements have distinct, non-empty keys, and every non-empty key of `s` is kept. */
  lemma FirstByKeyKeys<T>(s: seq<T>, key: T -> string)
    ensures var r := FirstByKey(s, key);
            && NoDuplicates(KeysOf(r, key))
            && (forall j :: 0 <= j < |r| ==> key(r[j]) != "")
            && (forall i :: 0 <= i < |s| && key(s[i]) != "" ==> key(s[i]) in KeysOf(r, key))
  {
    FirstByKeyOrder(s, key);
    FirstByKeyNonEmpty(s, key);
    FirstByKeyAllKeys(s, key);
  }

  lemma FirstByKeyNonEmpty<T>(s: seq<T>, key: T -> string)
    ensures var r := FirstByKey(s, key);
            forall j :: 0 <= j < |r| ==> key(r[j]) != ""
  {
    var r := FirstByKey(s, key);
    var keys := KeysOf(s, key);
    FirstByKeyOrder(s, key);
    FilterMembers(keys, IsNonEmpty);
    forall j | 0 <= j < |r|
      ensures key(r[j]) != ""
    {
      assert KeysOf(r, key)[j] == key(r[j]);
      assert key(r[j]) in Filter(keys, IsNonEmpty);
    }
  }

  lemma FirstByKeyAllKeys<T>(s: seq<T>, key: T -> string)
    ensures var r := FirstByKey(s, key);
            forall i :: 0 <= i < |s| && key(s[i]) != "" ==> key(s[i]) in KeysOf(r, key)
  {
    forall i | 0 <= i < |s| && key(s[i]) != ""
      ensures key(s[i]) in KeysOf(FirstByKey(s, key), key)
    {
      FirstByKeyCovers(s, key, key(s[i]));
    }
  }
}
