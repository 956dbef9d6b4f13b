/** `merge_dicts`: copy the first dictionary, then update the copy with each
    later one, so that a later dictionary's value replaces an earlier one's. */
module Dicts {

  /** The merge of `ds`, as a specification. */
  function Merged<K, V>(ds: seq<map<K, V>>): map<K, V>
    requires |ds| > 0
  {
    if |ds| == 1 then ds[0] else Merged(ds[..|ds| - 1]) + ds[|ds| - 1]
  }

  /** `merge_dicts(*dicts)`; `dicts[0]` raises on no arguments, hence the
      precondition. */
  method MergeDicts<K, V>(ds: seq<map<K, V>>) returns (r: map<K, V>)
    requires |ds| > 0
    ensures r == Merged(ds)
  {
    r := ds[0];
    for i := 1 to |ds|
      invariant r == Merged(ds[..i])
    {
      assert ds[..i + 1][..i] == ds[..i];
      r := r + ds[i];
    }
    assert ds[..|ds|] == ds;
  }

  /** The key `k` is in no dictionary after position `i`. */
  predicate AbsentAfter<K, V>(ds: seq<map<K, V>>, k: K, i: int) {
    forall j :: 0 <= j < |ds| && i < j ==> k !in ds[j]
  }

  /** A merge holds exactly the keys of its parts, and each key takes its
      value from the last dictionary that has it. */
  lemma {:induction false} MergedLastWins<K, V>(ds: seq<map<K, V>>, k: K)
    requires |ds| > 0
    ensures k in Merged(ds) <==> exists i :: 0 <= i < |ds| && k in ds[i]
    ensures forall i :: 0 <= i < |ds| && k in ds[i] && AbsentAfter(ds, k, i) ==> Merged(ds)[k] == ds[i][k]
  {
    if |ds| > 1 {
      var init := ds[..|ds| - 1];
      MergedLastWins(init, k);
      assert forall i :: 0 <= i < |init| ==> init[i] == ds[i];
    }
  }
}
