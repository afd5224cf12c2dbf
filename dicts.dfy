/**
  A Python `dict` with string keys, as the modelled code uses keyword
  arguments: its entries in insertion order, every key at most once.
*/
module Dicts {
  import opened Results

  type Dict<V> = seq<(string, V)>

  /** No key occurs twice, as in every Python dict. */
  predicate DistinctKeys<V>(d: Dict<V>)
  {
    forall i, j :: 0 <= i < j < |d| ==> d[i].0 != d[j].0
  }

  predicate HasKey<V>(d: Dict<V>, k: string)
  {
    exists i :: 0 <= i < |d| && d[i].0 == k
  }

  /** `d.get(k)`: the value stored under `k`, if any. */
  function Get<V>(d: Dict<V>, k: string): (r: Option<V>)
    ensures r.Some? <==> HasKey(d, k)
    ensures r.Some? ==> (k, r.value) in d
    ensures forall i :: 0 <= i < |d| && d[i].0 == k && DistinctKeys(d) ==> r == Some(d[i].1)
  {
    if d == [] then None
    else if d[0].0 == k then Some(d[0].1)
    else
      var r := Get(d[1..], k);
      assert forall i :: 1 <= i < |d| ==> d[i] == d[1..][i - 1];
      r
  }

  /** `d.get(k, default)` */
  function GetOr<V>(d: Dict<V>, k: string, default: V): V
  {
    var r := Get(d, k);
    if r.Some? then r.value else default
  }

  /** The entries whose key is not in `ks`, in their order: `{k: v for k, v in d.items() if k not in ks}`. */
  function Without<V>(d: Dict<V>, ks: set<string>): (r: Dict<V>)
    ensures forall i :: 0 <= i < |r| ==> r[i] in d && r[i].0 !in ks
    ensures forall i :: 0 <= i < |d| && d[i].0 !in ks ==> d[i] in r
  {
    if d == [] then []
    else (if d[0].0 in ks then [] else [d[0]]) + Without(d[1..], ks)
  }

  /**
    `d.pop(k, default)`: the value under `k`, or `default` when `k` is
    missing, and the dict with the entry of `k` taken out.
  */
  function Pop<V>(d: Dict<V>, k: string, default: V): (r: (V, Dict<V>))
    ensures HasKey(d, k) ==> (k, r.0) in d
    ensures !HasKey(d, k) ==> r.0 == default
    ensures forall i :: 0 <= i < |r.1| ==> r.1[i] in d && r.1[i].0 != k
    ensures forall i :: 0 <= i < |d| && d[i].0 != k ==> d[i] in r.1
  {
    (GetOr(d, k, default), Without(d, {k}))
  }

  /** Taking keys out one after the other takes out all of them at once. */
  lemma {:induction false} WithoutWithout<V>(d: Dict<V>, ks: set<string>, k: string)
    ensures Without(Without(d, ks), {k}) == Without(d, ks + {k})
  {
    if d != [] {
      WithoutWithout(d[1..], ks, k);
      var head := if d[0].0 in ks then [] else [d[0]];
      assert Without(d, ks) == head + Without(d[1..], ks);
      WithoutAppend(head, Without(d[1..], ks), {k});
    }
  }

  /** Filtering distributes over concatenation. */
  lemma {:induction false} WithoutAppend<V>(d: Dict<V>, e: Dict<V>, ks: set<string>)
    ensures Without(d + e, ks) == Without(d, ks) + Without(e, ks)
  {
    if d != [] {
      var head := if d[0].0 in ks then [] else [d[0]];
      assert (d + e)[0] == d[0] && (d + e)[1..] == d[1..] + e;
      WithoutAppend(d[1..], e, ks);
      calc {
        Without(d + e, ks);
        head + Without(d[1..] + e, ks);
        head + (Without(d[1..], ks) + Without(e, ks));
        (head + Without(d[1..], ks)) + Without(e, ks);
      }
    } else {
      assert d + e == e;
    }
  }

  /** Taking entries out keeps the keys distinct. */
  lemma {:induction false} WithoutDistinct<V>(d: Dict<V>, ks: set<string>)
    requires DistinctKeys(d)
    ensures DistinctKeys(Without(d, ks))
  {
    if d != [] {
      WithoutDistinct(d[1..], ks);
      var rest := Without(d[1..], ks);
      forall i | 0 <= i < |rest| ensures rest[i].0 != d[0].0 {
        assert rest[i] in d[1..];
      }
    }
  }

  /** A lookup after taking keys out finds nothing for those keys and the old value for the others. */
  lemma {:induction false} GetWithout<V>(d: Dict<V>, ks: set<string>, k: string)
    requires DistinctKeys(d)
    ensures Get(Without(d, ks), k) == if k in ks then None else Get(d, k)
  {
    WithoutDistinct(d, ks);
    var r := Without(d, ks);
    if k in ks || !HasKey(d, k) {
      forall i | 0 <= i < |r| ensures r[i].0 != k {
        var j :| 0 <= j < |d| && d[j] == r[i];
      }
    } else {
      var i :| 0 <= i < |d| && d[i].0 == k;
      assert d[i] in r;
      var j :| 0 <= j < |r| && r[j] == d[i];
    }
  }

  /**
    Popping key `k` from what is left after the keys `ks` were popped
    returns the value `k` had at the start and leaves the dict without
    `ks` and `k`.
  */
  lemma PopRemaining<V>(d: Dict<V>, ks: set<string>, k: string, default: V)
    requires DistinctKeys(d) && k !in ks
    ensures Pop(Without(d, ks), k, default) == (GetOr(d, k, default), Without(d, ks + {k}))
  {
    WithoutDistinct(d, ks);
    GetWithout(d, ks, k);
    WithoutWithout(d, ks, k);
  }
}
