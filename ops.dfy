/**
  `group_indices(x, as_mask=False)`: the distinct keys of a one-dimensional
  integer array in ascending order and, for each, the positions that hold
  it.  The source chains three library calls and the model keeps the chain:
  a stable `argsort` (here an insertion sort of positions), `unique` with
  `return_index=True` on the sorted keys (on sorted input, the starts of the
  runs of equal keys), and `split` of the sorted positions at those starts.
  The input `seq<int>` stands for a one-dimensional NumPy integer array:
  a plain Python list has no `ndim` and fails the first assertion with an
  `AttributeError`, so the docstring's examples are read as calls on
  `np.array` of the lists shown.
*/
module Ops {
  import opened Results

  /** The index-list result: ascending distinct keys and one position list per key. */
  datatype Grouping = Grouping(unique: seq<int>, groups: seq<seq<nat>>)

  /** The `as_mask=True` result: one boolean mask over the input per key. */
  datatype MaskGrouping = MaskGrouping(unique: seq<int>, masks: seq<seq<bool>>)

  const EmptyMessage := "Encountered 0-sized array."

  predicate StrictlyAscending(s: seq<int>)
  {
    forall i, j :: 0 <= i < j < |s| ==> s[i] < s[j]
  }

  /** The positions of `x` that hold `v`, in ascending order: the reference for one group. */
  function Positions(x: seq<int>, v: int): (ps: seq<nat>)
    ensures StrictlyAscending(ps)
    ensures forall i :: 0 <= i < |ps| ==> ps[i] < |x| && x[ps[i]] == v
    ensures forall p {:trigger p in ps} :: 0 <= p < |x| && x[p] == v ==> p in ps
  {
    if x == [] then []
    else
      var n := |x| - 1;
      var init := Positions(x[..n], v);
      assert forall p :: 0 <= p < n && x[p] == v ==> x[..n][p] == v;
      init + (if x[n] == v then [n] else [])
  }

  /** Two strictly ascending sequences with the same elements are equal. */
  lemma {:induction false} AscendingByElements(s: seq<int>, t: seq<int>)
    requires StrictlyAscending(s) && StrictlyAscending(t)
    requires forall e :: e in s <==> e in t
    ensures s == t
  {
    assert t != [] ==> t[0] in t;
    if s != [] {
      assert s[0] in s;
      assert t != [] && t[0] in t;
      assert s[0] == t[0] by {
        var i :| 0 <= i < |s| && s[i] == t[0];
        var k :| 0 <= k < |t| && t[k] == s[0];
        assert s[0] <= s[i] && t[0] <= t[k];
      }
      forall e
        ensures e in s[1..] <==> e in t[1..]
      {
        if e in s[1..] {
          var i :| 1 <= i < |s| && s[i] == e;
          assert e in t && e != t[0];
        }
        if e in t[1..] {
          var k :| 1 <= k < |t| && t[k] == e;
          assert e in s && e != s[0];
        }
      }
      AscendingByElements(s[1..], t[1..]);
    }
  }

  // ----- stable argsort -----

  /** Position `p` sorts before `q`: a smaller key, or an equal key and an earlier position. */
  predicate KeyLess(x: seq<int>, p: nat, q: nat)
    requires p < |x| && q < |x|
  {
    x[p] < x[q] || (x[p] == x[q] && p < q)
  }

  /** `a` lists positions of `x` in stable sorted order of their keys. */
  predicate SortedByKey(x: seq<int>, a: seq<nat>)
  {
    (forall i :: 0 <= i < |a| ==> a[i] < |x|) &&
    (forall i, j :: 0 <= i < j < |a| ==> KeyLess(x, a[i], a[j]))
  }

  /** Insert position `p` after every position whose key is not larger. */
  function Insert(x: seq<int>, a: seq<nat>, p: nat): seq<nat>
    requires p < |x| && forall i :: 0 <= i < |a| ==> a[i] < |x|
  {
    if a == [] then [p]
    else if x[p] < x[a[0]] then [p] + a
    else [a[0]] + Insert(x, a[1..], p)
  }

  /** Insertion adds exactly `p`. */
  lemma {:induction false} InsertMembers(x: seq<int>, a: seq<nat>, p: nat)
    requires p < |x| && forall i :: 0 <= i < |a| ==> a[i] < |x|
    ensures |Insert(x, a, p)| == |a| + 1
    ensures forall q :: q in Insert(x, a, p) <==> q in a || q == p
  {
    if a != [] && x[p] >= x[a[0]] {
      InsertMembers(x, a[1..], p);
      assert a == [a[0]] + a[1..];
    }
  }

  /** Inserting a position later than all others keeps the order stable and sorted. */
  lemma {:induction false} InsertSorted(x: seq<int>, a: seq<nat>, p: nat)
    requires p < |x| && SortedByKey(x, a)
    requires forall i :: 0 <= i < |a| ==> a[i] < p
    ensures SortedByKey(x, Insert(x, a, p))
  {
    InsertMembers(x, a, p);
    if a != [] && x[p] >= x[a[0]] {
      InsertSorted(x, a[1..], p);
      InsertMembers(x, a[1..], p);
      var r := Insert(x, a, p);
      forall j | 1 <= j < |r|
        ensures KeyLess(x, r[0], r[j])
      {
        assert r[j] in Insert(x, a[1..], p);
      }
    }
  }

  /** The stable argsort of the first `k` positions. */
  function ArgsortPrefix(x: seq<int>, k: nat): (a: seq<nat>)
    requires k <= |x|
    ensures |a| == k && forall i :: 0 <= i < |a| ==> a[i] < k
  {
    if k == 0 then []
    else
      var a := ArgsortPrefix(x, k - 1);
      InsertMembers(x, a, k - 1);
      var r := Insert(x, a, k - 1);
      assert forall i :: 0 <= i < |r| ==> r[i] in r;
      r
  }

  /** The prefix argsort lists each of the first `k` positions once, in stable key order. */
  lemma {:induction false} ArgsortPrefixSorted(x: seq<int>, k: nat)
    requires k <= |x|
    ensures SortedByKey(x, ArgsortPrefix(x, k))
    ensures forall q: int :: q in ArgsortPrefix(x, k) <==> 0 <= q < k
  {
    if k > 0 {
      var a := ArgsortPrefix(x, k - 1);
      ArgsortPrefixSorted(x, k - 1);
      InsertMembers(x, a, k - 1);
      InsertSorted(x, a, k - 1);
    }
  }

  /** `np.argsort(x, kind='stable')` */
  function Argsort(x: seq<int>): (a: seq<nat>)
    ensures |a| == |x| && forall i :: 0 <= i < |a| ==> a[i] < |x|
  {
    ArgsortPrefix(x, |x|)
  }

  /** `x[a]` */
  function Gather(x: seq<int>, a: seq<nat>): (r: seq<int>)
    requires forall i :: 0 <= i < |a| ==> a[i] < |x|
    ensures |r| == |a| && forall k :: 0 <= k < |a| ==> r[k] == x[a[k]]
  {
    seq(|a|, i requires 0 <= i < |a| => x[a[i]])
  }

  // ----- unique and split -----

  /** The positions from `k` on where a new run of equal keys starts. */
  function RunStarts(s: seq<int>, k: nat): (b: seq<nat>)
    requires k <= |s|
    decreases |s| - k
    ensures forall i :: 0 <= i < |b| ==> k <= b[i] < |s|
  {
    if k == |s| then []
    else (if k == 0 || s[k] != s[k - 1] then [k] else []) + RunStarts(s, k + 1)
  }

  /** The run starts ascend, and are exactly the positions whose key differs from the one before. */
  lemma RunStartsExact(s: seq<int>, k: nat)
    requires k <= |s|
    ensures StrictlyAscending(RunStarts(s, k))
    ensures forall i :: i in RunStarts(s, k) <==> k <= i < |s| && (i == 0 || s[i] != s[i - 1])
  {
    RunStartsAscend(s, k);
    RunStartsMembers(s, k);
  }

  /** The run starts ascend strictly. */
  lemma {:induction false} RunStartsAscend(s: seq<int>, k: nat)
    requires k <= |s|
    decreases |s| - k
    ensures StrictlyAscending(RunStarts(s, k))
  {
    if k < |s| && (k == 0 || s[k] != s[k - 1]) {
      RunStartsAscend(s, k + 1);
      var rest := RunStarts(s, k + 1);
      var b := [k] + rest;
      assert RunStarts(s, k) == b;
      forall i, j | 0 <= i < j < |b| ensures b[i] < b[j] {
        if i > 0 {
          assert b[i] == rest[i - 1] && b[j] == rest[j - 1];
        }
      }
    } else if k < |s| {
      RunStartsAscend(s, k + 1);
    }
  }

  /** The run starts are exactly the positions whose key differs from the one before. */
  lemma {:induction false} RunStartsMembers(s: seq<int>, k: nat)
    requires k <= |s|
    decreases |s| - k
    ensures forall i :: i in RunStarts(s, k) <==> k <= i < |s| && (i == 0 || s[i] != s[i - 1])
  {
    if k < |s| {
      RunStartsMembers(s, k + 1);
      var rest := RunStarts(s, k + 1);
      if k == 0 || s[k] != s[k - 1] {
        assert RunStarts(s, k) == [k] + rest;
        forall i ensures i in [k] + rest <==> k <= i < |s| && (i == 0 || s[i] != s[i - 1]) {
          assert i in [k] + rest <==> i == k || i in rest;
        }
      } else {
        assert RunStarts(s, k) == rest;
        forall i ensures i in rest <==> k <= i < |s| && (i == 0 || s[i] != s[i - 1]) {
          if i == k {
            assert k !in rest;
          }
        }
      }
    } else {
      assert RunStarts(s, k) == [];
    }
  }

  /**
    `np.unique(s, return_index=True)` for a sorted `s`, the only way the
    source calls it: the first key of every run, and where each run starts.
  */
  function Unique(s: seq<int>): (r: (seq<int>, seq<nat>))
    ensures |r.0| == |r.1|
    ensures forall j :: 0 <= j < |r.1| ==> r.1[j] < |s| && r.0[j] == s[r.1[j]]
  {
    var b := RunStarts(s, 0);
    (seq(|b|, j requires 0 <= j < |b| => s[b[j]]), b)
  }

  predicate ValidCuts(cuts: seq<nat>, n: nat)
  {
    (forall i :: 0 <= i < |cuts| ==> cuts[i] <= n) &&
    (forall i, j :: 0 <= i < j < |cuts| ==> cuts[i] <= cuts[j])
  }

  function PieceLo(cuts: seq<nat>, j: nat): nat
    requires j <= |cuts|
  {
    if j == 0 then 0 else cuts[j - 1]
  }

  function PieceHi(cuts: seq<nat>, j: nat, n: nat): nat
    requires j <= |cuts|
  {
    if j < |cuts| then cuts[j] else n
  }

  /** `np.split(a, cuts)` for ascending cuts within the array. */
  function SplitAt<T>(a: seq<T>, cuts: seq<nat>): (pieces: seq<seq<T>>)
    requires ValidCuts(cuts, |a|)
    decreases |cuts|
    ensures |pieces| == |cuts| + 1
  {
    if cuts == [] then [a]
    else
      var m := |cuts| - 1;
      SplitAt(a[..cuts[m]], cuts[..m]) + [a[cuts[m]..]]
  }

  /** Piece `j` of the split is the slice between cut `j - 1` and cut `j`. */
  lemma {:induction false} SplitAtPieces<T>(a: seq<T>, cuts: seq<nat>)
    requires ValidCuts(cuts, |a|)
    decreases |cuts|
    ensures forall j :: 0 <= j <= |cuts| ==>
      PieceLo(cuts, j) <= PieceHi(cuts, j, |a|) <= |a| &&
      SplitAt(a, cuts)[j] == a[PieceLo(cuts, j)..PieceHi(cuts, j, |a|)]
  {
    if cuts != [] {
      var m := |cuts| - 1;
      var c := cuts[m];
      var init := cuts[..m];
      var front := SplitAt(a[..c], init);
      SplitAtPieces(a[..c], init);
      assert SplitAt(a, cuts) == front + [a[c..]];
      forall j | 0 <= j <= |cuts|
        ensures PieceLo(cuts, j) <= PieceHi(cuts, j, |a|) <= |a|
        ensures SplitAt(a, cuts)[j] == a[PieceLo(cuts, j)..PieceHi(cuts, j, |a|)]
      {
        var lo, hi := PieceLo(cuts, j), PieceHi(cuts, j, |a|);
        if j < |cuts| {
          assert lo == PieceLo(init, j) && hi == PieceHi(init, j, c);
          assert SplitAt(a, cuts)[j] == front[j] == a[..c][lo..hi];
          assert a[..c][lo..hi] == a[lo..hi];
        } else {
          assert SplitAt(a, cuts)[j] == a[c..];
        }
      }
    }
  }

  /**
    The chain of library calls for a non-empty `x`: stable argsort, unique
    of the sorted keys, split of the sorted positions at the run starts.
  */
  function SplitByKey(x: seq<int>): (g: Grouping)
    requires |x| > 0
    ensures StrictlyAscending(g.unique)
    ensures forall v :: v in g.unique <==> v in x
    ensures |g.groups| == |g.unique|
    ensures forall j :: 0 <= j < |g.groups| ==> g.groups[j] == Positions(x, g.unique[j])
    ensures TotalSize(g.groups) == |x|
  {
    var argidx := Argsort(x);
    var sortedX := Gather(x, argidx);
    var (uniqueItems, firstIndices) := Unique(sortedX);
    GroupsArePositions(x);
    assert ValidCuts(firstIndices[1..], |argidx|);
    var groups := SplitAt(argidx, firstIndices[1..]);
    SplitSizes(argidx, firstIndices[1..]);
    Grouping(uniqueItems, groups)
  }

  /**
    `group_indices(x)`: an empty array raises; otherwise the keys ascend
    strictly and are exactly the keys of `x`, there is one group per key,
    and group `j` lists the positions holding key `j` in ascending order.
  */
  function GroupIndices(x: seq<int>): (r: Result<Grouping>)
    ensures r.Failure? <==> |x| == 0
    ensures r.Failure? ==> r.error == ValueError(EmptyMessage)
    ensures r.Success? ==> StrictlyAscending(r.value.unique)
    ensures r.Success? ==> forall v :: v in r.value.unique <==> v in x
    ensures r.Success? ==> |r.value.groups| == |r.value.unique|
    ensures r.Success? ==> forall j :: 0 <= j < |r.value.groups| ==>
      r.value.groups[j] == Positions(x, r.value.unique[j])
    ensures r.Success? ==> TotalSize(r.value.groups) == |x|
  {
    if |x| == 0 then Failure(ValueError(EmptyMessage)) else Success(SplitByKey(x))
  }

  // ----- the proof that the split pieces are the groups -----

  /** Where run `j` of the sorted keys ends. */
  function RunEnd(b: seq<nat>, j: nat, n: nat): nat
    requires j < |b|
  {
    if j + 1 < |b| then b[j + 1] else n
  }

  /** The keys are constant within a run. */
  lemma {:induction false} RunIsConstant(s: seq<int>, j: nat, k: nat)
    requires j < |RunStarts(s, 0)|
    requires RunStarts(s, 0)[j] <= k < RunEnd(RunStarts(s, 0), j, |s|)
    ensures s[k] == s[RunStarts(s, 0)[j]]
    decreases k
  {
    var b := RunStarts(s, 0);
    RunStartsExact(s, 0);
    if k > b[j] {
      assert k !in b;
      RunIsConstant(s, j, k - 1);
    }
  }

  /** Every position of the sorted keys lies in some run. */
  lemma {:induction false} InSomeRun(s: seq<int>, k: nat) returns (j: nat)
    requires k < |s|
    ensures j < |RunStarts(s, 0)| && RunStarts(s, 0)[j] <= k < RunEnd(RunStarts(s, 0), j, |s|)
  {
    var b := RunStarts(s, 0);
    RunStartsExact(s, 0);
    if k == 0 || s[k] != s[k - 1] {
      assert k in b;
      j :| 0 <= j < |b| && b[j] == k;
      if j + 1 < |b| {
        assert b[j] < b[j + 1];
      }
    } else {
      j := InSomeRun(s, k - 1);
    }
  }

  /** On sorted keys, the first keys of successive runs strictly ascend. */
  lemma {:induction false} RunKeysAscend(s: seq<int>, j: nat, j': nat)
    requires forall i, k :: 0 <= i < k < |s| ==> s[i] <= s[k]
    requires j < j' < |RunStarts(s, 0)|
    ensures s[RunStarts(s, 0)[j]] < s[RunStarts(s, 0)[j']]
  {
    var b := RunStarts(s, 0);
    RunStartsExact(s, 0);
    var c := b[j + 1];
    assert c in b;
    RunIsConstant(s, j, c - 1);
    assert s[c - 1] <= s[c] && s[c] <= s[b[j']];
  }

  /**
    `np.unique(s, return_index=True)` on sorted keys: the unique keys ascend
    strictly and are exactly the values of `s`, and each index is the first
    position holding its key.
  */
  lemma {:induction false} UniqueOfSorted(s: seq<int>)
    requires forall i, k :: 0 <= i < k < |s| ==> s[i] <= s[k]
    ensures StrictlyAscending(Unique(s).0) && StrictlyAscending(Unique(s).1)
    ensures forall v :: v in Unique(s).0 <==> v in s
    ensures forall j, p :: 0 <= j < |Unique(s).1| && 0 <= p < Unique(s).1[j] ==> s[p] != Unique(s).0[j]
  {
    var (u, b) := Unique(s);
    RunStartsExact(s, 0);
    forall j, j' | 0 <= j < j' < |u| ensures u[j] < u[j'] {
      RunKeysAscend(s, j, j');
    }
    forall v | v in s ensures v in u {
      var k :| 0 <= k < |s| && s[k] == v;
      var j := InSomeRun(s, k);
      RunIsConstant(s, j, k);
    }
    forall j, p | 0 <= j < |b| && 0 <= p < b[j] ensures s[p] != u[j] {
      assert b[j] in b;
      assert s[p] <= s[b[j] - 1] && s[b[j] - 1] != s[b[j]];
    }
  }

  /**
    `a` lists the positions of `x` in stable key order and `s` holds their
    keys: what the argsort and the gather of the chain produce.
  */
  ghost predicate SortedView(x: seq<int>, a: seq<nat>, s: seq<int>)
  {
    |a| == |x| && |s| == |x| && SortedByKey(x, a) &&
    (forall q: int :: q in a <==> 0 <= q < |x|) &&
    (forall i :: 0 <= i < |a| ==> s[i] == x[a[i]])
  }

  /** The keys gathered in argsort order are sorted. */
  lemma {:induction false} GatheredSorted(x: seq<int>, a: seq<nat>, s: seq<int>)
    requires SortedView(x, a, s)
    ensures forall i, k :: 0 <= i < k < |s| ==> s[i] <= s[k]
  {
    forall i, k | 0 <= i < k < |a| ensures x[a[i]] <= x[a[k]] {
      assert KeyLess(x, a[i], a[k]);
    }
  }

  /** The first run starts at position 0. */
  lemma {:induction false} FirstRunAtZero(s: seq<int>)
    requires |s| > 0
    ensures |RunStarts(s, 0)| > 0 && RunStarts(s, 0)[0] == 0
  {
    var b := RunStarts(s, 0);
    RunStartsExact(s, 0);
    assert 0 in b;
    var i :| 0 <= i < |b| && b[i] == 0;
  }

  /** Every key of `x` is the first key of some run of the sorted keys. */
  lemma {:induction false} KeyHasRun(x: seq<int>, a: seq<nat>, s: seq<int>, p: nat) returns (j: nat, k: nat)
    requires SortedView(x, a, s) && p < |x|
    ensures j < |RunStarts(s, 0)| && s[RunStarts(s, 0)[j]] == x[p]
    ensures RunStarts(s, 0)[j] <= k < RunEnd(RunStarts(s, 0), j, |s|) && a[k] == p
  {
    assert p in a;
    k :| 0 <= k < |a| && a[k] == p;
    j := InSomeRun(s, k);
    RunIsConstant(s, j, k);
  }

  /** Split piece `j` of the sorted positions is the stretch of run `j`. */
  lemma {:induction false} PieceIsRun(a: seq<nat>, s: seq<int>, j: nat)
    requires |a| == |s| > 0
    requires j < |RunStarts(s, 0)|
    ensures
      var b := RunStarts(s, 0);
      b[j] <= RunEnd(b, j, |a|) <= |a| &&
      ValidCuts(b[1..], |a|) && SplitAt(a, b[1..])[j] == a[b[j]..RunEnd(b, j, |a|)]
  {
    var b := RunStarts(s, 0);
    FirstRunAtZero(s);
    RunStartsExact(s, 0);
    SplitAtPieces(a, b[1..]);
    assert PieceLo(b[1..], j) == b[j];
    assert PieceHi(b[1..], j, |a|) == RunEnd(b, j, |a|);
  }

  /** The positions in the stretch of run `j` all hold the run's key. */
  lemma {:induction false} RunStretchKeyed(x: seq<int>, a: seq<nat>, s: seq<int>, j: nat)
    requires SortedView(x, a, s)
    requires j < |RunStarts(s, 0)|
    ensures
      var b := RunStarts(s, 0);
      forall k :: b[j] <= k < RunEnd(b, j, |a|) ==> x[a[k]] == s[b[j]]
  {
    var b := RunStarts(s, 0);
    forall k | b[j] <= k < RunEnd(b, j, |a|) ensures x[a[k]] == s[b[j]] {
      RunIsConstant(s, j, k);
    }
  }

  /** The stretch of run `j` lists its positions in ascending order: the sort is stable. */
  lemma {:induction false} RunStretchAscending(x: seq<int>, a: seq<nat>, s: seq<int>, j: nat)
    requires SortedView(x, a, s)
    requires j < |RunStarts(s, 0)|
    ensures
      var b := RunStarts(s, 0);
      b[j] <= RunEnd(b, j, |a|) <= |a| &&
      StrictlyAscending(a[b[j]..RunEnd(b, j, |a|)])
  {
    var b := RunStarts(s, 0);
    RunStartsExact(s, 0);
    var lo, hi := b[j], RunEnd(b, j, |a|);
    RunStretchKeyed(x, a, s, j);
    var g := a[lo..hi];
    forall i, i' | 0 <= i < i' < |g| ensures g[i] < g[i'] {
      var k, k' := lo + i, lo + i';
      assert g[i] == a[k] && g[i'] == a[k'];
      assert x[a[k]] == s[lo] == x[a[k']];
      assert KeyLess(x, a[k], a[k']);
    }
  }

  /** Every position holding the key of run `j` appears in the stretch of run `j`. */
  lemma {:induction false} RunStretchComplete(x: seq<int>, a: seq<nat>, s: seq<int>, j: nat, p: nat)
    requires SortedView(x, a, s)
    requires j < |RunStarts(s, 0)|
    requires p < |x| && x[p] == s[RunStarts(s, 0)[j]]
    ensures
      var b := RunStarts(s, 0);
      b[j] <= RunEnd(b, j, |a|) && p in a[b[j]..RunEnd(b, j, |a|)]
  {
    var b := RunStarts(s, 0);
    RunStartsExact(s, 0);
    GatheredSorted(x, a, s);
    var j', k := KeyHasRun(x, a, s, p);
    if j' < j { RunKeysAscend(s, j', j); }
    if j < j' { RunKeysAscend(s, j, j'); }
    assert a[b[j]..RunEnd(b, j, |a|)][k - b[j]] == p;
  }

  /** Split piece `j` of the sorted positions is the ascending list of the positions holding run key `j`. */
  lemma {:induction false} PieceIsPositions(x: seq<int>, a: seq<nat>, s: seq<int>, j: nat)
    requires SortedView(x, a, s) && |x| > 0
    requires j < |RunStarts(s, 0)|
    ensures
      var b := RunStarts(s, 0);
      ValidCuts(b[1..], |a|) &&
      SplitAt(a, b[1..])[j] == Positions(x, s[b[j]])
  {
    var b := RunStarts(s, 0);
    RunStartsExact(s, 0);
    var g := a[b[j]..RunEnd(b, j, |a|)];
    var key := s[b[j]];
    PieceIsRun(a, s, j);
    RunStretchAscending(x, a, s, j);
    RunStretchKeyed(x, a, s, j);
    forall p ensures p in g <==> p in Positions(x, key) {
      if p in g {
        var i :| 0 <= i < |g| && g[i] == p;
      }
      if p in Positions(x, key) {
        var i :| 0 <= i < |Positions(x, key)| && Positions(x, key)[i] == p;
        RunStretchComplete(x, a, s, j, p);
      }
    }
    AscendingByElements(g, Positions(x, key));
  }

  /** On a sorted view the first keys of the runs ascend strictly. */
  lemma {:induction false} RunKeysStrictlyAscend(x: seq<int>, a: seq<nat>, s: seq<int>)
    requires SortedView(x, a, s)
    ensures StrictlyAscending(Unique(s).0)
  {
    var u := Unique(s).0;
    GatheredSorted(x, a, s);
    forall j, j' | 0 <= j < j' < |u| ensures u[j] < u[j'] {
      RunKeysAscend(s, j, j');
    }
  }

  /** On a sorted view the first keys of the runs are exactly the keys of `x`. */
  lemma {:induction false} RunKeysAreKeys(x: seq<int>, a: seq<nat>, s: seq<int>)
    requires SortedView(x, a, s)
    ensures forall v :: v in Unique(s).0 <==> v in x
  {
    var u := Unique(s).0;
    forall v ensures v in u <==> v in x {
      if v in x {
        var p :| 0 <= p < |x| && x[p] == v;
        var j, k := KeyHasRun(x, a, s, p);
        assert u[j] == v;
      }
      if v in u {
        var j :| 0 <= j < |u| && u[j] == v;
        assert v == x[a[RunStarts(s, 0)[j]]];
      }
    }
  }

  /** On a sorted view split piece `j` is the ascending list of the positions holding run key `j`. */
  lemma {:induction false} PiecesArePositions(x: seq<int>, a: seq<nat>, s: seq<int>)
    requires SortedView(x, a, s) && |x| > 0
    ensures
      var u := Unique(s).0;
      var b := Unique(s).1;
      |b| > 0 && ValidCuts(b[1..], |a|) && |SplitAt(a, b[1..])| == |u| &&
      forall j :: 0 <= j < |u| ==> SplitAt(a, b[1..])[j] == Positions(x, u[j])
  {
    var b := RunStarts(s, 0);
    var u := Unique(s).0;
    PieceIsRun(a, s, 0);
    forall j | 0 <= j < |u| ensures SplitAt(a, b[1..])[j] == Positions(x, u[j]) {
      PieceIsPositions(x, a, s, j);
    }
  }

  /**
    For a non-empty `x`, the chain argsort, unique, split yields ascending
    distinct keys that are exactly the keys of `x`, and split piece `j` is
    the ascending list of the positions holding key `j`.
  */
  lemma {:induction false} GroupsArePositions(x: seq<int>)
    requires |x| > 0
    ensures
      var a := Argsort(x);
      var s := Gather(x, a);
      var u := Unique(s).0;
      var b := Unique(s).1;
      |b| > 0 && ValidCuts(b[1..], |a|) &&
      StrictlyAscending(u) && (forall v :: v in u <==> v in x) &&
      |SplitAt(a, b[1..])| == |u| &&
      forall j :: 0 <= j < |u| ==> SplitAt(a, b[1..])[j] == Positions(x, u[j])
  {
    var a := Argsort(x);
    var s := Gather(x, a);
    ArgsortPrefixSorted(x, |x|);
    assert SortedView(x, a, s);
    RunKeysStrictlyAscend(x, a, s);
    RunKeysAreKeys(x, a, s);
    PiecesArePositions(x, a, s);
  }

  // ----- what the result promises -----

  /** The total number of positions over all groups. */
  function TotalSize(groups: seq<seq<nat>>): nat
  {
    if groups == [] then 0 else TotalSize(groups[..|groups| - 1]) + |groups[|groups| - 1]|
  }

  /** Splitting loses and duplicates nothing: the pieces' sizes add up to the whole. */
  lemma {:induction false} SplitSizes(a: seq<nat>, cuts: seq<nat>)
    requires ValidCuts(cuts, |a|)
    ensures TotalSize(SplitAt(a, cuts)) == |a|
    decreases |cuts|
  {
    if cuts != [] {
      var m := |cuts| - 1;
      var c := cuts[m];
      var pieces := SplitAt(a, cuts);
      assert pieces[..|pieces| - 1] == SplitAt(a[..c], cuts[..m]);
      SplitSizes(a[..c], cuts[..m]);
    }
  }

  /** Position `p` lies in some group. */
  ghost predicate InSomeGroup(groups: seq<seq<nat>>, p: nat)
  {
    exists j :: 0 <= j < |groups| && p in groups[j]
  }

  /**
    The groups partition the positions `0..n-1`: every position lies in
    exactly one group, and the group sizes add up to `n`.
  */
  lemma {:induction false} GroupsPartition(x: seq<int>)
    requires |x| > 0
    ensures
      var g := GroupIndices(x).value;
      (forall p :: 0 <= p < |x| ==> InSomeGroup(g.groups, p)) &&
      (forall j, j', p :: 0 <= j < |g.groups| && 0 <= j' < |g.groups| && p in g.groups[j] && p in g.groups[j'] ==> j == j') &&
      TotalSize(g.groups) == |x|
  {
    var g := GroupIndices(x).value;
    forall p | 0 <= p < |x| ensures InSomeGroup(g.groups, p) {
      assert x[p] in x;
      var j :| 0 <= j < |g.unique| && g.unique[j] == x[p];
      assert p in g.groups[j];
    }
    forall j, j', p | 0 <= j < |g.groups| && 0 <= j' < |g.groups| && p in g.groups[j] && p in g.groups[j']
      ensures j == j'
    {
      var i :| 0 <= i < |g.groups[j]| && g.groups[j][i] == p;
      var i' :| 0 <= i' < |g.groups[j']| && g.groups[j'][i'] == p;
      assert g.unique[j] == x[p] == g.unique[j'];
    }
  }

  /**
    The result is determined by its specification: ascending distinct keys
    that are exactly those of `x`, each with its ascending positions.
  */
  lemma {:induction false} GroupIndicesDetermined(x: seq<int>, u: seq<int>, gs: seq<seq<nat>>)
    requires |x| > 0 && StrictlyAscending(u) && (forall v :: v in u <==> v in x)
    requires |gs| == |u| && forall j :: 0 <= j < |u| ==> Positions(x, u[j]) == gs[j]
    ensures GroupIndices(x) == Success(Grouping(u, gs))
  {
    var r := GroupIndices(x);
    var g := r.value;
    AscendingByElements(g.unique, u);
    forall j | 0 <= j < |gs| ensures g.groups[j] == gs[j] {
      assert g.groups[j] == Positions(x, u[j]);
    }
    assert g == Grouping(u, gs);
  }

  /** `group_indices(np.array([1, 4, 3, 2, 1, 2, 3, 3, 4]))`, the first example of the docstring. */
  lemma {:induction false} FirstDocstringExample(x: seq<int>)
    requires x == [1, 4, 3, 2, 1, 2, 3, 3, 4]
    ensures GroupIndices(x) == Success(Grouping([1, 2, 3, 4], [[0, 4], [3, 5], [2, 6, 7], [1, 8]]))
  {
    AscendingByElements(Positions(x, 1), [0, 4]);
    AscendingByElements(Positions(x, 2), [3, 5]);
    AscendingByElements(Positions(x, 3), [2, 6, 7]);
    AscendingByElements(Positions(x, 4), [1, 8]);
    GroupIndicesDetermined(x, [1, 2, 3, 4], [[0, 4], [3, 5], [2, 6, 7], [1, 8]]);
  }

  /** `group_indices(np.array([1, 1, 1]))`, the second example of the docstring. */
  lemma {:induction false} SecondDocstringExample(x: seq<int>)
    requires x == [1, 1, 1]
    ensures GroupIndices(x) == Success(Grouping([1], [[0, 1, 2]]))
  {
    AscendingByElements(Positions(x, 1), [0, 1, 2]);
    GroupIndicesDetermined(x, [1], [[0, 1, 2]]);
  }

  /** `group_indices(np.array([1, 4, 2, 2, 1]))`, the input of the mask examples of the docstring. */
  lemma {:induction false} MaskDocstringInput(x: seq<int>)
    requires x == [1, 4, 2, 2, 1]
    ensures GroupIndices(x) == Success(Grouping([1, 2, 4], [[0, 4], [2, 3], [1]]))
  {
    AscendingByElements(Positions(x, 1), [0, 4]);
    AscendingByElements(Positions(x, 2), [2, 3]);
    AscendingByElements(Positions(x, 4), [1]);
    GroupIndicesDetermined(x, [1, 2, 4], [[0, 4], [2, 3], [1]]);
  }

  // ----- as_mask=True -----

  /** Position `p` is set in some mask. */
  ghost predicate InSomeMask(masks: seq<seq<bool>>, p: nat)
  {
    exists j :: 0 <= j < |masks| && p < |masks[j]| && masks[j][p]
  }

  /** `np.zeros(n, dtype=bool)` with `mask[group] = True` written in place. */
  method MaskOf(n: nat, group: seq<nat>) returns (mask: seq<bool>)
    requires forall i :: 0 <= i < |group| ==> group[i] < n
    ensures |mask| == n
    ensures forall p :: 0 <= p < n ==> (mask[p] <==> p in group)
  {
    var m := new bool[n](_ => false);
    var k := 0;
    while k < |group|
      invariant 0 <= k <= |group|
      invariant forall p :: 0 <= p < n ==> (m[p] <==> p in group[..k])
    {
      m[group[k]] := true;
      assert group[..k + 1] == group[..k] + [group[k]];
      k := k + 1;
    }
    assert group[..k] == group;
    mask := m[..];
  }

  /** One mask per group, each written in place as `_group[group] = True`. */
  method MasksOf(n: nat, groups: seq<seq<nat>>) returns (masks: seq<seq<bool>>)
    requires forall j, i :: 0 <= j < |groups| && 0 <= i < |groups[j]| ==> groups[j][i] < n
    ensures |masks| == |groups|
    ensures forall j :: 0 <= j < |groups| ==>
      |masks[j]| == n && (forall p :: 0 <= p < n ==> (masks[j][p] <==> p in groups[j]))
  {
    masks := [];
    var j := 0;
    while j < |groups|
      invariant 0 <= j <= |groups|
      invariant |masks| == j
      invariant forall i :: 0 <= i < j ==>
        |masks[i]| == n && (forall p :: 0 <= p < n ==> (masks[i][p] <==> p in groups[i]))
    {
      var m := MaskOf(n, groups[j]);
      masks := masks + [m];
      j := j + 1;
    }
  }

  /**
    One mask per key, each as long as `x`, true exactly at the positions
    that hold its key and at the positions of the matching index group.
  */
  ghost predicate MasksMatch(x: seq<int>, g: Grouping, masks: seq<seq<bool>>)
  {
    |masks| == |g.unique| && |g.groups| == |g.unique| &&
    forall j :: 0 <= j < |masks| ==>
      |masks[j]| == |x| &&
      forall p :: 0 <= p < |x| ==>
        (masks[j][p] <==> x[p] == g.unique[j]) && (masks[j][p] <==> p in g.groups[j])
  }

  /** Every position is set in exactly one mask. */
  ghost predicate MasksPartition(n: nat, masks: seq<seq<bool>>)
  {
    (forall p :: 0 <= p < n ==> InSomeMask(masks, p)) &&
    (forall j, j', p :: 0 <= j < j' < |masks| && 0 <= p < n && p < |masks[j]| && p < |masks[j']| ==>
      !(masks[j][p] && masks[j'][p]))
  }

  /** Masks that mark the groups of a grouping mark the keys, and partition the positions. */
  lemma {:induction false} MasksMarkKeys(x: seq<int>, g: Grouping, masks: seq<seq<bool>>)
    requires StrictlyAscending(g.unique) && (forall v :: v in g.unique <==> v in x)
    requires |g.groups| == |g.unique| && forall j :: 0 <= j < |g.groups| ==> g.groups[j] == Positions(x, g.unique[j])
    requires |masks| == |g.groups|
    requires forall j :: 0 <= j < |masks| ==>
      |masks[j]| == |x| && (forall p :: 0 <= p < |x| ==> (masks[j][p] <==> p in g.groups[j]))
    ensures MasksMatch(x, g, masks)
    ensures MasksPartition(|x|, masks)
  {
    forall j, p | 0 <= j < |masks| && 0 <= p < |x| ensures masks[j][p] <==> x[p] == g.unique[j] {
      if masks[j][p] {
        var i :| 0 <= i < |g.groups[j]| && g.groups[j][i] == p;
      }
    }
    forall p | 0 <= p < |x| ensures InSomeMask(masks, p) {
      assert x[p] in x;
      var j :| 0 <= j < |g.unique| && g.unique[j] == x[p];
      assert p in Positions(x, g.unique[j]);
      assert masks[j][p];
    }
  }

  /**
    `group_indices(x, as_mask=True)`: an empty array raises as without
    `as_mask`; otherwise the keys are those of `group_indices(x)`, mask `j`
    is true exactly at the positions holding key `j`, i.e. at the positions
    of index group `j`, and the masks partition the positions.
  */
  method GroupIndicesAsMask(x: seq<int>) returns (r: Result<MaskGrouping>)
    ensures r.Failure? <==> |x| == 0
    ensures r.Failure? ==> r.error == ValueError(EmptyMessage)
    ensures r.Success? ==> r.value.unique == GroupIndices(x).value.unique
    ensures r.Success? ==> MasksMatch(x, GroupIndices(x).value, r.value.masks)
    ensures r.Success? ==> MasksPartition(|x|, r.value.masks)
  {
    var g := GroupIndices(x);
    if g.Failure? {
      return Failure(g.error);
    }
    var masks := MasksOf(|x|, g.value.groups);
    MasksMarkKeys(x, g.value, masks);
    r := Success(MaskGrouping(g.value.unique, masks));
  }

  /** A mask that matches a grouping is the mask of its key. */
  lemma MaskOfKey(x: seq<int>, g: Grouping, masks: seq<seq<bool>>, j: nat, expected: seq<bool>)
    requires MasksMatch(x, g, masks) && j < |masks|
    requires |expected| == |x| && forall p :: 0 <= p < |x| ==> (expected[p] <==> x[p] == g.unique[j])
    ensures masks[j] == expected
  {
  }

  /** The masks matching the grouping of `[1, 4, 2, 2, 1]` are the ones the docstring shows. */
  lemma DocstringMasks(x: seq<int>, g: Grouping, masks: seq<seq<bool>>)
    requires x == [1, 4, 2, 2, 1] && g == Grouping([1, 2, 4], [[0, 4], [2, 3], [1]])
    requires MasksMatch(x, g, masks)
    ensures masks == [[true, false, false, false, true], [false, false, true, true, false], [false, true, false, false, false]]
  {
    MaskOfKey(x, g, masks, 0, [true, false, false, false, true]);
    MaskOfKey(x, g, masks, 1, [false, false, true, true, false]);
    MaskOfKey(x, g, masks, 2, [false, true, false, false, false]);
    assert masks == [masks[0], masks[1], masks[2]];
  }

  /** The mask examples of the docstring, `group_indices(np.array([1, 4, 2, 2, 1]), as_mask=True)`. */
  method MaskExamples(x: seq<int>) returns (r: Result<MaskGrouping>)
    requires x == [1, 4, 2, 2, 1]
    ensures r == Success(MaskGrouping([1, 2, 4], [
      [true, false, false, false, true],
      [false, false, true, true, false],
      [false, true, false, false, false]]))
  {
    MaskDocstringInput(x);
    r := GroupIndicesAsMask(x);
    DocstringMasks(x, GroupIndices(x).value, r.value.masks);
  }
}
