/**
  The small selection helpers and the wrapping list of `_bubbles.py`:
  `default`, `default_index`, `default_range` and `InfList.__getitem__`.
  `InfList` itself is the `Values.InfList` object; its `__getitem__` is
  `Values.GetItem`, which looks up `data[i % len(data)]` through `Cyclic.At`.
*/
module Bubbles {
  import opened Results
  import opened Values
  import Cyclic

  /** `default(x, value=list())`: `value` stands in for a missing `x`. */
  function Default(x: Value, value: Value := List([])): (r: Value)
    ensures x.NoneValue? ==> r == value
    ensures !x.NoneValue? ==> r == x
  {
    if x.NoneValue? then value else x
  }

  /** Applying the default twice changes nothing, and the result is `None` only when both are. */
  lemma DefaultSettles(x: Value, value: Value)
    ensures Default(Default(x, value), value) == Default(x, value)
    ensures Default(x, value).NoneValue? <==> x.NoneValue? && value.NoneValue?
    ensures Default(x) != NoneValue
  {
  }

  /** `default_index(x, expected_type, idx)`: index into `x` when it has the expected type. */
  function DefaultIndex(x: Value, expectedType: Type, idx: int): (r: Result<Value>)
    ensures IsInstance(x, expectedType) ==> r == GetItem(x, idx)
    ensures !IsInstance(x, expectedType) ==> r == Success(x)
  {
    if IsInstance(x, expectedType) then GetItem(x, idx) else Success(x)
  }

  /**
    `[x[i] for i in range(k, n)]`, evaluated left to right: the first index
    that raises ends the comprehension with that exception.
  */
  function ItemsFrom(x: Value, k: nat, n: int): (r: Result<seq<Value>>)
    decreases n - k
    ensures r.Success? ==> |r.value| == (if n <= k then 0 else n - k)
    ensures r.Success? ==> forall i :: k <= i < n ==> GetItem(x, i) == Success(r.value[i - k])
    ensures r.Success? <==> forall i :: k <= i < n ==> GetItem(x, i).Success?
    ensures r.Failure? ==> exists i :: k <= i < n && GetItem(x, i) == Failure(r.error)
  {
    if n <= k then Success([])
    else
      var head := GetItem(x, k);
      if head.Failure? then Failure(head.error)
      else
        var tail := ItemsFrom(x, k + 1, n);
        if tail.Failure? then tail else Success([head.value] + tail.value)
  }

  /** `default_range(x, expected_type, n)`: the first `n` items of `x` as a list when it has the expected type. */
  function DefaultRange(x: Value, expectedType: Type, n: int): (r: Result<Value>)
    ensures !IsInstance(x, expectedType) ==> r == Success(x)
    ensures IsInstance(x, expectedType) ==>
      (r.Success? <==> forall i :: 0 <= i < n ==> GetItem(x, i).Success?)
    ensures IsInstance(x, expectedType) && r.Success? ==>
      r.value.List? && |r.value.items| == (if n <= 0 then 0 else n) &&
      forall i :: 0 <= i < n ==> GetItem(x, i) == Success(r.value.items[i])
    ensures r.Failure? ==> exists i :: 0 <= i < n && GetItem(x, i) == Failure(r.error)
  {
    if IsInstance(x, expectedType) then
      var items := ItemsFrom(x, 0, n);
      if items.Success? then Success(List(items.value)) else Failure(items.error)
    else Success(x)
  }

  /** `InfList(data)[i]` is `data[k]` for the one `k` in `[0, len)` congruent to `i`, negative `i` included. */
  lemma InfListIndexCongruent(data: seq<Value>, i: int, k: int)
    requires 0 <= k < |data| && (i - k) % |data| == 0
    ensures GetItem(InfList(data), i) == Success(data[k])
  {
    Cyclic.AtCongruent(data, i, k);
  }

  /** `InfList` indexing is periodic with period `len(data)`; an empty one divides by zero. */
  lemma InfListPeriodic(data: seq<Value>, i: int, m: int)
    ensures |data| > 0 ==> GetItem(InfList(data), i + m * |data|) == GetItem(InfList(data), i)
    ensures |data| == 0 ==> GetItem(InfList(data), i) == Failure(ZeroDivisionError)
  {
    if |data| > 0 {
      Cyclic.AtPeriodic(data, i, m);
    }
  }

  /**
    `default_range` over an `InfList` wraps around: with any `n`, even beyond
    the length, the list holds `data[i % len]` at every position `i`, and so
    repeats itself with period `len`.  Over an empty `InfList` a positive `n`
    divides by zero.
  */
  lemma DefaultRangeWraps(data: seq<Value>, n: nat)
    ensures |data| > 0 ==> DefaultRange(InfList(data), InfListType, n).Success?
    ensures |data| > 0 ==>
      var r := DefaultRange(InfList(data), InfListType, n).value.items;
      |r| == n &&
      (forall i :: 0 <= i < n ==> r[i] == data[i % |data|]) &&
      (forall i :: 0 <= i < n - |data| ==> r[i + |data|] == r[i])
    ensures |data| == 0 && n > 0 ==> DefaultRange(InfList(data), InfListType, n) == Failure(ZeroDivisionError)
  {
    var x := InfList(data);
    if |data| > 0 {
      assert forall i :: 0 <= i < n ==> GetItem(x, i).Success?;
      var r := DefaultRange(x, InfListType, n).value.items;
      forall i | 0 <= i < n - |data|
        ensures r[i + |data|] == r[i]
      {
        Cyclic.AtPeriodic(data, i, 1);
      }
    } else if n > 0 {
      assert !GetItem(x, 0).Success?;
    }
  }

  /**
    `default_range` over a plain list is its prefix of length `n` when `n`
    fits, and raises `IndexError` when `n` runs past the end.
  */
  lemma DefaultRangeOfList(items: seq<Value>, n: nat)
    ensures n <= |items| ==> DefaultRange(List(items), ListType, n) == Success(List(items[..n]))
    ensures n > |items| ==> DefaultRange(List(items), ListType, n) == Failure(IndexError("list index out of range"))
  {
    var x := List(items);
    if n <= |items| {
      assert forall i :: 0 <= i < n ==> GetItem(x, i).Success?;
      var r := DefaultRange(x, ListType, n).value.items;
      assert r == items[..n];
    } else {
      assert !GetItem(x, |items|).Success?;
    }
  }

  /**
    The same over a tuple: the prefix as a list when `n` fits, `IndexError`
    past the end; `default_index` picks one item, negative indices from the end.
  */
  lemma DefaultRangeOfTuple(items: seq<Value>, n: nat, idx: int)
    ensures n <= |items| ==> DefaultRange(Tuple(items), TupleType, n) == Success(List(items[..n]))
    ensures n > |items| ==> DefaultRange(Tuple(items), TupleType, n) == Failure(IndexError("tuple index out of range"))
    ensures -|items| <= idx < |items| ==> DefaultIndex(Tuple(items), TupleType, idx).Success?
    ensures 0 <= idx < |items| ==> DefaultIndex(Tuple(items), TupleType, idx) == Success(items[idx])
    ensures -|items| <= idx < 0 ==> DefaultIndex(Tuple(items), TupleType, idx) == Success(items[idx + |items|])
  {
    var x := Tuple(items);
    if n <= |items| {
      assert forall i :: 0 <= i < n ==> GetItem(x, i).Success?;
      var r := DefaultRange(x, TupleType, n).value.items;
      assert r == items[..n];
    } else {
      assert !GetItem(x, |items|).Success?;
    }
  }

  /** `default_index((1, 2), tuple, 0)` is `1`, and `default_index((1, 2), list, 0)` is the tuple itself. */
  lemma DefaultIndexExamples()
    ensures DefaultIndex(Tuple([Int(1), Int(2)]), TupleType, 0) == Success(Int(1))
    ensures DefaultIndex(Tuple([Int(1), Int(2)]), TupleType, -1) == Success(Int(2))
    ensures DefaultIndex(Tuple([Int(1), Int(2)]), ListType, 0) == Success(Tuple([Int(1), Int(2)]))
  {
  }
}
