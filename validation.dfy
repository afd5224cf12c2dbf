/** `there_can_be_only_one(*args)`: exactly one argument may be truthy, and it is returned. */
module Validation {
  import opened Results
  import opened Values

  /** `[bool(arg) for arg in args]` */
  function TruthFlags(args: seq<Value>): (flags: seq<bool>)
    ensures |flags| == |args|
    ensures forall i :: 0 <= i < |args| ==> flags[i] == Truthy(args[i])
  {
    seq(|args|, i requires 0 <= i < |args| => Truthy(args[i]))
  }

  /** `sum(flags)`, a left fold over the booleans. */
  function Sum(flags: seq<bool>): nat
  {
    if flags == [] then 0
    else Sum(flags[..|flags| - 1]) + (if flags[|flags| - 1] then 1 else 0)
  }

  /** `list(itertools.compress(xs, flags))`: the elements whose flag is set, in order. */
  function Compress<T>(xs: seq<T>, flags: seq<bool>): seq<T>
    requires |xs| == |flags|
  {
    if xs == [] then []
    else Compress(xs[..|xs| - 1], flags[..|xs| - 1]) + (if flags[|xs| - 1] then [xs[|xs| - 1]] else [])
  }

  /** The positions of the truthy arguments. */
  ghost function TruthyPositions(args: seq<Value>): set<nat>
  {
    set i: nat | i < |args| && Truthy(args[i])
  }

  const OnlyOneMessage := "Exactly one param should be set."

  function ThereCanBeOnlyOne(args: seq<Value>): (r: Result<Value>)
    ensures r.Success? <==> |TruthyPositions(args)| == 1
    ensures r.Failure? ==> r.error == ValueError(OnlyOneMessage)
    ensures r.Success? ==> Truthy(r.value) && r.value in args
    ensures r.Success? ==> forall i :: 0 <= i < |args| && Truthy(args[i]) ==> args[i] == r.value
  {
    var isTrue := TruthFlags(args);
    SumCountsTruthy(args);
    if Sum(isTrue) != 1 then Failure(ValueError(OnlyOneMessage))
    else
      OnlyOneKept(args, isTrue);
      Success(Compress(args, isTrue)[0])
  }

  /** The sum of the truth flags counts the truthy positions. */
  lemma {:induction false} SumCountsTruthy(args: seq<Value>)
    ensures Sum(TruthFlags(args)) == |TruthyPositions(args)|
  {
    if args != [] {
      var n := |args| - 1;
      var init := args[..n];
      assert TruthFlags(args)[..n] == TruthFlags(init);
      SumCountsTruthy(init);
      assert n !in TruthyPositions(init);
      if Truthy(args[n]) {
        assert TruthyPositions(args) == TruthyPositions(init) + {n};
      } else {
        assert TruthyPositions(args) == TruthyPositions(init);
      }
    }
  }

  /** A set flag exists when the flags sum to one. */
  lemma {:induction false} SumOneHasFlag(flags: seq<bool>)
    requires Sum(flags) == 1
    ensures exists i :: 0 <= i < |flags| && flags[i]
  {
    var n := |flags| - 1;
    if !flags[n] {
      SumOneHasFlag(flags[..n]);
      var i :| 0 <= i < n && flags[..n][i];
      assert flags[i];
    }
  }

  /** With the flags summing to one, `compress` keeps exactly the element at the set flag. */
  lemma OnlyOneKept<T>(xs: seq<T>, flags: seq<bool>)
    requires |xs| == |flags| && Sum(flags) == 1
    ensures |Compress(xs, flags)| == 1
    ensures forall i :: 0 <= i < |xs| && flags[i] ==> Compress(xs, flags) == [xs[i]]
  {
    SumOneHasFlag(flags);
    var k :| 0 <= k < |flags| && flags[k];
    CompressSingle(xs, flags, k);
    forall i | 0 <= i < |xs| && flags[i]
      ensures Compress(xs, flags) == [xs[i]]
    {
      CompressSingle(xs, flags, i);
    }
  }

  /** With no flag set, `compress` keeps nothing. */
  lemma {:induction false} CompressNone<T>(xs: seq<T>, flags: seq<bool>)
    requires |xs| == |flags| && Sum(flags) == 0
    ensures Compress(xs, flags) == []
  {
    if xs != [] {
      CompressNone(xs[..|xs| - 1], flags[..|xs| - 1]);
    }
  }

  /** With exactly one flag set, at position `i`, `compress` keeps exactly `xs[i]`. */
  lemma {:induction false} CompressSingle<T>(xs: seq<T>, flags: seq<bool>, i: nat)
    requires |xs| == |flags| && Sum(flags) == 1 && i < |flags| && flags[i]
    ensures Compress(xs, flags) == [xs[i]]
  {
    var n := |xs| - 1;
    if i == n {
      CompressNone(xs[..n], flags[..n]);
    } else {
      if flags[n] {
        SumAtLeastFlag(flags[..n], i);
      }
      CompressSingle(xs[..n], flags[..n], i);
    }
  }

  /** A set flag contributes one to the sum. */
  lemma {:induction false} SumAtLeastFlag(flags: seq<bool>, i: nat)
    requires i < |flags| && flags[i]
    ensures Sum(flags) >= 1
  {
    var n := |flags| - 1;
    if i < n {
      SumAtLeastFlag(flags[..n], i);
    }
  }

  /** `there_can_be_only_one(None, 5, None)` returns 5; `0`, `""` and `None` count as unset. */
  lemma OneSetAmongUnset()
    ensures ThereCanBeOnlyOne([NoneValue, Int(5), NoneValue]) == Success(Int(5))
    ensures ThereCanBeOnlyOne([Int(0), Str(""), NoneValue, Str("b")]) == Success(Str("b"))
  {
    assert TruthyPositions([NoneValue, Int(5), NoneValue]) == {1};
    assert TruthyPositions([Int(0), Str(""), NoneValue, Str("b")]) == {3};
  }

  /** Two set arguments, or none at all (the zero-argument call included), raise. */
  lemma NotExactlyOneRaises()
    ensures ThereCanBeOnlyOne([Int(5), Int(6)]) == Failure(ValueError(OnlyOneMessage))
    ensures ThereCanBeOnlyOne([]) == Failure(ValueError(OnlyOneMessage))
    ensures ThereCanBeOnlyOne([Int(0), NoneValue, Float(0.0)]) == Failure(ValueError(OnlyOneMessage))
  {
    assert {0, 1} <= TruthyPositions([Int(5), Int(6)]);
    assert TruthyPositions([Int(0), NoneValue, Float(0.0)]) == {};
  }
}
