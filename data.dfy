/**
  `Data`: a record built from keyword arguments.  Every keyword becomes an
  attribute, the keyword dict is kept in insertion order, and the string form
  lists each keyword with the type name of its value.  The class of the
  object (`Data` or a subclass) is given to the constructor as its name.
*/
module Functional {
  import opened Results
  import opened Values
  import opened Dicts

  /** `f"{k}:{type(v).__name__}"` */
  function Entry(k: string, v: Value): string
  {
    k + ":" + TypeName(v)
  }

  /** The entries of a keyword dict, in its order. */
  function Entries(kwargs: Dict<Value>): (parts: seq<string>)
    ensures |parts| == |kwargs|
    ensures forall i :: 0 <= i < |kwargs| ==> parts[i] == Entry(kwargs[i].0, kwargs[i].1)
  {
    seq(|kwargs|, i requires 0 <= i < |kwargs| => Entry(kwargs[i].0, kwargs[i].1))
  }

  /** `sep.join(parts)`: the parts with `sep` between neighbours and nowhere else. */
  function Join(parts: seq<string>, sep: string): string
  {
    if parts == [] then ""
    else if |parts| == 1 then parts[0]
    else Join(parts[..|parts| - 1], sep) + sep + parts[|parts| - 1]
  }

  /** `start`, then every part followed by `sep`: what appending `part + sep` in a loop accumulates. */
  function Terminated(start: string, parts: seq<string>, sep: string): string
  {
    if parts == [] then start else Terminated(start, parts[..|parts| - 1], sep) + parts[|parts| - 1] + sep
  }

  /** The accumulated string is the start, the joined parts and one trailing separator. */
  lemma {:induction false} TerminatedIsJoinedPlusSep(start: string, parts: seq<string>, sep: string)
    requires parts != []
    ensures Terminated(start, parts, sep) == start + Join(parts, sep) + sep
  {
    var n := |parts| - 1;
    if n == 0 {
      assert parts[..n] == [];
    } else {
      TerminatedIsJoinedPlusSep(start, parts[..n], sep);
      var init := start + Join(parts[..n], sep);
      assert Terminated(start, parts, sep) == init + sep + parts[n] + sep;
      assert start + Join(parts, sep) == init + sep + parts[n];
    }
  }

  /** One more round of the loop appends the next part and the separator. */
  lemma TerminatedStep(start: string, parts: seq<string>, i: nat, sep: string)
    requires i < |parts|
    ensures Terminated(start, parts[..i + 1], sep) == Terminated(start, parts[..i], sep) + parts[i] + sep
  {
    assert parts[..i + 1][..i] == parts[..i];
  }

  /**
    Cutting the last separator off what the loop accumulates, and closing
    the parenthesis, gives the rendered string.
  */
  lemma TrimmedIsRendered(name: string, kwargs: Dict<Value>)
    ensures var acc := Terminated(name + "(", Entries(kwargs), ", ");
      (|kwargs| > 0 ==> |acc| >= 2) &&
      (if |kwargs| > 0 then acc[..|acc| - 2] else acc) + ")" == Render(name, kwargs)
  {
    var entries := Entries(kwargs);
    if entries != [] {
      TerminatedIsJoinedPlusSep(name + "(", entries, ", ");
      var joined := name + "(" + Join(entries, ", ");
      assert Terminated(name + "(", entries, ", ") == joined + ", ";
      assert (joined + ", ")[..|joined|] == joined;
    }
  }

  /** `Name(k1:T1, k2:T2)`: the class name, then the entries joined by ", " in parentheses. */
  function Render(name: string, kwargs: Dict<Value>): string
  {
    name + "(" + Join(Entries(kwargs), ", ") + ")"
  }

  /** The attributes `setattr` leaves after walking the keyword dict in order. */
  function AttrsOf(kwargs: Dict<Value>): map<string, Value>
  {
    if kwargs == [] then map[]
    else
      var n := |kwargs| - 1;
      AttrsOf(kwargs[..n])[kwargs[n].0 := kwargs[n].1]
  }

  /** Every keyword, and nothing else, becomes an attribute holding its value. */
  lemma {:induction false} AttrsOfKeywords(kwargs: Dict<Value>)
    requires DistinctKeys(kwargs)
    ensures forall k :: k in AttrsOf(kwargs) <==> HasKey(kwargs, k)
    ensures forall k :: k in AttrsOf(kwargs) ==> Get(kwargs, k) == Some(AttrsOf(kwargs)[k])
  {
    if kwargs != [] {
      var n := |kwargs| - 1;
      var init := kwargs[..n];
      AttrsOfKeywords(init);
      forall k ensures k in AttrsOf(kwargs) <==> HasKey(kwargs, k) {
        if HasKey(kwargs, k) && k != kwargs[n].0 {
          var i :| 0 <= i < |kwargs| && kwargs[i].0 == k;
          assert init[i].0 == k;
        }
        if HasKey(init, k) {
          var i :| 0 <= i < |init| && init[i].0 == k;
          assert kwargs[i].0 == k;
        }
      }
      forall k | k in AttrsOf(kwargs) ensures Get(kwargs, k) == Some(AttrsOf(kwargs)[k]) {
        if k == kwargs[n].0 {
          assert Get(kwargs, k) == Some(kwargs[n].1);
        } else {
          var i :| 0 <= i < |init| && init[i].0 == k;
          assert init[i] == kwargs[i];
          assert Get(init, k) == Some(init[i].1);
        }
      }
    }
  }

  /** The message of `is_atomic` for a value it cannot classify, which shows `str(val)`. */
  function NotAtomicMessage(val: Value): string
  {
    "Variable of type '" + ObjectText(val) + "' is not atomic or does not implement a '__len__' method."
  }

  /** `str(val)` for the values `is_atomic` cannot classify: `None` and plain objects. */
  function ObjectText(val: Value): string
  {
    match val
    case NoneValue => "None"
    case Object(name, _) => "<" + name + " object>"
    case _ => TypeName(val)
  }

  /** `isinstance(val, (int, float, str, bool))` */
  predicate Atomic(val: Value)
  {
    IsInstance(val, IntType) || IsInstance(val, FloatType) || IsInstance(val, StrType) || IsInstance(val, BoolType)
  }

  /**
    `Data.is_atomic(val, error="raise")`: true for ints, floats, strings and
    booleans, false for other values with a length; any other value raises
    under "raise", is reported as not atomic under "warn", and raises for
    an error mode it does not know.
  */
  function IsAtomic(val: Value, error: string := "raise"): (r: Result<bool>)
    ensures r == Success(true) <==> Atomic(val)
    ensures r == Success(false) <==> !Atomic(val) && (HasLen(val) || error == "warn")
    ensures r.Failure? && error == "raise" ==> r.error == ValueError(NotAtomicMessage(val))
    ensures r.Failure? && error != "raise" ==> r.error == ValueError("Could not understand error='" + error + "'")
  {
    if Atomic(val) then Success(true)
    else if HasLen(val) then Success(false)
    else if error == "raise" then Failure(ValueError(NotAtomicMessage(val)))
    else if error == "warn" then Success(false)
    else Failure(ValueError("Could not understand error='" + error + "'"))
  }

  /** The error mode only matters for values that are neither atomic nor sized; "warn" never raises. */
  lemma ErrorModeMatters(val: Value, error: string, other: string)
    ensures Atomic(val) || HasLen(val) ==> IsAtomic(val, error) == IsAtomic(val, other)
    ensures IsAtomic(val, "warn").Success?
    ensures IsAtomic(val, "raise").Success? ==> IsAtomic(val, "raise") == IsAtomic(val, error)
  {
  }

  /** Falsy scalars are atomic too; an empty list is sized, so not atomic. */
  lemma AtomicExamples()
    ensures IsAtomic(Bool(false)) == Success(true)
    ensures IsAtomic(Str("")) == Success(true)
    ensures IsAtomic(List([])) == Success(false)
  {
    assert Atomic(Bool(false)) && Atomic(Str("")) && !Atomic(List([])) && HasLen(List([]));
  }

  /** `None` is what the error mode decides: raise, report as not atomic, or reject the mode. */
  lemma NoneByMode()
    ensures IsAtomic(NoneValue) == Failure(ValueError(NotAtomicMessage(NoneValue)))
    ensures IsAtomic(NoneValue, "warn") == Success(false)
    ensures IsAtomic(NoneValue, "ignore").Failure?
  {
  }

  class Data {
    const name: string
    var kwargs: Dict<Value>
    var attrs: map<string, Value>

    /** The attributes are the keywords. */
    ghost predicate Valid()
      reads this
    {
      DistinctKeys(kwargs) && attrs == AttrsOf(kwargs)
    }

    /** `Data(**kwargs)`: keeps the keyword dict and sets each keyword as an attribute, in order. */
    constructor(name: string, kwargs: Dict<Value>)
      requires DistinctKeys(kwargs)
      ensures Valid() && this.name == name && AsDict() == kwargs
      ensures forall k :: k in attrs <==> HasKey(kwargs, k)
      ensures forall k :: k in attrs ==> Get(kwargs, k) == Some(attrs[k])
    {
      this.name := name;
      this.kwargs := kwargs;
      attrs := map[];
      new;
      var i := 0;
      while i < |kwargs|
        invariant 0 <= i <= |kwargs|
        invariant this.name == name && this.kwargs == kwargs
        invariant attrs == AttrsOf(kwargs[..i])
      {
        assert kwargs[..i + 1][..i] == kwargs[..i];
        attrs := attrs[kwargs[i].0 := kwargs[i].1];
        i := i + 1;
      }
      assert kwargs[..i] == kwargs;
      AttrsOfKeywords(kwargs);
    }

    /** `asdict()`: the keywords as given, which agree with the attributes. */
    function AsDict(): (d: Dict<Value>)
      reads this
      requires Valid()
      ensures d == kwargs && DistinctKeys(d)
      ensures forall k :: HasKey(d, k) <==> k in attrs
      ensures forall k :: k in attrs ==> Get(d, k) == Some(attrs[k])
    {
      AttrsOfKeywords(kwargs);
      kwargs
    }

    /**
      `str(data)`: the class name and an opening parenthesis, then
      `k:T, ` appended for every keyword in order, the trailing separator
      cut off when there was any keyword, and a closing parenthesis.
    */
    method ToString() returns (s: string)
      ensures s == Render(name, kwargs)
    {
      var entries := Entries(kwargs);
      s := name + "(";
      var i := 0;
      while i < |kwargs|
        invariant 0 <= i <= |kwargs|
        invariant s == Terminated(name + "(", entries[..i], ", ")
      {
        TerminatedStep(name + "(", entries, i, ", ");
        s := s + entries[i] + ", ";
        i := i + 1;
      }
      assert entries[..i] == entries;
      TrimmedIsRendered(name, kwargs);
      s := (if |kwargs| > 0 then s[..|s| - 2] else s) + ")";
    }

    /** `repr(data)` is `str(data)`. */
    method Repr() returns (s: string)
      ensures s == Render(name, kwargs)
    {
      s := ToString();
    }

    /**
      `len(data)`, i.e. `len(data.x)`: fails when there is no keyword `x`
      or its value has no length.
    */
    function Len(): (r: Result<nat>)
      reads this
      requires Valid()
      ensures r.Success? <==> Get(kwargs, "x").Some? && HasLen(Get(kwargs, "x").value)
      ensures r.Success? ==> r.value == Values.Len(Get(kwargs, "x").value)
      ensures Get(kwargs, "x").None? ==> r == Failure(AttributeError("x"))
    {
      AttrsOfKeywords(kwargs);
      if "x" !in attrs then Failure(AttributeError("x"))
      else if !HasLen(attrs["x"]) then Failure(TypeError("object of type '" + TypeName(attrs["x"]) + "' has no len()"))
      else Success(Values.Len(attrs["x"]))
    }
  }

  /** Rendering without keywords gives empty parentheses. */
  lemma RenderEmpty(name: string)
    ensures Render(name, []) == name + "()"
  {
  }

  /** Rendering two keywords: `Data(x:list, y:str)`. */
  lemma RenderTwo()
    ensures Render("Data", [("x", List([Int(1)])), ("y", Str("a"))]) == "Data(x:list, y:str)"
  {
    var parts := Entries([("x", List([Int(1)])), ("y", Str("a"))]);
    assert parts[0] == "x" + ":" + "list";
    assert parts[1] == "y" + ":" + "str";
    assert parts[..1] == [parts[0]];
  }
}
