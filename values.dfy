/**
  The Python objects the modelled code inspects: the built-in scalars and
  sequences, the two cyclic lists of the package (`InfList`, `Palette`), and
  other objects, known by their class name and whether they define
  `__len__`.  Such an object cannot be indexed by an integer, and its truth
  is read from its length; objects indexed some other way (a dict, a NumPy
  array) or whose `bool` raises are not part of this model.  Floats are
  kept as exact reals: the code only tests them for zero.
*/
module Values {
  import opened Results
  import Cyclic

  datatype Value =
    | NoneValue
    | Bool(b: bool)
    | Int(i: int)
    | Float(f: real)
    | Str(s: string)
    | List(items: seq<Value>)
    | Tuple(items: seq<Value>)
    | InfList(items: seq<Value>)
    | Palette(colors: seq<string>)
    | Object(typeName: string, length: Option<nat>)

  /** The class objects `isinstance` is asked about. */
  datatype Type =
    | NoneType
    | BoolType
    | IntType
    | FloatType
    | StrType
    | ListType
    | TupleType
    | UserListType
    | InfListType
    | PaletteType
    | NamedType(name: string)

  /** `type(v).__name__`: an object's own class name, or one of the built-in ones. */
  function TypeName(v: Value): (n: string)
    ensures v.Object? ==> n == v.typeName
    ensures !v.Object? ==> n in {"NoneType", "bool", "int", "float", "str", "list", "tuple", "InfList", "Palette"}
  {
    match v
    case NoneValue => "NoneType"
    case Bool(_) => "bool"
    case Int(_) => "int"
    case Float(_) => "float"
    case Str(_) => "str"
    case List(_) => "list"
    case Tuple(_) => "tuple"
    case InfList(_) => "InfList"
    case Palette(_) => "Palette"
    case Object(name, _) => name
  }

  /** `hasattr(v, '__len__')`: never for `None` and numbers, always for the sequences. */
  predicate HasLen(v: Value)
    ensures v.NoneValue? || v.Bool? || v.Int? || v.Float? ==> !HasLen(v)
    ensures v.Str? || v.List? || v.Tuple? || v.InfList? || v.Palette? ==> HasLen(v)
    ensures v.Object? ==> (HasLen(v) <==> v.length.Some?)
  {
    v.Str? || v.List? || v.Tuple? || v.InfList? || v.Palette? || (v.Object? && v.length.Some?)
  }

  /** `len(v)` for the objects that define it. */
  function Len(v: Value): nat
    requires HasLen(v)
  {
    match v
    case Str(s) => |s|
    case List(items) => |items|
    case Tuple(items) => |items|
    case InfList(items) => |items|
    case Palette(colors) => |colors|
    case Object(_, length) => length.value
  }

  /** `bool(v)`: zero numbers, `None` and empty containers are false. */
  predicate Truthy(v: Value)
    ensures v.NoneValue? ==> !Truthy(v)
    ensures v.Bool? ==> (Truthy(v) <==> v.b)
    ensures v.Int? ==> (Truthy(v) <==> v.i != 0)
    ensures v.Float? ==> (Truthy(v) <==> v.f != 0.0)
    ensures HasLen(v) ==> (Truthy(v) <==> Len(v) != 0)
    ensures v.Object? && !HasLen(v) ==> Truthy(v)
  {
    match v
    case NoneValue => false
    case Bool(b) => b
    case Int(i) => i != 0
    case Float(f) => f != 0.0
    case Object(_, length) => length.None? || length.value != 0
    case _ => Len(v) != 0
  }

  /** `t.__name__` */
  function ClassName(t: Type): string
  {
    match t
    case NoneType => "NoneType"
    case BoolType => "bool"
    case IntType => "int"
    case FloatType => "float"
    case StrType => "str"
    case ListType => "list"
    case TupleType => "tuple"
    case UserListType => "UserList"
    case InfListType => "InfList"
    case PaletteType => "Palette"
    case NamedType(name) => name
  }

  /**
    `isinstance(v, t)`: the value's class is `t` or a subclass of it.
    `bool` subclasses `int`, and both cyclic lists subclass `UserList`.
  */
  predicate IsInstance(v: Value, t: Type)
    ensures !v.Object? && !t.NamedType? ==>
      (IsInstance(v, t) <==>
        TypeName(v) == ClassName(t) ||
        (t == IntType && TypeName(v) == "bool") ||
        (t == UserListType && TypeName(v) in {"InfList", "Palette"}))
    ensures t.NamedType? ==> (IsInstance(v, t) <==> v.Object? && TypeName(v) == t.name)
    ensures v.Object? ==> (IsInstance(v, t) <==> t == NamedType(TypeName(v)))
  {
    match t
    case NoneType => v.NoneValue?
    case BoolType => v.Bool?
    case IntType => v.Int? || v.Bool?
    case FloatType => v.Float?
    case StrType => v.Str?
    case ListType => v.List?
    case TupleType => v.Tuple?
    case UserListType => v.InfList? || v.Palette?
    case InfListType => v.InfList?
    case PaletteType => v.Palette?
    case NamedType(name) => v.Object? && v.typeName == name
  }

  /** Python's bounds rule for `list`, `tuple` and `str`: `-n <= i < n`, negatives count from the end. */
  function PyIndex(n: int, i: int): (k: Option<nat>)
    ensures k.Some? <==> -n <= i < n
    ensures k.Some? ==> k.value < n && (k.value == i || k.value == i + n)
  {
    if 0 <= i < n then Some(i) else if -n <= i < 0 then Some(i + n) else None
  }

  /**
    `v[i]` for an integer `i`: bounds-checked for the built-in sequences,
    wrapping for the cyclic lists, and a `TypeError` for other objects.
  */
  function GetItem(v: Value, i: int): (r: Result<Value>)
    ensures (v.List? || v.Tuple?) ==> (r.Success? <==> -|v.items| <= i < |v.items|)
    ensures (v.List? || v.Tuple?) && 0 <= i < |v.items| ==> r == Success(v.items[i])
    ensures (v.List? || v.Tuple?) && -|v.items| <= i < 0 ==> r == Success(v.items[i + |v.items|])
    ensures v.Str? ==> (r.Success? <==> -|v.s| <= i < |v.s|)
    ensures v.Str? && 0 <= i < |v.s| ==> r == Success(Str([v.s[i]]))
    ensures v.Str? && -|v.s| <= i < 0 ==> r == Success(Str([v.s[i + |v.s|]]))
    ensures v.InfList? ==> (r.Success? <==> |v.items| > 0) && (r.Success? ==> r.value in v.items)
    ensures v.Palette? ==> (r.Success? <==> |v.colors| > 0) && (r.Success? ==> r.value.Str? && r.value.s in v.colors)
    ensures (v.InfList? || v.Palette?) && r.Failure? ==> r.error == ZeroDivisionError
    ensures !(v.List? || v.Tuple? || v.Str? || v.InfList? || v.Palette?) ==>
      r == Failure(TypeError("'" + TypeName(v) + "' object is not subscriptable"))
  {
    match v
    case List(items) =>
      var k := PyIndex(|items|, i);
      if k.Some? then Success(items[k.value]) else Failure(IndexError("list index out of range"))
    case Tuple(items) =>
      var k := PyIndex(|items|, i);
      if k.Some? then Success(items[k.value]) else Failure(IndexError("tuple index out of range"))
    case Str(s) =>
      var k := PyIndex(|s|, i);
      if k.Some? then Success(Str([s[k.value]])) else Failure(IndexError("string index out of range"))
    case InfList(items) =>
      Cyclic.At(items, i)
    case Palette(colors) =>
      var c := Cyclic.At(colors, i);
      if c.Success? then Success(Str(c.value)) else Failure(c.error)
    case _ =>
      Failure(TypeError("'" + TypeName(v) + "' object is not subscriptable"))
  }
}
