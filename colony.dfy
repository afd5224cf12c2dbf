/**
  `Colony`: the global settings every artist of a colony shares.  The
  constructor only stores its five keyword arguments and nothing updates them
  later, so a colony is a value; each argument keeps the alternatives its
  annotation allows.
*/
module Colonies {
  import opened Results
  import opened Params

  /** `ax_figsize`: a single side for a square axis, or a tuple meant to be `(w, h)`. */
  datatype FigSize = Side(side: int) | Sides(items: seq<int>)

  /** `font_size`: one size for everything, a dict keyed like `FontSize`, or a `FontSize`. */
  datatype FontSizeArg = FontAll(size: int) | FontDict(sizes: map<string, int>) | FontRecord(record: FontSize)

  /** `spine`: all or none, a string of the letters t, l, b, r, a dict keyed like `Spine`, or a `Spine`. */
  datatype SpineArg = SpineAll(on: bool) | SpineLetters(letters: string) | SpineDict(flags: map<string, bool>) | SpineRecord(record: Spine)

  /** `cmap`: a scheme name or a `Cmap`. */
  datatype CmapArg = CmapName(name: string) | CmapEnum(scheme: Cmap)

  /** `markers`: a marker name, a list of markers, or a `Marker`. */
  datatype MarkersArg = MarkerName(name: string) | MarkerList(markers: seq<string>) | MarkerEnum(markerSet: Marker)

  datatype Colony = Colony(
    axFigsize: FigSize,
    fontSize: FontSizeArg,
    spine: SpineArg,
    cmap: CmapArg,
    markers: MarkersArg)

  /** `Colony()` with every keyword left at its default. */
  function DefaultColony(): (c: Colony)
    ensures c.axFigsize == Sides([6, 6]) && c.fontSize == FontAll(12) && c.spine == SpineLetters("lb")
    ensures c.cmap == CmapEnum(Cozy) && c.markers == MarkerEnum(Simple)
  {
    Colony(Sides([6, 6]), FontAll(12), SpineLetters("lb"), CmapEnum(Cozy), MarkerEnum(Simple))
  }

  /** The message of `w, h = t` for a tuple of `n` items, `n != 2`. */
  function UnpackMessage(n: nat): string
  {
    if n < 2 then "not enough values to unpack (expected 2, got " + NatToString(n) + ")"
    else "too many values to unpack (expected 2)"
  }

  /**
    `get_ax_figsize(nrows=.., ncols=..)`: a single side `s` gives
    `(ncols * s, nrows * s)`; a tuple is unpacked as `w, h` and gives
    `(ncols * h, nrows * w)`, so the pair is used as (height, width); a tuple
    that does not hold two items fails to unpack.
  */
  function GetAxFigsize(c: Colony, nrows: int := 1, ncols: int := 1): (r: Result<(int, int)>)
    ensures r.Failure? <==> c.axFigsize.Sides? && |c.axFigsize.items| != 2
    ensures r.Failure? ==> r.error == ValueError(UnpackMessage(|c.axFigsize.items|))
  {
    match c.axFigsize
    case Side(s) => Success((ncols * s, nrows * s))
    case Sides(items) =>
      if |items| != 2 then Failure(ValueError(UnpackMessage(|items|)))
      else
        var w, h := items[0], items[1];
        Success((ncols * h, nrows * w))
  }

  /**
    The figure size of a grid is the one-axis size scaled: the first
    component by the number of columns, the second by the number of rows.
  */
  lemma FigsizeScales(c: Colony, nrows: int, ncols: int)
    ensures GetAxFigsize(c, nrows, ncols).Success? <==> GetAxFigsize(c, 1, 1).Success?
    ensures GetAxFigsize(c, nrows, ncols).Success? ==>
      var unit := GetAxFigsize(c, 1, 1).value;
      GetAxFigsize(c, nrows, ncols).value == (ncols * unit.0, nrows * unit.1)
  {
  }

  /**
    With the default one row and one column a side `s` gives `(s, s)` and a
    pair `(w, h)` gives `(h, w)`.
  */
  lemma UnitFigsize(c: Colony)
    ensures GetAxFigsize(c) == GetAxFigsize(c, 1, 1)
    ensures c.axFigsize.Side? ==> GetAxFigsize(c) == Success((c.axFigsize.side, c.axFigsize.side))
    ensures c.axFigsize.Sides? && |c.axFigsize.items| == 2 ==>
      GetAxFigsize(c) == Success((c.axFigsize.items[1], c.axFigsize.items[0]))
  {
  }

  /** The default colony draws 6 by 6 axes: a 2 by 3 grid is 18 wide and 12 high. */
  lemma DefaultFigsizes()
    ensures GetAxFigsize(DefaultColony()) == Success((6, 6))
    ensures GetAxFigsize(DefaultColony(), 2, 3) == Success((18, 12))
  {
  }

  /** A malformed tuple fails to unpack, whatever the grid. */
  lemma MalformedFigsize(nrows: int, ncols: int)
    ensures GetAxFigsize(DefaultColony().(axFigsize := Sides([6])), nrows, ncols)
      == Failure(ValueError("not enough values to unpack (expected 2, got 1)"))
    ensures GetAxFigsize(DefaultColony().(axFigsize := Sides([6, 6, 6])), nrows, ncols)
      == Failure(ValueError("too many values to unpack (expected 2)"))
  {
  }
}
