/**
  The artists of a colony.  A plain `Artist` only holds its colony; a
  `MultiArtist` also keeps a queue of sketches (deferred plotting calls) that
  `show` lays out on a grid of axes.  What matplotlib draws is not modelled:
  a plotting call is recorded as the sketch it replays, and `show` yields the
  grid shape, its figure size, and what each cell of the grid receives.
*/
module Artists {
  import opened Results
  import opened Values
  import opened Dicts
  import Validation
  import opened Colonies

  /** The plotting function a sketch replays: `Artist.line_plot` is the only one queued. */
  datatype SketchFn = LinePlotFn

  /** `Sketch(fn, args, kwargs)`: a plotting call kept for later. */
  datatype Sketch = Sketch(fn: SketchFn, args: seq<Value>, kwargs: Dict<Value>)

  /** The keywords that set the text of an axis rather than what is plotted. */
  const TextKeys: set<string> := {"title"} + {"xlabel"} + {"ylabel"} + {"legend"}

  /**
    `Artist._extract_text(**kwargs)`: pops the four text keywords, in order,
    into a new dict, with `None` for a missing title or label and `True` for a
    missing legend; every other keyword stays behind, in its order.
  */
  method ExtractText(kwargs: Dict<Value>) returns (text: Dict<Value>, rest: Dict<Value>)
    requires DistinctKeys(kwargs)
    ensures text == [
      ("title", GetOr(kwargs, "title", NoneValue)),
      ("xlabel", GetOr(kwargs, "xlabel", NoneValue)),
      ("ylabel", GetOr(kwargs, "ylabel", NoneValue)),
      ("legend", GetOr(kwargs, "legend", Bool(true)))]
    ensures rest == Without(kwargs, TextKeys) && DistinctKeys(rest)
    ensures forall k :: Get(rest, k) == if k in TextKeys then None else Get(kwargs, k)
  {
    var (title, kw1) := Pop(kwargs, "title", NoneValue);
    PopRemaining(kwargs, {"title"}, "xlabel", NoneValue);
    var (xlabel, kw2) := Pop(kw1, "xlabel", NoneValue);
    PopRemaining(kwargs, {"title"} + {"xlabel"}, "ylabel", NoneValue);
    var (ylabel, kw3) := Pop(kw2, "ylabel", NoneValue);
    PopRemaining(kwargs, {"title"} + {"xlabel"} + {"ylabel"}, "legend", Bool(true));
    var (legend, kw4) := Pop(kw3, "legend", Bool(true));
    text := [("title", title), ("xlabel", xlabel), ("ylabel", ylabel), ("legend", legend)];
    rest := kw4;
    RestKeepsOthers(kwargs);
  }

  /** What is left after the text keywords are taken out keeps every other keyword and its value. */
  lemma RestKeepsOthers(kwargs: Dict<Value>)
    requires DistinctKeys(kwargs)
    ensures DistinctKeys(Without(kwargs, TextKeys))
    ensures forall k :: Get(Without(kwargs, TextKeys), k) == if k in TextKeys then None else Get(kwargs, k)
  {
    WithoutDistinct(kwargs, TextKeys);
    forall k ensures Get(Without(kwargs, TextKeys), k) == if k in TextKeys then None else Get(kwargs, k) {
      GetWithout(kwargs, TextKeys, k);
    }
  }

  /** An `Artist` draws single plots for its colony. */
  datatype Artist = Artist(colony: Colony)

  /** What one cell of the grid receives from `show`. */
  datatype Cell =
    | Drawn(sketch: Sketch)     // the sketch is replayed on this cell
    | Removed                   // `ax.remove()`: no sketch was left for this cell
    | OwnFigure(sketch: Sketch) // no cell was left: the sketch is replayed with `ax=None`

  /** The axes `show` returns: the grid shape, its figure size, and its cells in `axes.flat` order. */
  datatype Grid = Grid(nrows: int, ncols: int, figsize: (int, int), cells: seq<Cell>)

  /** What `plt.subplots` returns for a grid: one bare axis for a 1 by 1 grid, an array otherwise. */
  datatype Axes = SingleAxes | AxesArray(nrows: int, ncols: int)

  /** `None` or an integer argument, as the Python object it is. */
  function OptionValue(o: Option<int>): Value
  {
    if o.None? then NoneValue else Int(o.value)
  }

  /** The argument is set: not `None` and not zero. */
  predicate IsSet(o: Option<int>)
  {
    o.Some? && o.value != 0
  }

  /** `ceil(a / b)`: the least integer not below the quotient. */
  function CeilDiv(a: int, b: int): (q: int)
    requires b != 0
    ensures b > 0 ==> b * (q - 1) < a <= b * q
    ensures b < 0 ==> b * q <= a < b * (q - 1)
  {
    if b > 0 then
      var f := (-a) / b;
      assert b * f <= -a < b * f + b;
      -f
    else
      var f := a / (-b);
      assert (-b) * f <= a < (-b) * f - b;
      -f
  }

  /** Exactly one of two arguments is truthy when exactly one position of the pair is. */
  lemma {:induction false} OneOfTwo(a: Value, b: Value)
    ensures |Validation.TruthyPositions([a, b])| == 1 <==> Truthy(a) != Truthy(b)
  {
    var ps := Validation.TruthyPositions([a, b]);
    var ta, tb := Truthy(a), Truthy(b);
    assert forall i :: i in ps <==> (i == 0 && ta) || (i == 1 && tb);
    if ta && tb {
      assert ps == {0, 1};
    } else if ta {
      assert ps == {0};
    } else if tb {
      assert ps == {1};
    } else {
      assert ps == {};
    }
  }

  /**
    The grid shape `show` settles on: exactly one of `ncols` and `nrows`
    must be set; a missing number of rows is the least that fits `n`
    sketches into the given columns, and symmetrically for columns.
  */
  function GridShape(n: nat, ncols: Option<int>, nrows: Option<int>): (r: Result<(int, int)>)
    ensures r.Failure? <==> IsSet(ncols) == IsSet(nrows)
    ensures r.Failure? ==> r.error == ValueError(Validation.OnlyOneMessage)
    ensures r.Success? && nrows.None? ==> ncols.Some? && r.value.1 == ncols.value
    ensures r.Success? && nrows.None? && ncols.value > 0 ==>
      r.value.1 * (r.value.0 - 1) < n <= r.value.1 * r.value.0
    ensures r.Success? && nrows.Some? && ncols.None? ==> r.value.0 == nrows.value
    ensures r.Success? && nrows.Some? && ncols.None? && nrows.value > 0 ==>
      r.value.0 * (r.value.1 - 1) < n <= r.value.0 * r.value.1
    ensures r.Success? && nrows.Some? && ncols.Some? ==> r.value == (nrows.value, ncols.value)
  {
    var chosen := Validation.ThereCanBeOnlyOne([OptionValue(ncols), OptionValue(nrows)]);
    OneOfTwo(OptionValue(ncols), OptionValue(nrows));
    if chosen.Failure? then Failure(chosen.error)
    else if nrows.None? then Success((CeilDiv(n, ncols.value), ncols.value))
    else if ncols.None? then Success((nrows.value, CeilDiv(n, nrows.value)))
    else Success((nrows.value, ncols.value))
  }

  /**
    `plt.subplots(nrows=.., ncols=..)`: both counts must be positive (rows
    are checked first); with `squeeze=True` a 1 by 1 grid comes back as one
    bare axis rather than an array.
  */
  function Subplots(nrows: int, ncols: int): (r: Result<Axes>)
    ensures r.Success? <==> nrows >= 1 && ncols >= 1
    ensures r.Success? ==> (r.value.SingleAxes? <==> nrows == 1 && ncols == 1)
  {
    if nrows < 1 then Failure(ValueError("Number of rows must be a positive integer, not " + IntToString(nrows)))
    else if ncols < 1 then Failure(ValueError("Number of columns must be a positive integer, not " + IntToString(ncols)))
    else if nrows == 1 && ncols == 1 then Success(SingleAxes)
    else Success(AxesArray(nrows, ncols))
  }

  /** `axes.flat` as the code reads it: a bare axis has no `flat`. */
  function FlatAsWritten(axes: Axes): (r: Result<nat>)
    ensures r.Failure? <==> axes.SingleAxes?
    ensures r.Success? ==> r.value == FlatCells(axes)
  {
    match axes
    case SingleAxes => Failure(AttributeError("flat"))
    case AxesArray(_, _) => Success(FlatCells(axes))
  }

  /** The cells of the grid whatever its shape: a bare axis is a grid of one cell. */
  function FlatCells(axes: Axes): (n: nat)
    ensures axes.SingleAxes? ==> n == 1
    ensures axes.AxesArray? && axes.nrows >= 0 && axes.ncols >= 0 ==> n == axes.nrows * axes.ncols
  {
    match axes
    case SingleAxes => 1
    case AxesArray(nrows, ncols) => if nrows * ncols < 0 then 0 else nrows * ncols
  }

  /**
    `zip_longest(queue, axes.flat)` as `show` consumes it: position `k` pairs
    sketch `k` with cell `k`; a cell without a sketch is removed, a sketch
    without a cell draws on its own figure.
  */
  function ZipCells(queue: seq<Sketch>, ncells: nat): (cells: seq<Cell>)
  {
    var n := if |queue| < ncells then ncells else |queue|;
    seq(n, k requires 0 <= k < n =>
      if k >= ncells then OwnFigure(queue[k])
      else if k < |queue| then Drawn(queue[k])
      else Removed)
  }

  /** The number of removed cells. */
  function CountRemoved(cells: seq<Cell>): nat
  {
    if cells == [] then 0
    else CountRemoved(cells[..|cells| - 1]) + (if cells[|cells| - 1].Removed? then 1 else 0)
  }

  /** In cells paired by position, the ones after the last sketch are the removed ones. */
  lemma {:induction false} RemovedAfterSketches(cells: seq<Cell>, n: nat)
    requires n <= |cells|
    requires forall k :: 0 <= k < |cells| ==> (cells[k].Removed? <==> k >= n)
    ensures CountRemoved(cells) == |cells| - n
    decreases |cells|
  {
    if |cells| > n {
      var m := |cells| - 1;
      RemovedAfterSketches(cells[..m], n);
    } else if cells != [] {
      RemovedNone(cells);
    }
  }

  lemma {:induction false} RemovedNone(cells: seq<Cell>)
    requires forall k :: 0 <= k < |cells| ==> !cells[k].Removed?
    ensures CountRemoved(cells) == 0
    decreases |cells|
  {
    if cells != [] {
      RemovedNone(cells[..|cells| - 1]);
    }
  }

  /**
    When the grid has room for the queue, the sketches fill its first cells
    in queue order, nothing draws off the grid, and exactly the surplus
    cells, `ncells - |queue|` of them, are removed.
  */
  lemma {:induction false} GridPairing(queue: seq<Sketch>, ncells: nat)
    requires |queue| <= ncells
    ensures |ZipCells(queue, ncells)| == ncells
    ensures forall k :: 0 <= k < |queue| ==> ZipCells(queue, ncells)[k] == Drawn(queue[k])
    ensures forall k :: |queue| <= k < ncells ==> ZipCells(queue, ncells)[k] == Removed
    ensures CountRemoved(ZipCells(queue, ncells)) == ncells - |queue|
  {
    RemovedAfterSketches(ZipCells(queue, ncells), |queue|);
  }

  /** A grid with at least one row and one column, and not 1 by 1, has more than one cell. */
  lemma ManyCells(rows: int, cols: int)
    requires rows >= 1 && cols >= 1 && !(rows == 1 && cols == 1)
    ensures rows * cols > 1
  {
    if rows == 1 {
      assert rows * cols == cols;
    } else {
      assert rows * cols == rows + (rows * (cols - 1));
    }
  }

  /** A grid `show` accepts has room for every sketch. */
  lemma {:induction false} GridFits(n: nat, ncols: Option<int>, nrows: Option<int>)
    requires GridShape(n, ncols, nrows).Success?
    requires GridShape(n, ncols, nrows).value.0 >= 1 && GridShape(n, ncols, nrows).value.1 >= 1
    ensures n <= GridShape(n, ncols, nrows).value.0 * GridShape(n, ncols, nrows).value.1
  {
  }

  /** A multi-artist: the colony it draws for and the queue of sketches it will lay out. */
  class MultiArtist {
    const colony: Colony
    var queue: seq<Sketch>

    /** `MultiArtist(colony=c)` starts with an empty queue. */
    constructor(colony: Colony)
      ensures this.colony == colony && queue == [] && Len() == 0
    {
      this.colony := colony;
      queue := [];
    }

    /** `len(multi_artist)` */
    function Len(): (n: nat)
      reads this
      ensures n == |queue|
    {
      |queue|
    }

    /** `clear_queue()` */
    method ClearQueue()
      modifies this
      ensures queue == [] && Len() == 0
    {
      queue := [];
    }

    /** `line_plot(*args, **kwargs)` queues the call instead of drawing it. */
    method LinePlot(args: seq<Value>, kwargs: Dict<Value>)
      modifies this
      ensures queue == old(queue) + [Sketch(LinePlotFn, args, kwargs)]
      ensures Len() == old(Len()) + 1
    {
      queue := queue + [Sketch(LinePlotFn, args, kwargs)];
    }

    /**
      The cells `show` fills: `zip_longest(self.queue, cells)` walked in
      order, each sketch replayed on its cell and each spare cell removed.
    */
    method PairCells(ncells: nat) returns (cells: seq<Cell>)
      ensures cells == ZipCells(queue, ncells)
    {
      var n := if |queue| < ncells then ncells else |queue|;
      cells := [];
      var k := 0;
      while k < n
        invariant 0 <= k <= n
        invariant cells == ZipCells(queue, ncells)[..k]
      {
        var cell;
        if k >= ncells {
          cell := OwnFigure(queue[k]);
        } else if k < |queue| {
          cell := Drawn(queue[k]);
        } else {
          cell := Removed;
        }
        cells := cells + [cell];
        k := k + 1;
      }
    }

    /**
      `show(ncols=3, nrows=None)` with `axes.flat` read from every grid,
      a single axis included.  Exactly one of `ncols` and `nrows` must be
      set; the missing one is the least that fits the queue; the figure
      size comes from the colony; the sketches fill the first cells in queue
      order and the spare cells are removed.  The queue is kept.
    */
    method Show(ncols: Option<int> := Some(3), nrows: Option<int> := None, tightLayout: bool := true)
      returns (r: Result<Grid>)
      ensures GridShape(|queue|, ncols, nrows).Failure? ==> r == Failure(GridShape(|queue|, ncols, nrows).error)
      ensures r.Success? ==>
        GridShape(|queue|, ncols, nrows) == Success((r.value.nrows, r.value.ncols)) &&
        r.value.nrows >= 1 && r.value.ncols >= 1 &&
        GetAxFigsize(colony, r.value.nrows, r.value.ncols) == Success(r.value.figsize)
      ensures GridShape(|queue|, ncols, nrows).Success? ==>
        var (rows, cols) := GridShape(|queue|, ncols, nrows).value;
        r.Success? <==> rows >= 1 && cols >= 1 && GetAxFigsize(colony, rows, cols).Success?
      ensures r.Success? ==>
        |r.value.cells| == r.value.nrows * r.value.ncols &&
        (forall k :: 0 <= k < |queue| ==> r.value.cells[k] == Drawn(queue[k])) &&
        (forall k :: |queue| <= k < |r.value.cells| ==> r.value.cells[k] == Removed) &&
        CountRemoved(r.value.cells) == r.value.nrows * r.value.ncols - |queue|
    {
      var shape := GridShape(|queue|, ncols, nrows);
      if shape.Failure? {
        return Failure(shape.error);
      }
      var (rows, cols) := shape.value;
      var figsize := GetAxFigsize(colony, rows, cols);
      if figsize.Failure? {
        return Failure(figsize.error);
      }
      var axes := Subplots(rows, cols);
      if axes.Failure? {
        return Failure(axes.error);
      }
      var ncells := FlatCells(axes.value);
      GridFits(|queue|, ncols, nrows);
      GridPairing(queue, ncells);
      var cells := PairCells(ncells);
      r := Success(Grid(rows, cols, figsize.value, cells));
    }

    /**
      `show` as the code reads it: `axes.flat` raises for a 1 by 1 grid,
      where `plt.subplots` returns one bare axis; every other grid is laid
      out as `Show` lays it out.
    */
    method ShowAsWritten(ncols: Option<int> := Some(3), nrows: Option<int> := None, tightLayout: bool := true)
      returns (r: Result<Grid>)
      ensures GridShape(|queue|, ncols, nrows) == Success((1, 1)) && GetAxFigsize(colony, 1, 1).Success? ==>
        r == Failure(AttributeError("flat"))
      ensures GridShape(|queue|, ncols, nrows).Failure? ==> r == Failure(GridShape(|queue|, ncols, nrows).error)
      ensures r.Success? ==>
        GridShape(|queue|, ncols, nrows) == Success((r.value.nrows, r.value.ncols)) &&
        r.value.nrows >= 1 && r.value.ncols >= 1 &&
        GetAxFigsize(colony, r.value.nrows, r.value.ncols) == Success(r.value.figsize)
      ensures GridShape(|queue|, ncols, nrows).Success? ==>
        var (rows, cols) := GridShape(|queue|, ncols, nrows).value;
        r.Success? <==> rows >= 1 && cols >= 1 && !(rows == 1 && cols == 1) && GetAxFigsize(colony, rows, cols).Success?
      ensures r.Success? ==>
        r.value.nrows * r.value.ncols > 1 &&
        |queue| <= |r.value.cells| == r.value.nrows * r.value.ncols &&
        (forall k :: 0 <= k < |queue| ==> r.value.cells[k] == Drawn(queue[k])) &&
        (forall k :: |queue| <= k < |r.value.cells| ==> r.value.cells[k] == Removed) &&
        CountRemoved(r.value.cells) == r.value.nrows * r.value.ncols - |queue|
    {
      var shape := GridShape(|queue|, ncols, nrows);
      if shape.Failure? {
        return Failure(shape.error);
      }
      var (rows, cols) := shape.value;
      var figsize := GetAxFigsize(colony, rows, cols);
      if figsize.Failure? {
        return Failure(figsize.error);
      }
      var axes := Subplots(rows, cols);
      if axes.Failure? {
        return Failure(axes.error);
      }
      var flat := FlatAsWritten(axes.value);
      if flat.Failure? {
        return Failure(flat.error);
      }
      ManyCells(rows, cols);
      GridFits(|queue|, ncols, nrows);
      GridPairing(queue, flat.value);
      var cells := PairCells(flat.value);
      r := Success(Grid(rows, cols, figsize.value, cells));
    }
  }

  /** An artist of either kind. */
  datatype AnyArtist = Single(artist: Artist) | Multi(multi: MultiArtist)

  /** `Colony.get_artist(multi)`: a fresh multi-artist with an empty queue when asked for, a plain artist otherwise. */
  method GetArtist(colony: Colony, multi: bool := false) returns (a: AnyArtist)
    ensures a.Multi? <==> multi
    ensures a.Single? ==> a.artist.colony == colony
    ensures a.Multi? ==> fresh(a.multi) && a.multi.colony == colony && a.multi.queue == []
  {
    if !multi {
      a := Single(Artist(colony));
    } else {
      var m := new MultiArtist(colony);
      a := Multi(m);
    }
  }

  /**
    One sketch shown in one column: the grid is 1 by 1, so the code as
    written fails on `axes.flat`, while the single cell should receive the
    sketch.
  */
  method OneSketchOneColumn() returns (asWritten: Result<Grid>, corrected: Result<Grid>)
    ensures asWritten == Failure(AttributeError("flat"))
    ensures corrected.Success? && corrected.value.nrows == 1 && corrected.value.ncols == 1
    ensures corrected.Success? && corrected.value.cells == [Drawn(Sketch(LinePlotFn, [Int(1), Int(2)], []))]
  {
    var m := new MultiArtist(DefaultColony());
    m.LinePlot([Int(1), Int(2)], []);
    assert GridShape(1, Some(1), None) == Success((1, 1));
    asWritten := m.ShowAsWritten(Some(1), None);
    corrected := m.Show(Some(1), None);
  }
}
