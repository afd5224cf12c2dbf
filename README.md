# peasy, modelled in Dafny

peasy is a thin styling layer over matplotlib, seaborn and pandas. This
project models the parts of it that are plain logic, and proves what they
promise:

- `group_indices` (`utils/ops.py`), module `Ops`. It stable-sorts a key
  array, takes its distinct keys in ascending order and splits the sorted
  positions at the key boundaries. It returns, per key, the ascending
  positions that hold it, or with `as_mask=True` one boolean mask per key,
  written in place. The chain of library calls is modelled call by call:
  - `np.argsort(kind='stable')` as an insertion sort on positions;
  - `np.unique(return_index=True)` on sorted keys as the starts of runs;
  - `np.split` at those starts.
  The result is then proved equal to its specification, the ascending
  positions of each key.
- The wrapping lists `InfList` (`_bubbles.py`) and `Palette`
  (`_palettes.py`), modules `Values`, `Cyclic`, `Bubbles` and `Palettes`.
  Indexing is `data[i % len(data)]` for every integer `i`. For a positive
  length Python's floored `%` and Dafny's Euclidean `%` agree. An empty
  list divides by zero. The selection helpers `default`, `default_index`
  and `default_range` are in `Bubbles`.
- `there_can_be_only_one` (`_validation.py`), module `Validation`. Exactly
  one argument may be truthy, and that argument is returned.
- The `Colony` settings and `get_ax_figsize` (`_colony.py`), modules
  `Params` and `Colonies`. The colony's constructor only stores its five
  keywords, so a colony is a datatype value.
- `Artist._extract_text`, the `MultiArtist` sketch queue, and the grid
  arithmetic and sketch/cell pairing of `show` (`_artist.py`), module
  `Artists`. The queue is a field of a class that its methods update in
  place.
- The `Data` record (`functional/_data.py`), module `Functional`. It covers
  the attribute-setting constructor, `str` built by accumulation and
  trimming, `repr`, `len`, `asdict` and `is_atomic`.

Python objects are the datatype `Values.Value`. A dict with string keys is
`Dicts.Dict`, its entries in insertion order. Errors are `Results.Error`
values carried in a `Result`. Each carries the exception type the code
raises. `ValueError`, `IndexError` and `TypeError` also carry the exact
message. `AttributeError` carries only the missing attribute's name, not
Python's full message (`'Axes' object has no attribute 'flat'`).
`ZeroDivisionError` carries no message; Python's is "integer modulo by
zero".

`InfList` and `Palette` follow the code when they are empty: indexing them
raises `ZeroDivisionError` from `i % 0`, not a dedicated error. `Palette`
is the list of colour strings the code builds, nothing more.

## Model

| member | source | states |
|---|---|---|
| Ops.Positions | src/peasy/utils/ops.py:20-28 | the reference for one group: strictly ascending, only positions holding the key, and every position holding the key |
| Ops.ArgsortPrefixSorted | src/peasy/utils/ops.py:46 | the stable argsort lists each position exactly once, ordered by key and, for equal keys, by position |
| Ops.Argsort | src/peasy/utils/ops.py:46 | `np.argsort` returns one in-range position per element |
| Ops.Gather | src/peasy/utils/ops.py:47 | `x[argidx]` has one element per index, the key at that index |
| Ops.GatheredSorted | src/peasy/utils/ops.py:46-47 | the keys gathered in stable argsort order ascend |
| Ops.Unique | src/peasy/utils/ops.py:48 | `np.unique(return_index=True)` gives as many indices as keys, each index in range and holding its key |
| Ops.UniqueOfSorted | src/peasy/utils/ops.py:48 | on sorted keys the unique keys ascend strictly and are exactly the values present, the indices ascend, and each index is the first position holding its key |
| Ops.RunStartsExact | src/peasy/utils/ops.py:48 | the first indices of `np.unique` on sorted keys ascend strictly and are exactly the positions whose key differs from the previous one |
| Ops.SplitAt | src/peasy/utils/ops.py:49 | `np.split` at `k` cuts yields `k + 1` pieces |
| Ops.SplitAtPieces | src/peasy/utils/ops.py:49 | piece `j` of `np.split` is the slice between cut `j - 1` and cut `j` |
| Ops.SplitSizes | src/peasy/utils/ops.py:49 | the pieces of a split add up to the whole array: nothing lost or duplicated |
| Ops.RunKeysStrictlyAscend | src/peasy/utils/ops.py:47-48 | the unique keys of the sorted keys ascend strictly |
| Ops.RunKeysAreKeys | src/peasy/utils/ops.py:47-48 | the unique keys are exactly the values that occur in the input |
| Ops.PiecesArePositions | src/peasy/utils/ops.py:46-49 | split piece `j` of the sorted positions is the ascending list of positions holding unique key `j`, by stability of the sort |
| Ops.GroupsArePositions | src/peasy/utils/ops.py:46-50 | the whole argsort, unique, split chain yields strictly ascending keys that are exactly the input's values, one group per key, each group equal to that key's positions |
| Ops.SplitByKey | src/peasy/utils/ops.py:46-50 | for a non-empty input: keys strictly ascending and exactly the input's values, `len(unique) == len(groups)`, group `j` the positions of key `j`, sizes summing to `len(x)` |
| Ops.GroupIndices | src/peasy/utils/ops.py:43-50 | fails with `ValueError("Encountered 0-sized array.")` iff the input is empty; otherwise the same guarantees as the chain |
| Ops.GroupsPartition | src/peasy/utils/ops.py:46-50 | the groups partition `0..n-1`: every position is in some group, in no two groups, and the sizes sum to `n` |
| Ops.GroupIndicesDetermined | src/peasy/utils/ops.py:43-50 | any ascending key list that is exactly the input's values, paired with each key's positions, is the result: the specification determines the output |
| Ops.FirstDocstringExample | src/peasy/utils/ops.py:32-33 | `np.array([1, 4, 3, 2, 1, 2, 3, 3, 4])` groups as `([1, 2, 3, 4], [[0, 4], [3, 5], [2, 6, 7], [1, 8]])` |
| Ops.SecondDocstringExample | src/peasy/utils/ops.py:34-35 | `np.array([1, 1, 1])` groups as `([1], [[0, 1, 2]])` |
| Ops.MaskDocstringInput | src/peasy/utils/ops.py:36-41 | `np.array([1, 4, 2, 2, 1])` groups as `([1, 2, 4], [[0, 4], [2, 3], [1]])`, from which the docstring masks follow |
| Ops.DocstringMasks | src/peasy/utils/ops.py:36-41 | the masks matching that grouping are `[1, 0, 0, 0, 1]`, `[0, 0, 1, 1, 0]` and `[0, 1, 0, 0, 0]` |
| Ops.MaskExamples | src/peasy/utils/ops.py:36-41 | `group_indices(np.array([1, 4, 2, 2, 1]), as_mask=True)` returns keys `[1, 2, 4]` with exactly the three masks the docstring shows |
| Ops.MaskOf | src/peasy/utils/ops.py:53-55 | a zero mask of length `n` with `mask[group] = True` written in place is true exactly at the group's positions |
| Ops.MasksOf | src/peasy/utils/ops.py:52-56 | one mask per group, each of length `n`, true exactly at that group's positions |
| Ops.MasksMarkKeys | src/peasy/utils/ops.py:52-56 | masks of the groups are true exactly where the input holds their key, and every position is set in exactly one mask |
| Ops.GroupIndicesAsMask | src/peasy/utils/ops.py:43-58 | with `as_mask`: the same empty-input error; the same unique keys as without `as_mask`; mask `j` has length `n` and is true at `p` iff `p` is in group `j` iff `x[p]` is key `j`; the masks are disjoint and cover every position |
| Cyclic.At | src/peasy/_bubbles.py:28-29 | `data[i % len(data)]` fails with `ZeroDivisionError` iff the list is empty, always yields a stored element, and is plain indexing for `-len <= i < len` |
| Cyclic.AtCongruent | src/peasy/_bubbles.py:28-29 | the lookup returns the element at the one position in `[0, len)` congruent to `i` modulo the length |
| Cyclic.AtPeriodic | src/peasy/_bubbles.py:28-29 | shifting the index by any multiple of the length gives the same element |
| Values.GetItem | src/peasy/_bubbles.py:28-29 | `v[i]`: for a list, tuple or str, success iff `-len <= i < len`, giving the item (for a str the one-character string) at `i`, or at `i + len` for a negative `i`; for `InfList` and `Palette`, success iff non-empty, with a stored element, else `ZeroDivisionError`; other objects raise "object is not subscriptable" |
| Values.TypeName | src/peasy/functional/_data.py:22-25 | `type(v).__name__`: an object's own class name; every built-in value has one of the nine built-in class names |
| Values.HasLen | src/peasy/functional/_data.py:49 | `hasattr(v, "__len__")`: never for `None` and numbers, always for str, list, tuple and the two cyclic lists, and for another object iff it defines a length |
| Values.Truthy | src/peasy/_validation.py:7 | `bool(v)`: `None` is false; a bool is itself; a number is true iff non-zero; a sized value is true iff its length is non-zero; an object without a length is true |
| Values.IsInstance | src/peasy/_bubbles.py:15 | `isinstance(v, t)` holds iff the value's class name is `t`'s, or `t` is `int` and the value a bool, or `t` is `UserList` and the value an `InfList` or `Palette`; an object is an instance of exactly its own named class |
| Values.PyIndex | src/peasy/_bubbles.py:13-20 | Python's `list`/`tuple`/`str` bounds rule: an index is valid iff `-n <= i < n`, and negatives count from the end |
| Bubbles.Default | src/peasy/_bubbles.py:7-10 | `value` when `x` is `None`, `x` otherwise |
| Bubbles.DefaultSettles | src/peasy/_bubbles.py:7-10 | applying `default` twice changes nothing; the result is `None` only when both arguments are; with the default empty list it is never `None` |
| Bubbles.DefaultIndex | src/peasy/_bubbles.py:13-15 | `x[idx]`, with its errors, when `x` has the expected type; `x` unchanged otherwise |
| Bubbles.ItemsFrom | src/peasy/_bubbles.py:20 | the comprehension succeeds iff every `x[i]` does, holds `x[i]` at each position with length `max(n - k, 0)`, and otherwise fails with the error of some index in range |
| Bubbles.DefaultRange | src/peasy/_bubbles.py:18-20 | `[x[0], ..., x[n-1]]` as a list of exactly `n` items when `x` has the expected type and every index succeeds; the raising index's error otherwise; `x` unchanged when the type does not match |
| Bubbles.DefaultRangeOfTuple | src/peasy/_bubbles.py:13-20 | over a tuple, `default_range` is its prefix as a list when `n` fits and `IndexError` past the end; `default_index` succeeds for every `-len <= idx < len` and picks `items[idx]`, or `items[idx + len]` for a negative `idx` |
| Bubbles.DefaultIndexExamples | src/peasy/_bubbles.py:13-15 | `default_index((1, 2), tuple, 0)` is `1`, index `-1` gives `2`, and with type `list` the tuple comes back unchanged |
| Bubbles.InfListIndexCongruent | src/peasy/_bubbles.py:28-29 | `InfList(data)[i]` is `data[k]` for the `k` in `[0, len)` congruent to `i`, negative `i` included |
| Bubbles.InfListPeriodic | src/peasy/_bubbles.py:28-29 | `InfList` indexing has period `len(data)`; an empty `InfList` raises `ZeroDivisionError` |
| Bubbles.DefaultRangeWraps | src/peasy/_bubbles.py:18-29 | `default_range` over an `InfList` yields `n` items `data[i % len]` for any `n`, beyond the length included, repeating with period `len`; an empty one raises for `n > 0` |
| Bubbles.DefaultRangeOfList | src/peasy/_bubbles.py:18-20 | over a plain list, the prefix of length `n` when it fits, `IndexError` when `n` runs past the end |
| Palettes.NewPalette | src/peasy/_palettes.py:11-14 | a palette as long as the input, holding `str(pal[i])` at position `i` |
| Palettes.NewPaletteOfStrings | src/peasy/_palettes.py:14 | colours that are already strings are stored as given |
| Palettes.PaletteLookup | src/peasy/_palettes.py:11-17 | `Palette(pal)[i] == str(pal[i % len(pal)])` for every integer `i`; an empty palette raises `ZeroDivisionError` |
| Palettes.PaletteIndexCongruent | src/peasy/_palettes.py:16-17 | `Palette[i]` is the colour at the position in `[0, len)` congruent to `i` |
| Palettes.PaletteColorIsStored | src/peasy/_palettes.py:16-17 | a lookup succeeds iff the palette is non-empty, and then returns one of the stored colours |
| Palettes.PalettePeriodic | src/peasy/_palettes.py:16-17 | palette indexing has period `len` |
| Validation.TruthFlags | src/peasy/_validation.py:7 | one flag per argument, equal to its truthiness |
| Validation.ThereCanBeOnlyOne | src/peasy/_validation.py:4-10 | succeeds iff exactly one argument is truthy, and then returns that argument; otherwise raises `ValueError("Exactly one param should be set.")` |
| Validation.SumCountsTruthy | src/peasy/_validation.py:7-8 | `sum(is_true)` is the number of truthy arguments |
| Validation.OnlyOneKept | src/peasy/_validation.py:10 | with one flag set, `compress` keeps exactly one element, the flagged one |
| Validation.CompressSingle | src/peasy/_validation.py:10 | with exactly the flag at `i` set, `compress` yields `[xs[i]]` |
| Validation.CompressNone | src/peasy/_validation.py:10 | with no flag set, `compress` yields nothing |
| Validation.OneSetAmongUnset | src/peasy/_validation.py:4-10 | `(None, 5, None)` returns 5; `0`, `""` and `None` count as unset |
| Validation.NotExactlyOneRaises | src/peasy/_validation.py:8-9 | two set arguments, none set, and the zero-argument call all raise |
| Colonies.DefaultColony | src/peasy/_colony.py:39-49 | `Colony()` stores the signature's defaults: a `(6, 6)` pair, font size 12, spines "lb", `Cmap.COZY` and `Marker.SIMPLE` |
| Colonies.GetAxFigsize | src/peasy/_colony.py:57-64 | with the defaults `nrows=1, ncols=1` of the signature: fails iff the size is a tuple that does not hold two items, with Python's unpacking message |
| Colonies.FigsizeScales | src/peasy/_colony.py:57-64 | the size of a grid is the one-axis size with the first component scaled by `ncols` and the second by `nrows` |
| Colonies.UnitFigsize | src/peasy/_colony.py:57-64 | the call with the defaults is the 1 by 1 call; one axis: an int `s` gives `(s, s)` and a pair `(w, h)` gives `(h, w)` |
| Colonies.DefaultFigsizes | src/peasy/_colony.py:39-64 | the default colony gives `(6, 6)` for one axis and `(18, 12)` for 2 rows by 3 columns |
| Colonies.MalformedFigsize | src/peasy/_colony.py:63 | a one-item or three-item tuple fails to unpack, whatever the grid |
| Dicts.Pop | src/peasy/_artist.py:31-34 | `d.pop(k, default)` returns the value stored under `k`, or `default` when `k` is missing; the remaining dict holds every entry with another key and none with `k` |
| Dicts.GetWithout | src/peasy/_artist.py:31-34 | after popping keys, a lookup finds nothing for them and the original value for every other key |
| Dicts.PopRemaining | src/peasy/_artist.py:31-34 | each successive `pop` returns the value the key had in the caller's dict and leaves the dict without all keys popped so far |
| Artists.ExtractText | src/peasy/_artist.py:29-35 | the text map is exactly title, xlabel, ylabel (default `None`) and legend (default `True`), each with the caller's value when given; the rest is the input without those four keys, every other key and value unchanged |
| Artists.RestKeepsOthers | src/peasy/_artist.py:35 | the remaining keywords have distinct keys and keep every non-text keyword's value |
| Artists.CeilDiv | src/peasy/_artist.py:110-112 | `ceil(a / b)` is the least integer `q` with `a <= b * q` for positive `b`, and the mirror image for negative `b` |
| Artists.OneOfTwo | src/peasy/_artist.py:108 | exactly one of `ncols` and `nrows` is truthy iff their truthiness differs |
| Artists.GridShape | src/peasy/_artist.py:108-112 | raises the only-one error iff both or neither of `ncols` and `nrows` are set; the missing count is the least for which the grid holds the queue, and the given one is kept |
| Artists.Subplots | src/peasy/_artist.py:116 | a grid exists iff both counts are positive; it is a bare axis iff it is 1 by 1 |
| Artists.FlatAsWritten | src/peasy/_artist.py:118 | `axes.flat` fails iff `plt.subplots` returned a bare axis, and otherwise counts the grid's cells |
| Artists.FlatCells | src/peasy/_artist.py:118 | a bare axis is one cell; an array has `nrows * ncols` cells |
| Artists.RemovedAfterSketches | src/peasy/_artist.py:118-122 | when the removed cells are exactly those after the first `n`, `len(cells) - n` cells are removed |
| Artists.GridPairing | src/peasy/_artist.py:118-122 | `zip_longest` pairing: cell `k` draws sketch `k` for every queued sketch, every later cell is removed, and exactly `ncells - len(queue)` are removed |
| Artists.GridFits | src/peasy/_artist.py:109-112 | every grid shape `show` accepts holds the whole queue |
| Artists.MultiArtist.constructor | src/peasy/_artist.py:77-80 | a new multi-artist keeps its colony and has an empty queue of length 0 |
| Artists.MultiArtist.Len | src/peasy/_artist.py:86-87 | `len(multi_artist)` is the number of queued sketches |
| Artists.MultiArtist.ClearQueue | src/peasy/_artist.py:89-92 | the queue is empty and its length 0 |
| Artists.MultiArtist.LinePlot | src/peasy/_artist.py:94-95 | exactly one sketch of the call is appended at the end, earlier entries unchanged, length up by one |
| Artists.MultiArtist.PairCells | src/peasy/_artist.py:118-122 | the loop over `zip_longest` produces the cells of the pairing |
| Artists.MultiArtist.Show | src/peasy/_artist.py:105-130 | with the grid read as a list of cells whatever its shape: the only-one error; the grid shape and figure size; success iff the counts are positive and the size unpacks; sketches fill the first cells in queue order, the `rows * cols - len(queue)` spare cells are removed, and the queue is not cleared |
| Artists.MultiArtist.ShowAsWritten | src/peasy/_artist.py:105-130 | as the code reads it: the only-one error; a 1 by 1 grid raises `AttributeError` on `axes.flat`; success iff the counts are positive, not both 1, and the size unpacks; the grid shape and figure size; sketches fill the first cells in queue order and the `rows * cols - len(queue)` spare cells are removed |
| Artists.GetArtist | src/peasy/_colony.py:51-55 | a fresh multi-artist with an empty queue iff `multi`, a plain artist otherwise, both bound to the colony |
| Artists.OneSketchOneColumn | src/peasy/_artist.py:116-118 | one sketch with `ncols=1`: the code as written raises `AttributeError("flat")`, while the corrected layout draws the sketch in the single cell |
| Functional.Entries | src/peasy/functional/_data.py:24-25 | one `k:T` entry per keyword, in insertion order |
| Functional.TerminatedIsJoinedPlusSep | src/peasy/functional/_data.py:24-26 | appending `entry + ", "` per keyword accumulates the entries joined by `", "` plus one trailing separator |
| Functional.TerminatedStep | src/peasy/functional/_data.py:24-25 | each loop round appends the next entry and the separator |
| Functional.TrimmedIsRendered | src/peasy/functional/_data.py:26 | cutting the last two characters when there are keywords, then closing the parenthesis, yields `Name(k1:T1, k2:T2)` with no trailing separator |
| Functional.AttrsOfKeywords | src/peasy/functional/_data.py:18-19 | every keyword, and nothing else, becomes an attribute holding its value |
| Functional.IsAtomic | src/peasy/functional/_data.py:44-61 | `True` iff the value is an int, float, str or bool; `False` iff it is none of these and either has a length or the mode is "warn"; otherwise the "raise" message or the unknown-mode message |
| Functional.ErrorModeMatters | src/peasy/functional/_data.py:47-61 | the error mode matters only for values neither atomic nor sized; "warn" never raises |
| Functional.AtomicExamples | src/peasy/functional/_data.py:47-50 | `False` and `""` are atomic; an empty list is sized, so not atomic |
| Functional.NoneByMode | src/peasy/functional/_data.py:51-61 | `None` raises under "raise", is not atomic under "warn", and any other mode raises |
| Functional.Data.constructor | src/peasy/functional/_data.py:16-19 | `asdict` returns the keywords as given; every keyword, and nothing else, is an attribute holding its value |
| Functional.Data.AsDict | src/peasy/functional/_data.py:35-36 | `asdict` returns the keywords as given, with distinct keys, and they agree with the attributes key by key and value by value |
| Functional.Data.ToString | src/peasy/functional/_data.py:21-27 | the accumulate-and-trim loop yields `Name(k1:T1, k2:T2)` |
| Functional.Data.Repr | src/peasy/functional/_data.py:29-30 | `repr` equals `str` |
| Functional.Data.Len | src/peasy/functional/_data.py:32-33 | succeeds iff there is a keyword `x` whose value has a length, and then equals that length; a missing `x` raises `AttributeError` |
| Functional.RenderEmpty | src/peasy/functional/_data.py:26 | with no keywords the string is `Name()` |
| Functional.RenderTwo | src/peasy/functional/_data.py:21-27 | `Data(x=[1], y="a")` renders as `Data(x:list, y:str)` |

## Left out

- Drawing. `Artist.line_plot`, `_write_on`, and replaying a sketch on an axis are not modelled. In `show`, the figure's rendering, `ax.remove`, `prettify_axis` and `plt.tight_layout` are reduced to what each cell receives: a sketch or removal. The shown `Colony` defines no `prettify_axis`; that call is treated as drawing.
- `plt.subplots` is modelled only by the shape it returns and by its refusal of non-positive counts. matplotlib's checks on the figure size values are not part of this model.
- Artists.MultiArtist.Show: `tightLayout` is accepted and has no effect, because `plt.tight_layout` only redraws.
- Artists.CeilDiv: `ceil(len / ncols)` is exact integer arithmetic here; the float rounding of Python's true division for very large counts is not modelled.
- Artists.GridShape: `ncols` and `nrows` are `None` or integers; other argument types are not modelled.
- Colonies.GetAxFigsize: `ax_figsize` is an int or a tuple of ints. A bool counts as an int in Python; other objects are not modelled.
- The colony's font size, spine, colour map and marker settings are stored but not interpreted, because only drawing reads them.
- Functional.IsAtomic: the "raise" message shows `str(val)`, modelled for `None` and plain objects. The memory address Python prints for plain objects is left out, and other values show their type name. The logger call under "warn" is left out; that mode just returns `False`.
- Functional.Data.constructor: a keyword named `kwargs` would overwrite the stored keyword dict through `setattr`. The model keeps the dict and the attributes apart.
- Functional.Data.AsDict: `asdict()` returns the object's own `self.kwargs`, not a copy. A caller who changes that dict changes what `str` and `repr` show, while the attributes set in `__init__` stay as they were, so the agreement between keywords and attributes stops holding. The model returns the keywords as a value, so that aliasing, and the broken agreement, are not captured.
- Functional.Data.ToString: the class name of the object is the constructor's `name` parameter.
- `Data.asdf` and `as_combined_df` build pandas DataFrames and are not modelled.
- `Palette` from a string calls seaborn's `color_palette`, which is not part of this model. Only construction from an iterable is modelled, with `str` as a parameter.
- Slicing an `InfList` or a `Palette` is not modelled: the code applies `%` to the index, so a slice is not supported.
- Ops.GroupIndices: the input `seq<int>` stands for a one-dimensional NumPy integer array (or a pandas Series), so the `ndim == 1` assertion always holds. A plain Python list has no `ndim` and raises `AttributeError` at that assertion; the docstring's examples, written with lists, are modelled as calls on `np.array` of those lists. Other orderable key types are not modelled.
- `functional/_line.py` and `functional/_scatter.py` are drawing wrappers and are not part of this model.
- Bubbles.DefaultIndex, Bubbles.DefaultRange: `Values.Object` stands only for objects that cannot be indexed by an integer. An object indexed some other way, such as a dict or a NumPy array of the expected type, is not modelled; lists, tuples, strings and the two cyclic lists are.
- Validation.ThereCanBeOnlyOne: the truth of an `Object` is read from its length. An argument whose `bool()` raises, such as a NumPy array of several elements, makes the source raise that error; it is not modelled.
- Bubbles.Default: Python builds the default `list()` once, so every `default(None)` returns the same list object, and a caller's change to it shows in later calls. The model returns a fresh empty list value each time; that sharing is not captured.
- Artists.MultiArtist.LinePlot, Artists.MultiArtist.ClearQueue: the `queue` property hands out the internal list, so `line_plot` and `clear_queue` change it in place under any caller holding it. In the model, the queue is a sequence value read from the field, and that aliasing is not captured.
- `_params.py` only declares the records and enumerations, reproduced as datatypes in `Params`.

## Findings

| source | as written | input that shows it | evidently intended | confidence | as-written member | corrected member |
|---|---|---|---|---|---|---|
| src/peasy/_artist.py:116-118 | `show` reads `axes.flat` from whatever `plt.subplots` returns, which for a 1 by 1 grid is one bare axis without `flat` | one queued sketch shown with `ncols=1`, or with `ncols=None, nrows=1` | the single cell receives the sketch, as every cell does in a larger grid | not executed; relies on `plt.subplots` squeezing a 1 by 1 grid, its documented default | Artists.MultiArtist.ShowAsWritten, Artists.FlatAsWritten, Artists.OneSketchOneColumn | Artists.MultiArtist.Show, Artists.FlatCells |
