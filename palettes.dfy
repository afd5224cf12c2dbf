/**
  `Palette`: a list of colour strings that repeats when indexed past its end.
  Only the construction from a non-string iterable is modelled; Python's
  `str` on the items is the parameter `str`, since how `str` renders a float
  or a tuple is not part of this model.
*/
module Palettes {
  import opened Results
  import opened Values
  import Cyclic

  /** `Palette(pal)` for a non-string iterable `pal`: `str(item) for item in pal`. */
  function NewPalette<T>(pal: seq<T>, str: T -> string): (p: Value)
    ensures p.Palette? && |p.colors| == |pal|
    ensures forall i :: 0 <= i < |pal| ==> p.colors[i] == str(pal[i])
  {
    Palette(seq(|pal|, i requires 0 <= i < |pal| => str(pal[i])))
  }

  /** Colours that are already strings are stored as given. */
  lemma NewPaletteOfStrings(pal: seq<string>)
    ensures NewPalette(pal, (s: string) => s) == Palette(pal)
  {
    assert NewPalette(pal, (s: string) => s).colors == pal;
  }

  /**
    Indexing a palette built from `pal` converts the input item at the
    wrapped position: `Palette(pal)[i] == str(pal[i % len(pal)])` for every
    integer `i`; an empty palette divides by zero.
  */
  lemma PaletteLookup<T>(pal: seq<T>, str: T -> string, i: int)
    ensures |pal| > 0 ==> GetItem(NewPalette(pal, str), i) == Success(Str(str(pal[i % |pal|])))
    ensures |pal| == 0 ==> GetItem(NewPalette(pal, str), i) == Failure(ZeroDivisionError)
  {
  }

  /** `Palette[i]` is the colour at the one position in `[0, len)` congruent to `i`. */
  lemma PaletteIndexCongruent(colors: seq<string>, i: int, k: int)
    requires 0 <= k < |colors| && (i - k) % |colors| == 0
    ensures GetItem(Palette(colors), i) == Success(Str(colors[k]))
  {
    Cyclic.AtCongruent(colors, i, k);
  }

  /** Every successful lookup is one of the stored colours, and a lookup fails only on an empty palette. */
  lemma PaletteColorIsStored(colors: seq<string>, i: int)
    ensures GetItem(Palette(colors), i).Success? <==> |colors| > 0
    ensures GetItem(Palette(colors), i).Success? ==>
      GetItem(Palette(colors), i).value.Str? && GetItem(Palette(colors), i).value.s in colors
  {
  }

  /** Palette indexing is periodic with period `len(colors)`. */
  lemma PalettePeriodic(colors: seq<string>, i: int, m: int)
    requires |colors| > 0
    ensures GetItem(Palette(colors), i + m * |colors|) == GetItem(Palette(colors), i)
  {
    Cyclic.AtPeriodic(colors, i, m);
  }
}
