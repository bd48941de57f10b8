/**
 * Two-dimensional rasters as numpy holds them: a height, a width and a
 * row-major grid of samples, together with the affine geotransform that
 * gives the ground area of one cell.
 */
module Rasters {

  /** An unsigned 8-bit sample, the dtype of every label raster. */
  type byte = x: int | 0 <= x < 256

  /** A grid of `height` rows of `width` samples each. */
  datatype Raster<T> = Raster(height: nat, width: nat, rows: seq<seq<T>>) {

    /** Every row has exactly `width` samples (a numpy array is always rectangular). */
    ghost predicate WellFormed() {
      |rows| == height && forall i :: 0 <= i < |rows| ==> |rows[i]| == width
    }

    /** Two rasters have the same `shape` tuple. */
    predicate SameShape<U>(other: Raster<U>) {
      height == other.height && width == other.width
    }

    /** The samples in row-major order, as `array.flatten()` yields them. */
    function Cells(): (cells: seq<T>)
      ensures WellFormed() ==> |cells| == height * width
    {
      FlattenLength(rows, width);
      RowStartIsProduct(height, width);
      Flatten(rows)
    }
  }

  /** Concatenation of the rows, first row first. */
  function Flatten<T>(rows: seq<seq<T>>): seq<T>
  {
    if |rows| == 0 then [] else Flatten(rows[..|rows| - 1]) + rows[|rows| - 1]
  }

  /** Where row `r` starts in a row-major layout of rows `w` samples wide,
      written as repeated addition so that the layout lemmas stay linear. */
  function RowStart(r: nat, w: nat): nat
  {
    if r == 0 then 0 else RowStart(r - 1, w) + w
  }

  /** Position of the sample at row `r`, column `c` in a row-major layout
      of rows `w` samples wide; `RowStartIsProduct` shows it is `r * w + c`. */
  function Offset(r: nat, c: nat, w: nat): nat
  {
    RowStart(r, w) + c
  }

  lemma {:induction false} RowStartIsProduct(r: nat, w: nat)
    ensures RowStart(r, w) == r * w
  {
    if r > 0 {
      RowStartIsProduct(r - 1, w);
    }
  }

  /** A later row starts at least one full row after an earlier one. */
  lemma {:induction false} RowStartGrows(r: nat, m: nat, w: nat)
    requires r < m
    ensures RowStart(r, w) + w <= RowStart(m, w)
  {
    if r + 1 < m {
      RowStartGrows(r, m - 1, w);
    }
  }

  /** A flattened well-formed raster holds height * width samples, and the
      sample at row `r`, column `c` sits at position `r * width + c`. */
  lemma FlattenLayout<T>(g: Raster<T>)
    requires g.WellFormed()
    ensures |g.Cells()| == g.height * g.width
    ensures forall r, c :: 0 <= r < g.height && 0 <= c < g.width ==>
              Offset(r, c, g.width) < |g.Cells()| && g.Cells()[Offset(r, c, g.width)] == g.rows[r][c]
  {
    forall r, c | 0 <= r < g.height && 0 <= c < g.width
      ensures Offset(r, c, g.width) < |g.Cells()| && g.Cells()[Offset(r, c, g.width)] == g.rows[r][c]
    {
      FlattenIndex(g.rows, g.width, r, c);
    }
  }

  lemma {:induction false} FlattenIndex<T>(rows: seq<seq<T>>, w: nat, r: nat, c: nat)
    requires forall i :: 0 <= i < |rows| ==> |rows[i]| == w
    requires r < |rows| && c < w
    ensures Offset(r, c, w) < |Flatten(rows)|
    ensures Flatten(rows)[Offset(r, c, w)] == rows[r][c]
  {
    var n := |rows|;
    var init := rows[..n - 1];
    FlattenLength(init, w);
    if r < n - 1 {
      FlattenIndex(init, w, r, c);
      RowStartGrows(r, n - 1, w);
      assert init[r] == rows[r];
    }
  }

  lemma {:induction false} FlattenLength<T>(rows: seq<seq<T>>, w: nat)
    ensures (forall i :: 0 <= i < |rows| ==> |rows[i]| == w) ==> |Flatten(rows)| == RowStart(|rows|, w)
  {
    if |rows| > 0 && forall i :: 0 <= i < |rows| ==> |rows[i]| == w {
      FlattenLength(rows[..|rows| - 1], w);
    }
  }

  /** Every flattened sample comes from some row. */
  lemma {:induction false} FlattenMembers<T>(rows: seq<seq<T>>, x: T)
    requires x in Flatten(rows)
    ensures exists i :: 0 <= i < |rows| && x in rows[i]
  {
    var init := rows[..|rows| - 1];
    if x in Flatten(init) {
      FlattenMembers(init, x);
      var i :| 0 <= i < |init| && x in init[i];
      assert rows[i] == init[i];
    } else {
      assert x in rows[|rows| - 1];
    }
  }

  /** The affine geotransform (a, b, c, d, e, f): `a` is the pixel width and
      `e` the pixel height (negative for north-up rasters). */
  datatype Affine = Affine(a: real, b: real, c: real, d: real, e: real, f: real)

  function Abs(x: real): (r: real)
    ensures r >= 0.0 && (r == x || r == -x)
  {
    if x < 0.0 then -x else x
  }

  /** Square metres in one hectare (the fixed `/ 10000` of the area tables). */
  const SquareMetresPerHectare: real := 10000.0

  /** Ground area of one cell, |transform[0] * transform[4]|. */
  function PixelArea(t: Affine): (r: real)
    ensures r >= 0.0
    ensures r == t.a * t.e || r == -(t.a * t.e)
  {
    Abs(t.a * t.e)
  }
}
