/**
 * `detect_change`: pairs two label rasters into a change-code raster
 * (`from * 10 + to` in int16) and tabulates every code present, in ascending
 * order, with its decoded classes, pixel count and area. No-data labels are
 * encoded like any other value.
 */
module ChangeDetection {
  import opened Wrappers
  import opened Rasters
  import opened Counting
  import opened Decimal
  import opened Config

  /** The `ValueError` raised when the two label rasters differ in shape. */
  datatype ChangeError = ShapeMismatch

  /** One row of the change statistics table: "Kode Perubahan", "Dari", "Ke",
      "Jumlah Pixel", "Luas (m²)" and "Luas (ha)". */
  datatype ChangeRow = ChangeRow(transition: string, fromName: string, toName: string,
                                 pixels: nat, areaM2: real, areaHa: real)

  /** The change-code raster, the `unique` codes of `np.unique`, and one row per code. */
  datatype ChangeOutput = ChangeOutput(changeMap: Raster<int>, codes: seq<int>, rows: seq<ChangeRow>)

  const Int16Max: int := 32767

  /** The change code of one pixel. Labels are unsigned bytes, so the code
      always fits in int16 and never wraps. Its tens part is the from-label
      and its last digit the to-label exactly when the to-label is a single
      digit; a no-data label on either side yields a code of at least 255,
      whose tens part is not a class. */
  function Encode(f: byte, t: byte): (code: int)
    ensures 0 <= code <= 255 * 10 + 255 <= Int16Max
    ensures Decode(code) == (f, t) <==> t < 10
    ensures f in ClassNames && t in ClassNames ==> code <= 22
    ensures f == NoData || t == NoData ==> code >= NoData && code / 10 !in ClassNames
  {
    var code := f as int * 10 + t;
    DecodeEncode(f, t);
    code
  }

  /** `(code // 10, code % 10)`; floor and Euclidean division agree for divisor 10. */
  function Decode(code: int): (d: (int, int))
    ensures d.0 * 10 + d.1 == code && 0 <= d.1 < 10
    ensures code >= 0 ==> d.0 >= 0
  {
    (code / 10, code % 10)
  }

  lemma DecodeEncode(f: byte, t: byte)
    ensures Decode(f as int * 10 + t) == (f, t) <==> t < 10
  {
    var code := f as int * 10 + t;
    if t < 10 {
      assert code / 10 == f && code % 10 == t;
    } else {
      assert code % 10 == t % 10;
      assert t % 10 < 10 <= t;
    }
  }

  /** A no-data label on the to-side shifts the decoded pair: (f, 255) decodes
      to (f + 25, 5), for instance code 255 reads as "25 → 5". */
  lemma NoDataToLabelMisdecodes(f: byte)
    ensures Decode(Encode(f, NoData)) == (f + 25, 5)
  {
    assert f as int * 10 + 255 == (f + 25) * 10 + 5;
  }

  /** The change-code raster `label_from * 10 + label_to`. */
  function EncodeRaster(from: Raster<byte>, to: Raster<byte>): (change: Raster<int>)
    requires from.WellFormed() && to.WellFormed() && from.SameShape(to)
    ensures change.WellFormed() && change.SameShape(from)
    ensures forall r, c :: 0 <= r < from.height && 0 <= c < from.width ==>
              change.rows[r][c] == from.rows[r][c] as int * 10 + to.rows[r][c]
  {
    Raster(from.height, from.width,
      seq(from.height, r requires 0 <= r < from.height =>
        seq(from.width, c requires 0 <= c < from.width => Encode(from.rows[r][c], to.rows[r][c]))))
  }

  /** "{dari} → {ke}". For non-negative parts the label reads back as the
      pair: its leading digits spell `dari`, then comes the arrow, and the
      rest spells `ke`. */
  function TransitionLabel(dari: int, ke: int): (text: string)
    ensures dari >= 0 && ke >= 0 ==>
              var k := LeadingDigits(text);
              && k + |Arrow| <= |text|
              && AllDigits(text[..k]) && ParseDigits(text[..k]) == dari
              && text[k..k + |Arrow|] == Arrow
              && AllDigits(text[k + |Arrow|..]) && ParseDigits(text[k + |Arrow|..]) == ke
  {
    var a, b := IntToString(dari), IntToString(ke);
    if dari >= 0 && ke >= 0 then
      ParseNatToString(dari);
      ParseNatToString(ke);
      LabelParts(a, b);
      a + Arrow + b
    else
      a + Arrow + b
  }

  /** A label built from a digit string `a` splits back into `a`, the arrow
      and the rest. */
  lemma LabelParts(a: string, b: string)
    requires AllDigits(a)
    ensures var text := a + Arrow + b;
            && LeadingDigits(text) == |a|
            && text[..|a|] == a
            && text[|a|..|a| + |Arrow|] == Arrow
            && text[|a| + |Arrow|..] == b
  {
    var text := a + Arrow + b;
    assert text == a + (Arrow + b);
    LeadingDigitsOfPrefix(a, Arrow + b);
  }

  /** The separator " → " between the two decoded classes. */
  const Arrow: string := " \U{2192} "

  /** The statistics row for `code`, occurring `count` times. */
  function CodeRow(code: int, count: nat, pixelArea: real): (row: ChangeRow)
    ensures RowOfCode(row, code, count, pixelArea)
    ensures pixelArea >= 0.0 ==> row.areaM2 >= 0.0 && row.areaHa >= 0.0
  {
    var m2 := (count as real) * pixelArea;
    assert pixelArea >= 0.0 ==> m2 >= 0.0 by {
      if pixelArea >= 0.0 { ProductNonNegative(count as real, pixelArea); }
    }
    ChangeRow(TransitionLabel(code / 10, code % 10), NameOr(code / 10, "Kode"), NameOr(code % 10, "Kode"),
              count, m2, m2 / SquareMetresPerHectare)
  }

  lemma ProductNonNegative(x: real, y: real)
    requires x >= 0.0 && y >= 0.0
    ensures x * y >= 0.0
  {
  }

  /** `change` is the cell-by-cell change code of `from` and `to`. */
  ghost predicate IsChangeMap(change: Raster<int>, from: Raster<byte>, to: Raster<byte>) {
    && from.WellFormed() && to.WellFormed() && from.SameShape(to)
    && change.WellFormed() && change.SameShape(from)
    && forall i, j :: 0 <= i < from.height && 0 <= j < from.width ==>
         change.rows[i][j] == from.rows[i][j] as int * 10 + to.rows[i][j]
  }

  /** `codes` lists the distinct values of `cells` in ascending order. */
  ghost predicate IsUniqueOf(codes: seq<int>, cells: seq<int>) {
    StrictlyIncreasing(codes) && forall x :: x in codes <==> x in cells
  }

  /** `row` describes `code`: its decoded label and names, how many cells
      hold it, and the area they cover. */
  ghost predicate DescribesCode(row: ChangeRow, code: int, cells: seq<int>, pixelArea: real) {
    row.pixels == Count(cells, code) && RowOfCode(row, code, row.pixels, pixelArea)
  }

  ghost predicate RowOfCode(row: ChangeRow, code: int, count: nat, pixelArea: real) {
    && row.pixels == count
    && row.transition == TransitionLabel(code / 10, code % 10)
    && row.fromName == NameOr(code / 10, "Kode")
    && row.toName == NameOr(code % 10, "Kode")
    && row.areaM2 == (count as real) * pixelArea
    && row.areaHa == row.areaM2 / SquareMetresPerHectare
  }

  /** The row of every code in `codes`, in the same order. */
  function RowsFor(codes: seq<int>, cells: seq<int>, pixelArea: real): (rows: seq<ChangeRow>)
    ensures |rows| == |codes|
    ensures forall i :: 0 <= i < |codes| ==> DescribesCode(rows[i], codes[i], cells, pixelArea)
    ensures pixelArea >= 0.0 ==> forall i :: 0 <= i < |rows| ==> rows[i].areaM2 >= 0.0 && rows[i].areaHa >= 0.0
  {
    if |codes| == 0 then []
    else
      var head := CodeRow(codes[0], Count(cells, codes[0]), pixelArea);
      var tail := RowsFor(codes[1..], cells, pixelArea);
      var rows := [head] + tail;
      forall i | 0 <= i < |codes|
        ensures DescribesCode(rows[i], codes[i], cells, pixelArea)
        ensures pixelArea >= 0.0 ==> rows[i].areaM2 >= 0.0 && rows[i].areaHa >= 0.0
      {
        if i > 0 {
          assert rows[i] == tail[i - 1] && codes[i] == codes[1..][i - 1];
        }
      }
      rows
  }

  /** One row per distinct code of `cells`, codes ascending. */
  function ChangeStats(cells: seq<int>, pixelArea: real): (out: (seq<int>, seq<ChangeRow>))
    ensures IsUniqueOf(out.0, cells)
    ensures |out.1| == |out.0|
    ensures forall i :: 0 <= i < |out.0| ==> DescribesCode(out.1[i], out.0[i], cells, pixelArea)
    ensures forall i :: 0 <= i < |out.1| ==> out.1[i].pixels > 0
    ensures pixelArea >= 0.0 ==> forall i :: 0 <= i < |out.1| ==> out.1[i].areaM2 >= 0.0 && out.1[i].areaHa >= 0.0
  {
    var codes := SortedDistinct(cells);
    var rows := RowsFor(codes, cells, pixelArea);
    assert forall i :: 0 <= i < |codes| ==> rows[i].pixels > 0 by {
      forall i | 0 <= i < |codes| ensures rows[i].pixels > 0 {
        assert codes[i] in cells;
        CountPositive(cells, codes[i]);
      }
    }
    (codes, rows)
  }

  /** `detect_change` without the file I/O: fails on a shape mismatch,
      otherwise returns the change raster and its statistics table. */
  function DetectChange(from: Raster<byte>, to: Raster<byte>, transform: Affine): (r: Result<ChangeOutput, ChangeError>)
    requires from.WellFormed() && to.WellFormed()
    ensures r.Err? <==> !from.SameShape(to)
    ensures r.Ok? ==> IsChangeMap(r.value.changeMap, from, to)
    ensures r.Ok? ==> IsUniqueOf(r.value.codes, r.value.changeMap.Cells())
    ensures r.Ok? ==> |r.value.rows| == |r.value.codes|
    ensures r.Ok? ==> forall i :: 0 <= i < |r.value.codes| ==>
              DescribesCode(r.value.rows[i], r.value.codes[i], r.value.changeMap.Cells(), PixelArea(transform))
    ensures r.Ok? ==> forall i :: 0 <= i < |r.value.rows| ==>
              r.value.rows[i].pixels > 0 && r.value.rows[i].areaM2 >= 0.0 && r.value.rows[i].areaHa >= 0.0
  {
    if !from.SameShape(to) then Err(ShapeMismatch)
    else
      var change := EncodeRaster(from, to);
      var stats := ChangeStats(change.Cells(), PixelArea(transform));
      Ok(ChangeOutput(change, stats.0, stats.1))
  }

  /** The "Jumlah Pixel" column of the statistics table. */
  function Pixels(rows: seq<ChangeRow>): seq<nat> {
    Column(rows, (row: ChangeRow) => row.pixels)
  }

  /** The pixel counts of the statistics table add up to the number of cells. */
  lemma ChangePixelsCoverRaster(from: Raster<byte>, to: Raster<byte>, transform: Affine)
    requires from.WellFormed() && to.WellFormed() && from.SameShape(to)
    ensures DetectChange(from, to, transform).Ok?
    ensures Sum(Pixels(DetectChange(from, to, transform).value.rows)) == from.height * from.width
  {
    var out := DetectChange(from, to, transform).value;
    var cells := out.changeMap.Cells();
    SumIsSumCounts(Pixels(out.rows), out.codes, cells);
    IncreasingHasNoDup(out.codes);
    CountsCoverAll(out.codes, cells);
    FlattenLayout(out.changeMap);
  }

  /** Non-negative decoded pairs get the same label exactly when they are
      the same pair. */
  lemma TransitionLabelInjective(a: nat, b: nat, c: nat, d: nat)
    ensures TransitionLabel(a, b) == TransitionLabel(c, d) <==> a == c && b == d
  {
    if TransitionLabel(a, b) == TransitionLabel(c, d) {
      var A, B, C, D := NatToString(a), NatToString(b), NatToString(c), NatToString(d);
      SplitLabel(A, B, C, D);
      NatToStringInjective(a, c);
      NatToStringInjective(b, d);
    }
  }

  /** Two labels built from digit strings agree only part by part. */
  lemma SplitLabel(A: string, B: string, C: string, D: string)
    requires AllDigits(A) && AllDigits(C)
    requires A + Arrow + B == C + Arrow + D
    ensures A == C && B == D
  {
    LabelParts(A, B);
    LabelParts(C, D);
  }

  /** Every row of the statistics table carries its own "Kode Perubahan" label. */
  lemma ChangeLabelsDistinct(from: Raster<byte>, to: Raster<byte>, transform: Affine)
    requires from.WellFormed() && to.WellFormed() && from.SameShape(to)
    ensures var out := DetectChange(from, to, transform).value;
            forall i, j :: 0 <= i < j < |out.rows| ==> out.rows[i].transition != out.rows[j].transition
  {
    var out := DetectChange(from, to, transform).value;
    var cells := out.changeMap.Cells();
    forall i, j | 0 <= i < j < |out.rows| ensures out.rows[i].transition != out.rows[j].transition {
      var x, y := out.codes[i], out.codes[j];
      assert x in cells && y in cells;
      var p :| 0 <= p < |cells| && cells[p] == x;
      var q :| 0 <= q < |cells| && cells[q] == y;
      CellIsCode(out.changeMap, from, to, p);
      CellIsCode(out.changeMap, from, to, q);
      if out.rows[i].transition == out.rows[j].transition {
        TransitionLabelInjective(x / 10, x % 10, y / 10, y % 10);
        assert false;
      }
    }
  }

  /** Each cell of the change raster is a non-negative code. */
  lemma CellIsCode(change: Raster<int>, from: Raster<byte>, to: Raster<byte>, p: nat)
    requires from.WellFormed() && to.WellFormed() && from.SameShape(to)
    requires change == EncodeRaster(from, to)
    requires p < |change.Cells()|
    ensures change.Cells()[p] >= 0
  {
    var x := change.Cells()[p];
    FlattenMembers(change.rows, x);
    var i :| 0 <= i < |change.rows| && x in change.rows[i];
    var c :| 0 <= c < |change.rows[i]| && change.rows[i][c] == x;
  }

  /** Labels that are all classes give codes that decode to the pair itself,
      so both names in the table are class names. */
  lemma ClassLabelsDecodeToClassNames(f: byte, t: byte)
    requires f in ClassCodes && t in ClassCodes
    ensures Decode(Encode(f, t)) == (f, t)
    ensures NameOr(Encode(f, t) / 10, "Kode") == ClassNames[f]
    ensures NameOr(Encode(f, t) % 10, "Kode") == ClassNames[t]
  {
  }

  /** No-data is not propagated: the pixel labelled 255 in both rasters of
      this 2 x 2 example gets code 2805, not 255. */
  lemma NoDataIsEncodedExample()
    ensures var from := Raster(2, 2, [[0, 1], [2, 255]]);
            var to := Raster(2, 2, [[1, 1], [2, 255]]);
            EncodeRaster(from, to).rows == [[1, 11], [22, 2805]]
  {
    var from := Raster(2, 2, [[0, 1], [2, 255]]);
    var to := Raster(2, 2, [[1, 1], [2, 255]]);
    var out := EncodeRaster(from, to);
    assert out.rows[0][0] == 1 && out.rows[0][1] == 11;
    assert out.rows[1][0] == 22 && out.rows[1][1] == 2805;
    assert out.rows[0] == [1, 11] && out.rows[1] == [22, 2805];
  }
}
