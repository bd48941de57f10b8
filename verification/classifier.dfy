/**
 * `ndvi_to_class`: the threshold ladder that turns a vegetation-index raster
 * into a label raster of classes 0, 1, 2 and the no-data label 255.
 */
module Classifier {
  import opened Wrappers
  import opened Rasters
  import opened Config

  /** One floating-point index sample; `None` stands for NaN. */
  type Sample = Option<real>

  const LowThreshold: real := 0.2
  const HighThreshold: real := 0.5

  /** IEEE equality: NaN equals nothing, not even NaN. */
  predicate FloatEq(x: Sample, y: Sample) {
    x.Some? && y.Some? && x.value == y.value
  }

  /** The index after the no-data step: samples equal to the declared no-data
      value become NaN; with no declared value the samples are copied as they are. */
  function Masked(s: Sample, nodata: Option<Sample>): Sample {
    if nodata.Some? && FloatEq(s, nodata.value) then None else s
  }

  /** A sample is no data when it is NaN or equals the declared no-data value. */
  predicate IsNoData(s: Sample, nodata: Option<Sample>) {
    s.None? || nodata == Some(s)
  }

  /** The label of one sample, set in the source's order: zero everywhere,
      then 1 where 0.2 < v <= 0.5, then 2 where v > 0.5, then 255 where the
      masked index is NaN. Comparisons with NaN are false. */
  function ClassifySample(s: Sample, nodata: Option<Sample>): (cls: byte)
    ensures cls == NoData <==> IsNoData(s, nodata)
    ensures cls == NonVegetation <==> !IsNoData(s, nodata) && s.value <= LowThreshold
    ensures cls == MediumVegetation <==> !IsNoData(s, nodata) && LowThreshold < s.value <= HighThreshold
    ensures cls == HighVegetation <==> !IsNoData(s, nodata) && s.value > HighThreshold
    ensures cls in ClassNames || cls == NoData
  {
    var m := Masked(s, nodata);
    var step1 := NonVegetation;
    var step2 := if m.Some? && LowThreshold < m.value && m.value <= HighThreshold then MediumVegetation else step1;
    var step3 := if m.Some? && m.value > HighThreshold then HighVegetation else step2;
    if m.None? then NoData else step3
  }

  /** Declaring NaN itself as the no-data value changes nothing: the equality
      test never holds and the NaN test already catches NaN samples. */
  lemma NaNNoDataIsUnmasked(s: Sample)
    ensures ClassifySample(s, Some(None)) == ClassifySample(s, None)
  {
  }

  /** `ndvi_to_class(ndvi_array, nodata_value)` over a whole raster. */
  function ClassifyRaster(g: Raster<Sample>, nodata: Option<Sample>): (labels: Raster<byte>)
    requires g.WellFormed()
    ensures labels.WellFormed() && labels.SameShape(g)
    ensures forall r, c :: 0 <= r < g.height && 0 <= c < g.width ==>
              labels.rows[r][c] == ClassifySample(g.rows[r][c], nodata)
  {
    Raster(g.height, g.width,
      seq(g.height, r requires 0 <= r < g.height =>
        seq(g.width, c requires 0 <= c < g.width => ClassifySample(g.rows[r][c], nodata))))
  }

  /** Every label is a class code or the no-data label, and a cell is 255
      exactly when its sample is no data. */
  lemma {:induction false} ClassifiedLabelsAreClassesOrNoData(g: Raster<Sample>, nodata: Option<Sample>)
    requires g.WellFormed()
    ensures forall r, c :: 0 <= r < g.height && 0 <= c < g.width ==>
              var cls := ClassifyRaster(g, nodata).rows[r][c];
              (cls in ClassNames || cls == NoData) &&
              (cls == NoData <==> IsNoData(g.rows[r][c], nodata))
  {
    var labels := ClassifyRaster(g, nodata);
    forall r, c | 0 <= r < g.height && 0 <= c < g.width
      ensures (labels.rows[r][c] in ClassNames || labels.rows[r][c] == NoData) &&
              (labels.rows[r][c] == NoData <==> IsNoData(g.rows[r][c], nodata))
    {
      assert labels.rows[r][c] == ClassifySample(g.rows[r][c], nodata);
    }
  }

  /** A raster that is no data everywhere classifies to 255 everywhere. */
  lemma AllNoDataClassifiesToNoData(g: Raster<Sample>, nodata: Option<Sample>)
    requires g.WellFormed()
    requires forall r, c :: 0 <= r < g.height && 0 <= c < g.width ==> IsNoData(g.rows[r][c], nodata)
    ensures forall r, c :: 0 <= r < g.height && 0 <= c < g.width ==> ClassifyRaster(g, nodata).rows[r][c] == NoData
  {
  }

  /** The 2 x 2 example: indices 0.1, 0.3, 0.6 and the declared no-data value. */
  lemma TwoByTwoExample()
    ensures var nodata := Some(-9999.0);
            ClassifyRaster(Raster(2, 2, [[Some(0.1), Some(0.3)], [Some(0.6), nodata]]), Some(nodata)).rows
              == [[0, 1], [2, 255]]
  {
    var nodata := Some(-9999.0);
    var g := Raster(2, 2, [[Some(0.1), Some(0.3)], [Some(0.6), nodata]]);
    var out := ClassifyRaster(g, Some(nodata));
    assert out.rows[0][0] == 0 && out.rows[0][1] == 1;
    assert out.rows[1][0] == 2 && out.rows[1][1] == 255;
    assert out.rows[0] == [0, 1] && out.rows[1] == [2, 255];
  }
}
