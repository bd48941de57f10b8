/**
 * `compute_area_stats` and `compute_transition_matrix`: per-class pixel and
 * area counts of one label raster, and the class-by-class transition table
 * of two label rasters. Both ignore the no-data label 255.
 */
module AnalyzeChange {
  import opened Wrappers
  import opened Rasters
  import opened Counting
  import opened Config


  /** One row of the area table: "Kelas", "Piksel", "Luas (m2)", "Luas (ha)". */
  datatype AreaRow = AreaRow(className: string, pixels: nat, areaM2: real, areaHa: real)

  /** The `(stats, counts)` pair: the Counter's keys in its own order, its
      counts, and the table rows in the same order as the keys. */
  datatype AreaStats = AreaStats(classIds: seq<byte>, counts: map<byte, nat>, rows: seq<AreaRow>)

  /** `label_array[label_array != 255].flatten()`: the labelled samples in row-major order. */
  function LabelledCells(labels: Raster<byte>): (valid: seq<byte>)
    ensures |valid| + Count(labels.Cells(), NoData) == |labels.Cells()|
    ensures forall v :: v in valid <==> v in labels.Cells() && v != NoData
    ensures forall v :: v != NoData ==> Count(valid, v) == Count(labels.Cells(), v)
  {
    Without(labels.Cells(), NoData)
  }

  /** `row` is the table row of `classId`, seen `count` times, with cells of `cellArea` m². */
  ghost predicate DescribesClass(row: AreaRow, classId: byte, count: nat, cellArea: real) {
    && row.className == NameOr(classId, "Kelas")
    && row.pixels == count
    && row.areaM2 == (count as real) * cellArea
    && row.areaHa == row.areaM2 / SquareMetresPerHectare
  }

  function AreaRowsFor(ids: seq<byte>, counts: map<byte, nat>, cellArea: real): (rows: seq<AreaRow>)
    requires forall v :: v in ids ==> v in counts
    ensures |rows| == |ids|
    ensures forall i :: 0 <= i < |ids| ==> DescribesClass(rows[i], ids[i], counts[ids[i]], cellArea)
  {
    if |ids| == 0 then []
    else
      var m2 := (counts[ids[0]] as real) * cellArea;
      [AreaRow(NameOr(ids[0], "Kelas"), counts[ids[0]], m2, m2 / SquareMetresPerHectare)]
        + AreaRowsFor(ids[1..], counts, cellArea)
  }

  /** `compute_area_stats(label_array)` with the cell area passed in: one row
      per label value other than 255 that occurs, in first-occurrence order,
      with its count, its name (or "Kelas {id}") and its area. Classes that do
      not occur get no row. */
  function ComputeAreaStats(labels: Raster<byte>, cellArea: real): (stats: AreaStats)
    ensures NoDup(stats.classIds)
    ensures forall v :: v in stats.classIds <==> v in labels.Cells() && v != NoData
    ensures forall v :: v in stats.counts <==> v in stats.classIds
    ensures forall v :: v in stats.counts ==> stats.counts[v] == Count(labels.Cells(), v) > 0
    ensures |stats.rows| == |stats.classIds|
    ensures forall i :: 0 <= i < |stats.classIds| ==>
              DescribesClass(stats.rows[i], stats.classIds[i], stats.counts[stats.classIds[i]], cellArea)
  {
    var valid := LabelledCells(labels);
    var ids := Distinct(valid);
    var counts := CounterOf(ids, valid);
    assert forall v :: v in counts ==> Count(valid, v) > 0 by {
      forall v | v in counts ensures Count(valid, v) > 0 {
        CountPositive(valid, v);
      }
    }
    AreaStats(ids, counts, AreaRowsFor(ids, counts, cellArea))
  }

  /** The Counter's mapping from each listed value to its number of occurrences. */
  function CounterOf(ids: seq<byte>, valid: seq<byte>): (counts: map<byte, nat>)
    ensures forall v :: v in counts <==> v in ids
    ensures forall v :: v in counts ==> counts[v] == Count(valid, v)
  {
    map v | v in ids :: Count(valid, v)
  }

  /** The "Piksel" column of the area table. */
  function Pixels(rows: seq<AreaRow>): seq<nat> {
    Column(rows, (row: AreaRow) => row.pixels)
  }

  /** The pixel counts of the area table add up to the number of cells not
      labelled 255. */
  lemma AreaPixelsCoverLabelledCells(labels: Raster<byte>, cellArea: real)
    ensures Sum(Pixels(ComputeAreaStats(labels, cellArea).rows)) == |labels.Cells()| - Count(labels.Cells(), NoData)
  {
    var stats := ComputeAreaStats(labels, cellArea);
    var valid := LabelledCells(labels);
    assert stats.classIds == Distinct(valid);
    SumIsSumCounts(Pixels(stats.rows), stats.classIds, valid);
    CountsCoverAll(stats.classIds, valid);
  }

  /** Rows come out in the order their class first appears in the raster,
      read row by row. */
  lemma AreaRowsInFirstOccurrenceOrder(labels: Raster<byte>, cellArea: real)
    ensures var ids := ComputeAreaStats(labels, cellArea).classIds;
            forall i, j :: 0 <= i < j < |ids| ==> OccursBefore(labels.Cells(), ids[i], ids[j])
  {
    var valid := LabelledCells(labels);
    var ids := ComputeAreaStats(labels, cellArea).classIds;
    assert ids == Distinct(valid);
    DistinctFirstOccurrenceOrder(valid);
    forall i, j | 0 <= i < j < |ids| ensures OccursBefore(labels.Cells(), ids[i], ids[j]) {
      assert ids[i] in valid && ids[j] in valid;
      OccursBeforeWithout(labels.Cells(), NoData, ids[i], ids[j]);
    }
  }

  /** A raster with no labelled cell gives an empty table. */
  lemma AllNoDataGivesNoRows(labels: Raster<byte>, cellArea: real)
    requires forall v :: v in labels.Cells() ==> v == NoData
    ensures ComputeAreaStats(labels, cellArea).rows == []
  {
  }

  // ---------------------------------------------------------------------------
  // Transition matrix
  // ---------------------------------------------------------------------------

  /** The failures of `compute_transition_matrix`: the masks cannot be combined
      or applied when the shapes differ, and `CLASS_NAMES[v]` raises `KeyError`
      for a label that is not a class. */
  datatype TransitionError = ShapeMismatch | KeyError(key: int)

  /** A class-by-class table: `labels` names rows and columns alike, `cells[i][j]`
      counts pixels going from class `labels[i]` to class `labels[j]`. */
  datatype TransitionMatrix = TransitionMatrix(labels: seq<string>, cells: seq<seq<nat>>)

  /** `[CLASS_NAMES[i] for i in sorted(CLASS_NAMES.keys())]`. */
  function ClassLabels(): (labels: seq<string>)
    ensures |labels| == |SortedClassCodes()|
    ensures forall i :: 0 <= i < |labels| ==> labels[i] == ClassNames[SortedClassCodes()[i]]
  {
    var ks := SortedClassCodes();
    seq(|ks|, i requires 0 <= i < |ks| => ClassNames[ks[i]])
  }

  /** Number of positions holding `a` in `fs` and `b` in `ts` at once: how
      often the pair (a, b) occurs in `zip(fs, ts)`. */
  function CountAt(fs: seq<byte>, ts: seq<byte>, a: int, b: int): nat
    requires |fs| == |ts|
  {
    if |fs| == 0 then 0
    else CountAt(fs[..|fs| - 1], ts[..|ts| - 1], a, b) + (if fs[|fs| - 1] == a && ts[|ts| - 1] == b then 1 else 0)
  }

  /** Number of positions labelled (not 255) in both `fs` and `ts`: the
      size of `mask`. */
  function JointCount(fs: seq<byte>, ts: seq<byte>): nat
    requires |fs| == |ts|
  {
    if |fs| == 0 then 0
    else JointCount(fs[..|fs| - 1], ts[..|ts| - 1]) + (if fs[|fs| - 1] != NoData && ts[|ts| - 1] != NoData then 1 else 0)
  }

  /** The (from, to) label pairs of the pixels labelled in both rasters, in
      row-major order: `zip(from_array[mask], to_array[mask])`. A position
      contributes its pair exactly when neither label is 255, so every pair
      of labels other than 255 occurs as often as it does position by
      position, and there is one pair per jointly labelled position. */
  function JointPairs(fs: seq<byte>, ts: seq<byte>): (pairs: seq<(int, int)>)
    requires |fs| == |ts|
    ensures |pairs| == JointCount(fs, ts)
    ensures forall a, b :: a != NoData && b != NoData ==> Count(pairs, (a, b)) == CountAt(fs, ts, a, b)
    ensures forall p :: p in pairs ==> p.0 != NoData && p.1 != NoData
    ensures |pairs| + Count(fs, NoData) <= |fs|
    ensures |pairs| + Count(ts, NoData) <= |ts|
  {
    if |fs| == 0 then []
    else
      var init := JointPairs(fs[..|fs| - 1], ts[..|ts| - 1]);
      var f, t := fs[|fs| - 1], ts[|ts| - 1];
      if f != NoData && t != NoData then
        assert forall a, b :: Count(init + [(f as int, t as int)], (a, b)) ==
                 Count(init, (a, b)) + (if (f as int, t as int) == (a, b) then 1 else 0) by {
          forall a, b { CountSnoc(init, (f as int, t as int), (a, b)); }
        }
        init + [(f as int, t as int)]
      else init
  }

  /** The first key `CLASS_NAMES[f]`, then `CLASS_NAMES[t]`, would fail on, pair by pair. */
  function FirstUnknownKey(pairs: seq<(int, int)>): (key: Option<int>)
    ensures key.None? <==> forall p :: p in pairs ==> p.0 in ClassCodes && p.1 in ClassCodes
    ensures key.Some? ==> key.value !in ClassCodes
  {
    if |pairs| == 0 then None
    else if pairs[0].0 !in ClassCodes then Some(pairs[0].0)
    else if pairs[0].1 !in ClassCodes then Some(pairs[0].1)
    else
      assert forall p :: p in pairs <==> p == pairs[0] || p in pairs[1..] by {
        assert pairs == [pairs[0]] + pairs[1..];
      }
      FirstUnknownKey(pairs[1..])
  }

  /** The failing key is the from- or to-label of some jointly labelled pixel. */
  lemma {:induction false} FirstUnknownKeyOccurs(pairs: seq<(int, int)>)
    requires FirstUnknownKey(pairs).Some?
    ensures exists p :: p in pairs && (p.0 == FirstUnknownKey(pairs).value || p.1 == FirstUnknownKey(pairs).value)
  {
    if pairs[0].0 in ClassCodes && pairs[0].1 in ClassCodes {
      FirstUnknownKeyOccurs(pairs[1..]);
      var p :| p in pairs[1..] && (p.0 == FirstUnknownKey(pairs).value || p.1 == FirstUnknownKey(pairs).value);
      assert p in pairs;
    } else {
      assert pairs[0] in pairs;
    }
  }

  lemma FirstUnknownKeyStep(pairs: seq<(int, int)>, k: nat)
    requires k < |pairs|
    ensures FirstUnknownKey(pairs[k..]) ==
              if pairs[k].0 !in ClassCodes then Some(pairs[k].0)
              else if pairs[k].1 !in ClassCodes then Some(pairs[k].1)
              else FirstUnknownKey(pairs[k + 1..])
  {
    assert pairs[k..][0] == pairs[k];
    assert pairs[k..][1..] == pairs[k + 1..];
  }

  /** `cells` is the 3 x 3 table of how often each pair of classes occurs in `pairs`. */
  ghost predicate IsTally(cells: seq<seq<nat>>, pairs: seq<(int, int)>) {
    var ks := SortedClassCodes();
    && |cells| == |ks|
    && (forall i :: 0 <= i < |ks| ==> |cells[i]| == |ks|)
    && forall i, j :: 0 <= i < |ks| && 0 <= j < |ks| ==> cells[i][j] == Count(pairs, (ks[i], ks[j]))
  }

  /** Sum of every cell of a table. */
  function MatrixTotal(cells: seq<seq<nat>>): nat {
    if |cells| == 0 then 0 else Sum(cells[0]) + MatrixTotal(cells[1..])
  }

  /** The nine class pairs, from-class major. */
  const ClassPairs: seq<(int, int)> :=
    [(0, 0), (0, 1), (0, 2), (1, 0), (1, 1), (1, 2), (2, 0), (2, 1), (2, 2)]

  /** A full tally accounts for every pair whose classes are both known. */
  lemma TallyTotal(cells: seq<seq<nat>>, pairs: seq<(int, int)>)
    requires IsTally(cells, pairs)
    requires forall p :: p in pairs ==> p.0 in ClassCodes && p.1 in ClassCodes
    ensures MatrixTotal(cells) == |pairs|
  {
    assert MatrixTotal(cells) == SumCounts(ClassPairs, pairs) by {
      var ks := SortedClassCodes();
      forall i, j | 0 <= i < 3 && 0 <= j < 3 ensures cells[i][j] == Count(pairs, (i, j)) {
        assert ks[i] == i && ks[j] == j;
      }
      MatrixTotalOfThree(cells);
      SumCountsOfClassPairs(pairs);
    }
    assert NoDup(ClassPairs);
    forall p | p in pairs ensures p in ClassPairs {
      assert p.0 in {0, 1, 2} && p.1 in {0, 1, 2};
    }
    CountsCoverAll(ClassPairs, pairs);
  }

  lemma MatrixTotalOfThree(cells: seq<seq<nat>>)
    requires |cells| == 3 && forall i :: 0 <= i < 3 ==> |cells[i]| == 3
    ensures MatrixTotal(cells) ==
              cells[0][0] + cells[0][1] + cells[0][2] + cells[1][0] + cells[1][1] + cells[1][2]
              + cells[2][0] + cells[2][1] + cells[2][2]
  {
    SumOfThree(cells[0]);
    SumOfThree(cells[1]);
    SumOfThree(cells[2]);
    var m1 := cells[1..];
    var m2 := m1[1..];
    assert m2[1..] == [];
    assert MatrixTotal(m2) == Sum(cells[2]);
    assert MatrixTotal(m1) == Sum(cells[1]) + MatrixTotal(m2);
  }

  lemma SumOfThree(row: seq<nat>)
    requires |row| == 3
    ensures Sum(row) == row[0] + row[1] + row[2]
  {
    var r1 := row[1..];
    var r2 := r1[1..];
    assert r2[1..] == [];
    assert Sum(r2) == row[2];
    assert Sum(r1) == row[1] + Sum(r2);
  }

  lemma SumCountsOfClassPairs(pairs: seq<(int, int)>)
    ensures SumCounts(ClassPairs, pairs) ==
              Count(pairs, (0, 0)) + Count(pairs, (0, 1)) + Count(pairs, (0, 2))
              + Count(pairs, (1, 0)) + Count(pairs, (1, 1)) + Count(pairs, (1, 2))
              + Count(pairs, (2, 0)) + Count(pairs, (2, 1)) + Count(pairs, (2, 2))
  {
    var u0 := ClassPairs;
    var u1 := u0[1..];
    var u2 := u1[1..];
    var u3 := u2[1..];
    var u4 := u3[1..];
    var u5 := u4[1..];
    var u6 := u5[1..];
    var u7 := u6[1..];
    var u8 := u7[1..];
    assert u8[1..] == [];
    assert SumCounts(u8, pairs) == Count(pairs, (2, 2));
    assert SumCounts(u7, pairs) == Count(pairs, (2, 1)) + SumCounts(u8, pairs);
    assert SumCounts(u6, pairs) == Count(pairs, (2, 0)) + SumCounts(u7, pairs);
    assert SumCounts(u5, pairs) == Count(pairs, (1, 2)) + SumCounts(u6, pairs);
    assert SumCounts(u4, pairs) == Count(pairs, (1, 1)) + SumCounts(u5, pairs);
    assert SumCounts(u3, pairs) == Count(pairs, (1, 0)) + SumCounts(u4, pairs);
    assert SumCounts(u2, pairs) == Count(pairs, (0, 2)) + SumCounts(u3, pairs);
    assert SumCounts(u1, pairs) == Count(pairs, (0, 1)) + SumCounts(u2, pairs);
  }

  /** One more pair raises exactly its own cell by one. */
  lemma TallyStep(cells: seq<seq<nat>>, prefix: seq<(int, int)>, f: int, t: int)
    requires IsTally(cells, prefix)
    requires f in ClassCodes && t in ClassCodes
    ensures IsTally(cells[f := cells[f][t := cells[f][t] + 1]], prefix + [(f, t)])
  {
    var ks := SortedClassCodes();
    var next := cells[f := cells[f][t := cells[f][t] + 1]];
    forall i, j | 0 <= i < |ks| && 0 <= j < |ks|
      ensures next[i][j] == Count(prefix + [(f, t)], (ks[i], ks[j]))
    {
      CountSnoc(prefix, (f, t), (ks[i], ks[j]));
      if i == f && j == t {
        assert next[i][j] == cells[i][j] + 1;
      } else {
        assert next[i][j] == cells[i][j];
      }
    }
  }

  /** What the tally loop knows after `k` pairs: they were all classes and
      `cells` counts them; the first failing key lies in the rest. */
  ghost predicate TalliedUpTo(cells: seq<seq<nat>>, pairs: seq<(int, int)>, k: nat) {
    && k <= |pairs|
    && (forall p :: p in pairs[..k] ==> p.0 in ClassCodes && p.1 in ClassCodes)
    && FirstUnknownKey(pairs) == FirstUnknownKey(pairs[k..])
    && IsTally(cells, pairs[..k])
  }

  /** A tally is a 3 x 3 table, indexed by the class codes themselves. */
  lemma TallyShape(cells: seq<seq<nat>>, pairs: seq<(int, int)>)
    requires IsTally(cells, pairs)
    ensures |cells| == 3 && forall i :: 0 <= i < 3 ==> |cells[i]| == 3
    ensures forall i :: i in ClassCodes ==> 0 <= i < 3
  {
    assert |SortedClassCodes()| == 3;
  }

  lemma TallyStart(pairs: seq<(int, int)>)
    ensures TalliedUpTo([[0, 0, 0], [0, 0, 0], [0, 0, 0]], pairs, 0)
  {
    assert pairs[..0] == [];
    assert pairs[0..] == pairs;
  }

  lemma TallyAdvance(cells: seq<seq<nat>>, pairs: seq<(int, int)>, k: nat)
    requires TalliedUpTo(cells, pairs, k) && k < |pairs|
    requires pairs[k].0 in ClassCodes && pairs[k].1 in ClassCodes
    ensures TalliedUpTo(cells[pairs[k].0 := cells[pairs[k].0][pairs[k].1 := cells[pairs[k].0][pairs[k].1] + 1]], pairs, k + 1)
  {
    var (f, t) := pairs[k];
    assert pairs[..k + 1] == pairs[..k] + [(f, t)];
    TallyStep(cells, pairs[..k], f, t);
    FirstUnknownKeyStep(pairs, k);
  }

  lemma TallyFinish(cells: seq<seq<nat>>, pairs: seq<(int, int)>)
    requires TalliedUpTo(cells, pairs, |pairs|)
    ensures FirstUnknownKey(pairs).None?
    ensures IsTally(cells, pairs) && MatrixTotal(cells) == |pairs|
  {
    assert pairs[..|pairs|] == pairs;
    TallyTotal(cells, pairs);
  }

  /** Cell [i, j] of the 3 x 3 table is the number of positions labelled
      i in `fs` and j in `ts`. */
  ghost predicate CountsJointLabels(cells: seq<seq<nat>>, fs: seq<byte>, ts: seq<byte>)
    requires |fs| == |ts|
  {
    && |cells| == 3 && (forall i :: 0 <= i < 3 ==> |cells[i]| == 3)
    && forall i, j :: 0 <= i < 3 && 0 <= j < 3 ==> cells[i][j] == CountAt(fs, ts, i, j)
  }

  /** A tally of the joint pairs counts, cell by cell, the positions carrying
      each pair of classes. */
  lemma TallyCountsJointLabels(cells: seq<seq<nat>>, fs: seq<byte>, ts: seq<byte>)
    requires |fs| == |ts|
    requires IsTally(cells, JointPairs(fs, ts))
    ensures CountsJointLabels(cells, fs, ts)
  {
    var ks := SortedClassCodes();
    TallyShape(cells, JointPairs(fs, ts));
    forall i, j | 0 <= i < 3 && 0 <= j < 3 ensures cells[i][j] == CountAt(fs, ts, i, j) {
      assert ks[i] == i && ks[j] == j;
    }
  }

  /** The `for f, t in zip(...)` loop: starting from an all-zero table, add one
      to cell [f, t] per pair, failing on the first label that is not a class. */
  method TallyPairs(pairs: seq<(int, int)>) returns (r: Result<seq<seq<nat>>, TransitionError>)
    ensures r.Ok? <==> FirstUnknownKey(pairs).None?
    ensures r.Err? ==> r.error == KeyError(FirstUnknownKey(pairs).value)
    ensures r.Ok? ==> IsTally(r.value, pairs) && MatrixTotal(r.value) == |pairs|
  {
    var cells: seq<seq<nat>> := [[0, 0, 0], [0, 0, 0], [0, 0, 0]];
    var k := 0;
    TallyStart(pairs);
    while k < |pairs|
      invariant TalliedUpTo(cells, pairs, k)
    {
      var (f, t) := pairs[k];
      FirstUnknownKeyStep(pairs, k);
      if f !in ClassCodes {
        assert FirstUnknownKey(pairs) == Some(f);
        return Err(KeyError(f));
      }
      if t !in ClassCodes {
        assert FirstUnknownKey(pairs) == Some(t);
        return Err(KeyError(t));
      }
      TallyShape(cells, pairs[..k]);
      TallyAdvance(cells, pairs, k);
      cells := cells[f := cells[f][t := cells[f][t] + 1]];
      k := k + 1;
    }
    TallyFinish(cells, pairs);
    return Ok(cells);
  }

  /** `compute_transition_matrix(from_array, to_array)`: zero-initialised rows
      and columns for the sorted classes, then one increment per pixel labelled
      in both rasters. A shape mismatch or a label that is not a class fails.
      The total never exceeds either raster's number of labelled cells. */
  method ComputeTransitionMatrix(from: Raster<byte>, to: Raster<byte>) returns (r: Result<TransitionMatrix, TransitionError>)
    requires from.WellFormed() && to.WellFormed()
    ensures !from.SameShape(to) ==> r == Err(ShapeMismatch)
    ensures from.SameShape(to) ==>
              var pairs := JointPairs(from.Cells(), to.Cells());
              && (r.Ok? <==> FirstUnknownKey(pairs).None?)
              && (r.Err? ==> r.error == KeyError(FirstUnknownKey(pairs).value))
              && (r.Ok? ==> r.value.labels == ClassLabels() && IsTally(r.value.cells, pairs))
              && (r.Ok? ==> MatrixTotal(r.value.cells) == |pairs|)
              && |pairs| <= |from.Cells()| - Count(from.Cells(), NoData)
              && |pairs| <= |to.Cells()| - Count(to.Cells(), NoData)
    ensures from.SameShape(to) && r.Ok? ==>
              CountsJointLabels(r.value.cells, from.Cells(), to.Cells())
              && MatrixTotal(r.value.cells) == JointCount(from.Cells(), to.Cells())
  {
    if !from.SameShape(to) {
      return Err(ShapeMismatch);
    }
    var pairs := JointPairs(from.Cells(), to.Cells());
    var tally := TallyPairs(pairs);
    match tally {
      case Ok(cells) =>
        TallyCountsJointLabels(cells, from.Cells(), to.Cells());
        return Ok(TransitionMatrix(ClassLabels(), cells));
      case Err(e) => return Err(e);
    }
  }
}
