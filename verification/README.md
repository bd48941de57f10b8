# Land-cover change core in Dafny

This project models the classification and change-detection engine of a
land-cover change pipeline. The pipeline compares two satellite scenes of one
area. Everything around the engine is raster I/O, clipping, model training or
plotting. The engine itself has three parts.

- **Classifier** (`ndvi_to_class`). It turns every NDVI (vegetation index)
  sample into a class: 0 "Non-Vegetasi", 1 "Vegetasi Sedang" or
  2 "Vegetasi Tinggi". The thresholds are 0.2 and 0.5. No-data samples get
  the label 255. A sample is no data when it is NaN or equals the declared
  no-data value.
- **Change encoder** (`detect_change`). It checks that the two label rasters
  have the same shape, then writes `from * 10 + to` for every pixel as int16.
  It lists the distinct codes in ascending order, as `np.unique` does. For
  each code it decodes `code // 10` and `code % 10` to class names, and gives
  the pixel count and the area from `|a * e|` of the geotransform.
- **Statistics** (`compute_area_stats`, `compute_transition_matrix`). These
  count pixels per class and build the class-by-class transition table. Both
  skip the label 255.

The model is written in a functional style.

- A raster is `Raster<T>(height, width, rows: seq<seq<T>>)`. Being a proper
  numpy array is the `WellFormed` predicate.
- Labels are `byte`s (uint8).
- An NDVI sample is `Option<real>`, and `None` stands for NaN.
- Every operation is a pure function, with two exceptions. The transition
  tally (`TallyPairs`) is a method with a loop, as in the source. The
  `ComputeTransitionMatrix` method that calls it is also a method.
- Module layout follows the source files. `Classifier` models
  `src/ndvi_to_class.py`, `ChangeDetection` models `src/change_detection.py`,
  `AnalyzeChange` models `src/analyze_change.py`, and `Config` models
  `src/config.py`.
- Shared helper modules:
  - `Rasters`: shape, row-major flattening and pixel area.
  - `Counting`: occurrence counts, Counter order and `np.unique` order.
  - `Decimal`: Python's `str()` of integers.
  - `Wrappers`: `Option`/`Result`.

The model follows what the code does. These behaviours of the code are worth noting.

- `detect_change` does not mask no-data pixels. A 255 label is encoded like
  any other value. So (0, 255) gives code 255, (255, 0) gives 2550 and
  (255, 255) gives 2805. A to-label of 255 decodes to the wrong pair: code 255
  reads as "25 → 5". An encoder that masked no data would write 255 for
  those pixels instead.
- `compute_area_stats` returns rows only for the labels that occur. The rows
  come in `collections.Counter` order, that is, order of first occurrence. A
  raster that is entirely no data gives no rows. A class that does not occur
  gets no row at all, not a row with zero pixels.
- `compute_transition_matrix` raises `KeyError` when a pixel is labelled in
  both rasters but its label is not a class code.
- `analyze_change.py` imports `PIXEL_AREA_M2`, but `src/config.py:20` has it
  commented out, so that module cannot be imported as written. The model takes
  the cell area as an explicit parameter of `ComputeAreaStats`.

## Model

| member | source | states |
|---|---|---|
| Classifier.ClassifySample | src/ndvi_to_class.py:10-16 | The label is 255 exactly when the sample is NaN or equals the declared no-data value, whatever its value. Otherwise it is 0 when v <= 0.2 (0.2 itself included), 1 when 0.2 < v <= 0.5 (0.5 itself included) and 2 when v > 0.5. Every label is a class code or 255. |
| Classifier.NaNNoDataIsUnmasked | src/ndvi_to_class.py:11-15 | A NaN no-data value behaves like no declared value: NaN samples still become 255 through the `isnan` test. |
| Classifier.ClassifyRaster | src/ndvi_to_class.py:10-16 | The label raster has the input's shape. Each cell is the classification of the sample at the same position. |
| Classifier.ClassifiedLabelsAreClassesOrNoData | src/ndvi_to_class.py:12-15 | Every output cell is in {0, 1, 2, 255}. A cell is 255 exactly when its input sample is no data. |
| Classifier.AllNoDataClassifiesToNoData | src/ndvi_to_class.py:11-15 | A raster that is all no data classifies to 255 everywhere. |
| Classifier.TwoByTwoExample | src/ndvi_to_class.py:10-16 | [[0.1, 0.3], [0.6, nodata]] classifies to [[0, 1], [2, 255]]. |
| Config.ClassKeys | src/config.py:1-5 | The keys of `CLASS_NAMES` are exactly {0, 1, 2}. |
| Config.MappingInvertsNames | src/config.py:1-11 | `CLASS_MAPPING[CLASS_NAMES[k]] == k` for every class code, and `CLASS_NAMES[CLASS_MAPPING[n]] == n` for every class name. |
| Config.NoDataIsNotAClass | src/config.py:1-5 | The no-data label 255 is not a class code. |
| Config.ColorsCoverNames | src/config.py:14-18 | `CLASS_COLORS` has an entry for every class name and for nothing else. |
| Config.SortedClassCodes | src/analyze_change.py:28 | `sorted(CLASS_NAMES.keys())` is ascending, holds exactly the class codes, and lists code i at position i. |
| Config.NameOrIdentifiesClass | src/change_detection.py:42-43 | The `"Kode {n}"` / `"Kelas {n}"` fallback never equals a class name. A looked-up name is a class name exactly when the code is a class, and then maps back to that code. |
| Config.NameOr | src/analyze_change.py:16 | A class code gets its `CLASS_NAMES` entry. Any other code gets the prefix, a space and `str(code)`, as `.get(id, f"Kelas {id}")` and `.get(dari, f"Kode {dari}")` (src/change_detection.py:42-43) give. |
| ChangeDetection.Encode | src/change_detection.py:16 | A pixel's code lies in 0..2805, so the int16 cast never wraps. The code decodes back to its (from, to) pair exactly when the to-label is below 10. Two class labels give a code of at most 22. A 255 on either side gives a code of at least 255, whose tens part is not a class. |
| ChangeDetection.DecodeEncode | src/change_detection.py:38-39 | `(f*10+t) // 10 == f` and `(f*10+t) % 10 == t` hold together if and only if t < 10. |
| ChangeDetection.Decode | src/change_detection.py:38-39 | `(code // 10, code % 10)` are the quotient and remainder: the remainder lies in 0..9, the two rebuild the code as `q*10 + r`, and a non-negative code gives a non-negative quotient. |
| ChangeDetection.NoDataToLabelMisdecodes | src/change_detection.py:16-39 | A pixel labelled (f, 255) decodes to (f + 25, 5). |
| ChangeDetection.EncodeRaster | src/change_detection.py:16 | The change raster has the input shape, and every cell equals from*10+to at the same position. No cell is masked. |
| ChangeDetection.NoDataIsEncodedExample | src/change_detection.py:16 | from [[0,1],[2,255]] and to [[1,1],[2,255]] encode to [[1,11],[22,2805]]. The no-data pixel is not propagated as 255. |
| ChangeDetection.CodeRow | src/change_detection.py:35-47 | The row for a code carries the label `"{code//10} → {code%10}"`, the looked-up or fallback names, the count, the area `count * pixel_area`, and the hectares (area / 10000). With a non-negative cell area, both areas are non-negative. |
| ChangeDetection.RowsFor | src/change_detection.py:37-47 | One row per code, in the order of the codes. Each row describes its code over the given cells. |
| ChangeDetection.ChangeStats | src/change_detection.py:26-47 | The codes are strictly ascending and are exactly the values present. There is one row per code, and each row's count is the number of cells holding that code (always > 0). |
| ChangeDetection.DetectChange | src/change_detection.py:6-47 | The call fails if and only if the shapes differ. Otherwise it returns the change raster, the `np.unique` codes and their rows. Pixel area is `|a*e|`, and areas are non-negative. |
| ChangeDetection.ChangePixelsCoverRaster | src/change_detection.py:26 | The "Jumlah Pixel" column sums to height * width. |
| ChangeDetection.TransitionLabelInjective | src/change_detection.py:41 | Two non-negative (dari, ke) pairs give the same "Kode Perubahan" string if and only if they are the same pair. |
| ChangeDetection.TransitionLabel | src/change_detection.py:41 | For non-negative parts, `f"{dari} → {ke}"` reads back as the pair: its leading digits parse to `dari`, the arrow follows, and the rest parses to `ke`. |
| ChangeDetection.ChangeLabelsDistinct | src/change_detection.py:37-41 | No two rows of the change table carry the same "Kode Perubahan" label. |
| ChangeDetection.ClassLabelsDecodeToClassNames | src/change_detection.py:29-43 | For class labels f and t, the code decodes to (f, t), and "Dari"/"Ke" are `CLASS_NAMES[f]` and `CLASS_NAMES[t]`. |
| AnalyzeChange.LabelledCells | src/analyze_change.py:13 | `label_array[label_array != 255]` keeps every other value with its count, and its length is the number of non-255 cells. |
| Counting.Without | src/analyze_change.py:13 | `a[a != v]` keeps every value other than v with its count, drops every v, and is as long as a minus the number of v's. |
| AnalyzeChange.ComputeAreaStats | src/analyze_change.py:12-20 | There is one row per distinct non-255 value present, with no duplicates and no row for absent classes. Each count is that value's number of cells (> 0). Names come from `CLASS_NAMES` with the fallback `"Kelas {id}"`. Area is `count * cell_area`, and hectares are that / 10000. |
| AnalyzeChange.AreaRowsFor | src/analyze_change.py:15-19 | The `counts.items()` loop gives one row per key, in key order. Each row has the name or `"Kelas {id}"`, the count, `count * cell_area` and that / 10000. |
| AnalyzeChange.CounterOf | src/analyze_change.py:13 | The Counter maps exactly the listed values, each to its number of occurrences. |
| AnalyzeChange.AreaPixelsCoverLabelledCells | src/analyze_change.py:13 | The "Piksel" column sums to the number of cells not labelled 255. |
| AnalyzeChange.AreaRowsInFirstOccurrenceOrder | src/analyze_change.py:13-15 | Rows follow the row-major order in which each class first appears in the label raster itself (the Counter's key order). |
| AnalyzeChange.AllNoDataGivesNoRows | src/analyze_change.py:13-15 | A raster that is all no data yields an empty table rather than an error. |
| AnalyzeChange.ClassLabels | src/analyze_change.py:28-29 | The matrix index and columns are the class names in ascending code order. |
| AnalyzeChange.JointPairs | src/analyze_change.py:24-26 | A pixel contributes its (from, to) pair exactly when neither label is 255. There is one pair per such position. Every pair of non-255 labels occurs as often as the positions carrying it (`CountAt`). The number of pairs is at most each raster's own count of non-255 cells. |
| AnalyzeChange.FirstUnknownKey | src/analyze_change.py:31-32 | The lookup fails if and only if some jointly labelled pixel has a label outside `CLASS_NAMES`. The failing key is such a label. |
| AnalyzeChange.FirstUnknownKeyOccurs | src/analyze_change.py:31-32 | The key that raises `KeyError` is the from- or to-label of an actual jointly labelled pixel. |
| AnalyzeChange.TallyTotal | src/analyze_change.py:31-32 | A complete tally's cells sum to the number of tallied pixels. |
| AnalyzeChange.TallyPairs | src/analyze_change.py:29-32 | Starting from all zeros, cell [f, t] counts the pairs (f, t). On success the table total equals the number of pairs. The first non-class label raises `KeyError` with that label. |
| AnalyzeChange.ComputeTransitionMatrix | src/analyze_change.py:23-34 | A shape mismatch fails. Otherwise the rows and columns are exactly the sorted classes. Cell [i, j] is the number of positions labelled i in the from-raster and j in the to-raster, so the total is the number of positions labelled in both. That total is at most each raster's count of non-255 cells. A non-class label in a jointly labelled pixel raises `KeyError` with the first such label. |
| AnalyzeChange.TallyCountsJointLabels | src/analyze_change.py:24-32 | A tally of the joint pairs has, in cell [i, j], the number of positions labelled i in the from-raster and j in the to-raster. |
| Counting.Distinct | src/analyze_change.py:13 | `Counter` keys hold each value of the array exactly once. |
| Counting.OccursBeforeWithout | src/analyze_change.py:13 | Masking out v keeps the relative order of the remaining values. |
| Counting.DistinctFirstOccurrenceOrder | src/analyze_change.py:13 | `Counter` keys are ordered by first occurrence. |
| Counting.SortedDistinct | src/change_detection.py:26 | `np.unique` returns the values present, strictly ascending. |
| Counting.CountsCoverAll | src/change_detection.py:26 | Per-value counts over a duplicate-free list covering the array sum to its length. |
| Decimal.NatToStringInjective | src/change_detection.py:41 | `str()` of distinct non-negative integers differ. |
| Decimal.IntToString | src/change_detection.py:41 | `str(n)` is all digits exactly when n >= 0, and then reads back as n. A negative n gets a '-' before the digits of -n. |
| Rasters.FlattenLayout | src/analyze_change.py:25-26 | `.flatten()` of an h x w raster has h*w samples. Cell (r, c) sits at `Offset(r, c, w)`, the row-major position. |
| Rasters.RowStartIsProduct | src/analyze_change.py:25-26 | Row r of a row-major layout starts at r * w, so `Offset(r, c, w)` is r*w + c. |
| Rasters.PixelArea | src/change_detection.py:35 | The pixel area is `|t[0] * t[4]|` and never negative. |

## Left out

- Raster reading and writing, the metadata and profile updates, directory
  creation and CSV output (`classify_and_save`, the `rasterio`/`os`/`pandas`
  calls in `detect_change`, `save_stats_to_csv`). These are I/O. Of
  `classify_and_save`, only the choice of 255 as the label raster's no-data
  value is kept (`Config.NoData`).
- The change raster's `nodata` is copied from the first label raster's
  profile, which is 255. Readers of that raster therefore take the code 255
  (pixels labelled 0 → 255) as no data, and take 2550 and 2805 as data. This
  metadata is not modelled.
- Plotting (`plot_bar_comparison`, `plot_pie_chart`,
  `plot_transition_heatmap`), the map generators, model training, prediction,
  evaluation, clipping and `main.py`. These call foreign libraries, and the
  behaviour of those libraries is outside this model.
- Floating point: NDVI values and areas are exact reals. NaN is `None`.
  Infinities, signed zero and rounding of `count * pixel_area / 10000` are not
  modelled.
- `detect_change` reads label rasters of any dtype. The model takes uint8
  labels, the dtype `classify_and_save` writes. With other dtypes the int16
  cast could wrap.
- `compute_transition_matrix` fails on mismatched shapes with numpy's
  `ValueError` or `IndexError`. The model uses one `ShapeMismatch` error for
  both.
- The `KeyError` condition uses `Config.ClassCodes`, which `Config.ClassKeys`
  proves equal to the key set of `CLASS_NAMES`.
- "The input array is not modified" and "re-running gives identical output"
  hold by construction: every operation is a pure function of immutable
  values. No separate lemma states them.
- `detect_change` names classes through its own local `label_dict`. That
  table has the same entries as `CLASS_NAMES`, so the model uses
  `Config.ClassNames` for both.
- `ComputeAreaStats` returns the Counter as a key list plus a map. Python
  returns a single insertion-ordered dict.
