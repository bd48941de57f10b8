/**
 * The fixed class table every component reads: class codes, their display
 * names, the inverse name-to-code table, the display colours, and the
 * no-data label.
 */
module Config {
  import opened Decimal
  import opened Counting
  import opened Rasters

  /** Class code to display name (`CLASS_NAMES`). */
  const ClassNames: map<int, string> :=
    map[0 := "Non-Vegetasi", 1 := "Vegetasi Sedang", 2 := "Vegetasi Tinggi"]

  /** Display name to class code (`CLASS_MAPPING`). */
  const ClassMapping: map<string, int> :=
    map["Non-Vegetasi" := 0, "Vegetasi Sedang" := 1, "Vegetasi Tinggi" := 2]

  /** Display name to hex colour (`CLASS_COLORS`); only its keys matter here. */
  const ClassColors: map<string, string> :=
    map["Non-Vegetasi" := "#FE7F0F", "Vegetasi Sedang" := "#1F77B4", "Vegetasi Tinggi" := "#2DA02C"]

  /** The label written for "no data" (the classified raster's `nodata=255`). */
  const NoData: byte := 255

  const NonVegetation: int := 0
  const MediumVegetation: int := 1
  const HighVegetation: int := 2

  /** The keys of `CLASS_NAMES`. */
  const ClassCodes: set<int> := {NonVegetation, MediumVegetation, HighVegetation}

  /** The class codes are exactly 0, 1 and 2. */
  lemma ClassKeys()
    ensures ClassNames.Keys == ClassCodes == {0, 1, 2}
  {
  }

  /** `CLASS_MAPPING` and `CLASS_NAMES` are each other's inverse. */
  lemma MappingInvertsNames()
    ensures forall k :: k in ClassNames ==> ClassNames[k] in ClassMapping && ClassMapping[ClassNames[k]] == k
    ensures forall n :: n in ClassMapping ==> ClassMapping[n] in ClassNames && ClassNames[ClassMapping[n]] == n
  {
  }

  /** The no-data label is not a class code, so it never collides with a class. */
  lemma NoDataIsNotAClass()
    ensures NoData !in ClassNames
  {
  }

  /** Every class name has a display colour, and nothing else does. */
  lemma ColorsCoverNames()
    ensures forall k :: k in ClassNames ==> ClassNames[k] in ClassColors
    ensures ClassColors.Keys == ClassMapping.Keys
  {
  }

  /** `sorted(CLASS_NAMES.keys())`: the row and column order of the transition matrix. */
  function SortedClassCodes(): (ks: seq<int>)
    ensures StrictlyIncreasing(ks)
    ensures forall k :: k in ks <==> k in ClassNames
    ensures forall i :: 0 <= i < |ks| ==> ks[i] == i
  {
    [NonVegetation, MediumVegetation, HighVegetation]
  }

  /** `CLASS_NAMES.get(k, f"{prefix} {k}")`. */
  function NameOr(k: int, prefix: string): (name: string)
    requires |prefix| > 0 && prefix[0] == 'K'
    ensures k in ClassNames ==> name == ClassNames[k]
    ensures k !in ClassNames ==> name == prefix + " " + IntToString(k)
  {
    if k in ClassNames then ClassNames[k] else prefix + " " + IntToString(k)
  }

  /** The fallback for an unknown code never equals a class name, so a name
      identifies a class code exactly when the code is a class. */
  lemma NameOrIdentifiesClass(k: int, prefix: string)
    requires |prefix| > 0 && prefix[0] == 'K'
    ensures NameOr(k, prefix) in ClassMapping <==> k in ClassNames
    ensures NameOr(k, prefix) in ClassMapping ==> ClassMapping[NameOr(k, prefix)] == k
  {
    if k !in ClassNames {
      assert NameOr(k, prefix)[0] == 'K';
    }
  }
}
