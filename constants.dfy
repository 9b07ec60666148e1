/** The fixed vocabularies of `cmip6py/commons/constants.py`. */
module Constants {
  import opened Lists

  /** Priority of `table_id` values, best first. */
  const TableIdOrdering: seq<string> := ["Eday", "day", "Oday"]

  /** Priority of `grid_label` values, best first. */
  const GridLabelOrdering: seq<string> :=
    ["gn", "gr", "gr1", "gr2", "gr3", "gr4", "gr5", "gr6", "gr7", "gr8", "gr9"]

  /** The facets whose values, in this order, form a file's directory below the destination. */
  const RelativePathFacets: seq<string> :=
    ["project", "activity_id", "source_id", "experiment_id", "member_id", "table_id", "variable", "version"]

  /**
   * The dictionary literal of lowest model resolutions (km), entry by entry as
   * written; `BCC-CSM2-MR` is written twice.
   */
  const LowestModelResolutionsLiteral: seq<(string, int)> := [
    ("ACCESS-CM2", 250), ("AWI-ESM-1-1-LR", 250), ("BCC-CSM2-MR", 100), ("BCC-ESM1", 250),
    ("CESM2", 100), ("CMCC-CM2-HR4", 100), ("CMCC-CM2-SR5", 100), ("CMCC-ESM2", 100),
    ("CNRM-CM6-1", 250), ("CNRM-CM6-1-HR", 100), ("CNRM-ESM2-1", 250), ("EC-Earth3", 100),
    ("EC-Earth3-CC", 100), ("EC-Earth3-Veg", 100), ("EC-Earth3-Veg-LR", 250), ("GFDL-CM4", 100),
    ("HadGEM3-GC31-LL", 250), ("HadGEM3-GC31-MM", 100), ("IPSL-CM6A-LR", 250), ("MIROC6", 250),
    ("MPI-ESM-1-2-HAM", 250), ("MPI-ESM1-2-HR", 100), ("MPI-ESM1-2-LR", 200), ("MRI-ESM2-0", 100),
    ("UKESM1-0-LL", 250), ("ACCESS-ESM1-5", 250), ("BCC-CSM2-MR", 100)
  ]

  /** The keys of a Python dict literal, in insertion order: each key where it first appears. */
  function DictKeys(pairs: seq<(string, int)>): (keys: seq<string>)
    ensures Distinct(keys)
    ensures forall k :: k in keys <==> exists i :: 0 <= i < |pairs| && pairs[i].0 == k
  {
    if |pairs| == 0 then []
    else
      var init := pairs[..|pairs| - 1];
      var rest := DictKeys(init);
      assert forall i :: 0 <= i < |init| ==> init[i] == pairs[i];
      if pairs[|pairs| - 1].0 in rest then rest else rest + [pairs[|pairs| - 1].0]
  }

  /** The value of a key in a Python dict literal: the last one written for it. */
  function DictGet(pairs: seq<(string, int)>, k: string): (v: int)
    requires exists i :: 0 <= i < |pairs| && pairs[i].0 == k
    ensures exists i :: 0 <= i < |pairs| && pairs[i] == (k, v) &&
                        forall j :: i < j < |pairs| ==> pairs[j].0 != k
  {
    var i := LastWritten(pairs, k, |pairs|);
    assert pairs[i] == (k, pairs[i].1);
    pairs[i].1
  }

  /** Where, among the first `n` entries, `k` was last written. */
  function LastWritten(pairs: seq<(string, int)>, k: string, n: nat): (i: nat)
    requires n <= |pairs|
    requires exists i :: 0 <= i < n && pairs[i].0 == k
    ensures i < n && pairs[i].0 == k
    ensures forall j :: i < j < n ==> pairs[j].0 != k
  {
    if pairs[n - 1].0 == k then n - 1 else LastWritten(pairs, k, n - 1)
  }

  function Resolution(model: string): int
    requires model in DictKeys(LowestModelResolutionsLiteral)
  {
    DictGet(LowestModelResolutionsLiteral, model)
  }

  /** The models of a key list whose resolution is within (`high`) or above 100 km. */
  function ModelsBy(keys: seq<string>, high: bool): (r: seq<string>)
    requires forall k :: k in keys ==> k in DictKeys(LowestModelResolutionsLiteral)
    ensures forall k :: k in r <==> k in keys && (Resolution(k) <= 100 <==> high)
    ensures Distinct(keys) ==> Distinct(r)
  {
    if |keys| == 0 then []
    else
      assert forall k :: k in keys <==> k == keys[0] || k in keys[1..];
      var rest := ModelsBy(keys[1..], high);
      assert Distinct(keys) ==> Distinct(keys[1..]) && keys[0] !in keys[1..];
      if (Resolution(keys[0]) <= 100) == high then [keys[0]] + rest else rest
  }

  /** `HR_MODELS`: models whose lowest resolution is at most 100 km, in dict order. */
  function HrModels(): seq<string>
  {
    ModelsBy(DictKeys(LowestModelResolutionsLiteral), true)
  }

  /** `LR_MODELS`: models whose lowest resolution is above 100 km, in dict order. */
  function LrModels(): seq<string>
  {
    ModelsBy(DictKeys(LowestModelResolutionsLiteral), false)
  }

  /** The two priority vocabularies have no repeated entry, so a rank names one value. */
  lemma OrderingsDistinct()
    ensures Distinct(TableIdOrdering) && |TableIdOrdering| == 3
    ensures Distinct(GridLabelOrdering) && |GridLabelOrdering| == 11 && GridLabelOrdering[0] == "gn"
    ensures Distinct(RelativePathFacets) && |RelativePathFacets| == 8
    ensures RelativePathFacets[0] == "project" && RelativePathFacets[7] == "version"
  {
  }

  /**
   * `HR_MODELS` and `LR_MODELS` partition the keys of the resolution table:
   * HR holds exactly the models at or below 100 km, LR exactly those above,
   * and neither repeats a model.
   */
  lemma ResolutionClassesPartition()
    ensures forall k :: k in HrModels() <==>
              k in DictKeys(LowestModelResolutionsLiteral) && Resolution(k) <= 100
    ensures forall k :: k in LrModels() <==>
              k in DictKeys(LowestModelResolutionsLiteral) && Resolution(k) > 100
    ensures forall k :: k in DictKeys(LowestModelResolutionsLiteral) <==> k in HrModels() || k in LrModels()
    ensures forall k :: !(k in HrModels() && k in LrModels())
    ensures Distinct(HrModels()) && Distinct(LrModels())
  {
  }
}
