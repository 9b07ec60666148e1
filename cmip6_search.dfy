/**
 * `CMIP6Search`: the datasets a search found, what was downloaded for them,
 * and the flags recording which clean-up steps were applied.
 */
module Search {
  import opened PyValues
  import opened Errors
  import opened Sorting
  import opened Lists
  import opened Entries
  import opened Datasets
  import opened SearchUtils

  /** `datasets_to_local_files`: each dataset name with the local paths of its files. */
  type LocalFiles = map<string, seq<Path>>

  // ------------------------------------------------------------ count_members

  /** The key `count_members` counts under: `(experiment_id, source_id)`. */
  function MemberKey(d: Dataset): (string, string)
  {
    (d.experimentId, d.sourceId)
  }

  /** The `defaultdict(int)` after `counts[k] += 1` for each key in order. */
  function Counts<K(==)>(ks: seq<K>): map<K, nat>
    decreases |ks|
  {
    if |ks| == 0 then map[]
    else
      var counts := Counts(ks[..|ks| - 1]);
      var k := ks[|ks| - 1];
      counts[k := (if k in counts then counts[k] else 0) + 1]
  }

  /** How many of `ks` equal `k`. */
  function Occurrences<K(==)>(ks: seq<K>, k: K): nat
  {
    if |ks| == 0 then 0 else (if ks[0] == k then 1 else 0) + Occurrences(ks[1..], k)
  }

  /** The sum of the counts of the keys `ks`. */
  function Sum<K(==)>(m: map<K, nat>, ks: seq<K>): nat
    requires forall k :: k in ks ==> k in m
  {
    if |ks| == 0 then 0
    else
      assert ks[0] in ks;
      m[ks[0]] + Sum(m, ks[1..])
  }

  /** `datasets` all present: a `None` entry raises `AttributeError` on `dataset.experiment_id`. */
  predicate AllPresent(ds: seq<Option<Dataset>>)
  {
    forall i :: 0 <= i < |ds| ==> ds[i].Some?
  }

  /** The keys of the datasets in order, with repetitions. */
  function MemberKeys(ds: seq<Option<Dataset>>): (ks: seq<(string, string)>)
    requires AllPresent(ds)
    ensures |ks| == |ds| && forall i :: 0 <= i < |ds| ==> ks[i] == MemberKey(ds[i].value)
  {
    seq(|ds|, i requires 0 <= i < |ds| => MemberKey(ds[i].value))
  }

  /** One more present dataset adds its key at the end. */
  lemma MemberKeysStep(ds: seq<Option<Dataset>>, i: nat)
    requires i < |ds| && AllPresent(ds[..i]) && ds[i].Some?
    ensures AllPresent(ds[..i + 1])
    ensures MemberKeys(ds[..i + 1]) == MemberKeys(ds[..i]) + [MemberKey(ds[i].value)]
  {
    assert forall j :: 0 <= j < i ==> ds[..i + 1][j] == ds[..i][j];
  }

  /** Counting one more key adds one to its count. */
  lemma CountsSnoc<K>(ks: seq<K>, k: K)
    ensures Counts(ks + [k]) == Counts(ks)[k := (if k in Counts(ks) then Counts(ks)[k] else 0) + 1]
  {
    assert (ks + [k])[..|ks|] == ks;
  }

  /** `count_members()` without pandas: `TypeError` before any search, `AttributeError` on a `None` dataset. */
  function CountMembersSpec(datasets: Option<seq<Option<Dataset>>>): Result<map<(string, string), nat>>
  {
    if datasets.None? then Err(TypeError)
    else if !AllPresent(datasets.value) then Err(AttributeError)
    else Ok(Counts(MemberKeys(datasets.value)))
  }

  lemma {:induction false} OccurrencesSnoc<K>(ks: seq<K>, x: K, k: K)
    ensures Occurrences(ks + [x], k) == Occurrences(ks, k) + (if x == k then 1 else 0)
    decreases |ks|
  {
    if |ks| == 0 {
      assert [x][1..] == [];
    } else {
      assert (ks + [x])[1..] == ks[1..] + [x];
      OccurrencesSnoc(ks[1..], x, k);
    }
  }

  lemma {:induction false} OccurrencesAbsent<K>(ks: seq<K>, k: K)
    requires k !in ks
    ensures Occurrences(ks, k) == 0
    decreases |ks|
  {
    if |ks| > 0 {
      assert forall x :: x in ks[1..] ==> x in ks;
      OccurrencesAbsent(ks[1..], k);
    }
  }

  /** Exactly the keys that occur are counted, each by the number of its occurrences. */
  lemma {:induction false} CountsOccurrences<K>(ks: seq<K>)
    ensures forall k :: k in Counts(ks) <==> k in ks
    ensures forall k :: k in Counts(ks) ==> Counts(ks)[k] == Occurrences(ks, k)
    decreases |ks|
  {
    if |ks| > 0 {
      var n := |ks| - 1;
      var init := ks[..n];
      CountsOccurrences(init);
      assert ks == init + [ks[n]];
      var m := Counts(init);
      assert Counts(ks) == m[ks[n] := (if ks[n] in m then m[ks[n]] else 0) + 1];
      forall k | k in Counts(ks) ensures Counts(ks)[k] == Occurrences(ks, k) {
        OccurrencesSnoc(init, ks[n], k);
        if k == ks[n] && k !in m {
          OccurrencesAbsent(init, k);
        }
      }
    }
  }

  lemma {:induction false} SumSnoc<K>(m: map<K, nat>, ks: seq<K>, k: K)
    requires forall x :: x in ks ==> x in m
    requires k in m
    ensures Sum(m, ks + [k]) == Sum(m, ks) + m[k]
    decreases |ks|
  {
    if |ks| == 0 {
      assert [k][1..] == [];
    } else {
      assert (ks + [k])[1..] == ks[1..] + [k];
      SumSnoc(m, ks[1..], k);
    }
  }

  /** Changing the count of a key outside `ks` leaves their sum alone; adding one to a key of distinct `ks` adds one. */
  lemma {:induction false} SumUpdate<K>(m: map<K, nat>, ks: seq<K>, k: K, v: nat)
    requires forall x :: x in ks ==> x in m
    requires Distinct(ks)
    ensures k !in ks ==> Sum(m[k := v], ks) == Sum(m, ks)
    ensures k in ks && k in m && v == m[k] + 1 ==> Sum(m[k := v], ks) == Sum(m, ks) + 1
    decreases |ks|
  {
    if |ks| > 0 {
      assert forall x :: x in ks[1..] ==> x in ks;
      assert Distinct(ks[1..]) by {
        forall i, j | 0 <= i < j < |ks| - 1 ensures ks[1..][i] != ks[1..][j] { assert ks[i + 1] != ks[j + 1]; }
      }
      SumUpdate(m, ks[1..], k, v);
      if k in ks && ks[0] != k {
        assert k in ks[1..];
      }
      if ks[0] == k {
        assert k !in ks[1..] by {
          forall j | 1 <= j < |ks| ensures ks[j] != k { assert ks[0] != ks[j]; }
        }
      }
    }
  }

  /** The counts add up to the number of keys counted: each occurrence is counted once, under its own key. */
  lemma {:induction false} CountsTotal<K(!new)>(ks: seq<K>)
    ensures forall k :: k in Unique(ks) ==> k in Counts(ks)
    ensures Sum(Counts(ks), Unique(ks)) == |ks|
    decreases |ks|
  {
    UniqueCounted(ks);
    if |ks| > 0 {
      var n := |ks| - 1;
      var init := ks[..n];
      var k := ks[n];
      var u := Unique(init);
      var m := Counts(init);
      CountsTotal(init);
      assert ks == init + [k];
      CountsSnoc(init, k);
      UniqueSnoc(init, k);
      if k in u {
        SumUpdate(m, u, k, m[k] + 1);
      } else {
        assert k !in m by {
          UniqueCounted(init);
          CountsOccurrences(init);
        }
        SumUpdate(m, u, k, 1);
        SumSnoc(m[k := 1], u, k);
      }
    }
  }

  /** Every key that occurs has a count. */
  lemma UniqueCounted<K(!new)>(ks: seq<K>)
    ensures forall k :: k in Unique(ks) ==> k in Counts(ks)
  {
    CountsOccurrences(ks);
  }

  /** One more key is added to the unique keys only when it is new. */
  lemma UniqueSnoc<T(!new)>(s: seq<T>, x: T)
    ensures Unique(s + [x]) == if x in Unique(s) then Unique(s) else Unique(s) + [x]
  {
    assert (s + [x])[..|s|] == s;
  }

  /**
   * `count_members`: each `(experiment_id, source_id)` of the datasets is
   * counted by the number of datasets that have it, no other key is, and
   * the counts sum to the number of datasets.
   */
  lemma CountMembersOutcome(datasets: seq<Option<Dataset>>)
    requires AllPresent(datasets)
    ensures var counts := CountMembersSpec(Some(datasets)).value;
            var keys := MemberKeys(datasets);
            && (forall k :: k in counts <==> exists i :: 0 <= i < |datasets| && MemberKey(datasets[i].value) == k)
            && (forall k :: k in counts ==> counts[k] == Occurrences(keys, k))
            && (forall k :: k in Unique(keys) ==> k in counts)
            && Sum(counts, Unique(keys)) == |datasets|
  {
    var keys := MemberKeys(datasets);
    CountsOccurrences(keys);
    CountsTotal(keys);
  }

  // ------------------------------------------------------------ _filter_running_nodes

  /**
   * How one filtered dataset carries its local files into the copy, given
   * the original `datasets_to_local_files` and the copy's so far.
   */
  type Carry = (Option<Dataset>, LocalFiles, LocalFiles) -> Result<LocalFiles>

  /**
   * The evidently intended test `dataset.name in self.datasets_to_local_files.keys()`:
   * a kept name keeps its paths; a dataset that filtered to `None` has no `name`.
   */
  function CarryByName(): Carry
  {
    (o: Option<Dataset>, original: LocalFiles, acc: LocalFiles) =>
      if o.None? then Err(AttributeError)
      else if o.value.name in original then Ok(acc[o.value.name := original[o.value.name]])
      else Ok(acc)
  }

  /**
   * The test as written, `dataset in dataset.name in ...keys()`: a chained
   * comparison whose first half, `dataset in dataset.name`, asks whether a
   * dataset object is in a string and raises `TypeError`.
   */
  function CarryAsWritten(): Carry
  {
    (o: Option<Dataset>, original: LocalFiles, acc: LocalFiles) =>
      if o.None? then Err(AttributeError) else Err(TypeError)
  }

  /** The copy's datasets and local files as the loop builds them. */
  datatype Filtered = Filtered(datasets: seq<Option<Dataset>>, localFiles: LocalFiles)

  /** What the loop does with one dataset: `dataset._filter_running_nodes()`. */
  type DatasetFilter = Dataset -> Result<Option<Dataset>>

  function RunningNodesFilter(nodesStatus: map<string, bool>): DatasetFilter
  {
    d => FilterRunningNodesDatasetSpec(d, nodesStatus)
  }

  /**
   * The loop of `_filter_running_nodes` over the datasets in order: each is
   * filtered and appended, `None` included; its local files are carried
   * over when there are any.
   */
  function FilterLoop(ds: seq<Option<Dataset>>, localFiles: Option<LocalFiles>, filter: DatasetFilter,
                      carry: Carry): Result<Filtered>
    decreases |ds|
  {
    if |ds| == 0 then Ok(Filtered([], map[]))
    else
      var acc :- FilterLoop(ds[..|ds| - 1], localFiles, filter, carry);
      var d := ds[|ds| - 1];
      if d.None? then Err(AttributeError)
      else
        var o :- filter(d.value);
        var lf :- CarryStep(o, localFiles, acc.localFiles, carry);
        Ok(Filtered(acc.datasets + [o], lf))
  }

  /** `_filter_running_nodes`: the copy's datasets and its local files, `None` when none were carried. */
  function FilterRunningNodesSpec(datasets: Option<seq<Option<Dataset>>>, localFiles: Option<LocalFiles>,
                                  nodesStatus: map<string, bool>, carry: Carry)
    : Result<(seq<Option<Dataset>>, Option<LocalFiles>)>
  {
    if datasets.None? then Err(TypeError)
    else
      var f :- FilterLoop(datasets.value, localFiles, RunningNodesFilter(nodesStatus), carry);
      Ok((f.datasets, if |f.localFiles| == 0 then None else Some(f.localFiles)))
  }

  /**
   * As written, filtering a search that has local files raises as soon as
   * it reaches the first dataset, so it never returns a copy.
   */
  lemma {:induction false} FilterAsWrittenRaises(ds: seq<Option<Dataset>>, localFiles: LocalFiles, filter: DatasetFilter)
    requires |ds| > 0
    ensures FilterLoop(ds, Some(localFiles), filter, CarryAsWritten()).Err?
    decreases |ds|
  {
    if |ds| > 1 {
      FilterAsWrittenRaises(ds[..|ds| - 1], localFiles, filter);
    } else {
      assert ds[..0] == [];
    }
  }

  /** A one-dataset search with local files on which the written test raises and the intended one does not. */
  lemma {:induction false} FilterAsWrittenCounterexample(d: Dataset, filter: DatasetFilter)
    requires filter(d).Ok? && filter(d).value.Some?
    ensures var lf := map[d.name := []];
            && FilterLoop([Some(d)], Some(lf), filter, CarryAsWritten()) == Err(TypeError)
            && FilterLoop([Some(d)], Some(lf), filter, CarryByName()).Ok?
  {
    var ds := [Some(d)];
    assert ds[..0] == [];
    var none: seq<Option<Dataset>> := [];
    assert ds[..|ds| - 1] == none;
  }

  /**
   * With the intended test: filtering succeeds iff every dataset is
   * present, filters without error and, when there are local files, to a
   * dataset; the copy then has one filtered result per dataset, in order,
   * and carries exactly the local files of the datasets it kept by name.
   */
  lemma FilterLoopOutcome(ds: seq<Option<Dataset>>, localFiles: Option<LocalFiles>, filter: DatasetFilter)
    ensures var r := FilterLoop(ds, localFiles, filter, CarryByName());
            r.Ok? <==> forall i :: 0 <= i < |ds| ==> FiltersCleanly(ds[i], localFiles, filter)
    ensures var r := FilterLoop(ds, localFiles, filter, CarryByName());
            r.Ok? ==>
              && |r.value.datasets| == |ds|
              && (forall i :: 0 <= i < |ds| ==> ds[i].Some? && filter(ds[i].value) == Ok(r.value.datasets[i]))
              && (forall n :: n in r.value.localFiles <==>
                    localFiles.Some? && n in localFiles.value && KeptName(r.value.datasets, n))
              && (forall n :: n in r.value.localFiles ==> r.value.localFiles[n] == localFiles.value[n])
  {
    FilterLoopSucceeds(ds, localFiles, filter);
    if FilterLoop(ds, localFiles, filter, CarryByName()).Ok? {
      FilterLoopDatasets(ds, localFiles, filter);
      FilterLoopLocalFiles(ds, localFiles, filter);
    }
  }

  /** The intended filtering succeeds iff every dataset filters cleanly. */
  lemma {:induction false} FilterLoopSucceeds(ds: seq<Option<Dataset>>, localFiles: Option<LocalFiles>, filter: DatasetFilter)
    ensures FilterLoop(ds, localFiles, filter, CarryByName()).Ok? <==>
            forall i :: 0 <= i < |ds| ==> FiltersCleanly(ds[i], localFiles, filter)
    decreases |ds|
  {
    if |ds| > 0 {
      var n := |ds| - 1;
      var init := ds[..n];
      FilterLoopSucceeds(init, localFiles, filter);
      assert forall i :: 0 <= i < n ==> init[i] == ds[i];
    }
  }

  /** The copy holds one filtered result per dataset, in order. */
  lemma {:induction false} FilterLoopDatasets(ds: seq<Option<Dataset>>, localFiles: Option<LocalFiles>, filter: DatasetFilter)
    requires FilterLoop(ds, localFiles, filter, CarryByName()).Ok?
    ensures var r := FilterLoop(ds, localFiles, filter, CarryByName()).value;
            && |r.datasets| == |ds|
            && forall i :: 0 <= i < |ds| ==> ds[i].Some? && filter(ds[i].value) == Ok(r.datasets[i])
    decreases |ds|
  {
    if |ds| > 0 {
      var n := |ds| - 1;
      var init := ds[..n];
      FilterLoopDatasets(init, localFiles, filter);
      var acc := FilterLoop(init, localFiles, filter, CarryByName()).value;
      var r := FilterLoop(ds, localFiles, filter, CarryByName()).value;
      assert r.datasets == acc.datasets + [filter(ds[n].value).value];
      forall i | 0 <= i < |ds| ensures ds[i].Some? && filter(ds[i].value) == Ok(r.datasets[i]) {
        if i < n {
          assert init[i] == ds[i] && r.datasets[i] == acc.datasets[i];
        }
      }
    }
  }

  /** The copy carries exactly the local files of the datasets it kept by name, with their original values. */
  lemma {:induction false} FilterLoopLocalFiles(ds: seq<Option<Dataset>>, localFiles: Option<LocalFiles>, filter: DatasetFilter)
    requires FilterLoop(ds, localFiles, filter, CarryByName()).Ok?
    ensures var r := FilterLoop(ds, localFiles, filter, CarryByName()).value;
            && (forall n :: n in r.localFiles <==> localFiles.Some? && n in localFiles.value && KeptName(r.datasets, n))
            && (forall n :: n in r.localFiles ==> r.localFiles[n] == localFiles.value[n])
    decreases |ds|
  {
    if |ds| > 0 {
      var n := |ds| - 1;
      var init := ds[..n];
      FilterLoopLocalFiles(init, localFiles, filter);
      var acc := FilterLoop(init, localFiles, filter, CarryByName()).value;
      var r := FilterLoop(ds, localFiles, filter, CarryByName()).value;
      var o := filter(ds[n].value).value;
      assert r.datasets == acc.datasets + [o];
      KeptNameSnoc(acc.datasets, o);
    }
  }

  lemma KeptNameSnoc(ds: seq<Option<Dataset>>, o: Option<Dataset>)
    ensures forall n :: KeptName(ds + [o], n) <==> KeptName(ds, n) || (o.Some? && o.value.name == n)
  {
    var t := ds + [o];
    forall n ensures KeptName(t, n) <==> KeptName(ds, n) || (o.Some? && o.value.name == n) {
      if KeptName(ds, n) {
        var i :| 0 <= i < |ds| && ds[i].Some? && ds[i].value.name == n;
        assert t[i] == ds[i];
      }
      if KeptName(t, n) {
        var i :| 0 <= i < |t| && t[i].Some? && t[i].value.name == n;
        if i < |ds| { assert t[i] == ds[i]; }
      }
      if o.Some? && o.value.name == n {
        assert t[|ds|] == o;
      }
    }
  }

  /** One dataset filters without raising under the intended test. */
  predicate FiltersCleanly(d: Option<Dataset>, localFiles: Option<LocalFiles>, filter: DatasetFilter)
  {
    && d.Some?
    && filter(d.value).Ok?
    && (localFiles.Some? ==> filter(d.value).value.Some?)
  }

  /** Some filtered dataset is named `n`. */
  predicate KeptName(ds: seq<Option<Dataset>>, n: string)
  {
    exists i :: 0 <= i < |ds| && ds[i].Some? && ds[i].value.name == n
  }

  /** The loop of `_filter_running_nodes`, with the intended test. */
  method FilterDatasets(ds: seq<Option<Dataset>>, localFiles: Option<LocalFiles>, nodesStatus: map<string, bool>)
    returns (r: Result<Filtered>)
    ensures r == FilterLoop(ds, localFiles, RunningNodesFilter(nodesStatus), CarryByName())
  {
    ghost var filter := RunningNodesFilter(nodesStatus);
    var newDatasets: seq<Option<Dataset>> := [];
    var newLocalFiles: LocalFiles := map[];
    var i := 0;
    while i < |ds|
      invariant 0 <= i <= |ds|
      invariant FilterLoop(ds[..i], localFiles, filter, CarryByName()) == Ok(Filtered(newDatasets, newLocalFiles))
    {
      var step := FilterStep(ds, i, localFiles, nodesStatus, Filtered(newDatasets, newLocalFiles));
      if step.Err? {
        FilterLoopPrefixError(ds, i, localFiles, filter, CarryByName());
        return step;
      }
      newDatasets, newLocalFiles := step.value.datasets, step.value.localFiles;
      i := i + 1;
    }
    assert ds[..i] == ds;
    r := Ok(Filtered(newDatasets, newLocalFiles));
  }

  /**
   * One turn of the loop of `_filter_running_nodes`: the dataset is
   * filtered, appended and its local files carried over by name.
   */
  method FilterStep(ds: seq<Option<Dataset>>, i: nat, localFiles: Option<LocalFiles>, nodesStatus: map<string, bool>,
                    acc: Filtered)
    returns (r: Result<Filtered>)
    requires i < |ds| && FilterLoop(ds[..i], localFiles, RunningNodesFilter(nodesStatus), CarryByName()) == Ok(acc)
    ensures r == FilterLoop(ds[..i + 1], localFiles, RunningNodesFilter(nodesStatus), CarryByName())
  {
    assert ds[..i + 1][..i] == ds[..i];
    if ds[i].None? {
      return Err(AttributeError);
    }
    var dataset := FilterRunningNodesDataset(ds[i].value, nodesStatus);
    if dataset.Err? {
      return Err(dataset.error);
    }
    var newLocalFiles := acc.localFiles;
    if localFiles.Some? {
      var carried := CarryByName()(dataset.value, localFiles.value, newLocalFiles);
      if carried.Err? {
        return Err(carried.error);
      }
      newLocalFiles := carried.value;
    }
    r := Ok(Filtered(acc.datasets + [dataset.value], newLocalFiles));
  }

  /** What the loop carries for one kept dataset `o`: the local files chosen so far, updated when there are any. */
  function CarryStep(o: Option<Dataset>, localFiles: Option<LocalFiles>, acc: LocalFiles, carry: Carry): Result<LocalFiles>
  {
    if localFiles.Some? then carry(o, localFiles.value, acc) else Ok(acc)
  }

  /** A dataset the loop raises on ends the loop with that error, whatever follows it. */
  lemma {:induction false} FilterLoopPrefixError(ds: seq<Option<Dataset>>, i: nat, localFiles: Option<LocalFiles>,
                                                 filter: DatasetFilter, carry: Carry)
    requires i < |ds| && FilterLoop(ds[..i + 1], localFiles, filter, carry).Err?
    ensures FilterLoop(ds, localFiles, filter, carry) == FilterLoop(ds[..i + 1], localFiles, filter, carry)
    decreases |ds| - i
  {
    if i + 1 < |ds| {
      var n := |ds| - 1;
      assert ds[..n][..i + 1] == ds[..i + 1];
      FilterLoopPrefixError(ds[..n], i, localFiles, filter, carry);
    } else {
      assert ds[..i + 1] == ds;
    }
  }

  // ------------------------------------------------------------ download

  /** The downloads of every dataset in order: the name-to-paths dict, or the error that stopped them, and the store. */
  datatype Downloads = Downloads(result: Result<LocalFiles>, store: Store)

  /** What the comprehension does with one dataset: `dataset.download(dest_folder, max_workers)`. */
  type DatasetDownload = (Dataset, Store) -> Failover

  function Downloader(destFolder: Path, env: DownloadEnv, maxWorkers: int): DatasetDownload
  {
    (d: Dataset, st: Store) => DownloadDatasetSpec(d, destFolder, env, maxWorkers, st)
  }

  /**
   * `{dataset.name: dataset.download(...) for dataset in self.datasets}`:
   * the first failing download raises, after the earlier ones have written
   * their files.
   */
  function DownloadLoop(ds: seq<Option<Dataset>>, download: DatasetDownload, st: Store): Downloads
    decreases |ds|
  {
    if |ds| == 0 then Downloads(Ok(map[]), st)
    else
      var prev := DownloadLoop(ds[..|ds| - 1], download, st);
      var d := ds[|ds| - 1];
      if prev.result.Err? then prev
      else if d.None? then Downloads(Err(AttributeError), prev.store)
      else
        var f := download(d.value, prev.store);
        if f.result.Err? then Downloads(Err(f.result.error), f.store)
        else Downloads(Ok(prev.result.value[d.value.name := f.result.value]), f.store)
  }

  function DownloadAllSpec(ds: seq<Option<Dataset>>, destFolder: Path, env: DownloadEnv, maxWorkers: int, st: Store)
    : Downloads
  {
    DownloadLoop(ds, Downloader(destFolder, env, maxWorkers), st)
  }

  /** Downloading all datasets never alters a file that was in the tree before. */
  lemma {:induction false} DownloadAllKeepsFiles(ds: seq<Option<Dataset>>, destFolder: Path, env: DownloadEnv,
                                                 maxWorkers: int, st: Store)
    ensures var r := DownloadAllSpec(ds, destFolder, env, maxWorkers, st);
            forall p :: p in st.files ==> p in r.store.files && r.store.files[p] == st.files[p]
    decreases |ds|
  {
    if |ds| > 0 {
      var n := |ds| - 1;
      DownloadAllKeepsFiles(ds[..n], destFolder, env, maxWorkers, st);
      var prev := DownloadAllSpec(ds[..n], destFolder, env, maxWorkers, st);
      if prev.result.Ok? && ds[n].Some? {
        DownloadDatasetKeepsFiles(ds[n].value, destFolder, env, maxWorkers, prev.store);
      }
    }
  }

  /** The names of the datasets. */
  function Names(ds: seq<Option<Dataset>>): set<string>
    requires AllPresent(ds)
  {
    set i | 0 <= i < |ds| :: ds[i].value.name
  }

  /** On success every dataset was present and the dict has exactly their names. */
  lemma {:induction false} DownloadLoopKeys(ds: seq<Option<Dataset>>, download: DatasetDownload, st: Store)
    ensures var r := DownloadLoop(ds, download, st);
            r.result.Ok? ==> AllPresent(ds) && r.result.value.Keys == Names(ds)
    decreases |ds|
  {
    if |ds| > 0 {
      var n := |ds| - 1;
      var init := ds[..n];
      DownloadLoopKeys(init, download, st);
      if DownloadLoop(ds, download, st).result.Ok? {
        assert forall i :: 0 <= i < n ==> init[i] == ds[i];
        assert Names(ds) == Names(init) + {ds[n].value.name};
      }
    }
  }

  /**
   * On success a name maps to the download of the last dataset with that
   * name, run on the store the downloads before it left.
   */
  lemma {:induction false} DownloadLoopValue(ds: seq<Option<Dataset>>, download: DatasetDownload, st: Store, i: nat)
    requires DownloadLoop(ds, download, st).result.Ok?
    requires i < |ds| && AllPresent(ds) && LastWithName(ds, i)
    ensures ds[i].value.name in DownloadLoop(ds, download, st).result.value &&
            download(ds[i].value, DownloadLoop(ds[..i], download, st).store).result ==
            Ok(DownloadLoop(ds, download, st).result.value[ds[i].value.name])
    decreases |ds|
  {
    var n := |ds| - 1;
    var init := ds[..n];
    if i < n {
      assert forall j :: 0 <= j < n ==> init[j] == ds[j];
      assert init[..i] == ds[..i];
      DownloadLoopValue(init, download, st, i);
    } else {
      assert init == ds[..i];
    }
  }

  /** `ds[i]` is the last dataset with its name, whose download the dict keeps. */
  predicate LastWithName(ds: seq<Option<Dataset>>, i: nat)
    requires i < |ds| && AllPresent(ds)
  {
    forall j :: i < j < |ds| ==> ds[j].value.name != ds[i].value.name
  }

  /** The dict comprehension of `download`, one dataset after another. */
  method DownloadAll(ds: seq<Option<Dataset>>, destFolder: Path, env: DownloadEnv, maxWorkers: int, fs: FileStore)
    returns (r: Result<LocalFiles>)
    requires fs.Valid()
    modifies fs
    ensures fs.Valid()
    ensures var spec := DownloadAllSpec(ds, destFolder, env, maxWorkers, old(fs.State()));
            r == spec.result && fs.State() == spec.store
  {
    ghost var download := Downloader(destFolder, env, maxWorkers);
    ghost var st := fs.State();
    var localFiles: LocalFiles := map[];
    var i := 0;
    while i < |ds|
      invariant 0 <= i <= |ds|
      invariant fs.Valid()
      invariant DownloadLoop(ds[..i], download, st) == Downloads(Ok(localFiles), fs.State())
    {
      assert ds[..i + 1][..i] == ds[..i];
      if ds[i].None? {
        DownloadLoopPrefixError(ds, i, download, st);
        return Err(AttributeError);
      }
      ghost var before := fs.State();
      var paths := DownloadDataset(ds[i].value, destFolder, env, maxWorkers, fs);
      assert download(ds[i].value, before) == DownloadDatasetSpec(ds[i].value, destFolder, env, maxWorkers, before);
      if paths.Err? {
        DownloadLoopPrefixError(ds, i, download, st);
        return Err(paths.error);
      }
      localFiles := localFiles[ds[i].value.name := paths.value];
      i := i + 1;
    }
    assert ds[..i] == ds;
    r := Ok(localFiles);
  }

  /** A download that raises ends the comprehension with that error and the store as it then is. */
  lemma {:induction false} DownloadLoopPrefixError(ds: seq<Option<Dataset>>, i: nat, download: DatasetDownload, st: Store)
    requires i < |ds| && DownloadLoop(ds[..i + 1], download, st).result.Err?
    ensures DownloadLoop(ds, download, st) == DownloadLoop(ds[..i + 1], download, st)
    decreases |ds| - i
  {
    if i + 1 < |ds| {
      var n := |ds| - 1;
      assert ds[..n][..i + 1] == ds[..i + 1];
      DownloadLoopPrefixError(ds[..n], i, download, st);
    } else {
      assert ds[..i + 1] == ds;
    }
  }

  // ------------------------------------------------------------ the search object

  class CMIP6Search {
    var randomSeed: Value
    var maxWorkers: int
    /** `None` before a search; after filtering it may hold `None` for a dataset that filtered to nothing. */
    var datasets: Option<seq<Option<Dataset>>>
    var datasetsToLocalFiles: Option<LocalFiles>
    var nodesAreFiltered: bool
    var membersAreBalanced: bool

    /** A new search: nothing found, nothing downloaded, no clean-up applied. */
    constructor (randomSeed: Value, maxWorkers: int)
      ensures this.randomSeed == randomSeed && this.maxWorkers == maxWorkers
      ensures datasets == None && datasetsToLocalFiles == None
      ensures !nodesAreFiltered && !membersAreBalanced
    {
      this.randomSeed := randomSeed;
      this.maxWorkers := maxWorkers;
      datasets := None;
      datasetsToLocalFiles := None;
      nodesAreFiltered := false;
      membersAreBalanced := false;
    }

    /**
     * `_filter_running_nodes`: a new search with the filtered datasets, the
     * carried local files, the same seed and worker count, and only
     * `nodes_are_filtered` set; this search is left as it was. The local
     * files are carried with the intended test `dataset.name in keys`
     * (`CarryByName`); the chained comparison written on line 32 raises
     * instead, which `FilterAsWrittenRaises` and
     * `FilterAsWrittenCounterexample` model.
     */
    method FilterRunningNodes(nodesStatus: map<string, bool>) returns (r: Result<CMIP6Search>)
      ensures var spec := FilterRunningNodesSpec(datasets, datasetsToLocalFiles, nodesStatus, CarryByName());
              && (r.Ok? <==> spec.Ok?)
              && (r.Err? ==> r.error == spec.error)
              && (r.Ok? ==>
                    && fresh(r.value)
                    && r.value.datasets == Some(spec.value.0) && r.value.datasetsToLocalFiles == spec.value.1
                    && r.value.randomSeed == randomSeed && r.value.maxWorkers == maxWorkers
                    && r.value.nodesAreFiltered && !r.value.membersAreBalanced)
    {
      if datasets.None? {
        return Err(TypeError);
      }
      var filtered := FilterDatasets(datasets.value, datasetsToLocalFiles, nodesStatus);
      if filtered.Err? {
        return Err(filtered.error);
      }
      var copy := new CMIP6Search(randomSeed, maxWorkers);
      copy.datasets := Some(filtered.value.datasets);
      copy.datasetsToLocalFiles := if |filtered.value.localFiles| == 0 then None else Some(filtered.value.localFiles);
      copy.nodesAreFiltered := true;
      r := Ok(copy);
    }

    /**
     * `filter(kind)`: only `"running_nodes"` is implemented; it filters as
     * `FilterRunningNodes` does, with the intended line-32 carry by name.
     */
    method Filter(kind: string, nodesStatus: map<string, bool>) returns (r: Result<CMIP6Search>)
      ensures kind != "running_nodes" ==> r == Err(NotImplementedError)
      ensures kind == "running_nodes" ==>
                var spec := FilterRunningNodesSpec(datasets, datasetsToLocalFiles, nodesStatus, CarryByName());
                && (r.Ok? <==> spec.Ok?)
                && (r.Err? ==> r.error == spec.error)
                && (r.Ok? ==>
                      && fresh(r.value)
                      && r.value.datasets == Some(spec.value.0) && r.value.datasetsToLocalFiles == spec.value.1
                      && r.value.randomSeed == randomSeed && r.value.maxWorkers == maxWorkers
                      && r.value.nodesAreFiltered && !r.value.membersAreBalanced)
    {
      if kind == "running_nodes" {
        r := FilterRunningNodes(nodesStatus);
      } else {
        r := Err(NotImplementedError);
      }
    }

    /** `search(facets)`: the datasets built from the hits of the ESGF search. */
    method Search(facets: Dict<Value>, env: SearchEnv) returns (r: Result<()>)
      modifies this
      ensures randomSeed == old(randomSeed) && maxWorkers == old(maxWorkers)
      ensures datasetsToLocalFiles == old(datasetsToLocalFiles)
      ensures nodesAreFiltered == old(nodesAreFiltered) && membersAreBalanced == old(membersAreBalanced)
      ensures var found := SearchEsgfNodesSpec(facets, maxWorkers, env);
              var built := if found.Ok? then DatasetsFromResultsSpec(found.value) else Err(found.error);
              && (built.Err? ==> r == Err(built.error) && datasets == old(datasets))
              && (built.Ok? ==> r == Ok(()) && datasets == Some(seq(|built.value|, i requires 0 <= i < |built.value| => Some(built.value[i]))))
    {
      var results := SearchEsgfNodes(facets, maxWorkers, env);
      if results.Err? {
        return Err(results.error);
      }
      var built := DatasetsFromResults(results.value);
      if built.Err? {
        return Err(built.error);
      }
      datasets := Some(seq(|built.value|, i requires 0 <= i < |built.value| => Some(built.value[i])));
      r := Ok(());
    }

    /** `count_members()`, the `defaultdict` of datasets per `(experiment_id, source_id)`. */
    method CountMembers() returns (r: Result<map<(string, string), nat>>)
      ensures r == CountMembersSpec(datasets)
    {
      if datasets.None? {
        return Err(TypeError);
      }
      var ds := datasets.value;
      var counts: map<(string, string), nat> := map[];
      var i := 0;
      while i < |ds|
        invariant 0 <= i <= |ds|
        invariant AllPresent(ds[..i]) && counts == Counts(MemberKeys(ds[..i]))
      {
        if ds[i].None? {
          assert !AllPresent(ds);
          return Err(AttributeError);
        }
        var key := MemberKey(ds[i].value);
        MemberKeysStep(ds, i);
        CountsSnoc(MemberKeys(ds[..i]), key);
        counts := counts[key := (if key in counts then counts[key] else 0) + 1];
        i := i + 1;
      }
      assert ds[..i] == ds;
      r := Ok(counts);
    }

    /** `balance_members` is not implemented. */
    method BalanceMembers(numMembers: int, tolerance: int) returns (r: Result<CMIP6Search>)
      ensures r == Err(NotImplementedError)
    {
      r := Err(NotImplementedError);
    }

    /** `splitby` is not implemented. */
    method SplitBy(splitKeys: seq<string>) returns (r: Result<seq<CMIP6Search>>)
      ensures r == Err(NotImplementedError)
    {
      r := Err(NotImplementedError);
    }

    /**
     * `download(dest_folder, max_workers)`: nothing happens before a search;
     * otherwise every dataset is downloaded in order, and the name-to-paths
     * dict replaces `datasets_to_local_files` only when all succeeded.
     */
    method Download(destFolder: Path, maxWorkers: int, env: DownloadEnv, fs: FileStore) returns (r: Result<()>)
      requires fs.Valid()
      modifies this, fs
      ensures fs.Valid()
      ensures randomSeed == old(randomSeed) && this.maxWorkers == old(this.maxWorkers) && datasets == old(datasets)
      ensures nodesAreFiltered == old(nodesAreFiltered) && membersAreBalanced == old(membersAreBalanced)
      ensures datasets.None? ==>
                r == Ok(()) && datasetsToLocalFiles == old(datasetsToLocalFiles) && fs.State() == old(fs.State())
      ensures datasets.Some? ==>
                var spec := DownloadAllSpec(datasets.value, destFolder, env, maxWorkers, old(fs.State()));
                && fs.State() == spec.store
                && (spec.result.Ok? ==> r == Ok(()) && datasetsToLocalFiles == Some(spec.result.value))
                && (spec.result.Err? ==> r == Err(spec.result.error) && datasetsToLocalFiles == old(datasetsToLocalFiles))
    {
      if datasets.None? {
        return Ok(());
      }
      var localFiles := DownloadAll(datasets.value, destFolder, env, maxWorkers, fs);
      if localFiles.Err? {
        return Err(localFiles.error);
      }
      datasetsToLocalFiles := Some(localFiles.value);
      r := Ok(());
    }
  }
}
