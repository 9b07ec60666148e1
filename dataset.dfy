/**
 * `CMIP6Dataset`: the files of one simulation run over consecutive periods,
 * the replica keys they have in common, the copy-producing filters, and
 * the failover download that tries one common key after another.
 */
module Datasets {
  import opened PyValues
  import opened Errors
  import opened Strings
  import opened Sorting
  import opened Lists
  import opened Constants
  import opened Utils
  import opened Entries
  import opened Files

  datatype Dataset = Dataset(
    sourceId: string,
    experimentId: string,
    memberId: string,
    variable: string,
    startDate: DateTime,
    endDate: DateTime,
    name: string,
    files: seq<File>,
    entryKeys: seq<EntryKey>)

  // ------------------------------------------------------------------ dates

  /** `min(file.start_date for file in files)`. */
  function EarliestStart(files: seq<File>): DateTime
    requires |files| > 0
    decreases |files|
  {
    if |files| == 1 then files[0].startDate
    else
      var rest := EarliestStart(files[1..]);
      if DateLess(rest, files[0].startDate) then rest else files[0].startDate
  }

  /** `max(file.end_date for file in files)`. */
  function LatestEnd(files: seq<File>): DateTime
    requires |files| > 0
    decreases |files|
  {
    if |files| == 1 then files[0].endDate
    else
      var rest := LatestEnd(files[1..]);
      if DateLess(files[0].endDate, rest) then rest else files[0].endDate
  }

  /** The dataset starts no later than any of its files, and some file starts then. */
  lemma {:induction false} EarliestStartIsMin(files: seq<File>)
    requires |files| > 0
    ensures forall f :: f in files ==> !DateLess(f.startDate, EarliestStart(files))
    ensures exists f :: f in files && f.startDate == EarliestStart(files)
    decreases |files|
  {
    if |files| > 1 {
      EarliestStartIsMin(files[1..]);
      assert forall f :: f in files ==> f == files[0] || f in files[1..];
      var g :| g in files[1..] && g.startDate == EarliestStart(files[1..]);
      assert g in files;
    } else {
      assert files[0] in files;
    }
  }

  /** The dataset ends no earlier than any of its files, and some file ends then. */
  lemma {:induction false} LatestEndIsMax(files: seq<File>)
    requires |files| > 0
    ensures forall f :: f in files ==> !DateLess(LatestEnd(files), f.endDate)
    ensures exists f :: f in files && f.endDate == LatestEnd(files)
    decreases |files|
  {
    if |files| > 1 {
      LatestEndIsMax(files[1..]);
      assert forall f :: f in files ==> f == files[0] || f in files[1..];
      var g :| g in files[1..] && g.endDate == LatestEnd(files[1..]);
      assert g in files;
    } else {
      assert files[0] in files;
    }
  }

  // ------------------------------------------------------------------- name

  /** `_make_name`: `source_experiment_member_variable_start-end`, the dates as `YYYYMMDD`. */
  function DatasetName(source: string, experiment: string, member: string, variable: string,
                       start: DateTime, end: DateTime): string
  {
    source + "_" + experiment + "_" + member + "_" + variable + "_" + FormatDate(start) + "-" + FormatDate(end)
  }

  /** `matching_dataset(file)`: the name without its last `_` segment. */
  function MatchingName(name: string): string
  {
    var parts := Split(name, '_');
    Join(parts[..|parts| - 1], '_')
  }

  /**
   * The dataset name keeps the facet prefix of its files' names: with the
   * date segment cut off, it is `source_experiment_member_variable`, the
   * key `from_cmip6_files` groups the files by.
   */
  lemma DatasetNamePrefix(source: string, experiment: string, member: string, variable: string,
                          start: DateTime, end: DateTime)
    ensures MatchingName(DatasetName(source, experiment, member, variable, start, end)) ==
            source + "_" + experiment + "_" + member + "_" + variable
  {
    var prefix := source + "_" + experiment + "_" + member + "_" + variable;
    var last := FormatDate(start) + "-" + FormatDate(end);
    assert '_' !in last;
    assert DatasetName(source, experiment, member, variable, start, end) == prefix + ['_'] + last;
    DropLastSegment(prefix, last, '_');
  }

  // ------------------------------------------------------------ common keys

  /** `set(file.entry_keys)`. */
  function KeySet(f: File): (s: set<EntryKey>)
    ensures forall k :: k in s <==> k in EntryKeys(f)
  {
    set k | k in EntryKeys(f)
  }

  /** One pass of the loop: take the file's keys when nothing is left, else intersect with them. */
  function KeyStep(acc: set<EntryKey>, f: File): set<EntryKey>
  {
    if |acc| == 0 then KeySet(f) else acc * KeySet(f)
  }

  /** The running key set after the loop has seen `files`, starting from `init`. */
  function RunningKeys(init: set<EntryKey>, files: seq<File>): set<EntryKey>
    decreases |files|
  {
    if |files| == 0 then init
    else KeyStep(RunningKeys(init, files[..|files| - 1]), files[|files| - 1])
  }

  /** The running set is non-empty before every step. */
  predicate NeverEmpty(init: set<EntryKey>, files: seq<File>)
  {
    forall i :: 0 <= i < |files| ==> |RunningKeys(init, files[..i])| > 0
  }

  /**
   * While the running set never runs empty, it is the intersection of the
   * start set with every file's keys; in every case it lies within the
   * last file's keys.
   */
  lemma {:induction false} RunningKeysIntersect(init: set<EntryKey>, files: seq<File>)
    ensures |files| > 0 ==> RunningKeys(init, files) <= KeySet(files[|files| - 1])
    ensures NeverEmpty(init, files) ==>
              forall k :: k in RunningKeys(init, files) <==> k in init && forall f :: f in files ==> k in KeySet(f)
    decreases |files|
  {
    if |files| > 0 {
      var init' := files[..|files| - 1];
      RunningKeysIntersect(init, init');
      if NeverEmpty(init, files) {
        forall i | 0 <= i < |init'| ensures |RunningKeys(init, init'[..i])| > 0 {
          assert init'[..i] == files[..i];
        }
        assert forall f :: f in files <==> f in init' || f == files[|files| - 1];
        assert files[..|files| - 1] == init';
      }
    }
  }

  /** The loop of `_intersect_entry_keys`, which starts from the first file's keys. */
  method RunningKeySet(files: seq<File>) returns (keys: set<EntryKey>)
    requires |files| > 0
    ensures keys == RunningKeys(KeySet(files[0]), files)
  {
    keys := KeySet(files[0]);
    var i := 0;
    while i < |files|
      invariant 0 <= i <= |files|
      invariant keys == RunningKeys(KeySet(files[0]), files[..i])
    {
      assert files[..i + 1][..i] == files[..i];
      if |keys| == 0 {
        keys := KeySet(files[i]);
      } else {
        keys := keys * KeySet(files[i]);
      }
      i := i + 1;
    }
    assert files[..i] == files;
  }

  /**
   * The reset: for files with keys {a}, {b}, {b} the loop ends with {b},
   * although no key is common to all three files.
   */
  lemma ResetIsNotIntersection(a: Entry, b: Entry)
    requires a.entryKey != b.entryKey
    ensures var fa := File("", "", "", "", Date(1, 1, 1), Date(1, 1, 1), "", [a]);
            var fb := File("", "", "", "", Date(1, 1, 1), Date(1, 1, 1), "", [b]);
            var files := [fa, fb, fb];
            RunningKeys(KeySet(fa), files) == {b.entryKey} &&
            forall k :: !(k in KeySet(fa) && k in KeySet(fb))
  {
    var fa := File("", "", "", "", Date(1, 1, 1), Date(1, 1, 1), "", [a]);
    var fb := File("", "", "", "", Date(1, 1, 1), Date(1, 1, 1), "", [b]);
    var files := [fa, fb, fb];
    assert EntryKeys(fa) == [a.entryKey];
    assert EntryKeys(fb) == [b.entryKey];
    assert KeySet(fa) == {a.entryKey};
    assert KeySet(fb) == {b.entryKey};
    assert files[..0] == [];
    assert files[..1] == [fa];
    assert files[..2] == [fa, fb];
    assert files[..3] == files;
    assert RunningKeys(KeySet(fa), files[..1]) == {a.entryKey};
    assert RunningKeys(KeySet(fa), files[..2]) == {};
  }

  // ------------------------------------------------------------ key order

  /** Chronological `<=` on dates. */
  predicate DateLe(a: DateTime, b: DateTime)
  {
    !DateLess(b, a)
  }

  lemma DateLeTotal()
    ensures TotalOrder(DateLe)
  {
  }

  /** `convert_version_to_datetime(entry_key[1])`. */
  function VersionDate(k: EntryKey): Result<DateTime>
  {
    ConvertVersionToDatetime(k.1)
  }

  function VersionDates(): EntryKey -> Result<DateTime>
  {
    k => VersionDate(k)
  }

  /** The two priority lists `get_sort_key` ranks by. */
  datatype Priorities = Priorities(tables: seq<string>, grids: seq<string>)

  /** `RESULTS_FACETS_ORDERING`'s table_id and grid_label lists. */
  function SourcePriorities(): Priorities
  {
    Priorities(TableIdOrdering, GridLabelOrdering)
  }

  /** `get_sort_key(entry_key)` against the ascending date list `datesAsc`. */
  function KeyRank(pr: Priorities, datesAsc: seq<DateTime>, k: EntryKey): (r: Result<Rank>)
    ensures r.Ok? ==> ValueIndex(pr.tables, k.0) == Ok(r.value.0) &&
                      VersionDate(k).Ok? && IndexOf(datesAsc, VersionDate(k).value) == Ok(r.value.1) &&
                      ValueIndex(pr.grids, k.2) == Ok(r.value.2)
    ensures r.Err? <==> ValueIndex(pr.tables, k.0).Err? || VersionDate(k).Err? ||
                        VersionDate(k).value !in datesAsc || ValueIndex(pr.grids, k.2).Err?
    ensures r.Err? ==> r.error == ValueError
  {
    var t :- ValueIndex(pr.tables, k.0);
    var d :- VersionDate(k);
    var v :- IndexOf(datesAsc, d);
    var g :- ValueIndex(pr.grids, k.2);
    Ok((t, v, g))
  }

  function KeyRanks(pr: Priorities, datesAsc: seq<DateTime>): EntryKey -> Result<Rank>
  {
    k => KeyRank(pr, datesAsc, k)
  }

  function KeyPriority(pr: Priorities, datesAsc: seq<DateTime>): EntryKey -> Rank
  {
    k => match KeyRank(pr, datesAsc, k) case Ok(r) => r case Err(_) => (0, 0, 0)
  }

  /** A key every part of which `get_sort_key` can rank. */
  predicate Rankable(pr: Priorities, k: EntryKey)
  {
    ValueIndex(pr.tables, k.0).Ok? && VersionDate(k).Ok? && ValueIndex(pr.grids, k.2).Ok?
  }

  /** The elements of the set, each once, enumerated in the order of `keys`. */
  function Enumerate(s: set<EntryKey>, keys: seq<EntryKey>): (ks: seq<EntryKey>)
    ensures Distinct(ks)
    ensures (forall k :: k in s ==> k in keys) ==> forall k :: k in ks <==> k in s
  {
    Unique(Filter(keys, k => k in s))
  }

  /** `sorted(versions)`: the keys' version dates, oldest first. */
  function DatesAsc(ks: seq<EntryKey>): seq<DateTime>
  {
    match MapResult(ks, VersionDates())
    case Ok(dates) => SortBy(dates, Id, DateLe)
    case Err(_) => []
  }

  /**
   * `sorted(entry_keys_set, key=get_sort_key)`, the set enumerated through
   * `keys`, a list holding every element of it: the version list is built
   * first, then every key is ranked, then the keys are sorted by rank.
   */
  function SortKeys(pr: Priorities, s: set<EntryKey>, keys: seq<EntryKey>): Result<seq<EntryKey>>
  {
    var ks := Enumerate(s, keys);
    var _ :- MapResult(ks, VersionDates());
    var _ :- FirstFailure(ks, KeyRanks(pr, DatesAsc(ks)));
    Ok(SortBy(ks, KeyPriority(pr, DatesAsc(ks)), RankLe))
  }

  /**
   * The order the source intends: table_id rank, then version date oldest
   * first, then grid_label rank.
   */
  predicate KeyBefore(pr: Priorities, a: EntryKey, b: EntryKey)
    requires Rankable(pr, a) && Rankable(pr, b)
  {
    var ta := ValueIndex(pr.tables, a.0).value;
    var tb := ValueIndex(pr.tables, b.0).value;
    var da := VersionDate(a).value;
    var db := VersionDate(b).value;
    var ga := ValueIndex(pr.grids, a.2).value;
    var gb := ValueIndex(pr.grids, b.2).value;
    ta < tb || (ta == tb && (DateLess(da, db) || (da == db && ga < gb)))
  }

  /** Two keys with the same rank are the same key: a rank names one table, one version and one grid. */
  lemma KeyRankInjective(pr: Priorities, datesAsc: seq<DateTime>, a: EntryKey, b: EntryKey)
    requires KeyRank(pr, datesAsc, a).Ok? && KeyRank(pr, datesAsc, b).Ok?
    requires KeyRank(pr, datesAsc, a) == KeyRank(pr, datesAsc, b)
    ensures a == b
  {
    assert a.0 == b.0;
    assert VersionDate(a).value == VersionDate(b).value;
    assert a.1 == b.1;
    assert a.2 == b.2;
  }

  /** Against an ascending date list, a smaller rank means an earlier place in the intended order. */
  lemma RankOrderIsKeyOrder(pr: Priorities, datesAsc: seq<DateTime>, a: EntryKey, b: EntryKey)
    requires SortedBy(datesAsc, Id, DateLe)
    requires KeyRank(pr, datesAsc, a).Ok? && KeyRank(pr, datesAsc, b).Ok?
    requires RankLe(KeyRank(pr, datesAsc, a).value, KeyRank(pr, datesAsc, b).value) && a != b
    ensures Rankable(pr, a) && Rankable(pr, b) && KeyBefore(pr, a, b)
  {
    var ra := KeyRank(pr, datesAsc, a).value;
    var rb := KeyRank(pr, datesAsc, b).value;
    if ra == rb {
      KeyRankInjective(pr, datesAsc, a, b);
      assert false;
    }
    var da := VersionDate(a).value;
    var db := VersionDate(b).value;
    assert ValueIndex(pr.tables, a.0).value == ra.0 && ValueIndex(pr.tables, b.0).value == rb.0;
    assert ValueIndex(pr.grids, a.2).value == ra.2 && ValueIndex(pr.grids, b.2).value == rb.2;
    if ra.0 == rb.0 && ra.1 < rb.1 {
      DatesAscOrder(datesAsc, da, db, ra.1, rb.1);
    } else if ra.0 == rb.0 && ra.1 == rb.1 {
      assert da == datesAsc[ra.1] == db;
    }
  }

  /** In an ascending list, an element first found earlier than another is an earlier date. */
  lemma DatesAscOrder(datesAsc: seq<DateTime>, da: DateTime, db: DateTime, i: nat, j: nat)
    requires SortedBy(datesAsc, Id, DateLe)
    requires IndexOf(datesAsc, da) == Ok(i) && IndexOf(datesAsc, db) == Ok(j) && i < j
    ensures DateLess(da, db)
  {
    assert DateLe(Id(datesAsc[i]), Id(datesAsc[j]));
  }

  /**
   * The key list holds exactly the set's keys, each once, and raises
   * `ValueError` exactly when some key has a table_id or grid_label outside
   * the priority lists or a version that is not `vYYYYMMDD`.
   */
  lemma SortKeysOutcome(pr: Priorities, s: set<EntryKey>, keys: seq<EntryKey>)
    requires forall k :: k in s ==> k in keys
    ensures SortKeys(pr, s, keys).Ok? <==> forall k :: k in s ==> Rankable(pr, k)
    ensures SortKeys(pr, s, keys).Err? ==> SortKeys(pr, s, keys).error == ValueError
    ensures SortKeys(pr, s, keys).Ok? ==>
              Distinct(SortKeys(pr, s, keys).value) && forall k :: k in SortKeys(pr, s, keys).value <==> k in s
  {
    var ks := Enumerate(s, keys);
    if MapResult(ks, VersionDates()).Err? {
      UnrankableDate(pr, s, keys);
    } else if FirstFailure(ks, KeyRanks(pr, DatesAsc(ks))).Err? {
      UnrankableKey(pr, s, keys);
    } else {
      AllRankable(pr, s, keys);
    }
  }

  /** A version that is not `vYYYYMMDD` makes the version list raise. */
  lemma UnrankableDate(pr: Priorities, s: set<EntryKey>, keys: seq<EntryKey>)
    requires forall k :: k in s ==> k in keys
    requires MapResult(Enumerate(s, keys), VersionDates()).Err?
    ensures SortKeys(pr, s, keys) == Err(ValueError)
    ensures exists k :: k in s && !Rankable(pr, k)
  {
    var ks := Enumerate(s, keys);
    var dates := MapResult(ks, VersionDates());
    var i :| 0 <= i < |ks| && VersionDates()(ks[i]) == Err(dates.error) &&
             forall j :: 0 <= j < i ==> VersionDates()(ks[j]).Ok?;
    assert ks[i] in s && !Rankable(pr, ks[i]);
  }

  /** A key that cannot be ranked makes the sort raise. */
  lemma UnrankableKey(pr: Priorities, s: set<EntryKey>, keys: seq<EntryKey>)
    requires forall k :: k in s ==> k in keys
    requires MapResult(Enumerate(s, keys), VersionDates()).Ok?
    requires FirstFailure(Enumerate(s, keys), KeyRanks(pr, DatesAsc(Enumerate(s, keys)))).Err?
    ensures SortKeys(pr, s, keys) == Err(ValueError)
    ensures exists k :: k in s && !Rankable(pr, k)
  {
    var ks := Enumerate(s, keys);
    var datesAsc := DatesAsc(ks);
    DatesAscHoldsDates(ks);
    var ranks := FirstFailure(ks, KeyRanks(pr, datesAsc));
    var i :| 0 <= i < |ks| && KeyRanks(pr, datesAsc)(ks[i]) == Err(ranks.error) &&
             forall j :: 0 <= j < i ==> KeyRanks(pr, datesAsc)(ks[j]).Ok?;
    assert ks[i] in s && !Rankable(pr, ks[i]);
  }

  /** With every key ranked, the sort returns the set's keys, each once. */
  lemma AllRankable(pr: Priorities, s: set<EntryKey>, keys: seq<EntryKey>)
    requires forall k :: k in s ==> k in keys
    requires MapResult(Enumerate(s, keys), VersionDates()).Ok?
    requires FirstFailure(Enumerate(s, keys), KeyRanks(pr, DatesAsc(Enumerate(s, keys)))).Ok?
    ensures SortKeys(pr, s, keys).Ok?
    ensures forall k :: k in s ==> Rankable(pr, k)
    ensures Distinct(SortKeys(pr, s, keys).value) && forall k :: k in SortKeys(pr, s, keys).value <==> k in s
  {
    var ks := Enumerate(s, keys);
    var datesAsc := DatesAsc(ks);
    DatesAscHoldsDates(ks);
    forall k | k in s ensures Rankable(pr, k) {
      var i :| 0 <= i < |ks| && ks[i] == k;
      assert KeyRanks(pr, datesAsc)(ks[i]).Ok?;
    }
    var sorted := SortBy(ks, KeyPriority(pr, datesAsc), RankLe);
    SortByDistinct(ks, KeyPriority(pr, datesAsc), RankLe);
    forall k ensures k in sorted <==> k in ks {
      assert k in sorted <==> k in multiset(sorted);
    }
  }

  /** Every key's date is in the sorted date list. */
  lemma DatesAscHoldsDates(ks: seq<EntryKey>)
    requires MapResult(ks, VersionDates()).Ok?
    ensures forall i :: 0 <= i < |ks| ==> VersionDate(ks[i]).Ok? && VersionDate(ks[i]).value in DatesAsc(ks)
  {
    var dates := MapResult(ks, VersionDates()).value;
    assert multiset(DatesAsc(ks)) == multiset(dates);
    forall i | 0 <= i < |ks| ensures VersionDate(ks[i]).Ok? && VersionDate(ks[i]).value in DatesAsc(ks) {
      assert VersionDates()(ks[i]) == Ok(dates[i]);
      assert dates[i] in multiset(dates);
    }
  }

  /** The keys come out strictly in the intended order. */
  lemma SortKeysOrdered(pr: Priorities, s: set<EntryKey>, keys: seq<EntryKey>)
    requires forall k :: k in s ==> k in keys
    requires SortKeys(pr, s, keys).Ok?
    ensures forall k :: k in SortKeys(pr, s, keys).value ==> Rankable(pr, k)
    ensures var r := SortKeys(pr, s, keys).value;
            forall i, j :: 0 <= i < j < |r| ==> KeyBefore(pr, r[i], r[j])
  {
    SortKeysOutcome(pr, s, keys);
    var datesAsc := DatesAsc(Enumerate(s, keys));
    var r := SortKeys(pr, s, keys).value;
    SortKeysRanked(pr, s, keys);
    forall i, j | 0 <= i < j < |r| ensures KeyBefore(pr, r[i], r[j]) {
      RankSortedIsKeyOrdered(pr, datesAsc, r, i, j);
    }
  }

  /** The version list is ascending. */
  lemma DatesAscSorted(ks: seq<EntryKey>)
    requires MapResult(ks, VersionDates()).Ok?
    ensures SortedBy(DatesAsc(ks), Id, DateLe)
  {
    DateLeTotal();
    SortBySorted(MapResult(ks, VersionDates()).value, Id, DateLe);
  }

  /** The sorted keys are each ranked, and ordered by rank against an ascending version list. */
  lemma SortKeysRanked(pr: Priorities, s: set<EntryKey>, keys: seq<EntryKey>)
    requires SortKeys(pr, s, keys).Ok?
    ensures var datesAsc := DatesAsc(Enumerate(s, keys));
            var r := SortKeys(pr, s, keys).value;
            && SortedBy(datesAsc, Id, DateLe)
            && (forall k :: k in r ==> KeyRank(pr, datesAsc, k).Ok?)
            && SortedBy(r, KeyPriority(pr, datesAsc), RankLe)
  {
    var ks := Enumerate(s, keys);
    DatesAscSorted(ks);
    SortKeysValue(pr, s, keys);
    RankLeTotal();
    SortBySorted(ks, KeyPriority(pr, DatesAsc(ks)), RankLe);
    SortKeysAllRanked(pr, s, keys);
  }

  /** What a sort without exception returns: the keys sorted by rank. */
  lemma SortKeysValue(pr: Priorities, s: set<EntryKey>, keys: seq<EntryKey>)
    requires SortKeys(pr, s, keys).Ok?
    ensures var ks := Enumerate(s, keys);
            && MapResult(ks, VersionDates()).Ok?
            && FirstFailure(ks, KeyRanks(pr, DatesAsc(ks))).Ok?
            && SortKeys(pr, s, keys).value == SortBy(ks, KeyPriority(pr, DatesAsc(ks)), RankLe)
  {
  }

  /** Every sorted key has a rank. */
  lemma SortKeysAllRanked(pr: Priorities, s: set<EntryKey>, keys: seq<EntryKey>)
    requires SortKeys(pr, s, keys).Ok?
    ensures forall k :: k in SortKeys(pr, s, keys).value ==> KeyRank(pr, DatesAsc(Enumerate(s, keys)), k).Ok?
  {
    var ks := Enumerate(s, keys);
    var datesAsc := DatesAsc(ks);
    SortKeysValue(pr, s, keys);
    var r := SortKeys(pr, s, keys).value;
    forall k | k in r ensures KeyRank(pr, datesAsc, k).Ok? {
      assert k in multiset(ks);
      var i :| 0 <= i < |ks| && ks[i] == k;
      assert KeyRanks(pr, datesAsc)(ks[i]).Ok?;
    }
  }

  /** Two distinct keys in a list sorted by rank against an ascending date list are in the intended order. */
  lemma RankSortedIsKeyOrdered(pr: Priorities, datesAsc: seq<DateTime>, r: seq<EntryKey>, i: nat, j: nat)
    requires SortedBy(datesAsc, Id, DateLe)
    requires Distinct(r)
    requires forall k :: k in r ==> KeyRank(pr, datesAsc, k).Ok?
    requires SortedBy(r, KeyPriority(pr, datesAsc), RankLe)
    requires i < j < |r|
    ensures Rankable(pr, r[i]) && Rankable(pr, r[j]) && KeyBefore(pr, r[i], r[j])
  {
    assert r[i] in r && r[j] in r;
    assert RankLe(KeyPriority(pr, datesAsc)(r[i]), KeyPriority(pr, datesAsc)(r[j]));
    RankOrderIsKeyOrder(pr, datesAsc, r[i], r[j]);
  }

  /** `_intersect_entry_keys(files)`: the running key set in the intended order; `IndexError` with no file. */
  function IntersectEntryKeysSpec(files: seq<File>): Result<seq<EntryKey>>
  {
    if |files| == 0 then Err(IndexError)
    else SortKeys(SourcePriorities(), RunningKeys(KeySet(files[0]), files), EntryKeys(files[|files| - 1]))
  }

  method IntersectEntryKeys(files: seq<File>) returns (r: Result<seq<EntryKey>>)
    ensures r == IntersectEntryKeysSpec(files)
  {
    if |files| == 0 {
      return Err(IndexError);
    }
    var keys := RunningKeySet(files);
    r := SortKeys(SourcePriorities(), keys, EntryKeys(files[|files| - 1]));
  }

  /**
   * The common keys: each once, strictly in the intended order, all of
   * the last file's keys when the running set never ran empty exactly the
   * keys every file has.
   */
  lemma IntersectEntryKeysOutcome(files: seq<File>)
    requires IntersectEntryKeysSpec(files).Ok?
    ensures var r := IntersectEntryKeysSpec(files).value;
            && Distinct(r)
            && (forall k :: k in r ==> Rankable(SourcePriorities(), k) && k in EntryKeys(files[|files| - 1]))
            && (forall i, j :: 0 <= i < j < |r| ==> KeyBefore(SourcePriorities(), r[i], r[j]))
            && (NeverEmpty(KeySet(files[0]), files) ==>
                  forall k :: k in r <==> forall f :: f in files ==> k in EntryKeys(f))
  {
    var s := RunningKeys(KeySet(files[0]), files);
    var last := EntryKeys(files[|files| - 1]);
    RunningKeysIntersect(KeySet(files[0]), files);
    SortKeysOutcome(SourcePriorities(), s, last);
    SortKeysOrdered(SourcePriorities(), s, last);
    assert files[0] in files;
  }

  // ------------------------------------------------------------ construction

  /** `CMIP6Dataset(files)`: the first file's facets, the date bounds, the name and the common keys. */
  function DatasetOf(files: seq<File>): Result<Dataset>
  {
    if |files| == 0 then Err(IndexError)
    else
      var f := files[0];
      var start := EarliestStart(files);
      var end := LatestEnd(files);
      var keys :- IntersectEntryKeysSpec(files);
      Ok(Dataset(f.sourceId, f.experimentId, f.memberId, f.variable, start, end,
                 DatasetName(f.sourceId, f.experimentId, f.memberId, f.variable, start, end), files, keys))
  }

  /**
   * A dataset spans its files: it starts at the earliest start and ends at
   * the latest end, both attained; it holds the files as given and their
   * common keys; its name carries the first file's facets.
   */
  lemma DatasetOutcome(files: seq<File>)
    requires DatasetOf(files).Ok?
    ensures var d := DatasetOf(files).value;
            && |files| > 0 && d.files == files
            && (forall f :: f in files ==> !DateLess(f.startDate, d.startDate) && !DateLess(d.endDate, f.endDate))
            && (exists f :: f in files && f.startDate == d.startDate)
            && (exists f :: f in files && f.endDate == d.endDate)
            && d.entryKeys == IntersectEntryKeysSpec(files).value
            && MatchingName(d.name) == d.sourceId + "_" + d.experimentId + "_" + d.memberId + "_" + d.variable
            && d.sourceId == files[0].sourceId && d.experimentId == files[0].experimentId
            && d.memberId == files[0].memberId && d.variable == files[0].variable
  {
    var d := DatasetOf(files).value;
    EarliestStartIsMin(files);
    LatestEndIsMax(files);
    DatasetNamePrefix(d.sourceId, d.experimentId, d.memberId, d.variable, d.startDate, d.endDate);
  }

  /** `CMIP6Dataset.__init__`. */
  method NewDataset(files: seq<File>) returns (r: Result<Dataset>)
    ensures r == DatasetOf(files)
  {
    if |files| == 0 {
      return Err(IndexError);
    }
    var f := files[0];
    var start := EarliestStart(files);
    var end := LatestEnd(files);
    var name := DatasetName(f.sourceId, f.experimentId, f.memberId, f.variable, start, end);
    var keys := IntersectEntryKeys(files);
    if keys.Err? {
      return Err(keys.error);
    }
    r := Ok(Dataset(f.sourceId, f.experimentId, f.memberId, f.variable, start, end, name, files, keys.value));
  }

  // ------------------------------------------------------------ grouping files

  /** `matching_dataset(file)`. */
  function DatasetKey(f: File): string
  {
    MatchingName(f.name)
  }

  /** `groupby(sorted(files, key=matching_dataset), key=matching_dataset)`. */
  function DatasetGroups(files: seq<File>): seq<seq<File>>
  {
    GroupRuns(SortBy(files, DatasetKey, LessEq), DatasetKey)
  }

  function DatasetBuilder(): seq<File> -> Result<Dataset>
  {
    fs => DatasetOf(fs)
  }

  /** `from_cmip6_files`: one dataset per group, in group order. */
  function FromCmip6FilesSpec(files: seq<File>): Result<seq<Dataset>>
  {
    MapResult(DatasetGroups(files), DatasetBuilder())
  }

  /**
   * The datasets partition the files: each holds one group, every file of
   * a group has the group's key, and the groups' keys strictly ascend.
   */
  lemma FromCmip6FilesPartition(files: seq<File>)
    requires FromCmip6FilesSpec(files).Ok?
    ensures var ds := FromCmip6FilesSpec(files).value;
            var gs := DatasetGroups(files);
            && |ds| == |gs|
            && multiset(Flatten(gs)) == multiset(files)
            && (forall i :: 0 <= i < |ds| ==> ds[i].files == gs[i] && |gs[i]| > 0)
            && (forall i, f :: 0 <= i < |ds| && f in ds[i].files ==> f in files && DatasetKey(f) == DatasetKey(ds[i].files[0]))
            && (forall i, j :: 0 <= i < j < |ds| ==> Less(DatasetKey(ds[i].files[0]), DatasetKey(ds[j].files[0])))
  {
    var ds := FromCmip6FilesSpec(files).value;
    var gs := DatasetGroups(files);
    LessEqTotalOrder();
    SortedGroups(files, DatasetKey, LessEq);
    forall i | 0 <= i < |ds| ensures ds[i].files == gs[i] {
      assert DatasetBuilder()(gs[i]) == Ok(ds[i]);
      DatasetOutcome(gs[i]);
    }
  }

  /** The loop of `from_cmip6_files`. */
  method BuildDatasets(groups: seq<seq<File>>) returns (r: Result<seq<Dataset>>)
    ensures r == MapResult(groups, DatasetBuilder())
  {
    var datasets: seq<Dataset> := [];
    var i := 0;
    while i < |groups|
      invariant 0 <= i <= |groups|
      invariant MapResult(groups[..i], DatasetBuilder()) == Ok(datasets)
    {
      var d := NewDataset(groups[i]);
      if d.Err? {
        MapResultFirstError(groups, i, DatasetBuilder());
        return Err(d.error);
      }
      MapResultPrefixStep(groups, i, DatasetBuilder());
      datasets := datasets + [d.value];
      i := i + 1;
    }
    assert groups[..i] == groups;
    r := Ok(datasets);
  }

  /** `CMIP6Dataset.from_cmip6_files`. */
  method FromCmip6Files(files: seq<File>) returns (r: Result<seq<Dataset>>)
    ensures r == FromCmip6FilesSpec(files)
  {
    r := BuildDatasets(DatasetGroups(files));
  }

  /** `CMIP6Dataset.from_results`: files from the hits, then datasets from the files. */
  function DatasetsFromResultsSpec(results: seq<RawResult>): Result<seq<Dataset>>
  {
    var files :- FromResultsSpec(results);
    FromCmip6FilesSpec(files)
  }

  method DatasetsFromResults(results: seq<RawResult>) returns (r: Result<seq<Dataset>>)
    ensures r == DatasetsFromResultsSpec(results)
  {
    var files := FromResults(results);
    if files.Err? {
      return Err(files.error);
    }
    r := FromCmip6Files(files.value);
  }

  /**
   * Built from search hits, every file of a dataset has the dataset's own
   * name once the date segment is cut off from both.
   */
  lemma DatasetsFromResultsNamed(results: seq<RawResult>)
    requires DatasetsFromResultsSpec(results).Ok?
    ensures var ds := DatasetsFromResultsSpec(results).value;
            forall i, f :: 0 <= i < |ds| && f in ds[i].files ==> DatasetKey(f) == MatchingName(ds[i].name)
  {
    var files := FromResultsSpec(results).value;
    var ds := DatasetsFromResultsSpec(results).value;
    FromCmip6FilesPartition(files);
    forall i, f | 0 <= i < |ds| && f in ds[i].files ensures DatasetKey(f) == MatchingName(ds[i].name) {
      assert DatasetBuilder()(DatasetGroups(files)[i]) == Ok(ds[i]);
      DatasetNamedByFiles(results, ds[i], f);
    }
  }

  /** A dataset of files built from hits and sharing one key is named by that key. */
  lemma DatasetNamedByFiles(results: seq<RawResult>, d: Dataset, f: File)
    requires FromResultsSpec(results).Ok?
    requires DatasetOf(d.files) == Ok(d) && |d.files| > 0
    requires forall g :: g in d.files ==> g in FromResultsSpec(results).value && DatasetKey(g) == DatasetKey(d.files[0])
    requires f in d.files
    ensures DatasetKey(f) == MatchingName(d.name)
  {
    DatasetOutcome(d.files);
    assert d.files[0] in d.files;
    FileSpelled(results, d.files[0]);
  }

  /** A file built from search hits is named by its own facets and dates. */
  lemma FileSpelled(results: seq<RawResult>, f: File)
    requires FromResultsSpec(results).Ok? && f in FromResultsSpec(results).value
    ensures MatchingName(f.name) == f.sourceId + "_" + f.experimentId + "_" + f.memberId + "_" + f.variable
  {
    FromResultsPartition(results);
    var fs := FromResultsSpec(results).value;
    var i :| 0 <= i < |fs| && fs[i] == f;
    var g := FileGroups(results)[i];
    assert FileBuilder()(g) == Ok(f);
    FileNameSpellsFields(g);
    DatasetNamePrefix(f.sourceId, f.experimentId, f.memberId, f.variable, f.startDate, f.endDate);
  }

  // ------------------------------------------------------------ filters

  function RunningFilter(nodesStatus: map<string, bool>): File -> Result<Option<File>>
  {
    f => FilterRunningNodesSpec(f, nodesStatus)
  }

  /**
   * `_filter_running_nodes`: every file filtered in order, the non-`None`
   * results kept; `None` when none is kept, else a dataset of those files.
   */
  function FilterRunningNodesDatasetSpec(d: Dataset, nodesStatus: map<string, bool>): Result<Option<Dataset>>
  {
    var filtered :- MapResult(d.files, RunningFilter(nodesStatus));
    var kept := Somes(filtered);
    if |kept| == 0 then Ok(None)
    else
      var nd :- DatasetOf(kept);
      Ok(Some(nd))
  }

  /**
   * `None` exactly when every file filters to `None`; otherwise the new
   * dataset holds exactly the files that filtering kept.
   */
  lemma FilterRunningNodesDatasetOutcome(d: Dataset, nodesStatus: map<string, bool>)
    requires forall f :: f in d.files ==> FilterRunningNodesSpec(f, nodesStatus).Ok?
    ensures FilterRunningNodesDatasetSpec(d, nodesStatus) == Ok(None) <==>
            forall f :: f in d.files ==> FilterRunningNodesSpec(f, nodesStatus) == Ok(None)
    ensures var r := FilterRunningNodesDatasetSpec(d, nodesStatus);
            r.Ok? && r.value.Some? ==>
              forall g :: g in r.value.value.files <==>
                exists f :: f in d.files && FilterRunningNodesSpec(f, nodesStatus) == Ok(Some(g))
  {
    RunningFilterOk(d, nodesStatus);
    MapResultSomes(d.files, RunningFilter(nodesStatus));
    FilterRunningNodesDatasetKept(d, nodesStatus);
  }

  /** With every file filtering cleanly, so does the whole list, file by file. */
  lemma RunningFilterOk(d: Dataset, nodesStatus: map<string, bool>)
    requires forall f :: f in d.files ==> FilterRunningNodesSpec(f, nodesStatus).Ok?
    ensures MapResult(d.files, RunningFilter(nodesStatus)).Ok?
    ensures forall f :: RunningFilter(nodesStatus)(f) == FilterRunningNodesSpec(f, nodesStatus)
  {
  }

  /** With every file filtered cleanly, the dataset is built from the kept files, or is `None` without any. */
  lemma FilterRunningNodesDatasetKept(d: Dataset, nodesStatus: map<string, bool>)
    requires MapResult(d.files, RunningFilter(nodesStatus)).Ok?
    ensures var kept := Somes(MapResult(d.files, RunningFilter(nodesStatus)).value);
            var r := FilterRunningNodesDatasetSpec(d, nodesStatus);
            && (r == Ok(None) <==> |kept| == 0)
            && (r.Ok? && r.value.Some? ==> r.value.value.files == kept)
  {
    var kept := Somes(MapResult(d.files, RunningFilter(nodesStatus)).value);
    if |kept| > 0 && DatasetOf(kept).Ok? {
      DatasetKeepsFiles(kept);
    }
  }

  /** A dataset holds the files it was built from. */
  lemma DatasetKeepsFiles(files: seq<File>)
    requires DatasetOf(files).Ok?
    ensures DatasetOf(files).value.files == files
  {
  }

  /** `CMIP6Dataset._filter_running_nodes`, with its loop over the files. */
  method FilterRunningNodesDataset(d: Dataset, nodesStatus: map<string, bool>) returns (r: Result<Option<Dataset>>)
    ensures r == FilterRunningNodesDatasetSpec(d, nodesStatus)
  {
    var kept: seq<File> := [];
    ghost var filtered: seq<Option<File>> := [];
    var i := 0;
    while i < |d.files|
      invariant 0 <= i <= |d.files|
      invariant MapResult(d.files[..i], RunningFilter(nodesStatus)) == Ok(filtered)
      invariant kept == Somes(filtered)
    {
      var o := FilterRunningNodes(d.files[i], nodesStatus);
      if o.Err? {
        MapResultFirstError(d.files, i, RunningFilter(nodesStatus));
        return Err(o.error);
      }
      MapResultPrefixStep(d.files, i, RunningFilter(nodesStatus));
      SomesStep(filtered + [o.value], |filtered|);
      assert (filtered + [o.value])[..|filtered|] == filtered;
      filtered := filtered + [o.value];
      if o.value.Some? {
        kept := kept + [o.value.value];
      }
      i := i + 1;
    }
    assert d.files[..i] == d.files;
    if |kept| == 0 {
      return Ok(None);
    }
    var nd := NewDataset(kept);
    if nd.Err? {
      return Err(nd.error);
    }
    r := Ok(Some(nd.value));
  }

  /** `overlapping_spans(file.start_date.year, file.end_date.year, start_year, stop_year)`. */
  function InSpan(span: (int, int)): File -> bool
  {
    (f: File) => OverlappingSpans(f.startDate.year, f.endDate.year, span.0, span.1)
  }

  /** `_filter_years(span)`: the files in the span, in order; `None` when there are none. */
  function FilterYearsSpec(d: Dataset, span: (int, int)): Result<Option<Dataset>>
  {
    var kept := Filter(d.files, InSpan(span));
    if |kept| == 0 then Ok(None)
    else
      var nd :- DatasetOf(kept);
      Ok(Some(nd))
  }

  /**
   * `None` exactly when no file overlaps the span; otherwise the new
   * dataset holds exactly the files that do.
   */
  lemma FilterYearsOutcome(d: Dataset, span: (int, int))
    ensures FilterYearsSpec(d, span) == Ok(None) <==>
            forall f :: f in d.files ==> !OverlappingSpans(f.startDate.year, f.endDate.year, span.0, span.1)
    ensures var r := FilterYearsSpec(d, span);
            r.Ok? && r.value.Some? ==>
              r.value.value.files == Filter(d.files, InSpan(span)) &&
              forall f :: f in r.value.value.files <==>
                f in d.files && OverlappingSpans(f.startDate.year, f.endDate.year, span.0, span.1)
  {
    var kept := Filter(d.files, InSpan(span));
    if |kept| > 0 {
      assert kept[0] in kept;
      if DatasetOf(kept).Ok? {
        DatasetOutcome(kept);
      }
    }
  }

  /** `CMIP6Dataset._filter_years`, with its loop over the files. */
  method FilterYears(d: Dataset, span: (int, int)) returns (r: Result<Option<Dataset>>)
    ensures r == FilterYearsSpec(d, span)
  {
    var kept: seq<File> := [];
    var i := 0;
    while i < |d.files|
      invariant 0 <= i <= |d.files|
      invariant kept == Filter(d.files[..i], InSpan(span))
    {
      FilterAppend(d.files[..i], d.files[i], InSpan(span));
      assert d.files[..i + 1] == d.files[..i] + [d.files[i]];
      if OverlappingSpans(d.files[i].startDate.year, d.files[i].endDate.year, span.0, span.1) {
        kept := kept + [d.files[i]];
      }
      i := i + 1;
    }
    assert d.files[..i] == d.files;
    if |kept| == 0 {
      return Ok(None);
    }
    var nd := NewDataset(kept);
    if nd.Err? {
      return Err(nd.error);
    }
    r := Ok(Some(nd.value));
  }

  // ------------------------------------------------------------ sampling

  function Sampler(key: EntryKey): File -> Result<Entry>
  {
    f => SampleEntryKey(f, key)
  }

  /**
   * `sample_entry_key(entry_key)`: each file's first entry with the key,
   * in file order; the first file without it raises `ValueError`.
   */
  function SampleEntries(files: seq<File>, key: EntryKey): (r: Result<seq<Entry>>)
    ensures r.Ok? <==> forall f :: f in files ==> key in EntryKeys(f)
    ensures r.Ok? ==> |r.value| == |files| &&
                      forall i :: 0 <= i < |files| ==> SampleEntryKey(files[i], key) == Ok(r.value[i]) && r.value[i].entryKey == key
    ensures r.Err? ==> r.error == ValueError
  {
    var r := MapResult(files, Sampler(key));
    if r.Err? then
      var i :| 0 <= i < |files| && Sampler(key)(files[i]) == Err(r.error) && forall j :: 0 <= j < i ==> Sampler(key)(files[j]).Ok?;
      assert files[i] in files;
      r
    else
      assert forall f :: f in files ==> exists i :: 0 <= i < |files| && files[i] == f;
      r
  }

  // ------------------------------------------------------------ download

  /** `_donwload_entry`: the download's path, or the exception it raised, never both. */
  method DownloadEntry(e: Entry, destFolder: Path, env: DownloadEnv, fs: FileStore)
    returns (localFile: Option<Path>, error: Option<Error>)
    requires fs.Valid()
    modifies fs
    ensures fs.Valid()
    ensures var (res, st) := DownloadStep(e, destFolder, env, old(fs.State()));
            fs.State() == st &&
            (res.Ok? ==> localFile == Some(res.value) && error.None?) &&
            (res.Err? ==> localFile.None? && error == Some(res.error))
  {
    var r := Download(e, destFolder, env, fs);
    if r.Ok? {
      localFile, error := Some(r.value), None;
    } else {
      localFile, error := None, Some(r.error);
    }
  }

  /** What the downloads of one key's entries give: the paths of the successes, the errors of the failures, the store. */
  datatype Batch = Batch(paths: seq<Path>, errors: seq<Error>, store: Store)

  /** One entry downloaded on a store: its path or its error, and the store it leaves. */
  type EntryDownload = (Entry, Store) -> (Result<Path>, Store)

  /** `_donwload_entry` into `destFolder`. */
  function Downloader(destFolder: Path, env: DownloadEnv): EntryDownload
  {
    (e: Entry, st: Store) => DownloadStep(e, destFolder, env, st)
  }

  /** The entries downloaded one after another, each on the store the previous one left. */
  function DownloadBatch(entries: seq<Entry>, download: EntryDownload, st: Store): (b: Batch)
    ensures |b.paths| + |b.errors| == |entries|
    decreases |entries|
  {
    if |entries| == 0 then Batch([], [], st)
    else
      var b := DownloadBatch(entries[..|entries| - 1], download, st);
      var (res, st') := download(entries[|entries| - 1], b.store);
      match res
      case Ok(p) => Batch(b.paths + [p], b.errors, st')
      case Err(err) => Batch(b.paths, b.errors + [err], st')
  }

  /** One more entry: its path or its error is appended. */
  lemma DownloadBatchStep(entries: seq<Entry>, j: nat, download: EntryDownload, st: Store)
    requires j < |entries|
    ensures var b := DownloadBatch(entries[..j], download, st);
            var (res, st') := download(entries[j], b.store);
            DownloadBatch(entries[..j + 1], download, st) ==
              if res.Ok? then Batch(b.paths + [res.value], b.errors, st') else Batch(b.paths, b.errors + [res.error], st')
  {
    assert entries[..j + 1][..j] == entries[..j];
  }

  /** Every download that succeeds returns the entry's own destination. */
  ghost predicate ReturnsDestination(download: EntryDownload, destFolder: Path)
  {
    forall e, st :: download(e, st).0.Ok? ==> download(e, st).0 == LocalFile(e, destFolder)
  }

  /** Every download leaves the files already in the tree as they were. */
  ghost predicate DownloadKeepsFiles(download: EntryDownload)
  {
    forall e, st :: Keeps(st, download(e, st).1)
  }

  /** `_donwload_entry` returns the destination and never overwrites a file. */
  lemma DownloaderSound(destFolder: Path, env: DownloadEnv)
    ensures ReturnsDestination(Downloader(destFolder, env), destFolder)
    ensures DownloadKeepsFiles(Downloader(destFolder, env))
  {
    forall e, st ensures Keeps(st, Downloader(destFolder, env)(e, st).1) {
      DownloadNeverOverwrites(e, destFolder, env, st.files);
    }
    forall e, st | Downloader(destFolder, env)(e, st).0.Ok?
      ensures Downloader(destFolder, env)(e, st).0 == LocalFile(e, destFolder)
    {
      DownloadStepPath(e, destFolder, env, st);
    }
  }

  /**
   * A batch without errors has one path per entry, each the entry's own
   * destination.
   */
  lemma {:induction false} DownloadBatchPaths(entries: seq<Entry>, download: EntryDownload, destFolder: Path, st: Store)
    requires ReturnsDestination(download, destFolder)
    requires DownloadBatch(entries, download, st).errors == []
    ensures var b := DownloadBatch(entries, download, st);
            |b.paths| == |entries| && forall i :: 0 <= i < |entries| ==> LocalFile(entries[i], destFolder) == Ok(b.paths[i])
    decreases |entries|
  {
    if |entries| > 0 {
      var n := |entries| - 1;
      var init := entries[..n];
      var b := DownloadBatch(init, download, st);
      var res := download(entries[n], b.store).0;
      assert res.Ok? && b.errors == [];
      var paths := DownloadBatch(entries, download, st).paths;
      assert paths == b.paths + [res.value];
      DownloadBatchPaths(init, download, destFolder, st);
      forall i | 0 <= i < |entries| ensures LocalFile(entries[i], destFolder) == Ok(paths[i]) {
        if i < n {
          assert entries[i] == init[i] && paths[i] == b.paths[i];
        } else {
          assert paths[i] == res.value;
          assert download(entries[i], b.store).0 == LocalFile(entries[i], destFolder);
        }
      }
    }
  }

  /** The batch never alters a file that was in the tree before it. */
  lemma {:induction false} DownloadBatchKeepsFiles(entries: seq<Entry>, download: EntryDownload, st: Store)
    requires DownloadKeepsFiles(download)
    ensures Keeps(st, DownloadBatch(entries, download, st).store)
    decreases |entries|
  {
    if |entries| > 0 {
      var init := entries[..|entries| - 1];
      var b := DownloadBatch(init, download, st);
      DownloadBatchKeepsFiles(init, download, st);
      assert Keeps(b.store, download(entries[|entries| - 1], b.store).1);
    }
  }

  /** The downloads of `download`: each key's attempt, and how the whole call ended. */
  datatype Failover = Failover(result: Result<seq<Path>>, attempts: seq<(EntryKey, seq<Error>)>, store: Store)

  /** What trying one key gives: an exception raised before any download, or the batch of its entries. */
  datatype KeyOutcome = Raised(error: Error) | Tried(batch: Batch)

  /** One key tried on the store the previous keys left. */
  type KeyTrial = (EntryKey, Store) -> KeyOutcome

  /**
   * One key of `download`: the key is sampled before the workers start, so
   * a key some file lacks raises `ValueError`, and so does a worker count
   * below one; otherwise the key's entries are downloaded.
   */
  function TryKey(files: seq<File>, destFolder: Path, env: DownloadEnv, maxWorkers: int): KeyTrial
  {
    (key: EntryKey, st: Store) => KeyOutcomeOf(files, destFolder, env, maxWorkers, key, st)
  }

  /** The outcome of one key of `download`, tried on the store `st`. */
  function KeyOutcomeOf(files: seq<File>, destFolder: Path, env: DownloadEnv, maxWorkers: int, key: EntryKey, st: Store): (o: KeyOutcome)
    ensures o.Raised? ==> o.error == ValueError
    ensures maxWorkers <= 0 ==> o.Raised?
    ensures o.Tried? <==> SampleEntries(files, key).Ok? && maxWorkers > 0
  {
    match SampleEntries(files, key)
    case Err(err) => Raised(err)
    case Ok(entries) =>
      if maxWorkers <= 0 then Raised(ValueError) else Tried(DownloadBatch(entries, Downloader(destFolder, env), st))
  }

  /**
   * The loop of `download` from `keys` on, with the errors of the keys
   * already tried in `attempts`: a key whose entries all download ends it
   * with their paths, a key that raises ends it with that exception, and
   * when the keys run out `DownloadError` reports every attempt.
   */
  function TryKeys(keys: seq<EntryKey>, trial: KeyTrial, st: Store, attempts: seq<(EntryKey, seq<Error>)>): Failover
    decreases |keys|
  {
    if |keys| == 0 then Failover(Err(DownloadError(NoConsistentKey(attempts))), attempts, st)
    else match trial(keys[0], st)
      case Raised(err) => Failover(Err(err), attempts, st)
      case Tried(b) =>
        if b.errors == [] then Failover(Ok(b.paths), attempts, b.store)
        else TryKeys(keys[1..], trial, b.store, attempts + [(keys[0], b.errors)])
  }

  /** `CMIP6Dataset.download(dest_folder, max_workers)`. */
  function DownloadDatasetSpec(d: Dataset, destFolder: Path, env: DownloadEnv, maxWorkers: int, st: Store): (r: Failover)
    ensures |d.entryKeys| == 0 ==> r.result == Err(DownloadError(NoConsistentKey([]))) && r.store == st
    ensures |d.entryKeys| > 0 && maxWorkers <= 0 ==> r.result == Err(ValueError) && r.store == st
  {
    TryKeys(d.entryKeys, TryKey(d.files, destFolder, env, maxWorkers), st, [])
  }

  /** The keys are tried in order, each recorded with the errors of its entries, at least one. */
  lemma {:induction false} TryKeysAttempts(keys: seq<EntryKey>, trial: KeyTrial, st: Store, attempts: seq<(EntryKey, seq<Error>)>)
    ensures var r := TryKeys(keys, trial, st, attempts);
            && |attempts| <= |r.attempts| <= |attempts| + |keys|
            && (forall i :: 0 <= i < |attempts| ==> r.attempts[i] == attempts[i])
            && forall i :: |attempts| <= i < |r.attempts| ==> r.attempts[i].0 == keys[i - |attempts|] && |r.attempts[i].1| > 0
    decreases |keys|
  {
    if |keys| > 0 && trial(keys[0], st).Tried? && trial(keys[0], st).batch.errors != [] {
      var r := TryKeys(keys, trial, st, attempts);
      var b := trial(keys[0], st).batch;
      var attempts' := attempts + [(keys[0], b.errors)];
      TryKeysAttempts(keys[1..], trial, b.store, attempts');
      assert r == TryKeys(keys[1..], trial, b.store, attempts');
      assert r.attempts[|attempts|] == attempts'[|attempts|];
      forall i | 0 <= i < |attempts| ensures r.attempts[i] == attempts[i] {
        assert attempts'[i] == attempts[i];
      }
      forall i | |attempts| < i < |r.attempts| ensures r.attempts[i].0 == keys[i - |attempts|] {
        assert r.attempts[i].0 == keys[1..][i - |attempts'|];
      }
    }
  }

  /**
   * How the loop ends: a success or a raised exception comes from the key
   * after the failed ones, on some store; otherwise every key failed and
   * `DownloadError` lists them all.
   */
  lemma {:induction false} TryKeysEnd(keys: seq<EntryKey>, trial: KeyTrial, st: Store, attempts: seq<(EntryKey, seq<Error>)>)
    ensures var r := TryKeys(keys, trial, st, attempts);
            var n := |r.attempts| - |attempts|;
            && (r.result.Ok? ==>
                  0 <= n < |keys| &&
                  exists s :: trial(keys[n], s).Tried? && trial(keys[n], s).batch == Batch(r.result.value, [], r.store))
            && (r.result.Err? ==>
                  (0 <= n < |keys| && exists s :: trial(keys[n], s) == Raised(r.result.error)) ||
                  (n == |keys| && r.result == Err(DownloadError(NoConsistentKey(r.attempts)))))
    decreases |keys|
  {
    var r := TryKeys(keys, trial, st, attempts);
    if |keys| > 0 {
      match trial(keys[0], st)
      case Raised(err) =>
        assert trial(keys[0], st) == Raised(r.result.error);
      case Tried(b) =>
        if b.errors == [] {
          assert trial(keys[0], st).batch == Batch(r.result.value, [], r.store);
        } else {
          var attempts' := attempts + [(keys[0], b.errors)];
          TryKeysEnd(keys[1..], trial, b.store, attempts');
          TryKeysAttempts(keys[1..], trial, b.store, attempts');
          assert r == TryKeys(keys[1..], trial, b.store, attempts');
          var n := |r.attempts| - |attempts|;
          assert n >= 1;
          if n - 1 < |keys| - 1 {
            assert keys[1..][n - 1] == keys[n];
          }
        }
    }
  }

  /** Every key leaves the files already in the tree as they were. */
  ghost predicate TrialKeepsFiles(trial: KeyTrial)
  {
    forall key, st :: trial(key, st).Tried? ==> Keeps(st, trial(key, st).batch.store)
  }

  /** `st'` still has every file of `st`, unaltered. */
  ghost predicate Keeps(st: Store, st': Store)
  {
    forall p :: p in st.files ==> p in st'.files && st'.files[p] == st.files[p]
  }

  /** No download of the failover alters a file that was in the tree before. */
  lemma {:induction false} TryKeysKeepsFiles(keys: seq<EntryKey>, trial: KeyTrial, st: Store, attempts: seq<(EntryKey, seq<Error>)>)
    requires TrialKeepsFiles(trial)
    ensures Keeps(st, TryKeys(keys, trial, st, attempts).store)
    decreases |keys|
  {
    if |keys| > 0 && trial(keys[0], st).Tried? {
      var b := trial(keys[0], st).batch;
      assert Keeps(st, b.store);
      if b.errors != [] {
        TryKeysKeepsFiles(keys[1..], trial, b.store, attempts + [(keys[0], b.errors)]);
      }
    }
  }

  /** Each key of `download` leaves the files already in the tree as they were. */
  lemma TryKeyKeepsFiles(files: seq<File>, destFolder: Path, env: DownloadEnv, maxWorkers: int)
    ensures TrialKeepsFiles(TryKey(files, destFolder, env, maxWorkers))
  {
    var trial := TryKey(files, destFolder, env, maxWorkers);
    DownloaderSound(destFolder, env);
    forall key, st | trial(key, st).Tried? ensures Keeps(st, trial(key, st).batch.store) {
      DownloadBatchKeepsFiles(SampleEntries(files, key).value, Downloader(destFolder, env), st);
    }
  }

  /**
   * A key of `download` that downloads cleanly gives one path per file, the
   * destination of that file's entry for the key; a key that raises raises
   * `ValueError`.
   */
  lemma TryKeyOutcome(files: seq<File>, destFolder: Path, env: DownloadEnv, maxWorkers: int, key: EntryKey, st: Store)
    ensures var o := TryKey(files, destFolder, env, maxWorkers)(key, st);
            && (o.Raised? ==> o.error == ValueError)
            && (o.Tried? && o.batch.errors == [] ==>
                  SampleEntries(files, key).Ok? && |o.batch.paths| == |files| &&
                  forall i :: 0 <= i < |files| ==> LocalFile(SampleEntries(files, key).value[i], destFolder) == Ok(o.batch.paths[i]))
  {
    var o := TryKey(files, destFolder, env, maxWorkers)(key, st);
    if o.Tried? && o.batch.errors == [] {
      DownloaderSound(destFolder, env);
      DownloadBatchPaths(SampleEntries(files, key).value, Downloader(destFolder, env), destFolder, st);
    }
  }

  /**
   * `download` tries the common keys in order and records each failed one
   * with at least one error.
   */
  lemma DownloadDatasetAttempts(d: Dataset, destFolder: Path, env: DownloadEnv, maxWorkers: int, st: Store)
    ensures var r := DownloadDatasetSpec(d, destFolder, env, maxWorkers, st);
            && |r.attempts| <= |d.entryKeys|
            && (forall i :: 0 <= i < |r.attempts| ==> r.attempts[i].0 == d.entryKeys[i] && |r.attempts[i].1| > 0)
  {
    TryKeysAttemptsFromStart(d.entryKeys, TryKey(d.files, destFolder, env, maxWorkers), st);
  }

  /** From the first key on, the keys tried are a prefix of the keys, each failed one with at least one error. */
  lemma TryKeysAttemptsFromStart(keys: seq<EntryKey>, trial: KeyTrial, st: Store)
    ensures var r := TryKeys(keys, trial, st, []);
            && |r.attempts| <= |keys|
            && (forall i :: 0 <= i < |r.attempts| ==> r.attempts[i].0 == keys[i] && |r.attempts[i].1| > 0)
  {
    var none: seq<(EntryKey, seq<Error>)> := [];
    TryKeysAttempts(keys, trial, st, none);
    var r := TryKeys(keys, trial, st, none);
    forall i | 0 <= i < |r.attempts| ensures r.attempts[i].0 == keys[i] && |r.attempts[i].1| > 0 {
      assert i - |none| == i;
    }
  }

  /** `download` never alters a file that was in the tree before it. */
  lemma DownloadDatasetKeepsFiles(d: Dataset, destFolder: Path, env: DownloadEnv, maxWorkers: int, st: Store)
    ensures var r := DownloadDatasetSpec(d, destFolder, env, maxWorkers, st);
            forall p :: p in st.files ==> p in r.store.files && r.store.files[p] == st.files[p]
  {
    var none: seq<(EntryKey, seq<Error>)> := [];
    TryKeyKeepsFiles(d.files, destFolder, env, maxWorkers);
    TryKeysKeepsFiles(d.entryKeys, TryKey(d.files, destFolder, env, maxWorkers), st, none);
  }

  /**
   * On success `download` returns one path per file, each the destination
   * of that file's entry for the first key whose downloads all succeeded;
   * the only other exceptions are `ValueError` and a `DownloadError` that
   * comes after every key was tried and lists them all.
   */
  lemma DownloadDatasetResult(d: Dataset, destFolder: Path, env: DownloadEnv, maxWorkers: int, st: Store)
    ensures var r := DownloadDatasetSpec(d, destFolder, env, maxWorkers, st);
            && (r.result.Ok? ==>
                  |r.attempts| < |d.entryKeys| && |r.result.value| == |d.files| &&
                  SampleEntries(d.files, d.entryKeys[|r.attempts|]).Ok? &&
                  forall i :: 0 <= i < |d.files| ==>
                    LocalFile(SampleEntries(d.files, d.entryKeys[|r.attempts|]).value[i], destFolder) == Ok(r.result.value[i]))
            && (r.result.Err? ==>
                  r.result == Err(ValueError) ||
                  (|r.attempts| == |d.entryKeys| && r.result == Err(DownloadError(NoConsistentKey(r.attempts)))))
  {
    var none: seq<(EntryKey, seq<Error>)> := [];
    var trial := TryKey(d.files, destFolder, env, maxWorkers);
    var r := TryKeys(d.entryKeys, trial, st, none);
    TryKeysEnd(d.entryKeys, trial, st, none);
    var n := |r.attempts|;
    if r.result.Ok? {
      var s :| trial(d.entryKeys[n], s).Tried? && trial(d.entryKeys[n], s).batch == Batch(r.result.value, [], r.store);
      TryKeyOutcome(d.files, destFolder, env, maxWorkers, d.entryKeys[n], s);
    } else if n < |d.entryKeys| {
      var s :| trial(d.entryKeys[n], s) == Raised(r.result.error);
      TryKeyOutcome(d.files, destFolder, env, maxWorkers, d.entryKeys[n], s);
    }
  }

  /** The worker pool of one key, run one entry after another. */
  method DownloadEntries(entries: seq<Entry>, destFolder: Path, env: DownloadEnv, fs: FileStore)
    returns (localFiles: seq<Path>, errors: seq<Error>)
    requires fs.Valid()
    modifies fs
    ensures fs.Valid()
    ensures Batch(localFiles, errors, fs.State()) == DownloadBatch(entries, Downloader(destFolder, env), old(fs.State()))
  {
    localFiles, errors := [], [];
    var j := 0;
    while j < |entries|
      invariant 0 <= j <= |entries|
      invariant fs.Valid()
      invariant Batch(localFiles, errors, fs.State()) == DownloadBatch(entries[..j], Downloader(destFolder, env), old(fs.State()))
    {
      DownloadBatchStep(entries, j, Downloader(destFolder, env), old(fs.State()));
      var localFile, error := DownloadEntry(entries[j], destFolder, env, fs);
      if error.Some? {
        errors := errors + [error.value];
      }
      if localFile.Some? {
        localFiles := localFiles + [localFile.value];
      }
      j := j + 1;
    }
    assert entries[..j] == entries;
  }

  /** `CMIP6Dataset.download`, trying the common keys in order. */
  method DownloadDataset(d: Dataset, destFolder: Path, env: DownloadEnv, maxWorkers: int, fs: FileStore)
    returns (r: Result<seq<Path>>)
    requires fs.Valid()
    modifies fs
    ensures fs.Valid()
    ensures var spec := DownloadDatasetSpec(d, destFolder, env, maxWorkers, old(fs.State()));
            r == spec.result && fs.State() == spec.store
  {
    ghost var trial := TryKey(d.files, destFolder, env, maxWorkers);
    var attempts: seq<(EntryKey, seq<Error>)> := [];
    var i := 0;
    while i < |d.entryKeys|
      invariant 0 <= i <= |d.entryKeys|
      invariant fs.Valid()
      invariant TryKeys(d.entryKeys, trial, old(fs.State()), []) == TryKeys(d.entryKeys[i..], trial, fs.State(), attempts)
    {
      var key := d.entryKeys[i];
      assert d.entryKeys[i..][1..] == d.entryKeys[i + 1..];
      var entries := SampleEntries(d.files, key);
      if entries.Err? {
        return Err(entries.error);
      }
      if maxWorkers <= 0 {
        return Err(ValueError);
      }
      ghost var before := fs.State();
      var localFiles, errors := DownloadEntries(entries.value, destFolder, env, fs);
      assert trial(key, before) == Tried(Batch(localFiles, errors, fs.State()));
      if errors == [] {
        return Ok(localFiles);
      }
      attempts := attempts + [(key, errors)];
      i := i + 1;
    }
    r := Err(DownloadError(NoConsistentKey(attempts)));
  }
}
