/**
 * `cmip6py/data/file.py`: the replicas of one file (`CMIP6File`), ranked by
 * priority and reduced to one entry per stem and data node.
 */
module Files {
  import opened PyValues
  import opened Errors
  import opened Strings
  import opened Sorting
  import opened Lists
  import opened Constants
  import opened Utils
  import opened Entries

  /** A `CMIP6File`; its fields are set once, by `FileOf`. */
  datatype File = File(
    sourceId: string,
    experimentId: string,
    memberId: string,
    variable: string,
    startDate: DateTime,
    endDate: DateTime,
    name: string,
    entries: seq<Entry>)

  /** `CMIP6File.entry_keys`: the entries' keys, position by position. */
  function EntryKeys(f: File): (keys: seq<EntryKey>)
    ensures |keys| == |f.entries|
    ensures forall i :: 0 <= i < |f.entries| ==> keys[i] == f.entries[i].entryKey
  {
    seq(|f.entries|, i requires 0 <= i < |f.entries| => f.entries[i].entryKey)
  }

  /** `json[f][0]` on a raw hit. */
  function FirstOf(json: map<string, Value>, f: string): (r: Result<Value>)
    ensures r.Ok? ==> f in json && Index0(json[f]) == r
    ensures f !in json ==> r == Err(KeyError(f))
  {
    var v :- Facet(json, f);
    Index0(v)
  }

  /** `json[f][0] + "_"`: the first item, which must be a string for the concatenation. */
  function FirstStr(json: map<string, Value>, f: string): (r: Result<string>)
    ensures r.Ok? <==> FirstOf(json, f).Ok? && FirstOf(json, f).value.Str?
    ensures r.Ok? ==> FirstOf(json, f).value == Str(r.value)
  {
    var v :- FirstOf(json, f);
    AsStr(v)
  }

  /** The part of a file name before its date segment: `source_experiment_member_variable`. */
  function NamePrefix(json: map<string, Value>): (r: Result<string>)
    ensures r.Ok? <==> forall f :: f in ["source_id", "experiment_id", "member_id", "variable"] ==> FirstStr(json, f).Ok?
  {
    var source :- FirstStr(json, "source_id");
    var experiment :- FirstStr(json, "experiment_id");
    var member :- FirstStr(json, "member_id");
    var variable :- FirstStr(json, "variable");
    Ok(source + "_" + experiment + "_" + member + "_" + variable)
  }

  /**
   * `_make_name(result)`: `source_experiment_member_variable_start-end`, the
   * dates read as text from the file name first.
   */
  function MakeName(r: RawResult): (n: Result<string>)
    ensures n.Ok? <==> ExtractEsgfFileDatetimes(r.filename).Ok? && NamePrefix(r.json).Ok?
    ensures n.Ok? ==> var dates := ExtractEsgfFileDatetimes(r.filename).value;
                      n.value == NamePrefix(r.json).value + "_" + dates.0 + "-" + dates.1
    ensures ExtractEsgfFileDatetimes(r.filename).Err? ==> n == Err(ValueError)
  {
    var dates :- ExtractEsgfFileDatetimes(r.filename);
    var prefix :- NamePrefix(r.json);
    Ok(prefix + "_" + dates.0 + "-" + dates.1)
  }

  /**
   * The name's last `_` segment is the `start-end` date text, so cutting it
   * off (`"_".join(name.split("_")[:-1])`) gives back the prefix, whatever
   * underscores the facets hold.
   */
  lemma MakeNameSegments(r: RawResult)
    requires MakeName(r).Ok?
    ensures var dates := ExtractEsgfFileDatetimes(r.filename).value;
            var parts := Split(MakeName(r).value, '_');
            parts[|parts| - 1] == dates.0 + "-" + dates.1 &&
            Join(parts[..|parts| - 1], '_') == NamePrefix(r.json).value
  {
    var dates := ExtractEsgfFileDatetimes(r.filename).value;
    var prefix := NamePrefix(r.json).value;
    var last := dates.0 + ['-'] + dates.1;
    NotInJoined(dates.0, dates.1, '-', '_');
    assert MakeName(r).value == prefix + ['_'] + last;
    DropLastSegment(prefix, last, '_');
  }

  // ------------------------------------------------------------ priority order

  /** A replica's priority: (table_id rank, version rank, grid_label rank). */
  type Rank = (nat, nat, nat)

  /** Python's `<=` on `Rank` tuples. */
  predicate RankLe(a: Rank, b: Rank)
  {
    a.0 < b.0 || (a.0 == b.0 && (a.1 < b.1 || (a.1 == b.1 && a.2 <= b.2)))
  }

  lemma RankLeTotal()
    ensures TotalOrder(RankLe)
  {
  }

  /** `ordering.index(v)`: a value that is not a string in the list raises `ValueError`. */
  function ValueIndex(ordering: seq<string>, v: Value): (r: Result<nat>)
    ensures r.Ok? <==> v.Str? && v.s in ordering
    ensures r.Ok? ==> r.value < |ordering| && ordering[r.value] == v.s
    ensures r.Err? ==> r.error == ValueError || v.Str?
  {
    if v.Str? then IndexOf(ordering, v.s) else Err(ValueError)
  }

  /** `a >= b` on version strings: the newest-first order `sorted(..., reverse=True)` produces. */
  predicate GreaterEq(a: string, b: string)
  {
    LessEq(b, a)
  }

  /** The raw hits whose version parses as `v%Y%m%d`. */
  predicate ValidVersion(r: RawResult)
  {
    ConvertVersionToDatetime(r.version).Ok?
  }

  function VersionsOf(rs: seq<RawResult>): (vs: seq<string>)
    ensures |vs| == |rs| && forall i :: 0 <= i < |rs| ==> vs[i] == rs[i].version
  {
    seq(|rs|, i requires 0 <= i < |rs| => rs[i].version)
  }

  /** One more hit adds its version at the end. */
  lemma VersionsOfSnoc(rs: seq<RawResult>, x: RawResult)
    ensures VersionsOf(rs + [x]) == VersionsOf(rs) + [x.version]
  {
  }

  /** `sorted(versions, reverse=True)`. */
  function NewestFirst(versions: seq<string>): seq<string>
  {
    SortBy(versions, Id, GreaterEq)
  }

  /** `get_sort_key(result)` inside `_convert_to_sorted_entries`. */
  function RankOf(versionsDesc: seq<string>, r: RawResult): (k: Result<Rank>)
    ensures k.Ok? ==> FirstOf(r.json, "table_id").Ok? && FirstOf(r.json, "grid_label").Ok? &&
                      ValueIndex(TableIdOrdering, FirstOf(r.json, "table_id").value) == Ok(k.value.0) &&
                      IndexOf(versionsDesc, r.version) == Ok(k.value.1) &&
                      ValueIndex(GridLabelOrdering, FirstOf(r.json, "grid_label").value) == Ok(k.value.2)
    ensures k.Err? <==> FirstOf(r.json, "table_id").Err? ||
                        ValueIndex(TableIdOrdering, FirstOf(r.json, "table_id").value).Err? ||
                        r.version !in versionsDesc ||
                        FirstOf(r.json, "grid_label").Err? ||
                        ValueIndex(GridLabelOrdering, FirstOf(r.json, "grid_label").value).Err?
  {
    var table :- FirstOf(r.json, "table_id");
    var t :- ValueIndex(TableIdOrdering, table);
    var v :- IndexOf(versionsDesc, r.version);
    var grid :- FirstOf(r.json, "grid_label");
    var g :- ValueIndex(GridLabelOrdering, grid);
    Ok((t, v, g))
  }

  function RanksOf(versionsDesc: seq<string>): RawResult -> Result<Rank>
  {
    r => RankOf(versionsDesc, r)
  }

  /** The key `sorted` uses, once every rank has been computed without error. */
  function PriorityKey(versionsDesc: seq<string>, r: RawResult): Rank
  {
    match RankOf(versionsDesc, r)
    case Ok(k) => k
    case Err(_) => (0, 0, 0)
  }

  function PriorityOf(versionsDesc: seq<string>): RawResult -> Rank
  {
    r => PriorityKey(versionsDesc, r)
  }

  /** `[CMIP6Entry.from_result(result) for result in results]`: the first failing one raises. */
  function NewEntries(rs: seq<RawResult>): (r: Result<seq<Entry>>)
    ensures r.Ok? <==> forall x :: x in rs ==> NewEntry(x).Ok?
    ensures r.Ok? ==> |r.value| == |rs| && forall j :: 0 <= j < |rs| ==> NewEntry(rs[j]) == Ok(r.value[j])
  {
    if |rs| == 0 then Ok([])
    else
      assert forall x :: x in rs <==> x == rs[0] || x in rs[1..];
      var e :- NewEntry(rs[0]);
      var rest :- NewEntries(rs[1..]);
      assert forall j :: 1 <= j < |rs| ==> rs[j] == rs[1..][j - 1];
      Ok([e] + rest)
  }

  function NameOf(e: Entry): string
  {
    e.name
  }

  /** `_remove_duplicate_entries`: sort by name, keep the first of each run of equal names. */
  function DedupByName(entries: seq<Entry>): seq<Entry>
  {
    Heads(GroupRuns(SortBy(entries, NameOf, LessEq), NameOf))
  }

  /**
   * Deduplication keeps one entry per name, in strictly ascending name
   * order, and for each name the one that came first in its input.
   */
  lemma DedupByNameSpec(entries: seq<Entry>)
    ensures var u := DedupByName(entries);
            && (forall i, j :: 0 <= i < j < |u| ==> Less(u[i].name, u[j].name))
            && (forall i :: 0 <= i < |u| ==> FirstWith(entries, NameOf, u[i].name) == Some(u[i]))
            && (forall e :: e in entries ==> exists i :: 0 <= i < |u| && u[i].name == e.name)
  {
    DedupAscends(entries);
    DedupFirsts(entries);
    DedupCovers(entries);
  }

  lemma DedupAscends(entries: seq<Entry>)
    ensures var u := DedupByName(entries);
            forall i, j :: 0 <= i < j < |u| ==> Less(u[i].name, u[j].name)
  {
    var sorted := SortBy(entries, NameOf, LessEq);
    LessEqTotalOrder();
    SortBySorted(entries, NameOf, LessEq);
    GroupRunsHeads(sorted, NameOf, LessEq);
  }

  lemma DedupFirsts(entries: seq<Entry>)
    ensures var u := DedupByName(entries);
            forall i :: 0 <= i < |u| ==> FirstWith(entries, NameOf, u[i].name) == Some(u[i])
  {
    var sorted := SortBy(entries, NameOf, LessEq);
    LessEqTotalOrder();
    SortBySorted(entries, NameOf, LessEq);
    GroupRunsHeads(sorted, NameOf, LessEq);
    var u := DedupByName(entries);
    forall i | 0 <= i < |u| ensures FirstWith(entries, NameOf, u[i].name) == Some(u[i]) {
      SortByFirstWith(entries, NameOf, LessEq, u[i].name);
    }
  }

  lemma DedupCovers(entries: seq<Entry>)
    ensures var u := DedupByName(entries);
            forall e :: e in entries ==> exists i :: 0 <= i < |u| && u[i].name == e.name
  {
    var sorted := SortBy(entries, NameOf, LessEq);
    LessEqTotalOrder();
    SortBySorted(entries, NameOf, LessEq);
    GroupRunsHeads(sorted, NameOf, LessEq);
    var u := DedupByName(entries);
    forall e | e in entries ensures exists i :: 0 <= i < |u| && u[i].name == e.name {
      assert e in multiset(sorted);
      assert NameOf(e) == e.name;
    }
  }

  /**
   * `_convert_to_sorted_entries`: hits with a parseable version, ordered by
   * priority (a newer version ranks first), converted to entries, then
   * deduplicated by name.
   */
  function SortedEntries(results: seq<RawResult>): Result<seq<Entry>>
  {
    var kept := Filter(results, ValidVersion);
    var versionsDesc := NewestFirst(VersionsOf(kept));
    var _ :- FirstFailure(kept, RanksOf(versionsDesc));
    var ordered := SortBy(kept, PriorityOf(versionsDesc), RankLe);
    var entries :- NewEntries(ordered);
    Ok(DedupByName(entries))
  }

  /**
   * `_convert_to_sorted_entries` as written: `CMIP6Entry` has no attribute
   * `from_result`, so once the hits are ranked the comprehension raises
   * `AttributeError` on the first of them.
   */
  function SortedEntriesAsWritten(results: seq<RawResult>): Result<seq<Entry>>
  {
    var kept := Filter(results, ValidVersion);
    var _ :- FirstFailure(kept, RanksOf(NewestFirst(VersionsOf(kept))));
    if |Ordered(results)| == 0 then Ok([]) else Err(AttributeError)
  }

  lemma HeadIsMember<T>(s: seq<T>)
    requires |s| > 0
    ensures s[0] in s
  {
  }

  lemma EmptyWithoutMembers<T>(s: seq<T>)
    requires forall x :: x !in s
    ensures s == []
  {
    if |s| != 0 {
      HeadIsMember(s);
      assert false;
    }
  }

  /** As written, the conversion succeeds only on hits none of which has a parseable version. */
  lemma SortedEntriesAsWrittenRaises(results: seq<RawResult>)
    ensures SortedEntriesAsWritten(results).Ok? <==> forall x :: x in results ==> !ValidVersion(x)
  {
    var kept := Filter(results, ValidVersion);
    if exists x :: x in results && ValidVersion(x) {
      var x :| x in results && ValidVersion(x);
      assert x in Ordered(results);
      assert |Ordered(results)| != 0;
    } else {
      EmptyWithoutMembers(kept);
      EmptyWithoutMembers(Ordered(results));
    }
  }

  /**
   * Wherever the intended conversion `SortedEntries`, which builds each entry
   * with `CMIP6Entry(result)`, succeeds on a hit with a parseable version,
   * the conversion as written raises `AttributeError`.
   */
  lemma SortedEntriesAsWrittenDiffers(results: seq<RawResult>)
    requires exists x :: x in results && ValidVersion(x)
    requires SortedEntries(results).Ok?
    ensures SortedEntriesAsWritten(results) == Err(AttributeError)
  {
    var kept := Filter(results, ValidVersion);
    assert FirstFailure(kept, RanksOf(NewestFirst(VersionsOf(kept)))).Ok?;
    var x :| x in results && ValidVersion(x);
    assert x in Ordered(results);
  }

  lemma GreaterEqTotal()
    ensures TotalPreorder(GreaterEq)
  {
    LessEqTotalOrder();
  }

  /** In the newest-first list, a later string is found before an earlier one. */
  lemma GreaterStringRanksFirst(versions: seq<string>, a: string, b: string)
    requires a in versions && b in versions && Less(a, b)
    ensures a in NewestFirst(versions) && b in NewestFirst(versions)
    ensures IndexOf(NewestFirst(versions), b).value < IndexOf(NewestFirst(versions), a).value
  {
    var vd := NewestFirst(versions);
    GreaterEqTotal();
    SortBySorted(versions, Id, GreaterEq);
    assert a in multiset(vd) && b in multiset(vd);
    assert a in vd && b in vd;
    LessIrreflexive(a);
    LessAsymmetric(a, b);
    SortedIndexOrder(vd, GreaterEq, b, a, IndexOf(vd, b).value, IndexOf(vd, a).value);
  }

  /** Among two parseable versions the newer one gets the smaller rank. */
  lemma NewerVersionRanksFirst(versions: seq<string>, older: string, newer: string)
    requires older in versions && newer in versions
    requires ConvertVersionToDatetime(older).Ok? && ConvertVersionToDatetime(newer).Ok?
    requires DateLess(ConvertVersionToDatetime(older).value, ConvertVersionToDatetime(newer).value)
    ensures older in NewestFirst(versions) && newer in NewestFirst(versions)
    ensures IndexOf(NewestFirst(versions), newer).value < IndexOf(NewestFirst(versions), older).value
  {
    VersionOrderIsChronological(older, newer);
    GreaterStringRanksFirst(versions, older, newer);
  }

  /** The hits `_convert_to_sorted_entries` ranks, in priority order. */
  function Ordered(results: seq<RawResult>): (o: seq<RawResult>)
    ensures forall x :: x in o <==> x in results && ValidVersion(x)
  {
    var kept := Filter(results, ValidVersion);
    var o := SortBy(kept, PriorityOf(NewestFirst(VersionsOf(kept))), RankLe);
    assert forall x :: x in o <==> x in multiset(o);
    o
  }

  lemma SortedEntriesUnfold(results: seq<RawResult>)
    ensures var kept := Filter(results, ValidVersion);
            SortedEntries(results) ==
              if FirstFailure(kept, RanksOf(NewestFirst(VersionsOf(kept)))).Err? then Err(FirstFailure(kept, RanksOf(NewestFirst(VersionsOf(kept)))).error)
              else if NewEntries(Ordered(results)).Err? then Err(NewEntries(Ordered(results)).error)
              else Ok(DedupByName(NewEntries(Ordered(results)).value))
  {
  }

  /**
   * `_convert_to_sorted_entries` fails exactly when a hit with a parseable
   * version has an unknown table_id or grid_label (or lacks one), or cannot
   * become an entry; hits with an unparseable version are ignored.
   */
  lemma SortedEntriesErrors(results: seq<RawResult>)
    ensures var kept := Filter(results, ValidVersion);
            SortedEntries(results).Err? <==>
              (exists x :: x in results && ValidVersion(x) && RankOf(NewestFirst(VersionsOf(kept)), x).Err?) ||
              (exists x :: x in results && ValidVersion(x) && NewEntry(x).Err?)
  {
    SortedEntriesUnfold(results);
  }

  lemma DedupInEntries(entries: seq<Entry>)
    ensures forall e :: e in DedupByName(entries) ==> e in entries
  {
    DedupByNameSpec(entries);
    var u := DedupByName(entries);
    forall e | e in u ensures e in entries {
      var i :| 0 <= i < |u| && u[i] == e;
      assert FirstWith(entries, NameOf, u[i].name) == Some(u[i]);
    }
  }

  lemma NewEntriesResults(rs: seq<RawResult>)
    requires NewEntries(rs).Ok?
    ensures forall e :: e in NewEntries(rs).value ==> e.result in rs
    ensures forall x :: x in rs ==> NewEntry(x).Ok? && NewEntry(x).value in NewEntries(rs).value
  {
    var es := NewEntries(rs).value;
    forall e | e in es ensures e.result in rs {
      var j :| 0 <= j < |es| && es[j] == e;
      assert NewEntry(rs[j]) == Ok(es[j]);
    }
    forall x | x in rs ensures NewEntry(x).Ok? && NewEntry(x).value in es {
      var j :| 0 <= j < |rs| && rs[j] == x;
      assert NewEntry(rs[j]) == Ok(es[j]);
    }
  }

  /** The priority of an entry: that of the hit it was built from. */
  function EntryPriority(versionsDesc: seq<string>): Entry -> Rank
  {
    (e: Entry) => PriorityKey(versionsDesc, e.result)
  }

  lemma EntriesKeepPriorityOrder(ordered: seq<RawResult>, versionsDesc: seq<string>)
    requires SortedBy(ordered, PriorityOf(versionsDesc), RankLe)
    requires NewEntries(ordered).Ok?
    ensures SortedBy(NewEntries(ordered).value, EntryPriority(versionsDesc), RankLe)
  {
    var es := NewEntries(ordered).value;
    forall j | 0 <= j < |es| ensures EntryPriority(versionsDesc)(es[j]) == PriorityOf(versionsDesc)(ordered[j]) {
      assert NewEntry(ordered[j]) == Ok(es[j]);
    }
  }

  /** Every entry `_convert_to_sorted_entries` returns was built from a hit with a parseable version. */
  lemma SortedEntriesFrom(results: seq<RawResult>)
    requires SortedEntries(results).Ok?
    ensures var u := SortedEntries(results).value;
            forall i :: 0 <= i < |u| ==> u[i].result in results && ValidVersion(u[i].result)
  {
    SortedEntriesUnfold(results);
    var entries := NewEntries(Ordered(results)).value;
    var u := DedupByName(entries);
    assert SortedEntries(results).value == u;
    DedupInEntries(entries);
    NewEntriesResults(Ordered(results));
    forall i | 0 <= i < |u| ensures u[i].result in results && ValidVersion(u[i].result) {
      assert u[i] in entries;
      assert u[i].result in Ordered(results);
    }
  }

  /**
   * The names `_convert_to_sorted_entries` returns strictly ascend, and the
   * name of every hit with a parseable version is among them.
   */
  lemma SortedEntriesNames(results: seq<RawResult>)
    requires SortedEntries(results).Ok?
    ensures forall x :: x in results && ValidVersion(x) ==> NewEntry(x).Ok?
    ensures var u := SortedEntries(results).value;
            && (forall i, j :: 0 <= i < j < |u| ==> Less(u[i].name, u[j].name))
            && (forall x :: x in results && ValidVersion(x) ==> exists i :: 0 <= i < |u| && u[i].name == NewEntry(x).value.name)
  {
    SortedEntriesUnfold(results);
    var entries := NewEntries(Ordered(results)).value;
    DedupByNameSpec(entries);
    NewEntriesResults(Ordered(results));
  }

  /** Deduplicating a sequence sorted by some priority keeps, for each name, a least one. */
  lemma DedupKeepsLeast(entries: seq<Entry>, priority: Entry -> Rank)
    requires SortedBy(entries, priority, RankLe)
    ensures var u := DedupByName(entries);
            forall i, e :: 0 <= i < |u| && e in entries && e.name == u[i].name ==> RankLe(priority(u[i]), priority(e))
  {
    var u := DedupByName(entries);
    DedupByNameSpec(entries);
    forall i, e | 0 <= i < |u| && e in entries && e.name == u[i].name
      ensures RankLe(priority(u[i]), priority(e))
    {
      FirstWithIsLeast(entries, NameOf, u[i].name, priority, RankLe);
      var j :| 0 <= j < |entries| && entries[j] == e;
      assert NameOf(entries[j]) == u[i].name;
    }
  }

  /**
   * Stable deduplication over the priority order: for each name, no replica
   * of that name has a smaller (table_id, version, grid_label) rank than the
   * one kept.
   */
  lemma SortedEntriesPriority(results: seq<RawResult>)
    requires SortedEntries(results).Ok?
    ensures forall x :: x in results && ValidVersion(x) ==> NewEntry(x).Ok?
    ensures var u := SortedEntries(results).value;
            var vd := NewestFirst(VersionsOf(Filter(results, ValidVersion)));
            forall i, x :: 0 <= i < |u| && x in results && ValidVersion(x) && NewEntry(x).value.name == u[i].name ==>
              RankLe(PriorityKey(vd, u[i].result), PriorityKey(vd, x))
  {
    SortedEntriesUnfold(results);
    var kept := Filter(results, ValidVersion);
    var vd := NewestFirst(VersionsOf(kept));
    var entries := NewEntries(Ordered(results)).value;
    NewEntriesResults(Ordered(results));
    RankLeTotal();
    SortBySorted(kept, PriorityOf(vd), RankLe);
    EntriesKeepPriorityOrder(Ordered(results), vd);
    DedupKeepsLeast(entries, EntryPriority(vd));
    var u := DedupByName(entries);
    forall i, x | 0 <= i < |u| && x in results && ValidVersion(x) && NewEntry(x).value.name == u[i].name
      ensures RankLe(PriorityKey(vd, u[i].result), PriorityKey(vd, x))
    {
      var e := NewEntry(x).value;
      assert e in entries && e.result == x;
      assert RankLe(EntryPriority(vd)(u[i]), EntryPriority(vd)(e));
      assert EntryPriority(vd)(u[i]) == PriorityKey(vd, u[i].result);
      assert EntryPriority(vd)(e) == PriorityKey(vd, x);
    }
  }

  /** `_remove_duplicate_entries`, with its append loop over the runs. */
  method RemoveDuplicateEntries(entries: seq<Entry>) returns (unique: seq<Entry>)
    ensures unique == DedupByName(entries)
    ensures forall i, j :: 0 <= i < j < |unique| ==> Less(unique[i].name, unique[j].name)
    ensures forall i :: 0 <= i < |unique| ==> FirstWith(entries, NameOf, unique[i].name) == Some(unique[i])
  {
    var runs := GroupRuns(SortBy(entries, NameOf, LessEq), NameOf);
    unique := [];
    var i := 0;
    while i < |runs|
      invariant 0 <= i <= |runs|
      invariant unique == Heads(runs[..i])
    {
      unique := unique + [runs[i][0]];
      i := i + 1;
    }
    assert runs[..i] == runs;
    DedupByNameSpec(entries);
  }

  /** The gathering loop of `_convert_to_sorted_entries`: hits with a parseable version, and their versions. */
  method KeepValidVersions(results: seq<RawResult>) returns (kept: seq<RawResult>, versions: seq<string>)
    ensures kept == Filter(results, ValidVersion)
    ensures versions == VersionsOf(kept)
  {
    versions, kept := [], [];
    var i := 0;
    while i < |results|
      invariant 0 <= i <= |results|
      invariant kept == Filter(results[..i], ValidVersion)
      invariant versions == VersionsOf(kept)
    {
      FilterAppend(results[..i], results[i], ValidVersion);
      assert results[..i + 1] == results[..i] + [results[i]];
      if ValidVersion(results[i]) {
        VersionsOfSnoc(kept, results[i]);
        versions := versions + [results[i].version];
        kept := kept + [results[i]];
      }
      i := i + 1;
    }
    assert results[..i] == results;
  }

  /** `_convert_to_sorted_entries`. */
  method ConvertToSortedEntries(results: seq<RawResult>) returns (r: Result<seq<Entry>>)
    ensures r == SortedEntries(results)
  {
    var kept, versions := KeepValidVersions(results);
    var versionsDesc := NewestFirst(versions);
    var checked := FirstFailure(kept, RanksOf(versionsDesc));
    if checked.Err? {
      return Err(checked.error);
    }
    var ordered := SortBy(kept, PriorityOf(versionsDesc), RankLe);
    var entries := NewEntries(ordered);
    if entries.Err? {
      return Err(entries.error);
    }
    var unique := RemoveDuplicateEntries(entries.value);
    r := Ok(unique);
  }

  // ------------------------------------------------------------ construction

  /**
   * `CMIP6File(results)`: the identifying facets and dates of the first hit,
   * then the ranked, deduplicated entries of all of them. An empty list
   * raises `IndexError`.
   */
  function FileOf(results: seq<RawResult>): (r: Result<File>)
    ensures |results| == 0 ==> r == Err(IndexError)
    ensures r.Ok? ==> |results| > 0 && MakeName(results[0]) == Ok(r.value.name)
    ensures r.Ok? ==> SortedEntries(results) == Ok(r.value.entries)
    ensures r.Ok? ==> ExtractEsgfFileDatetimes(results[0].filename) ==
                      Ok((FormatDate(r.value.startDate), FormatDate(r.value.endDate)))
    ensures r.Ok? ==> FirstStr(results[0].json, "source_id") == Ok(r.value.sourceId) &&
                      FirstStr(results[0].json, "experiment_id") == Ok(r.value.experimentId) &&
                      FirstStr(results[0].json, "member_id") == Ok(r.value.memberId) &&
                      FirstStr(results[0].json, "variable") == Ok(r.value.variable)
  {
    if |results| == 0 then Err(IndexError)
    else
      var json := results[0].json;
      var source :- FirstOf(json, "source_id");
      var experiment :- FirstOf(json, "experiment_id");
      var member :- FirstOf(json, "member_id");
      var variable :- FirstOf(json, "variable");
      var dates :- ExtractEsgfFileDates(results[0].filename);
      var name :- MakeName(results[0]);
      assert FirstStr(json, "source_id").Ok? && FirstStr(json, "experiment_id").Ok?;
      assert FirstStr(json, "member_id").Ok? && FirstStr(json, "variable").Ok?;
      var entries :- SortedEntries(results);
      Ok(File(source.s, experiment.s, member.s, variable.s, dates.0, dates.1, name, entries))
  }

  /** A file's name spells out its facets and its dates. */
  lemma FileNameSpellsFields(results: seq<RawResult>)
    requires FileOf(results).Ok?
    ensures var f := FileOf(results).value;
            f.name == f.sourceId + "_" + f.experimentId + "_" + f.memberId + "_" + f.variable + "_" +
                      FormatDate(f.startDate) + "-" + FormatDate(f.endDate)
  {
  }

  /** `CMIP6File.__init__`, with its entry conversion loop. */
  method NewFile(results: seq<RawResult>) returns (r: Result<File>)
    ensures r == FileOf(results)
  {
    if |results| == 0 {
      return Err(IndexError);
    }
    var json := results[0].json;
    var source := FirstOf(json, "source_id");
    if source.Err? { return Err(source.error); }
    var experiment := FirstOf(json, "experiment_id");
    if experiment.Err? { return Err(experiment.error); }
    var member := FirstOf(json, "member_id");
    if member.Err? { return Err(member.error); }
    var variable := FirstOf(json, "variable");
    if variable.Err? { return Err(variable.error); }
    var dates := ExtractEsgfFileDates(results[0].filename);
    if dates.Err? { return Err(dates.error); }
    var name := MakeName(results[0]);
    if name.Err? { return Err(name.error); }
    var entries := ConvertToSortedEntries(results);
    if entries.Err? { return Err(entries.error); }
    r := Ok(File(source.value.s, experiment.value.s, member.value.s, variable.value.s,
                 dates.value.0, dates.value.1, name.value, entries.value));
  }

  // ------------------------------------------------------------ from_results

  function MakeNames(): RawResult -> Result<string>
  {
    r => MakeName(r)
  }

  /** The key `from_results` sorts and groups by, once every name has been computed. */
  function FileNameKey(r: RawResult): string
  {
    match MakeName(r)
    case Ok(n) => n
    case Err(_) => ""
  }

  /** The hits of each file: runs of equal names after sorting by name. */
  function FileGroups(results: seq<RawResult>): seq<seq<RawResult>>
  {
    GroupRuns(SortBy(results, FileNameKey, LessEq), FileNameKey)
  }

  /** `cls` as a function value, for `[cls(group) for group in groups]`. */
  function FileBuilder(): seq<RawResult> -> Result<File>
  {
    rs => FileOf(rs)
  }

  /** `CMIP6File.from_results`. */
  function FromResultsSpec(results: seq<RawResult>): Result<seq<File>>
  {
    var _ :- FirstFailure(results, MakeNames());
    MapResult(FileGroups(results), FileBuilder())
  }

  /**
   * `from_results` partitions the hits by name: the groups together hold
   * every hit once, every hit of a group has the name of the group's file,
   * and the file names strictly ascend.
   */
  lemma FromResultsPartition(results: seq<RawResult>)
    requires FromResultsSpec(results).Ok?
    ensures var fs := FromResultsSpec(results).value;
            var gs := FileGroups(results);
            && |fs| == |gs|
            && multiset(Flatten(gs)) == multiset(results)
            && (forall i :: 0 <= i < |gs| ==> FileBuilder()(gs[i]) == Ok(fs[i]))
            && (forall i, x :: 0 <= i < |gs| && x in gs[i] ==> MakeName(x) == Ok(fs[i].name))
            && (forall i, j :: 0 <= i < j < |fs| ==> Less(fs[i].name, fs[j].name))
  {
    FromResultsGroups(results);
    FromResultsNames(results);
  }

  lemma FromResultsGroups(results: seq<RawResult>)
    requires FromResultsSpec(results).Ok?
    ensures var fs := FromResultsSpec(results).value;
            var gs := FileGroups(results);
            && |fs| == |gs|
            && multiset(Flatten(gs)) == multiset(results)
            && (forall i :: 0 <= i < |gs| ==> FileBuilder()(gs[i]) == Ok(fs[i]))
  {
    LessEqTotalOrder();
    SortedGroups(results, FileNameKey, LessEq);
  }

  lemma FromResultsNames(results: seq<RawResult>)
    requires FromResultsSpec(results).Ok?
    ensures var fs := FromResultsSpec(results).value;
            var gs := FileGroups(results);
            && |fs| == |gs|
            && (forall i, x :: 0 <= i < |gs| && x in gs[i] ==> MakeName(x) == Ok(fs[i].name))
            && (forall i, j :: 0 <= i < j < |fs| ==> Less(fs[i].name, fs[j].name))
  {
    var gs := FileGroups(results);
    var fs := FromResultsSpec(results).value;
    LessEqTotalOrder();
    SortedGroups(results, FileNameKey, LessEq);
    FromResultsNameable(results);
    GroupsNamed(results, gs, fs);
  }

  lemma FromResultsNameable(results: seq<RawResult>)
    requires FromResultsSpec(results).Ok?
    ensures forall x :: x in results ==> MakeName(x).Ok?
  {
    assert FirstFailure(results, MakeNames()).Ok?;
    forall x | x in results ensures MakeName(x).Ok? {
      var i :| 0 <= i < |results| && results[i] == x;
      assert MakeNames()(results[i]).Ok?;
    }
  }

  /** Every hit of a group spells its file's name, and the names of distinct groups ascend. */
  lemma GroupsNamed(results: seq<RawResult>, gs: seq<seq<RawResult>>, fs: seq<File>)
    requires forall x :: x in results ==> MakeName(x).Ok?
    requires |fs| == |gs| && forall i :: 0 <= i < |gs| ==> FileBuilder()(gs[i]) == Ok(fs[i])
    requires forall i :: 0 <= i < |gs| ==> |gs[i]| > 0
    requires forall i, x :: 0 <= i < |gs| && x in gs[i] ==> x in results && FileNameKey(x) == FileNameKey(gs[i][0])
    requires forall i, j :: 0 <= i < j < |gs| ==>
               LessEq(FileNameKey(gs[i][0]), FileNameKey(gs[j][0])) && FileNameKey(gs[i][0]) != FileNameKey(gs[j][0])
    ensures forall i, x :: 0 <= i < |gs| && x in gs[i] ==> MakeName(x) == Ok(fs[i].name)
    ensures forall i, j :: 0 <= i < j < |fs| ==> Less(fs[i].name, fs[j].name)
  {
    forall i | 0 <= i < |gs| ensures FileNameKey(gs[i][0]) == fs[i].name {
      assert FileOf(gs[i]) == Ok(fs[i]);
    }
  }

  /** The loop of `from_results`: one `CMIP6File` per group, in group order. */
  method BuildFiles(groups: seq<seq<RawResult>>) returns (r: Result<seq<File>>)
    ensures r == MapResult(groups, FileBuilder())
  {
    var files: seq<File> := [];
    var i := 0;
    while i < |groups|
      invariant 0 <= i <= |groups|
      invariant MapResult(groups[..i], FileBuilder()) == Ok(files)
    {
      var f := NewFile(groups[i]);
      assert FileBuilder()(groups[i]) == f;
      MapResultStep(groups, i, FileBuilder(), files);
      if f.Err? {
        return Err(f.error);
      }
      files := files + [f.value];
      i := i + 1;
    }
    assert groups[..i] == groups;
    r := Ok(files);
  }

  /** `CMIP6File.from_results`. */
  method FromResults(results: seq<RawResult>) returns (r: Result<seq<File>>)
    ensures r == FromResultsSpec(results)
  {
    var checked := FirstFailure(results, MakeNames());
    if checked.Err? {
      return Err(checked.error);
    }
    r := BuildFiles(FileGroups(results));
  }

  // ------------------------------------------------------------ node filter

  /** The hits of the entries on a running node, in entry order. */
  function RunningResults(entries: seq<Entry>, nodesStatus: map<string, bool>): (r: Result<seq<RawResult>>)
    ensures r.Ok? <==> forall e :: e in entries ==> Hashable(e.dataNode)
    ensures r.Err? ==> r.error == TypeError
    ensures r.Ok? ==> |r.value| <= |entries|
    ensures r.Ok? ==> forall x :: x in r.value <==> exists e :: e in entries && e.result == x && IsOnRunningNode(e, nodesStatus) == Ok(true)
  {
    if |entries| == 0 then Ok([])
    else
      var init := entries[..|entries| - 1];
      var last := entries[|entries| - 1];
      assert forall e :: e in entries <==> e in init || e == last;
      var rest :- RunningResults(init, nodesStatus);
      var on :- IsOnRunningNode(last, nodesStatus);
      Ok(rest + (if on then [last.result] else []))
  }

  /** `_filter_running_nodes`: `None` when no entry remains, else a file rebuilt from the kept hits. */
  function FilterRunningNodesSpec(f: File, nodesStatus: map<string, bool>): Result<Option<File>>
  {
    var kept :- RunningResults(f.entries, nodesStatus);
    if |kept| == 0 then Ok(None)
    else
      var nf :- FileOf(kept);
      Ok(Some(nf))
  }

  /**
   * Filtering gives `None` exactly when no entry is on a running node, and
   * otherwise the file of exactly the running entries' hits.
   */
  lemma FilterRunningNodesOutcome(f: File, nodesStatus: map<string, bool>)
    requires forall e :: e in f.entries ==> Hashable(e.dataNode)
    ensures FilterRunningNodesSpec(f, nodesStatus) == Ok(None) <==>
            forall e :: e in f.entries ==> IsOnRunningNode(e, nodesStatus) == Ok(false)
    ensures var kept := RunningResults(f.entries, nodesStatus).value;
            FilterRunningNodesSpec(f, nodesStatus).Ok? && FilterRunningNodesSpec(f, nodesStatus).value.Some? ==>
              FileOf(kept) == Ok(FilterRunningNodesSpec(f, nodesStatus).value.value) &&
              forall x :: x in kept <==> exists e :: e in f.entries && e.result == x && IsOnRunningNode(e, nodesStatus) == Ok(true)
  {
    var kept := RunningResults(f.entries, nodesStatus).value;
    if |kept| > 0 {
      assert kept[0] in kept;
    } else {
      forall e | e in f.entries ensures IsOnRunningNode(e, nodesStatus) == Ok(false) {
        assert e.result !in kept;
      }
    }
  }

  /** `CMIP6File._filter_running_nodes`, with its loop over the entries. */
  method FilterRunningNodes(f: File, nodesStatus: map<string, bool>) returns (r: Result<Option<File>>)
    ensures r == FilterRunningNodesSpec(f, nodesStatus)
  {
    var kept: seq<RawResult> := [];
    var i := 0;
    while i < |f.entries|
      invariant 0 <= i <= |f.entries|
      invariant RunningResults(f.entries[..i], nodesStatus) == Ok(kept)
    {
      var on := IsOnRunningNode(f.entries[i], nodesStatus);
      if on.Err? {
        RunningResultsPrefixError(f.entries, i, nodesStatus);
        return Err(on.error);
      }
      RunningResultsStep(f.entries, i, nodesStatus);
      if on.value {
        kept := kept + [f.entries[i].result];
      }
      i := i + 1;
    }
    assert f.entries[..i] == f.entries;
    if |kept| == 0 {
      return Ok(None);
    }
    var nf := NewFile(kept);
    if nf.Err? {
      return Err(nf.error);
    }
    r := Ok(Some(nf.value));
  }

  /** The loop's step: one more entry extends the kept hits by its own hit, if it is on a running node. */
  lemma RunningResultsStep(entries: seq<Entry>, i: nat, nodesStatus: map<string, bool>)
    requires i < |entries| && RunningResults(entries[..i], nodesStatus).Ok?
    requires IsOnRunningNode(entries[i], nodesStatus).Ok?
    ensures IsOnRunningNode(entries[i], nodesStatus).value ==>
              RunningResults(entries[..i + 1], nodesStatus) ==
              Ok(RunningResults(entries[..i], nodesStatus).value + [entries[i].result])
    ensures !IsOnRunningNode(entries[i], nodesStatus).value ==>
              RunningResults(entries[..i + 1], nodesStatus) == RunningResults(entries[..i], nodesStatus)
  {
    var p := entries[..i + 1];
    assert p[..|p| - 1] == entries[..i];
    assert p[|p| - 1] == entries[i];
    var rest := RunningResults(entries[..i], nodesStatus).value;
    assert rest + [] == rest;
  }

  /** An entry whose data node cannot be looked up makes the whole filter raise. */
  lemma RunningResultsPrefixError(entries: seq<Entry>, i: nat, nodesStatus: map<string, bool>)
    requires i < |entries| && IsOnRunningNode(entries[i], nodesStatus).Err?
    ensures RunningResults(entries, nodesStatus) == Err(TypeError)
  {
    assert entries[i] in entries;
  }

  /**
   * `CMIP6File.sample_entry_key`: the first entry with the key; a key no
   * entry has raises `ValueError`.
   */
  function SampleEntryKey(f: File, key: EntryKey): (r: Result<Entry>)
    ensures r.Ok? <==> key in EntryKeys(f)
    ensures r.Ok? ==> exists i :: 0 <= i < |f.entries| && f.entries[i] == r.value && r.value.entryKey == key &&
                                  forall j :: 0 <= j < i ==> f.entries[j].entryKey != key
    ensures r.Err? ==> r.error == ValueError
  {
    var i :- IndexOf(EntryKeys(f), key);
    Ok(f.entries[i])
  }
}
