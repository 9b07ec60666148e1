/**
 * `cmip6py/data/entry.py`: one replica of one file version on one data node
 * (`CMIP6Entry`), and its download over an abstract file store.
 */
module Entries {
  import opened PyValues
  import opened Errors
  import opened Strings
  import opened Utils
  import opened Constants
  import opened Lists

  /**
   * A raw search hit, stripped to plain data on ingestion (the search session
   * object it carried is dropped). `version` is what `get_version` returns for
   * the record.
   */
  datatype RawResult = RawResult(
    json: map<string, Value>,
    filename: string,
    version: string,
    checksumType: Option<string>,
    checksum: Option<string>,
    downloadUrl: string,
    size: int)

  /** A replica: the fields `CMIP6Entry.__init__` sets, never changed afterwards. */
  datatype Entry = Entry(
    result: RawResult,
    facets: map<string, Value>,
    dataNode: Value,
    checksum: (Option<string>, Option<string>),
    url: string,
    size: int,
    entryKey: EntryKey,
    name: string,
    filename: string)

  /** One facet value as `format_facets` stores it: the first item of a non-string iterable, else the value. */
  function FormatValue(v: Value): (r: Result<Value>)
    ensures !IsIterableButNotString(v) ==> r == Ok(v)
    ensures (v.List? || v.Tuple?) && |v.items| > 0 ==> r == Ok(v.items[0])
    ensures r.Err? <==> v.SetOf? || ((v.List? || v.Tuple?) && |v.items| == 0)
  {
    if IsIterableButNotString(v) then Index0(v) else Ok(v)
  }

  /**
   * `format_facets`: every facet formatted by `FormatValue`, then `version`
   * overridden by the record's version. A set raises `TypeError` and an empty
   * list or tuple `IndexError`.
   */
  function FormatFacets(result: RawResult): (r: Result<map<string, Value>>)
    ensures r.Ok? <==> forall f :: f in result.json ==> FormatValue(result.json[f]).Ok?
    ensures r.Ok? ==> r.value.Keys == result.json.Keys + {"version"}
    ensures r.Ok? ==> r.value["version"] == Str(result.version)
    ensures r.Ok? ==> forall f :: f in result.json && f != "version" ==>
                         r.value[f] == FormatValue(result.json[f]).value
  {
    if forall f :: f in result.json ==> FormatValue(result.json[f]).Ok? then
      Ok((map f | f in result.json :: FormatValue(result.json[f]).value)["version" := Str(result.version)])
    else
      Err(if exists f :: f in result.json && result.json[f].SetOf? then TypeError else IndexError)
  }

  /** A facet of the formatted facets, `KeyError` when absent. */
  function Facet(facets: map<string, Value>, f: string): (r: Result<Value>)
    ensures r.Ok? <==> f in facets
    ensures r.Ok? ==> r.value == facets[f]
    ensures r.Err? ==> r.error == KeyError(f)
  {
    if f in facets then Ok(facets[f]) else Err(KeyError(f))
  }

  /**
   * `CMIP6Entry(result)`: formats the facets, reads `data_node`, the entry key
   * `(table_id, version, grid_label)` and the name `<file stem>|<data node>`.
   */
  function NewEntry(result: RawResult): (r: Result<Entry>)
    ensures r.Ok? ==> r.value.result == result
  {
    var facets :- FormatFacets(result);
    var dataNode :- Facet(facets, "data_node");
    var tableId :- Facet(facets, "table_id");
    var gridLabel :- Facet(facets, "grid_label");
    var stem := Stem(result.filename);
    Ok(Entry(result, facets, dataNode, (result.checksumType, result.checksum), result.downloadUrl, result.size,
             (tableId, result.version, gridLabel), stem + "|" + StrOf(dataNode), stem))
  }

  /**
   * The fields of a new entry: the formatted facets, `data_node`, the entry
   * key `(table_id, version, grid_label)` from the formatted facets, and the
   * name `<stem>|<data node>`; a missing `data_node`, `table_id` or
   * `grid_label` raises `KeyError`.
   */
  lemma NewEntryFields(result: RawResult)
    ensures var r := NewEntry(result);
            && (r.Ok? ==> FormatFacets(result).Ok? && r.value.facets == FormatFacets(result).value)
            && (r.Ok? ==> "data_node" in r.value.facets && "table_id" in r.value.facets && "grid_label" in r.value.facets &&
                          r.value.dataNode == r.value.facets["data_node"] &&
                          r.value.entryKey == (r.value.facets["table_id"], r.value.facets["version"].s, r.value.facets["grid_label"]) &&
                          r.value.entryKey.1 == result.version)
            && (r.Ok? ==> r.value.filename == Stem(result.filename) &&
                          r.value.name == Stem(result.filename) + "|" + StrOf(r.value.dataNode))
            && (r.Ok? ==> r.value.checksum == (result.checksumType, result.checksum) && r.value.url == result.downloadUrl)
            && (FormatFacets(result).Err? ==> r == Err(FormatFacets(result).error))
            && (FormatFacets(result).Ok? ==>
                  (r.Ok? <==> forall f :: f in ["data_node", "table_id", "grid_label"] ==> f in FormatFacets(result).value))
            && (FormatFacets(result).Ok? && "data_node" !in FormatFacets(result).value ==> r == Err(KeyError("data_node")))
  {
  }

  /** An entry's name splits back into the file stem and the data node when neither holds a `|`. */
  lemma EntryNameParts(result: RawResult)
    requires NewEntry(result).Ok?
    requires '|' !in Stem(result.filename) && '|' !in StrOf(NewEntry(result).value.dataNode)
    ensures Split(NewEntry(result).value.name, '|') == [Stem(result.filename), StrOf(NewEntry(result).value.dataNode)]
  {
    var e := NewEntry(result).value;
    SplitJoin([Stem(result.filename), StrOf(e.dataNode)], '|');
  }

  // ---------------------------------------------------------------- node status

  /** Python's `hash(v)` succeeds: lists and sets are unhashable, tuples when an item is. */
  predicate Hashable(v: Value)
  {
    match v
    case List(_) => false
    case SetOf(_) => false
    case Tuple(items) => forall x :: x in items ==> Hashable(x)
    case _ => true
  }

  /**
   * `is_on_running_node` against a node-status map: the flag the map gives the
   * entry's data node, `False` for a node it does not list.
   */
  function IsOnRunningNode(e: Entry, nodesStatus: map<string, bool>): (r: Result<bool>)
    ensures r.Err? <==> !Hashable(e.dataNode)
    ensures r.Err? ==> r.error == TypeError
    ensures r == Ok(true) <==> e.dataNode.Str? && e.dataNode.s in nodesStatus && nodesStatus[e.dataNode.s]
    ensures e.dataNode.Str? && e.dataNode.s !in nodesStatus ==> r == Ok(false)
  {
    if !Hashable(e.dataNode) then Err(TypeError)
    else if e.dataNode.Str? && e.dataNode.s in nodesStatus then Ok(nodesStatus[e.dataNode.s])
    else Ok(false)
  }

  // ---------------------------------------------------------------- local layout

  type Path = seq<string>

  /**
   * `[self.facets[facet] for facet in names]`: the named facets in order;
   * the first missing one raises `KeyError`.
   */
  function FacetValues(facets: map<string, Value>, names: seq<string>): (r: Result<seq<Value>>)
    ensures r.Ok? <==> forall i :: 0 <= i < |names| ==> names[i] in facets
    ensures r.Ok? ==> |r.value| == |names| && forall i :: 0 <= i < |names| ==> r.value[i] == facets[names[i]]
    ensures r.Err? ==> exists i :: 0 <= i < |names| && names[i] !in facets && r.error == KeyError(names[i]) &&
                                   forall j :: 0 <= j < i ==> names[j] in facets
  {
    if |names| == 0 then Ok([])
    else
      var v :- Facet(facets, names[0]);
      var rest := FacetValues(facets, names[1..]);
      assert forall i :: 0 < i < |names| ==> names[i] == names[1..][i - 1];
      if rest.Err? then
        var i :| 0 <= i < |names[1..]| && names[1..][i] !in facets && rest.error == KeyError(names[1..][i]) &&
                 forall j :: 0 <= j < i ==> names[1..][j] in facets;
        assert names[i + 1] == names[1..][i];
        Err(rest.error)
      else
        Ok([v] + rest.value)
  }

  /**
   * The directory components `Path(*values)` takes: every named facet is
   * looked up first, so a missing facet raises `KeyError` before any value
   * is checked; then each value must be a string (`TypeError` otherwise).
   */
  function FacetDirs(facets: map<string, Value>, names: seq<string>): (r: Result<Path>)
    ensures r.Ok? ==> |r.value| == |names| &&
                      forall i :: 0 <= i < |names| ==> names[i] in facets && facets[names[i]] == Str(r.value[i])
    ensures r.Ok? <==> forall i :: 0 <= i < |names| ==> names[i] in facets && facets[names[i]].Str?
    ensures (forall i :: 0 <= i < |names| ==> names[i] in facets) ==> r.Ok? || r.error == TypeError
    ensures (exists i :: 0 <= i < |names| && names[i] !in facets) ==>
              exists i :: 0 <= i < |names| && names[i] !in facets && r == Err(KeyError(names[i])) &&
                          forall j :: 0 <= j < i ==> names[j] in facets
  {
    var values :- FacetValues(facets, names);
    MapResult(values, AsStr)
  }

  /**
   * `_get_relative_path`: the `RELATIVE_PATH_FACETS` values, then the file
   * stem with its suffix replaced by `.nc`.
   */
  function RelativePath(e: Entry): (r: Result<Path>)
    ensures r.Ok? ==> |r.value| == |RelativePathFacets| + 1
    ensures r.Ok? ==> forall i :: 0 <= i < |RelativePathFacets| ==>
                         RelativePathFacets[i] in e.facets && e.facets[RelativePathFacets[i]] == Str(r.value[i])
    ensures r.Ok? ==> r.value[|RelativePathFacets|] == Stem(e.filename) + ".nc"
    ensures r.Ok? <==> e.filename != "" && FacetDirs(e.facets, RelativePathFacets).Ok?
  {
    var dirs :- FacetDirs(e.facets, RelativePathFacets);
    var leaf :- WithSuffix(e.filename, ".nc");
    Ok(dirs + [leaf])
  }

  /**
   * For an ESGF file name `<prefix>_<start>-<stop>.nc` whose prefix has no
   * dot, the stored file keeps the published file name.
   */
  lemma LocalLeafIsPublishedName(e: Entry, prefix: string, start: DateTime, stop: DateTime)
    requires RelativePath(e).Ok?
    requires '.' !in prefix
    requires e.filename == Stem(EsgfFileName(prefix, start, stop))
    ensures RelativePath(e).value[|RelativePathFacets|] == EsgfFileName(prefix, start, stop)
  {
    var base := prefix + "_" + FormatDate(start) + "-" + FormatDate(stop);
    assert EsgfFileName(prefix, start, stop) == base + ".nc";
    NoDigitsIn(FormatDate(start), '.');
    NoDigitsIn(FormatDate(stop), '.');
    assert '.' !in base;
    StripNc(base);
    var name := base + ".nc";
    assert RFind(name, '.') == |base|;
    assert name[..|base|] == base;
    assert Stem(name) == base;
    assert RFind(base, '.') == -1;
  }

  // ---------------------------------------------------------------- download

  /** A snapshot of the file store. */
  datatype Store = Store(files: map<Path, seq<bv8>>, temp: map<(nat, Path), seq<bv8>>, nextTempDir: nat)

  /** The local file system: the destination tree, and files in private temporary directories. */
  class FileStore {
    var files: map<Path, seq<bv8>>
    var temp: map<(nat, Path), seq<bv8>>
    var nextTempDir: nat

    /** Every temporary file lies in a directory handed out before. */
    ghost predicate Valid()
      reads this
    {
      forall k :: k in temp ==> k.0 < nextTempDir
    }

    function State(): Store
      reads this
    {
      Store(files, temp, nextTempDir)
    }

    constructor (existing: map<Path, seq<bv8>>)
      ensures Valid() && files == existing && temp == map[] && nextTempDir == 0
    {
      files, temp, nextTempDir := existing, map[], 0;
    }

    /** `TemporaryDirectory().name`: a directory no one has used. */
    method NewTempDir() returns (d: nat)
      requires Valid()
      modifies this
      ensures Valid() && d == old(nextTempDir) && nextTempDir == d + 1
      ensures files == old(files) && temp == old(temp)
      ensures forall k :: k in temp ==> k.0 != d
    {
      d := nextTempDir;
      nextTempDir := nextTempDir + 1;
    }

    /**
     * Opens the temporary file `tmp` for writing and writes the chunks in
     * order, updating the hash with each when `hashing`.
     */
    method WriteTemp(tmp: (nat, Path), chunks: seq<seq<bv8>>, hashing: bool) returns (written: seq<bv8>, hashed: seq<bv8>)
      requires Valid() && tmp.0 < nextTempDir
      modifies this
      ensures Valid() && files == old(files) && nextTempDir == old(nextTempDir)
      ensures written == Concat(chunks) && hashed == (if hashing then written else [])
      ensures temp == old(temp)[tmp := written]
    {
      temp := temp[tmp := []];
      written, hashed := [], [];
      var i := 0;
      while i < |chunks|
        invariant 0 <= i <= |chunks|
        invariant written == Concat(chunks[..i])
        invariant hashed == if hashing then written else []
        invariant temp == old(temp)[tmp := written]
        invariant Valid() && files == old(files) && nextTempDir == old(nextTempDir)
      {
        assert chunks[..i + 1][..i] == chunks[..i];
        if hashing {
          hashed := hashed + chunks[i];
        }
        written := written + chunks[i];
        temp := temp[tmp := written];
        i := i + 1;
      }
      assert chunks[..|chunks|] == chunks;
    }

    /** `shutil.move(tmp, local)`. */
    method Move(tmp: (nat, Path), local: Path)
      requires Valid() && tmp in temp
      modifies this
      ensures Valid() && nextTempDir == old(nextTempDir)
      ensures files == old(files)[local := old(temp)[tmp]] && temp == old(temp) - {tmp}
    {
      files := files[local := temp[tmp]];
      temp := temp - {tmp};
    }
  }

  /** What `requests.get(url, stream=True)` followed by `raise_for_status()` yields. */
  datatype Response = Chunks(chunks: seq<seq<bv8>>) | RequestFailed(error: Error)

  /** The download's collaborators: the network, `hashlib`, and the data-file validity check. */
  datatype DownloadEnv = DownloadEnv(
    fetch: string -> Response,
    hashSupported: string -> bool,
    digest: (string, seq<bv8>) -> string,
    isValidDataFile: seq<bv8> -> bool)

  /** The bytes of a chunked payload, in order. */
  function Concat(chunks: seq<seq<bv8>>): seq<bv8>
  {
    if |chunks| == 0 then [] else Concat(chunks[..|chunks| - 1]) + chunks[|chunks| - 1]
  }

  /** `hashlib.new(checksum_type)` succeeds, or there is no checksum type. */
  predicate HasherReady(e: Entry, env: DownloadEnv)
  {
    e.checksum.0.None? || env.hashSupported(e.checksum.0.value)
  }

  /** The payload passes the integrity check: no checksum type, or the digest equals the declared checksum. */
  predicate ChecksumAccepted(e: Entry, env: DownloadEnv, payload: seq<bv8>)
  {
    e.checksum.0.None? || Some(env.digest(e.checksum.0.value, payload)) == e.checksum.1
  }

  /** What one call of `download` does: its result, the destination tree afterwards, and what it leaves in its temporary directory. */
  datatype DownloadOutcome = DownloadOutcome(
    result: Result<Path>,
    files: map<Path, seq<bv8>>,
    leftInTemp: Option<(Path, seq<bv8>)>,
    fetched: bool,
    tempDirUsed: bool)

  /**
   * `CMIP6Entry.download(dest_folder)` over the destination tree `files`.
   * An unsupported checksum type raises `ValueError` and an unbuildable
   * relative path its own error before anything is created. An existing
   * file is kept: returned when it is a valid data file, `OSError` when not.
   * Otherwise the payload is fetched into a fresh temporary directory and
   * moved to the final path, unless a declared checksum does not match, in
   * which case `DownloadError` is raised and the payload stays in the
   * temporary directory.
   */
  function DownloadSpec(e: Entry, destFolder: Path, env: DownloadEnv, files: map<Path, seq<bv8>>): DownloadOutcome
  {
    if !HasherReady(e, env) then DownloadOutcome(Err(ValueError), files, None, false, false)
    else match RelativePath(e)
      case Err(err) => DownloadOutcome(Err(err), files, None, false, false)
      case Ok(rel) =>
        var local := destFolder + rel;
        if local in files then
          DownloadOutcome(if env.isValidDataFile(files[local]) then Ok(local) else Err(OSError), files, None, false, true)
        else match env.fetch(e.url)
          case RequestFailed(err) => DownloadOutcome(Err(err), files, None, true, true)
          case Chunks(chunks) =>
            var payload := Concat(chunks);
            if ChecksumAccepted(e, env, payload) then
              DownloadOutcome(Ok(local), files[local := payload], None, true, true)
            else
              DownloadOutcome(Err(DownloadError(ChecksumMismatch(e.checksum.1, env.digest(e.checksum.0.value, payload)))),
                              files, Some((rel, payload)), true, true)
  }

  /** The destination of an entry under `destFolder`. */
  function LocalFile(e: Entry, destFolder: Path): (r: Result<Path>)
    ensures r.Ok? <==> RelativePath(e).Ok?
    ensures r.Ok? ==> r.value == destFolder + RelativePath(e).value
  {
    var rel :- RelativePath(e);
    Ok(destFolder + rel)
  }

  /**
   * A download never alters or removes a file already in the tree; it adds
   * at most the entry's own destination, and only on success.
   */
  lemma DownloadNeverOverwrites(e: Entry, destFolder: Path, env: DownloadEnv, files: map<Path, seq<bv8>>)
    ensures var o := DownloadSpec(e, destFolder, env, files);
            (forall p :: p in files ==> p in o.files && o.files[p] == files[p]) &&
            (o.result.Err? ==> o.files == files) &&
            (o.files != files ==> LocalFile(e, destFolder).Ok? && o.files.Keys == files.Keys + {LocalFile(e, destFolder).value})
  {
  }

  /**
   * A successful download returns the entry's destination, which then holds
   * either the file found there, when valid, or a fetched payload that
   * passed the checksum.
   */
  lemma DownloadOkIsVerified(e: Entry, destFolder: Path, env: DownloadEnv, files: map<Path, seq<bv8>>)
    requires DownloadSpec(e, destFolder, env, files).result.Ok?
    ensures var o := DownloadSpec(e, destFolder, env, files);
            LocalFile(e, destFolder) == o.result && o.result.value in o.files &&
            (if o.fetched then o.result.value !in files && ChecksumAccepted(e, env, o.files[o.result.value])
             else o.files == files && env.isValidDataFile(files[o.result.value]))
  {
  }

  /**
   * The outcomes of `download`, case by case: an unsupported checksum type
   * raises `ValueError`; an existing file is never fetched again, and is
   * returned when valid and raises `OSError` when not; a failed request
   * raises its error; a fetched payload lands at the destination exactly
   * when it passes the checksum, and otherwise a `DownloadError` naming the
   * declared and the computed digest is raised with nothing written there.
   */
  lemma DownloadCases(e: Entry, destFolder: Path, env: DownloadEnv, files: map<Path, seq<bv8>>)
    ensures var o := DownloadSpec(e, destFolder, env, files);
            !HasherReady(e, env) ==> o.result == Err(ValueError) && o.files == files && !o.fetched
    ensures var o := DownloadSpec(e, destFolder, env, files);
            HasherReady(e, env) && LocalFile(e, destFolder).Ok? && LocalFile(e, destFolder).value in files ==>
              var local := LocalFile(e, destFolder).value;
              && !o.fetched && o.files == files
              && o.result == (if env.isValidDataFile(files[local]) then Ok(local) else Err(OSError))
    ensures var o := DownloadSpec(e, destFolder, env, files);
            HasherReady(e, env) && LocalFile(e, destFolder).Ok? && LocalFile(e, destFolder).value !in files ==>
              var local := LocalFile(e, destFolder).value;
              && o.fetched
              && (env.fetch(e.url).RequestFailed? ==> o.result == Err(env.fetch(e.url).error) && o.files == files)
              && (env.fetch(e.url).Chunks? && ChecksumAccepted(e, env, Concat(env.fetch(e.url).chunks)) ==>
                    o.result == Ok(local) && o.files == files[local := Concat(env.fetch(e.url).chunks)])
              && (env.fetch(e.url).Chunks? && !ChecksumAccepted(e, env, Concat(env.fetch(e.url).chunks)) ==>
                    && o.result == Err(DownloadError(ChecksumMismatch(e.checksum.1,
                                                                      env.digest(e.checksum.0.value, Concat(env.fetch(e.url).chunks)))))
                    && o.files == files && local !in o.files)
  {
  }

  /**
   * Downloading again after a success, with the stored file read back as a
   * valid data file, returns the same path without fetching and changes
   * nothing.
   */
  lemma DownloadIdempotent(e: Entry, destFolder: Path, env: DownloadEnv, files: map<Path, seq<bv8>>)
    requires DownloadSpec(e, destFolder, env, files).result.Ok?
    requires var o := DownloadSpec(e, destFolder, env, files); env.isValidDataFile(o.files[o.result.value])
    ensures var o := DownloadSpec(e, destFolder, env, files);
            var o2 := DownloadSpec(e, destFolder, env, o.files);
            o2.result == o.result && o2.files == o.files && !o2.fetched && o2.leftInTemp.None?
  {
  }

  /** The whole effect of one `download` on the store: `DownloadSpec` plus the temporary directories. */
  function DownloadStep(e: Entry, destFolder: Path, env: DownloadEnv, st: Store): (Result<Path>, Store)
  {
    var o := DownloadSpec(e, destFolder, env, st.files);
    var temp := if o.leftInTemp.Some? then st.temp[(st.nextTempDir, o.leftInTemp.value.0) := o.leftInTemp.value.1]
                else st.temp;
    (o.result, Store(o.files, temp, st.nextTempDir + (if o.tempDirUsed then 1 else 0)))
  }

  /** A download step that succeeds returns the entry's own destination. */
  lemma DownloadStepPath(e: Entry, destFolder: Path, env: DownloadEnv, st: Store)
    requires DownloadStep(e, destFolder, env, st).0.Ok?
    ensures LocalFile(e, destFolder) == DownloadStep(e, destFolder, env, st).0
  {
    DownloadOkIsVerified(e, destFolder, env, st.files);
  }

  /** A download keeps every temporary file inside a directory already handed out. */
  lemma DownloadStepKeepsTempValid(e: Entry, destFolder: Path, env: DownloadEnv, st: Store)
    requires forall k :: k in st.temp ==> k.0 < st.nextTempDir
    ensures var st' := DownloadStep(e, destFolder, env, st).1;
            st'.nextTempDir >= st.nextTempDir && forall k :: k in st'.temp ==> k.0 < st'.nextTempDir
  {
  }

  /**
   * `download` on the file store: its result and new state are those of
   * `DownloadStep`.
   */
  method Download(e: Entry, destFolder: Path, env: DownloadEnv, fs: FileStore) returns (r: Result<Path>)
    requires fs.Valid()
    modifies fs
    ensures fs.Valid()
    ensures (r, fs.State()) == DownloadStep(e, destFolder, env, old(fs.State()))
  {
    var hashing := e.checksum.0.Some?;
    if hashing && !env.hashSupported(e.checksum.0.value) {
      return Err(ValueError);
    }
    var rel := RelativePath(e);
    if rel.Err? {
      return Err(rel.error);
    }
    var local := destFolder + rel.value;
    var tempDir := fs.NewTempDir();
    var tmp := (tempDir, rel.value);
    if local in fs.files {
      if env.isValidDataFile(fs.files[local]) {
        return Ok(local);
      }
      return Err(OSError);
    }
    var response := env.fetch(e.url);
    if response.RequestFailed? {
      return Err(response.error);
    }
    var written, hashed := fs.WriteTemp(tmp, response.chunks, hashing);
    if hashing {
      var localChecksum := env.digest(e.checksum.0.value, hashed);
      if Some(localChecksum) != e.checksum.1 {
        return Err(DownloadError(ChecksumMismatch(e.checksum.1, localChecksum)));
      }
    }
    fs.Move(tmp, local);
    assert fs.temp == old(fs.temp);
    r := Ok(local);
  }
}
