# CMIP6py reconciliation and failover download, in Dafny

This project models the core of CMIP6py, a client that finds CMIP6 climate
model output on the ESGF federation of data nodes and downloads a consistent
copy of it. The model follows the program's own layers:

- **Search hits to files** (`Files`, `cmip6py/data/file.py`). Raw search hits
  are grouped into `CMIP6File`s by the derived name
  `source_experiment_member_variable_start-end`. Hits whose version is not
  `vYYYYMMDD` are dropped. The rest are ranked by (table_id rank, version rank
  newest first, grid_label rank), converted into replicas (`CMIP6Entry`) and
  reduced to one replica per `stem|data_node` name.
- **Files to datasets** (`Datasets`, `cmip6py/data/dataset.py`). Files are
  grouped by their name without its date segment. A dataset computes the
  replica keys `(table_id, version, grid_label)` its files share, in rank
  order with versions oldest first, and it offers copy-producing filters by
  year span and by running node. Its `download` tries the keys in order. It
  returns at the first key whose per-file downloads all succeed, and
  otherwise raises a `DownloadError` recording every key's errors.
- **One replica's download** (`Entries`, `cmip6py/data/entry.py`), over a
  file store with a destination tree and private temporary directories:
  - an existing valid file is returned;
  - an existing invalid file raises;
  - a checksum mismatch raises and leaves the final path unwritten;
  - otherwise the payload is moved into place.
- **Search** (`SearchUtils`, `Search`, `cmip6py/search/`):
  - query values become ESGF's comma-separated form;
  - `project` defaults to `CMIP6`;
  - the answers of the index nodes are gathered, tolerating connection, HTTP
    and timeout errors and raising `FileNotFoundError` when nothing was found;
  - facets are split into base and varying ones for parallel queries;
  - the `CMIP6Search` object holds the datasets, the downloaded paths and two
    clean-up flags.
- **Helpers** (`Utils`, `Constants`, `Strings`, `Sorting`, `Lists`, `PyValues`,
  `Errors`): file-name date extraction, extension stripping, the date and
  version formats, the asymmetric span overlap, the priority vocabularies and
  the resolution table. They also supply the Python building blocks the code
  uses: stable `sorted`, `itertools.groupby`, `str.split`/`join`, string
  order, `list.index`, comprehensions that raise, and dicts in insertion
  order.

Every exception the source raises is an `Err` of a `Result`: `KeyError`,
`IndexError`, `ValueError`, `TypeError`, `OSError`, `FileNotFoundError`,
`NotImplementedError` and `DownloadError`. Objects that are never changed
after construction (`CMIP6Entry`, `CMIP6File`, `CMIP6Dataset`) are datatypes
built by a function that specifies their `__init__`. Their loops are methods
proved equal to those functions. Two classes hold state that methods update
in place. `Entries.FileStore` is the local disk. `Search.CMIP6Search` is the
search object.

The model keeps several behaviours of the code that may look surprising:

- **The key intersection resets.** When the running set of common keys runs
  empty, the next file's keys replace it. The result is then not the
  intersection (`Datasets.ResetIsNotIntersection`).
- **Versions are ranked both ways.** File-level ranking puts the newest
  version first. Dataset-level ranking puts the oldest first.
- **Deduplication is by name.** It keys on `stem|data_node` and re-sorts by
  that name, so a file's entries end up in name order.
- **Sampling raises outside the `try`.** A key some file lacks escapes
  `download` as `ValueError`; it is not recorded as a failed key.

## Model

| member | source | states |
|---|---|---|
| Constants.DictKeys | cmip6py/commons/constants.py:54-82 | the keys of the resolution dict literal are distinct and are exactly the keys written in it |
| Constants.DictGet | cmip6py/commons/constants.py:54-82 | a key of the dict literal looks up the value written last for it (`BCC-CSM2-MR` is written twice) |
| Constants.ModelsBy | cmip6py/commons/constants.py:83-84 | the comprehension keeps exactly the models at or below 100 km (high) or above it (low), without repeats |
| Constants.OrderingsDistinct | cmip6py/commons/constants.py:46-51 | the table_id priority has 3 distinct entries; the grid_label priority has 11 distinct entries with `gn` first; the relative-path facets are 8 distinct facets from `project` to `version` |
| Constants.ResolutionClassesPartition | cmip6py/commons/constants.py:54-84 | `HR_MODELS` holds exactly the models at or below 100 km and `LR_MODELS` exactly those above; together they hold every key, none in both, neither repeating one |
| Errors.Index0 | cmip6py/data/file.py:17-20 | `v[0]` succeeds exactly on a non-empty string, list, tuple or bytes |
| Errors.AsStr | cmip6py/data/file.py:89-92 | `+` with a string succeeds exactly on a string, giving its text |
| Strings.Split | cmip6py/commons/utils.py:30 | `str.split` never returns an empty list |
| Strings.SplitParts | cmip6py/commons/utils.py:30 | no part of a split holds the separator, and there is one more part than separators |
| Strings.JoinSplit | cmip6py/data/dataset.py:86 | joining the parts of a split gives back the string |
| Strings.SplitJoin | cmip6py/search/search_utils.py:86 | splitting a join of separator-free parts gives back the parts |
| Strings.DropLastSegment | cmip6py/data/dataset.py:86 | `"_".join(name.split("_")[:-1])` on `prefix_last` with `last` free of `_` gives back `prefix`, whatever underscores `prefix` holds |
| Strings.LessEqTotalOrder | cmip6py/data/file.py:78 | Python's `<=` on strings is a total order, the order `sorted` uses for names |
| Sorting.SortBy | cmip6py/data/file.py:67 | `sorted` returns a permutation of its input |
| Sorting.SortBySorted | cmip6py/data/file.py:67 | `sorted(s, key)` is ordered by the keys and is a permutation of `s` |
| Sorting.SortByDistinct | cmip6py/data/dataset.py:69 | sorting a list without repeats gives a list without repeats |
| Sorting.FirstWith | cmip6py/data/file.py:82 | the first element with a key is in the list and has that key; none is found exactly when no element has it |
| Sorting.SortByFirstWith | cmip6py/data/file.py:78 | stability: among the elements with one key, `sorted` keeps the one first in its input at the front |
| Sorting.GroupRuns | cmip6py/data/file.py:80 | `groupby` gives non-empty runs of elements of the input; an empty input gives no run |
| Sorting.GroupRunsPartition | cmip6py/data/file.py:80 | the runs concatenate back to the input, keys are constant within a run, and consecutive runs have different keys |
| Sorting.GroupRunsSorted | cmip6py/data/file.py:78-80 | on input sorted by a total order, the runs' keys strictly increase |
| Sorting.GroupRunsHeads | cmip6py/data/file.py:78-83 | keeping each run's head: the kept keys strictly increase, each kept element is the first with its key, and every key of the input is kept |
| Sorting.SortedGroups | cmip6py/data/file.py:104-105 | `groupby(sorted(s))`: the groups hold `s` as a multiset, share one key each, and their keys are distinct and ascending |
| Sorting.Heads | cmip6py/data/file.py:82 | one head per run, the run's first element |
| Lists.IndexOf | cmip6py/data/file.py:132 | `list.index`: the first position of the element, `ValueError` exactly when it is absent |
| Lists.FirstFailure | cmip6py/data/file.py:67 | evaluating a key on every element succeeds exactly when every evaluation does, else raises the first failure |
| Lists.MapResult | cmip6py/data/file.py:69 | a comprehension whose function may raise: all results position by position, or the first element's failure |
| Lists.MapResultFirstError | cmip6py/data/file.py:69 | the comprehension raises the failure of the first failing element |
| Lists.Filter | cmip6py/data/file.py:50-57 | `[x for x in s if p(x)]` keeps exactly the elements satisfying `p` |
| Lists.FilterAppend | cmip6py/data/dataset.py:123-125 | one more element joins the filtered list at the end exactly when it satisfies `p` |
| Lists.Unique | cmip6py/search/cmip6_search.py:53 | the distinct elements, each once, exactly those of the input |
| Lists.SomesContents | cmip6py/data/dataset.py:104-107 | nothing is kept exactly when every value is `None`, and what is kept is the present values |
| Lists.MapResultSomes | cmip6py/data/dataset.py:104-109 | keeping the non-`None` results of a comprehension: nothing kept exactly when all are `None`, and each kept value is what some element gave |
| Utils.IsIterableButNotString | cmip6py/commons/utils.py:15-16 | true exactly for lists, tuples and sets; false for strings and bytes |
| Utils.RFind | cmip6py/commons/utils.py:20 | the last index of the character, -1 when absent |
| Utils.Stem | cmip6py/data/entry.py:36-37 | the stem of a single-component name is the name with its suffix cut off, the whole name when there is none |
| Utils.WithSuffix | cmip6py/data/entry.py:62 | `with_suffix` on a single-component name replaces the suffix and refuses an empty name |
| Utils.StripAll | cmip6py/commons/utils.py:18-22 | the stripped name has no suffix and is a prefix of the name |
| Utils.RemoveAllExtensions | cmip6py/commons/utils.py:18-22 | the loop strips suffixes until none is left, giving a suffix-free prefix of the name |
| Utils.StripAllIdempotent | cmip6py/commons/utils.py:18-22 | stripping twice is stripping once |
| Utils.FormatDate | cmip6py/commons/utils.py:37-38 | `strftime("%Y%m%d")` in its zero-padded form gives 8 digits (see Left out) |
| Utils.ConvertEsgfFileDatetime | cmip6py/commons/utils.py:36-40 | a string converts exactly when it parses as a date, it is then that date's formatting, and `ValueError` otherwise |
| Utils.ParseOfFormat | cmip6py/commons/utils.py:36-40 | formatting a date and parsing it back gives the date |
| Utils.FormatOfParse | cmip6py/commons/utils.py:36-40 | a string that parses is the formatting of the date it parses to |
| Utils.ConvertVersionToDatetime | cmip6py/commons/utils.py:42-43 | a version that converts is `v` followed by the formatted date, else `ValueError` |
| Utils.VersionFormat | cmip6py/commons/utils.py:42-43 | a version converts exactly when it is `v` followed by some formatted date |
| Utils.FormatDateOrder | cmip6py/data/file.py:59 | formatted dates compare as strings the way the dates compare in time |
| Utils.VersionOrderIsChronological | cmip6py/data/file.py:59 | on `vYYYYMMDD` stamps string order is chronological order, and distinct stamps are distinct dates |
| Utils.ExtractEsgfFileDatetimes | cmip6py/commons/utils.py:24-34 | the two `-`-separated halves of the last `_` segment of the stripped name; `ValueError` unless the segment has exactly one `-` |
| Utils.ExtractEsgfFileDates | cmip6py/commons/utils.py:31-34 | with `as_datetime`, both halves parsed as dates |
| Utils.EsgfFileNameRoundTrip | cmip6py/commons/utils.py:24-40 | the dates written into `<prefix>_<start>-<stop>.nc` with a dot-free prefix are the dates read back |
| Utils.EsgfFileNameDatetimes | cmip6py/commons/utils.py:24-34 | the date strings read back from such a name are the formatted dates written into it |
| Utils.LastSegmentOf | cmip6py/commons/utils.py:30 | the last segment of `<prefix>_<digits>.nc` is `digits` |
| Utils.OverlapIsSharedYear | cmip6py/commons/utils.py:49-56 | for well-formed spans, overlap holds exactly when some year is in the file's closed span and the experiment's half-open span |
| Utils.OverlapBoundaries | cmip6py/commons/utils.py:49-56 | (1850, 1900, 1900, 1950) overlaps; (1900, 1950, 1850, 1900) does not |
| PyValues.NatToDecimal | cmip6py/search/search_utils.py:88 | `str` of a number is a non-empty string of decimal digits |
| Entries.FormatValue | cmip6py/data/entry.py:46 | a non-string iterable gives its first item and anything else is kept; a set raises, and so does an empty list or tuple |
| Entries.FormatFacets | cmip6py/data/entry.py:45-50 | succeeds exactly when every facet formats; the keys are the hit's plus `version`, which holds the version, and every other facet is its formatted value |
| Entries.Facet | cmip6py/data/entry.py:31 | a facet lookup succeeds exactly for a present facet, else `KeyError` |
| Entries.NewEntry | cmip6py/data/entry.py:25-37 | a new entry keeps the hit it was built from |
| Entries.NewEntryFields | cmip6py/data/entry.py:25-37 | the entry's facets are the formatted ones; its key is (table_id, version, grid_label) from them; its name is `stem|data_node`; checksum and URL come from the hit; a missing `data_node`, `table_id` or `grid_label` raises `KeyError` |
| Entries.EntryNameParts | cmip6py/data/entry.py:36 | the name splits back into the stem and the data node when neither holds a `|` |
| Entries.IsOnRunningNode | cmip6py/data/entry.py:52-59 | the status map's flag for the data node, `False` for an unlisted node, `TypeError` for an unhashable one |
| Entries.FacetValues | cmip6py/data/entry.py:62 | the list comprehension gives the named facets in order, and raises `KeyError` for the first missing one |
| Entries.FacetDirs | cmip6py/data/entry.py:62 | the directory components are the named facets in order, each a string; every facet is looked up before any type check, so a missing facet raises `KeyError` for the first missing name, and `TypeError` only when all are present |
| Entries.RelativePath | cmip6py/data/entry.py:61-62 | the relative path facets in order, then the stem with `.nc`; it fails exactly when a facet is missing or not a string, or the name is empty; each facet value is one path component (see Left out) |
| Entries.LocalLeafIsPublishedName | cmip6py/data/entry.py:61-62 | with a dot-free prefix, the stored file keeps the published `<prefix>_<start>-<stop>.nc` name |
| Entries.LocalFile | cmip6py/data/entry.py:64-67 | the destination is the destination folder followed by the relative path |
| Entries.FileStore.constructor | cmip6py/data/entry.py:64-67 | a store holding the existing tree and no temporary file |
| Entries.FileStore.NewTempDir | cmip6py/data/entry.py:69-74 | a fresh temporary directory, one no temporary file uses; nothing else changes |
| Entries.FileStore.WriteTemp | cmip6py/data/entry.py:101-108 | the temporary file holds every chunk in order, and the hash sees exactly those bytes when hashing |
| Entries.FileStore.Move | cmip6py/data/entry.py:122 | the destination holds the temporary file's bytes; the temporary file is gone |
| Entries.DownloadCases | cmip6py/data/entry.py:78-122 | the outcomes case by case: unsupported checksum type, existing valid or invalid file (never fetched), failed request, accepted payload written to the destination, mismatched payload raising `DownloadError(ChecksumMismatch(declared, computed))` with nothing written there |
| Entries.DownloadNeverOverwrites | cmip6py/data/entry.py:84-122 | a download never alters or removes an existing file; it adds only the entry's own destination, and only on success |
| Entries.DownloadOkIsVerified | cmip6py/data/entry.py:87-122 | a success returns the destination, which holds either the valid file found there or a fetched payload that passed the checksum |
| Entries.DownloadIdempotent | cmip6py/data/entry.py:87-91 | after a success whose file reads back as valid, a second download returns the same path, fetches nothing and changes nothing |
| Entries.DownloadStepPath | cmip6py/data/entry.py:84-129 | a successful download returns the entry's own destination |
| Entries.DownloadStepKeepsTempValid | cmip6py/data/entry.py:69-74 | temporary files stay in directories already handed out |
| Entries.Download | cmip6py/data/entry.py:76-129 | the method's result and the store afterwards are those of the download specification function |
| Files.EntryKeys | cmip6py/data/file.py:25 | `entry_keys` has one key per entry, `entry_keys[i] == entries[i].entry_key` |
| Files.FirstOf | cmip6py/data/file.py:17-20 | `json[f][0]`, `KeyError` for a missing facet |
| Files.FirstStr | cmip6py/data/file.py:89-92 | `json[f][0] + "_"` succeeds exactly when the first item is a string |
| Files.NamePrefix | cmip6py/data/file.py:89-92 | the facet prefix exists exactly when the four facets' first items are strings |
| Files.MakeName | cmip6py/data/file.py:86-94 | a name exists exactly when the dates extract and the facets are strings; it is then `prefix_start-end`; bad dates raise `ValueError` |
| Files.MakeNameSegments | cmip6py/data/file.py:86-94 | the name's last `_` segment is the date text, and cutting it off gives back the facet prefix |
| Files.ValueIndex | cmip6py/data/file.py:63-65 | `ordering.index(v)` succeeds exactly for a string in the list, at its position; else `ValueError` |
| Files.RankOf | cmip6py/data/file.py:61-66 | the sort key is (table_id rank, version rank, grid_label rank); it fails exactly when a facet is missing, empty or outside its priority list |
| Files.VersionsOf | cmip6py/data/file.py:55 | one version per kept hit, in order |
| Files.NewEntries | cmip6py/data/file.py:69 | the entries succeed exactly when every hit converts, position by position |
| Files.DedupByNameSpec | cmip6py/data/file.py:75-83 | the kept names strictly ascend; each kept entry is the first with its name in the input; every name of the input is kept |
| Files.DedupAscends | cmip6py/data/file.py:78-83 | the kept names strictly ascend |
| Files.DedupFirsts | cmip6py/data/file.py:78-83 | each kept entry is the first one with its name |
| Files.DedupCovers | cmip6py/data/file.py:78-83 | every name of the input is kept |
| Files.DedupKeepsLeast | cmip6py/data/file.py:67-83 | deduplicating a priority-sorted list keeps, for each name, an entry of least priority rank |
| Files.GreaterStringRanksFirst | cmip6py/data/file.py:59-64 | in the newest-first list, a greater version string is found first |
| Files.NewerVersionRanksFirst | cmip6py/data/file.py:59-64 | of two parseable versions, the newer gets the smaller rank |
| Files.Ordered | cmip6py/data/file.py:50-67 | the ranked hits are exactly those with a parseable version |
| Files.SortedEntriesAsWrittenRaises | cmip6py/data/file.py:69 | as written, the conversion succeeds only when no hit has a parseable version, because `CMIP6Entry.from_result` does not exist |
| Files.SortedEntriesAsWrittenDiffers | cmip6py/data/file.py:69 | wherever the intended conversion succeeds on a kept hit, the written one raises `AttributeError` |
| Files.SortedEntriesErrors | cmip6py/data/file.py:47-69 | the conversion fails exactly when a hit with a parseable version has an unrankable table_id or grid_label, or cannot become an entry |
| Files.SortedEntriesFrom | cmip6py/data/file.py:47-72 | every returned entry was built from a hit with a parseable version |
| Files.SortedEntriesNames | cmip6py/data/file.py:47-72 | the returned names strictly ascend, and every hit with a parseable version has its name among them |
| Files.SortedEntriesPriority | cmip6py/data/file.py:39-72 | for each name, no replica of it has a smaller (table_id, version, grid_label) rank than the one kept |
| Files.EntriesKeepPriorityOrder | cmip6py/data/file.py:67-69 | converting hits in priority order keeps priority order |
| Files.RemoveDuplicateEntries | cmip6py/data/file.py:75-83 | the loop keeps the first entry of each run of equal names, in strictly ascending name order |
| Files.KeepValidVersions | cmip6py/data/file.py:48-57 | the loop keeps exactly the hits whose version parses, in order, with their versions |
| Files.ConvertToSortedEntries | cmip6py/data/file.py:39-72 | the method gives the ranked, converted, deduplicated entries of its specification function |
| Files.FileOf | cmip6py/data/file.py:14-25 | no hit raises `IndexError`; a file has the first hit's facets, dates and name, and the entries of all hits |
| Files.FileNameSpellsFields | cmip6py/data/file.py:14-22 | a file's name spells its four facets and its dates |
| Files.NewFile | cmip6py/data/file.py:14-25 | the constructor method gives the file of its specification function |
| Files.FromResultsPartition | cmip6py/data/file.py:96-109 | the groups hold every hit once; each hit has its file's name; files are built one per group; file names strictly ascend |
| Files.FromResultsGroups | cmip6py/data/file.py:104-109 | one file per group, and the groups hold every hit once |
| Files.FromResultsNames | cmip6py/data/file.py:101-109 | each hit of a group has its file's name, and the names strictly ascend |
| Files.FromResultsNameable | cmip6py/data/file.py:101-104 | when grouping succeeds every hit has a name |
| Files.GroupsNamed | cmip6py/data/file.py:104-108 | every hit of a group spells its file's name, and the names of distinct groups ascend |
| Files.BuildFiles | cmip6py/data/file.py:105-109 | the loop builds one file per group in order, or raises the first failure |
| Files.FromResults | cmip6py/data/file.py:96-109 | the method gives the files of its specification function |
| Files.RunningResults | cmip6py/data/file.py:117-120 | the kept hits are exactly those of entries on running nodes; an unhashable data node raises `TypeError` |
| Files.RunningResultsStep | cmip6py/data/file.py:118-120 | one more entry adds its hit exactly when it is on a running node |
| Files.RunningResultsPrefixError | cmip6py/data/file.py:118-120 | an entry whose node cannot be looked up makes the filter raise |
| Files.FilterRunningNodesOutcome | cmip6py/data/file.py:111-126 | `None` exactly when no entry is on a running node, else a file of exactly the running entries' hits |
| Files.FilterRunningNodes | cmip6py/data/file.py:111-126 | the loop gives the filter of its specification function |
| Files.SampleEntryKey | cmip6py/data/file.py:128-133 | the first entry with the key; `ValueError` exactly when no entry has it |
| Datasets.EarliestStartIsMin | cmip6py/data/dataset.py:19 | the dataset starts no later than any file, and some file starts then |
| Datasets.LatestEndIsMax | cmip6py/data/dataset.py:20 | the dataset ends no earlier than any file, and some file ends then |
| Datasets.DatasetNamePrefix | cmip6py/data/dataset.py:38-44 | with the date segment cut off, the dataset name is `source_experiment_member_variable` |
| Datasets.KeySet | cmip6py/data/dataset.py:57 | `set(file.entry_keys)` holds exactly the file's keys |
| Datasets.RunningKeysIntersect | cmip6py/data/dataset.py:57-60 | while the running set never runs empty it is the intersection of all files' keys; in every case it lies within the last file's keys |
| Datasets.RunningKeySet | cmip6py/data/dataset.py:57-60 | the loop gives the running key set from the first file's keys |
| Datasets.ResetIsNotIntersection | cmip6py/data/dataset.py:59 | for files with keys {a}, {b}, {b} the result is {b}, though no key is common to all three |
| Datasets.KeyRank | cmip6py/data/dataset.py:63-68 | the sort key is (table_id rank, version date rank, grid_label rank), `ValueError` when a part is unrankable |
| Datasets.Enumerate | cmip6py/data/dataset.py:69 | the set's elements, each once |
| Datasets.KeyRankInjective | cmip6py/data/dataset.py:63-68 | two keys with one rank are the same key |
| Datasets.RankOrderIsKeyOrder | cmip6py/data/dataset.py:62-68 | a smaller rank means an earlier key: table first, then older version, then grid |
| Datasets.DatesAscOrder | cmip6py/data/dataset.py:62-66 | in the ascending version list, an earlier position is an earlier date |
| Datasets.SortKeysOutcome | cmip6py/data/dataset.py:62-69 | the sort returns exactly the set's keys, each once, and raises `ValueError` exactly when some key cannot be ranked |
| Datasets.UnrankableDate | cmip6py/data/dataset.py:62 | a version that is not `vYYYYMMDD` makes the sort raise `ValueError` |
| Datasets.UnrankableKey | cmip6py/data/dataset.py:63-69 | a key that cannot be ranked makes the sort raise `ValueError` |
| Datasets.AllRankable | cmip6py/data/dataset.py:62-69 | with every key ranked, the sort returns the set's keys, each once |
| Datasets.DatesAscHoldsDates | cmip6py/data/dataset.py:62-66 | every key's date is in the version list |
| Datasets.DatesAscSorted | cmip6py/data/dataset.py:62 | the version list is ascending |
| Datasets.SortKeysOrdered | cmip6py/data/dataset.py:62-69 | the keys come out strictly in (table, oldest version, grid) order |
| Datasets.SortKeysRanked | cmip6py/data/dataset.py:62-69 | the sorted keys are each ranked and ordered by rank |
| Datasets.SortKeysValue | cmip6py/data/dataset.py:69 | the keys sorted by rank |
| Datasets.SortKeysAllRanked | cmip6py/data/dataset.py:63-69 | every sorted key has a rank |
| Datasets.RankSortedIsKeyOrdered | cmip6py/data/dataset.py:63-69 | two distinct keys sorted by rank are in the intended order |
| Datasets.IntersectEntryKeys | cmip6py/data/dataset.py:46-70 | the method gives the sorted common keys of its specification function |
| Datasets.IntersectEntryKeysOutcome | cmip6py/data/dataset.py:46-70 | the common keys: each once, strictly in order, all of the last file's keys, and exactly the keys of every file when the running set never ran empty |
| Datasets.DatasetOutcome | cmip6py/data/dataset.py:14-24 | a dataset spans its files with attained bounds, holds them as given with their common keys, takes the first file's facets, and its name keeps their prefix |
| Datasets.NewDataset | cmip6py/data/dataset.py:14-24 | the constructor method gives the dataset of its specification function |
| Datasets.DatasetKeepsFiles | cmip6py/data/dataset.py:23 | a dataset holds the files it was built from |
| Datasets.FromCmip6FilesPartition | cmip6py/data/dataset.py:85-94 | the groups hold every file once, share one key each, and the keys strictly ascend |
| Datasets.BuildDatasets | cmip6py/data/dataset.py:89-94 | the loop builds one dataset per group in order, or raises the first failure |
| Datasets.FromCmip6Files | cmip6py/data/dataset.py:80-94 | the method gives the datasets of its specification function |
| Datasets.DatasetsFromResults | cmip6py/data/dataset.py:72-78 | files from the hits, then datasets from the files |
| Datasets.DatasetsFromResultsNamed | cmip6py/data/dataset.py:72-94 | built from hits, every file of a dataset has the dataset's own name once both drop their date segment |
| Datasets.DatasetNamedByFiles | cmip6py/data/dataset.py:85-94 | a dataset of files sharing one key is named by that key |
| Datasets.FileSpelled | cmip6py/data/file.py:86-94 | a file built from hits is named by its own facets and dates |
| Datasets.FilterRunningNodesDatasetOutcome | cmip6py/data/dataset.py:96-114 | `None` exactly when every file filters to `None`, else a dataset of exactly the kept files |
| Datasets.RunningFilterOk | cmip6py/data/dataset.py:104-105 | with every file filtering cleanly, the whole list does |
| Datasets.FilterRunningNodesDatasetKept | cmip6py/data/dataset.py:102-114 | the dataset is built from the kept files in order, or is `None` without any |
| Datasets.FilterRunningNodesDataset | cmip6py/data/dataset.py:96-114 | the loop gives the filter of its specification function |
| Datasets.FilterYearsOutcome | cmip6py/data/dataset.py:116-131 | `None` exactly when no file overlaps the span, else a dataset of exactly the overlapping files |
| Datasets.FilterYears | cmip6py/data/dataset.py:116-131 | the loop gives the filter of its specification function |
| Datasets.SampleEntries | cmip6py/data/dataset.py:133-138 | one entry per file, in file order, each with the key; `ValueError` when a file lacks it |
| Datasets.DownloadEntry | cmip6py/data/dataset.py:140-148 | the download's path or its exception, never both |
| Datasets.DownloadBatch | cmip6py/data/dataset.py:174-180 | one path or one error per entry |
| Datasets.DownloadBatchStep | cmip6py/data/dataset.py:177-180 | one more entry appends its path or its error |
| Datasets.DownloaderSound | cmip6py/data/dataset.py:140-148 | each entry download returns its destination and never overwrites a file |
| Datasets.DownloadBatchPaths | cmip6py/data/dataset.py:174-184 | a batch without errors has one path per entry, each that entry's destination |
| Datasets.DownloadBatchKeepsFiles | cmip6py/data/dataset.py:174-180 | a batch never alters an existing file |
| Datasets.KeyOutcomeOf | cmip6py/data/dataset.py:169-180 | a key is tried exactly when every file has it and the pool has a worker; otherwise `ValueError` escapes |
| Datasets.DownloadDatasetSpec | cmip6py/data/dataset.py:150-187 | an empty key set raises `DownloadError` at once, and a worker count below one raises `ValueError`, with nothing changed |
| Datasets.TryKeysAttempts | cmip6py/data/dataset.py:168-187 | keys are tried in order, each recorded with at least one error |
| Datasets.TryKeysEnd | cmip6py/data/dataset.py:168-187 | a success or an escaping error comes from the key after the failed ones; otherwise every key failed and `DownloadError` is raised |
| Datasets.TryKeysKeepsFiles | cmip6py/data/dataset.py:168-187 | no attempt alters an existing file |
| Datasets.TryKeysAttemptsFromStart | cmip6py/data/dataset.py:168-187 | the tried keys are a prefix of the keys, each failed one with an error |
| Datasets.TryKeyKeepsFiles | cmip6py/data/dataset.py:169-180 | each key's attempt leaves existing files as they were |
| Datasets.TryKeyOutcome | cmip6py/data/dataset.py:169-184 | a clean key gives one path per file, its entry's destination; a raising key raises `ValueError` |
| Datasets.DownloadDatasetAttempts | cmip6py/data/dataset.py:168-187 | `download` tries the common keys in order, recording each failed one with at least one error |
| Datasets.DownloadDatasetKeepsFiles | cmip6py/data/dataset.py:150-187 | `download` never alters an existing file |
| Datasets.DownloadDatasetResult | cmip6py/data/dataset.py:150-187 | a success gives one path per file, the destination of its entry for the first clean key; a failure after every key is `DownloadError` with all keys recorded |
| Datasets.DownloadEntries | cmip6py/data/dataset.py:174-180 | the pool, one entry after another, gives the batch of its specification function |
| Datasets.DownloadDataset | cmip6py/data/dataset.py:150-187 | the method gives the failover result and the store of its specification function |
| SearchUtils.Get | cmip6py/search/search_utils.py:108-111 | `d[k]` is the value written for `k` |
| SearchUtils.GetAt | cmip6py/search/search_utils.py:111 | in a dict, an item's key looks up its value |
| SearchUtils.PutGet | cmip6py/search/search_utils.py:98-99 | after `d[k] = v`, `k` gives `v` and every other key what it gave before |
| SearchUtils.UpdateGet | cmip6py/search/search_utils.py:108-109 | after `d.update(other)`, a key of `other` gives its value there and any other key its value in `d` |
| SearchUtils.ConvertListSplits | cmip6py/search/search_utils.py:83-88 | a non-empty list of comma-free strings is sent as text that splits back into them |
| SearchUtils.ConvertNestedFlattens | cmip6py/search/search_utils.py:83-88 | nested lists are sent as their concatenation |
| SearchUtils.ConvertFacets | cmip6py/search/search_utils.py:91 | one converted facet per facet, in order |
| SearchUtils.ConvertFacetsGet | cmip6py/search/search_utils.py:91 | conversion keeps the keys and converts each value |
| SearchUtils.DefaultProject | cmip6py/search/search_utils.py:33-34 | `project` is always set, to `CMIP6` only when absent; every other facet is kept |
| SearchUtils.GatherOutcome | cmip6py/search/search_utils.py:36-58 | the loop succeeds exactly when every node answered or failed with a tolerated error; the hits are every node's hits in node order with the errors recorded, else the first untolerated error is raised |
| SearchUtils.NodeOutcomes | cmip6py/search/search_utils.py:38-49 | one answer per node, in node order |
| SearchUtils.SearchNodesOutcome | cmip6py/search/search_utils.py:31-62 | the search returns the hits when it has some and every node was tolerated; with no hits it raises `FileNotFoundError` reporting every error, whether or not errors occurred |
| SearchUtils.SearchNodes | cmip6py/search/search_utils.py:13-62 | the node loop gives the search of its specification function |
| SearchUtils.GatherPrefixError | cmip6py/search/search_utils.py:52-58 | an untolerated error of one node is what the loop raises |
| SearchUtils.SplitFacetsTypeError | cmip6py/search/search_utils.py:96-100 | the split raises `TypeError` exactly when some facet is neither `table_id` nor a scalar, `None`, list or tuple |
| SearchUtils.SplitFacetsPlacement | cmip6py/search/search_utils.py:96-100 | every facet lands on exactly one side: `table_id`, scalars and `None` as they are in the base, lists and tuples as tuples in the varying facets |
| SearchUtils.PlacedStep | cmip6py/search/search_utils.py:97-100 | one more facet keeps every facet placed |
| SearchUtils.SplitFacets | cmip6py/search/search_utils.py:96-100 | the loop gives the split of its specification function |
| SearchUtils.SplitPrefixError | cmip6py/search/search_utils.py:100 | an unroutable facet raises `TypeError` whatever follows it |
| SearchUtils.QueryFacets | cmip6py/search/search_utils.py:107-111 | a query sends the combination's value for its facets and the base value for the others, converted, and nothing else |
| SearchUtils.ParallelOutcome | cmip6py/search/search_utils.py:102-118 | the parallel search succeeds exactly when every query does, returning each query's hits in order, else the first failing query's error |
| SearchUtils.FromImport | cmip6py/search/search_utils.py:8 | `from … import names` succeeds exactly when the module binds every name, else `ImportError` for the first missing one |
| SearchUtils.SearchUtilsImportAsWritten | cmip6py/search/search_utils.py:8 | as written, the import raises `ImportError` for `dict_product`, which `cmip6py/commons/utils.py` does not define |
| SearchUtils.SearchEsgfNodesDispatch | cmip6py/search/search_utils.py:89-104 | one worker sends one converted query; otherwise an unroutable facet raises `TypeError` first, and a worker count below one raises `ValueError` |
| SearchUtils.SearchEsgfNodes | cmip6py/search/search_utils.py:64-119 | the method gives the search of its specification function |
| SearchUtils.SubmitQuery | cmip6py/search/search_utils.py:107-115 | one task: the base facets updated with the combination, converted and searched |
| SearchUtils.SubmitQueries | cmip6py/search/search_utils.py:105-115 | one task outcome per combination, in submission order |
| SearchUtils.GatherHits | cmip6py/search/search_utils.py:116-118 | every task's hits concatenated, or the first raised exception |
| SearchUtils.GatheredMatches | cmip6py/search/search_utils.py:113-118 | gathering the tasks is mapping the query over the combinations |
| SearchUtils.ParallelIsGathered | cmip6py/search/search_utils.py:103-118 | the parallel search is the gathering of one task per combination |
| SearchUtils.RunQueries | cmip6py/search/search_utils.py:103-118 | the pool gives the parallel search of its specification function |
| Search.MemberKeys | cmip6py/search/cmip6_search.py:51-52 | one `(experiment_id, source_id)` per dataset, in order |
| Search.CountsOccurrences | cmip6py/search/cmip6_search.py:50-53 | exactly the keys that occur are counted, each by its number of occurrences |
| Search.CountsTotal | cmip6py/search/cmip6_search.py:50-53 | the counts add up to the number of keys counted |
| Search.CountMembersOutcome | cmip6py/search/cmip6_search.py:49-58 | each `(experiment_id, source_id)` is counted by the number of its datasets, no other key is, and the counts sum to the number of datasets |
| Search.FilterAsWrittenRaises | cmip6py/search/cmip6_search.py:32 | as written, filtering a search that has local files raises at its first dataset |
| Search.FilterAsWrittenCounterexample | cmip6py/search/cmip6_search.py:32 | a one-dataset search on which the written test raises `TypeError` and the intended one succeeds |
| Search.FilterLoopOutcome | cmip6py/search/cmip6_search.py:28-34 | with the name test, filtering succeeds exactly when every dataset filters cleanly; the copy has one result per dataset, `None` included, and exactly the kept names' local files |
| Search.FilterLoopSucceeds | cmip6py/search/cmip6_search.py:30-34 | the intended filtering succeeds exactly when every dataset filters cleanly |
| Search.FilterLoopDatasets | cmip6py/search/cmip6_search.py:30-34 | the copy holds one filtered result per dataset, in order |
| Search.FilterLoopLocalFiles | cmip6py/search/cmip6_search.py:32-33 | the copy carries exactly the local files of the kept names, unchanged |
| Search.FilterLoopPrefixError | cmip6py/search/cmip6_search.py:30-34 | a dataset the loop raises on ends the loop with that error |
| Search.FilterDatasets | cmip6py/search/cmip6_search.py:28-34 | the loop gives the filter of its specification function |
| Search.FilterStep | cmip6py/search/cmip6_search.py:30-34 | one turn filters, appends and carries one dataset |
| Search.DownloadAllKeepsFiles | cmip6py/search/cmip6_search.py:98-101 | downloading all datasets never alters an existing file |
| Search.DownloadLoopKeys | cmip6py/search/cmip6_search.py:98-101 | on success every dataset was present and the dict has exactly their names |
| Search.DownloadLoopValue | cmip6py/search/cmip6_search.py:98-101 | a name maps to the download of the last dataset with that name |
| Search.DownloadLoopPrefixError | cmip6py/search/cmip6_search.py:98-101 | a failing download ends the comprehension with its error |
| Search.DownloadAll | cmip6py/search/cmip6_search.py:98-101 | the method gives the downloads of its specification function |
| Search.CMIP6Search.constructor | cmip6py/search/cmip6_search.py:14-22 | a new search has no datasets, no local files and both flags false |
| Search.CMIP6Search.FilterRunningNodes | cmip6py/search/cmip6_search.py:24-42 | models the method with the intended line-32 test of the Findings row (carry local files by `dataset.name`); the code as written raises there, which `Search.FilterAsWrittenRaises` and `Search.FilterAsWrittenCounterexample` show. A new object with the filtered datasets and carried local files, the same seed and worker count, and only `nodes_are_filtered` set; self is unchanged |
| Search.CMIP6Search.Filter | cmip6py/search/cmip6_search.py:70-76 | `running_nodes` filters by node, with the intended line-32 carry of the Findings row, succeeding, failing with the same error, and building the same object as `FilterRunningNodes`; any other kind raises `NotImplementedError` |
| Search.CMIP6Search.Search | cmip6py/search/cmip6_search.py:44-47 | the datasets become those built from the search's hits; an error leaves them unchanged |
| Search.CMIP6Search.CountMembers | cmip6py/search/cmip6_search.py:49-58 | the counts of its specification function, `TypeError` before any search |
| Search.CMIP6Search.BalanceMembers | cmip6py/search/cmip6_search.py:60-68 | always `NotImplementedError` |
| Search.CMIP6Search.SplitBy | cmip6py/search/cmip6_search.py:78-86 | always `NotImplementedError` |
| Search.CMIP6Search.Download | cmip6py/search/cmip6_search.py:88-101 | before a search nothing changes; otherwise every dataset is downloaded in order and, on success, the local files map each name to its download |

## Left out

- Network, hashing and file validity are parameters of the model. The index nodes' answers are `SearchEnv.search`. The download is `DownloadEnv.fetch`. `hashlib` is an uninterpreted digest over the whole payload. `xr.open_dataset` is a validity predicate on the bytes.
- Node liveness is a status map passed in. The scraping and caching in `cmip6py/esgf_network/analytics.py` are not part of this model.
- `get_version` (from `data_utils`, which is not part of this model) is the `version` field of a raw hit.
- `dict_product` is not defined in `cmip6py/commons/utils.py`, so importing `cmip6py/search/search_utils.py` as written raises `ImportError` (see Findings). Its intended cartesian product is the `product` function of the search environment, left abstract.
- The `DownloadError` exception class (in `commons/exceptions.py`, not part of this model) is an error constructor carrying its failure. Its message text is not modelled.
- `CMIP6Entry.from_result` is not defined in `cmip6py/data/entry.py`, so the code as written raises `AttributeError` (see Findings). The rest of the model uses the constructor `CMIP6Entry(result)` (`Entries.NewEntry`) in its place.
- Datasets.DownloadEntries: the worker pool and `as_completed` run one entry after another. Paths are collected in submission order, where the source collects them in completion order. Only the set of paths, not their order, holds for every completion order. When several entries fail, the source raises whichever failure `as_completed` yields first; the model raises the first in submission order.
- SearchUtils.RunQueries: the query pool runs one query after another. Hits are concatenated in submission order, where the source uses completion order. For every completion order the source returns the same hits as a multiset. When several queries fail, the source raises whichever failure `as_completed` yields first; the model raises the first in submission order.
- Threads, `lru_cache` on `_search_esgf_nodes`, `pyesgf` configuration and `SearchConnection`, logging, timing and `humanfriendly` sizes are not modelled. The stand-in search is a fixed function, so caching cannot change a result.
- Entries.FormatFacets: `result.json` is a map, so the order of its keys is not modelled. When several values fail to format, the model reports `TypeError` if any value is a set and `IndexError` otherwise; the source raises the error of the first failing value in the JSON's insertion order.
- Utils.FormatDate: `strftime("%Y%m%d")` is modelled in its zero-padded form, eight digits for every year, as CPython 3.12.5 and later give it. Earlier CPython on glibc does not pad years below 1000 (year 1 gives `10101`), so a dataset starting in year 1 is named differently there.
- Utils.Stem: a file name is taken as one path component, non-empty and without `/`. `PurePath.stem` acts on the last `/`-separated component only, so names holding `/` are not modelled.
- Utils.WithSuffix: the same single-component reading. `PurePath.with_suffix` acts on the last component and raises `ValueError` for an empty one (such as the name `/`); neither is modelled.
- Utils.StripAll: the same single-component reading. `Path(file_path).suffix` stops at the last `/`, so `d.x/f` keeps its directory's dot in the source.
- Utils.RemoveAllExtensions: the same single-component reading as `Utils.StripAll`.
- Entries.RelativePath: every facet value is taken as one non-empty path component without `/`. `Path(*values)` drops empty and `.` components and splits values on `/`, so a facet such as an empty `activity_id` gives the source one component fewer; this is not modelled.
- Utils.ConvertEsgfFileDatetime: `strptime("%Y%m%d")` is modelled as exactly eight digits naming a real date between years 1 and 9999. Python also accepts some shorter forms, such as a one-digit month.
- Utils.ConvertVersionToDatetime: accepts exactly `v` plus eight digits, so the same narrowing applies.
- PyValues.Repr: strings and bytes are not escaped the way Python's `repr` escapes them.
- Entries.FileStore: directories made by `os.makedirs`/`mkdir` are not modelled, because a path is only present when a file is. Removal of the temporary directory is not modelled either.
- Search.DownloadAll: `datasets_to_local_files` is a map, so the dict's insertion order is not modelled. A repeated name keeps the last download, as in Python.
- `copy`, `__repr__`, `__len__` and `__getitem__` of the three classes are not modelled; under value semantics a copy is the value itself. `CMIP6Entry.size`, used only in the log line, is also left out.
- `count_members(as_pandas=True)` and `summary_plot` use pandas, seaborn and matplotlib, so they are not modelled.
- `clear_cache` and `set_random_seed` in `cmip6py/commons/utils.py` are file-system and random-number side effects, so they are not modelled.
- Import-time effects of `cmip6py/commons/constants.py`, such as the environment variable and the cache and config paths, are not modelled.
- Authentication (`cmip6py/commons/auth.py`, `authenticate.py`), packaging (`setup.py`, `cmip6py/__init__.py`) and `test_search.py` are outside the engine and not part of this model.
- Search.CMIP6Search.Download: the warnings logged about unfiltered nodes and unbalanced members are not modelled. Nothing else depends on them.
- Search.CMIP6Search.BalanceMembers: the warning it logs before raising is not modelled.

## Findings

| source | as written | input that shows it | evidently intended | confidence | as-written member | corrected member |
|---|---|---|---|---|---|---|
| cmip6py/search/cmip6_search.py:32 | `dataset in dataset.name in self.datasets_to_local_files.keys()` is a chained comparison. Its first half asks whether a dataset object is in its own name string, which raises `TypeError` (and `AttributeError` for a `None` dataset). | A search with one dataset `d` that filters to itself and `datasets_to_local_files == {d.name: []}`. The filter raises instead of returning a copy. | `dataset.name in self.datasets_to_local_files.keys()`: carry the local files of the kept datasets by name. | not executed | Search.FilterAsWrittenCounterexample | Search.FilterLoopOutcome |
| cmip6py/data/file.py:69 | `CMIP6Entry.from_result(result)` calls a class attribute that `cmip6py/data/entry.py` never defines, so it raises `AttributeError`. | Any group of hits with at least one `vYYYYMMDD` version and ranked table_id and grid_label: building the `CMIP6File` raises instead of returning a file. | `CMIP6Entry(result)`: build each entry with the constructor. | not executed | Files.SortedEntriesAsWrittenDiffers | Entries.NewEntry |
| cmip6py/search/search_utils.py:8 | `from ..commons.utils import is_iterable_but_not_string, dict_product` names a function that `cmip6py/commons/utils.py` does not define, so the import raises `ImportError`. | Importing the module at all. | a `dict_product` that returns every combination of the varying facets, one dict each. | not executed | SearchUtils.SearchUtilsImportAsWritten | SearchUtils.ParallelOutcome |
