/**
 * `cmip6py/search/search_utils.py`: turning query facets into ESGF's
 * comma-separated form, splitting them into fixed and varying facets for
 * parallel queries, and gathering the hits of every index node.
 */
module SearchUtils {
  import opened PyValues
  import opened Errors
  import opened Strings
  import opened Sorting
  import opened Lists
  import opened Utils
  import opened Entries

  // ------------------------------------------------------------ dictionaries

  /** A Python dict with string keys: its items in insertion order. */
  type Dict<V> = seq<(string, V)>

  predicate HasKey<V>(d: Dict<V>, k: string)
  {
    exists i :: 0 <= i < |d| && d[i].0 == k
  }

  /** No key occurs twice, as in every Python dict. */
  predicate IsDict<V>(d: Dict<V>)
  {
    forall i, j :: 0 <= i < j < |d| ==> d[i].0 != d[j].0
  }

  /** `d[k]`. */
  function Get<V>(d: Dict<V>, k: string): (v: V)
    requires HasKey(d, k)
    ensures exists i :: 0 <= i < |d| && d[i] == (k, v)
  {
    if d[0].0 == k then d[0].1
    else
      assert HasKey(d[1..], k) by {
        var i :| 0 <= i < |d| && d[i].0 == k;
        assert d[1..][i - 1] == d[i];
      }
      var v := Get(d[1..], k);
      assert exists j :: 0 <= j < |d| && d[j] == (k, v) by {
        var j :| 0 <= j < |d| - 1 && d[1..][j] == (k, v);
        assert d[j + 1] == (k, v);
      }
      v
  }

  /** In a dict, the item at `i` is what its key looks up. */
  lemma GetAt<V>(d: Dict<V>, i: nat)
    requires IsDict(d) && i < |d|
    ensures HasKey(d, d[i].0) && Get(d, d[i].0) == d[i].1
  {
    var j :| 0 <= j < |d| && d[j] == (d[i].0, Get(d, d[i].0));
    assert j == i;
  }

  /** `d[k] = v`: an existing key keeps its place, a new key goes last. */
  function Put<V>(d: Dict<V>, k: string, v: V): (r: Dict<V>)
  {
    if HasKey(d, k) then seq(|d|, i requires 0 <= i < |d| => if d[i].0 == k then (k, v) else d[i])
    else d + [(k, v)]
  }

  /** After `d[k] = v`, `k` looks up `v`, and every other key what it did before. */
  lemma PutGet<V>(d: Dict<V>, k: string, v: V)
    requires IsDict(d)
    ensures var r := Put(d, k, v);
            && IsDict(r) && HasKey(r, k) && Get(r, k) == v
            && (forall k' :: k' != k ==> (HasKey(r, k') <==> HasKey(d, k')))
            && (forall k' :: k' != k && HasKey(d, k') ==> Get(r, k') == Get(d, k'))
  {
    var r := Put(d, k, v);
    assert forall i :: 0 <= i < |d| ==> r[i].0 == d[i].0;
    forall k' | HasKey(r, k')
      ensures HasKey(d, k') || k' == k
      ensures k' != k ==> Get(r, k') == Get(d, k')
    {
      var i :| 0 <= i < |r| && r[i] == (k', Get(r, k'));
      if k' != k {
        assert i < |d| && d[i] == r[i];
        GetAt(d, i);
      }
    }
    if HasKey(d, k) {
      var i :| 0 <= i < |d| && d[i].0 == k;
      assert r[i].0 == k;
    } else {
      assert r[|d|].0 == k;
    }
    var i :| 0 <= i < |r| && r[i] == (k, Get(r, k));
  }

  /** `d.update(other)`: the items of `other` assigned one after another. */
  function Update<V>(d: Dict<V>, other: Dict<V>): Dict<V>
    decreases |other|
  {
    if |other| == 0 then d else Update(Put(d, other[0].0, other[0].1), other[1..])
  }

  /** After `d.update(other)`, a key of `other` looks up its value there, any other key its value in `d`. */
  lemma {:induction false} UpdateGet<V>(d: Dict<V>, other: Dict<V>)
    requires IsDict(d) && IsDict(other)
    ensures var r := Update(d, other);
            && IsDict(r)
            && (forall k :: HasKey(r, k) <==> HasKey(d, k) || HasKey(other, k))
            && (forall k :: HasKey(other, k) ==> Get(r, k) == Get(other, k))
            && (forall k :: HasKey(d, k) && !HasKey(other, k) ==> Get(r, k) == Get(d, k))
    decreases |other|
  {
    if |other| > 0 {
      var (k, v) := other[0];
      var d' := Put(d, k, v);
      var rest := other[1..];
      PutGet(d, k, v);
      assert IsDict(rest) && !HasKey(rest, k) by {
        forall j | 0 <= j < |rest| ensures rest[j].0 != k { assert rest[j] == other[j + 1]; }
      }
      UpdateGet(d', rest);
      forall k' ensures HasKey(other, k') <==> k' == k || HasKey(rest, k') {
        if HasKey(other, k') && k' != k {
          var i :| 0 <= i < |other| && other[i].0 == k';
          assert rest[i - 1] == other[i];
        }
        if HasKey(rest, k') {
          var i :| 0 <= i < |rest| && rest[i].0 == k';
          assert other[i + 1] == rest[i];
        }
      }
      forall k' | HasKey(other, k') ensures Get(Update(d, other), k') == Get(other, k') {
        if k' == k {
          GetAt(other, 0);
        } else {
          var i :| 0 <= i < |rest| && rest[i] == (k', Get(rest, k'));
          assert other[i + 1] == rest[i];
          GetAt(other, i + 1);
        }
      }
    }
  }

  // ------------------------------------------------------------ facet values

  /**
   * `convert_facet_values(values)`: a non-string iterable becomes the
   * comma-join of its converted items, anything else `str(values)`.
   */
  function ConvertFacetValues(v: Value): (r: string)
    decreases v, 1
  {
    if IsIterableButNotString(v) then Join(ConvertItems(v), ',') else StrOf(v)
  }

  /** `[convert_facet_values(x) for x in values]`. */
  function ConvertItems(v: Value): (r: seq<string>)
    requires IsIterableButNotString(v)
    decreases v, 0
  {
    seq(|v.items|, i requires 0 <= i < |v.items| => ConvertFacetValues(v.items[i]))
  }

  function StrValues(ss: seq<string>): (vs: seq<Value>)
    ensures |vs| == |ss| && forall i :: 0 <= i < |ss| ==> vs[i] == Str(ss[i])
  {
    seq(|ss|, i requires 0 <= i < |ss| => Str(ss[i]))
  }

  /**
   * A query value round-trips through ESGF's comma-separated form: a
   * non-empty list of comma-free strings is sent as a text that splits back
   * into exactly those strings.
   */
  lemma ConvertListSplits(ss: seq<string>)
    requires |ss| > 0 && forall i :: 0 <= i < |ss| ==> ',' !in ss[i]
    ensures Split(ConvertFacetValues(List(StrValues(ss))), ',') == ss
  {
    var v := List(StrValues(ss));
    assert ConvertItems(v) == ss;
    SplitJoin(ss, ',');
  }

  /**
   * Nesting does not change the query: a list whose items are the non-empty
   * lists `a` and `b` is sent as the list `a + b` would be.
   */
  lemma ConvertNestedFlattens(a: seq<Value>, b: seq<Value>)
    requires |a| > 0 && |b| > 0
    ensures ConvertFacetValues(List([List(a), List(b)])) == ConvertFacetValues(List(a + b))
  {
    var va, vb, vab := List(a), List(b), List(a + b);
    var pa, pb := ConvertItems(va), ConvertItems(vb);
    assert ConvertItems(vab) == pa + pb;
    var outer := ConvertItems(List([va, vb]));
    assert outer[0] == ConvertFacetValues(va) == Join(pa, ',');
    assert outer[1] == ConvertFacetValues(vb) == Join(pb, ',');
    assert outer == [Join(pa, ','), Join(pb, ',')];
    assert Join(outer, ',') == Join(pa, ',') + [','] + Join(pb, ',');
    JoinConcat(pa, pb, ',');
  }

  lemma {:induction false} JoinConcat(a: seq<string>, b: seq<string>, sep: char)
    requires |a| > 0 && |b| > 0
    ensures Join(a + b, sep) == Join(a, sep) + [sep] + Join(b, sep)
    decreases |a|
  {
    if |a| == 1 {
      assert (a + b)[1..] == b;
    } else {
      assert (a + b)[1..] == a[1..] + b;
      JoinConcat(a[1..], b, sep);
    }
  }

  /** `{facet: convert_facet_values(values) for facet, values in facets.items()}`. */
  function ConvertFacets(facets: Dict<Value>): (r: Dict<string>)
    ensures |r| == |facets|
    ensures forall i :: 0 <= i < |facets| ==> r[i] == (facets[i].0, ConvertFacetValues(facets[i].1))
  {
    seq(|facets|, i requires 0 <= i < |facets| => (facets[i].0, ConvertFacetValues(facets[i].1)))
  }

  /** Conversion keeps the keys and converts what each key looks up. */
  lemma ConvertFacetsGet(facets: Dict<Value>)
    requires IsDict(facets)
    ensures var r := ConvertFacets(facets);
            && IsDict(r)
            && (forall k :: HasKey(r, k) <==> HasKey(facets, k))
            && (forall k :: HasKey(facets, k) ==> Get(r, k) == ConvertFacetValues(Get(facets, k)))
  {
    var r := ConvertFacets(facets);
    forall k | HasKey(facets, k) ensures HasKey(r, k) && Get(r, k) == ConvertFacetValues(Get(facets, k)) {
      var i :| 0 <= i < |facets| && facets[i] == (k, Get(facets, k));
      GetAt(r, i);
    }
    forall k | HasKey(r, k) ensures HasKey(facets, k) {
      var i :| 0 <= i < |r| && r[i].0 == k;
      assert facets[i].0 == k;
    }
  }

  // ------------------------------------------------------------ default project

  /** `if "project" not in facets.keys(): facets["project"] = "CMIP6"`. */
  function WithDefaultProject(facets: Dict<string>): Dict<string>
  {
    if HasKey(facets, "project") then facets else Put(facets, "project", "CMIP6")
  }

  /** `project` is always set, to `CMIP6` only when absent; every other facet is kept. */
  lemma DefaultProject(facets: Dict<string>)
    requires IsDict(facets)
    ensures var r := WithDefaultProject(facets);
            && IsDict(r) && HasKey(r, "project")
            && Get(r, "project") == (if HasKey(facets, "project") then Get(facets, "project") else "CMIP6")
            && (forall k :: k != "project" ==> (HasKey(r, k) <==> HasKey(facets, k)))
            && (forall k :: k != "project" && HasKey(facets, k) ==> Get(r, k) == Get(facets, k))
  {
    if !HasKey(facets, "project") {
      PutGet(facets, "project", "CMIP6");
    }
  }

  // ------------------------------------------------------------ node search

  /** The errors `_search_esgf_nodes` records for a node instead of raising them. */
  predicate Caught(e: Error)
  {
    e.ConnectionError? || e.HTTPError? || e.Timeout?
  }

  /** The hits gathered so far and the errors recorded on the way. */
  datatype Gathered<T> = Gathered(results: seq<T>, errors: seq<Error>)

  /**
   * The search loop over the nodes' outcomes in order: hits are appended,
   * a caught error is recorded, any other error ends the loop.
   */
  function Gather<T>(outcomes: seq<Result<seq<T>>>): Result<Gathered<T>>
    decreases |outcomes|
  {
    if |outcomes| == 0 then Ok(Gathered([], []))
    else
      var g :- Gather(outcomes[..|outcomes| - 1]);
      var o := outcomes[|outcomes| - 1];
      if o.Ok? then Ok(Gathered(g.results + o.value, g.errors))
      else if Caught(o.error) then Ok(Gathered(g.results, g.errors + [o.error]))
      else Err(o.error)
  }

  /** The hits of one node's outcome, none when it failed. */
  function HitsOf<T>(o: Result<seq<T>>): seq<T>
  {
    if o.Ok? then o.value else []
  }

  /** The failures among the outcomes, in order. */
  function ErrorsOf<T>(outcomes: seq<Result<seq<T>>>): seq<Error>
  {
    if |outcomes| == 0 then []
    else (if outcomes[0].Err? then [outcomes[0].error] else []) + ErrorsOf(outcomes[1..])
  }

  predicate Tolerated<T>(o: Result<seq<T>>)
  {
    o.Err? ==> Caught(o.error)
  }

  lemma {:induction false} FlattenSnoc<T>(g: seq<seq<T>>, x: seq<T>)
    ensures Flatten(g + [x]) == Flatten(g) + x
    decreases |g|
  {
    if |g| == 0 {
      assert [x][1..] == [];
    } else {
      assert (g + [x])[1..] == g[1..] + [x];
      FlattenSnoc(g[1..], x);
    }
  }

  lemma {:induction false} ErrorsOfSnoc<T>(outcomes: seq<Result<seq<T>>>, o: Result<seq<T>>)
    ensures ErrorsOf(outcomes + [o]) == ErrorsOf(outcomes) + (if o.Err? then [o.error] else [])
    decreases |outcomes|
  {
    var last := if o.Err? then [o.error] else [];
    if |outcomes| == 0 {
      assert [o][1..] == [];
    } else {
      var first := if outcomes[0].Err? then [outcomes[0].error] else [];
      assert (outcomes + [o])[0] == outcomes[0];
      assert (outcomes + [o])[1..] == outcomes[1..] + [o];
      ErrorsOfSnoc(outcomes[1..], o);
      calc {
        ErrorsOf(outcomes + [o]);
        first + ErrorsOf(outcomes[1..] + [o]);
        first + (ErrorsOf(outcomes[1..]) + last);
        (first + ErrorsOf(outcomes[1..])) + last;
      }
    }
  }

  /**
   * The loop succeeds iff every node answered or failed with a caught error;
   * then the hits are every node's hits in node order and the recorded
   * errors are every node's failure in node order. Otherwise it raises the
   * first node's error that is not caught.
   */
  lemma {:induction false} GatherOutcome<T>(outcomes: seq<Result<seq<T>>>)
    ensures Gather(outcomes).Ok? <==> forall i :: 0 <= i < |outcomes| ==> Tolerated(outcomes[i])
    ensures Gather(outcomes).Ok? ==>
              && Gather(outcomes).value.results ==
                 Flatten(seq(|outcomes|, i requires 0 <= i < |outcomes| => HitsOf(outcomes[i])))
              && Gather(outcomes).value.errors == ErrorsOf(outcomes)
    ensures Gather(outcomes).Err? ==>
              exists i :: 0 <= i < |outcomes| && outcomes[i] == Err(Gather(outcomes).error) &&
                          !Caught(Gather(outcomes).error) &&
                          forall j :: 0 <= j < i ==> Tolerated(outcomes[j])
    decreases |outcomes|
  {
    if |outcomes| > 0 {
      var n := |outcomes| - 1;
      var init := outcomes[..n];
      var o := outcomes[n];
      GatherOutcome(init);
      assert outcomes == init + [o];
      assert forall i :: 0 <= i < n ==> outcomes[i] == init[i];
      if Gather(init).Ok? && Tolerated(o) {
        var hits := seq(|outcomes|, i requires 0 <= i < |outcomes| => HitsOf(outcomes[i]));
        var initHits := seq(|init|, i requires 0 <= i < |init| => HitsOf(init[i]));
        assert hits == initHits + [HitsOf(o)];
        FlattenSnoc(initHits, HitsOf(o));
        ErrorsOfSnoc(init, o);
      }
    }
  }

  /** `_search_esgf_nodes(**facets)`, given each node's answer to the query with the default project. */
  function SearchNodesSpec(facets: Dict<string>, urls: seq<string>,
                           search: (string, Dict<string>) -> Result<seq<RawResult>>): Result<seq<RawResult>>
  {
    var query := WithDefaultProject(facets);
    var g :- Gather(NodeOutcomes(urls, search, query));
    if |g.results| == 0 then Err(FileNotFoundError(g.errors)) else Ok(g.results)
  }

  function NodeOutcomes(urls: seq<string>, search: (string, Dict<string>) -> Result<seq<RawResult>>,
                        query: Dict<string>): (os: seq<Result<seq<RawResult>>>)
    ensures |os| == |urls| && forall i :: 0 <= i < |urls| ==> os[i] == search(urls[i], query)
  {
    seq(|urls|, i requires 0 <= i < |urls| => search(urls[i], query))
  }

  /**
   * The search fails with `FileNotFoundError`, reporting every recorded
   * error, exactly when no node raised an uncaught error and no node
   * returned a hit, whether or not any node failed; it succeeds exactly when
   * no node raised an uncaught error and some node returned a hit, and then
   * returns every node's hits in node order.
   */
  lemma SearchNodesOutcome(facets: Dict<string>, urls: seq<string>,
                           search: (string, Dict<string>) -> Result<seq<RawResult>>)
    ensures var os := NodeOutcomes(urls, search, WithDefaultProject(facets));
            var hits := Flatten(seq(|os|, i requires 0 <= i < |os| => HitsOf(os[i])));
            var r := SearchNodesSpec(facets, urls, search);
            && ((forall i :: 0 <= i < |os| ==> Tolerated(os[i])) ==>
                  (r == Err(FileNotFoundError(ErrorsOf(os))) <==> |hits| == 0))
            && (r.Ok? <==> (forall i :: 0 <= i < |os| ==> Tolerated(os[i])) && |hits| > 0)
            && (r.Ok? ==> r.value == hits)
            && (r.Err? && !(forall i :: 0 <= i < |os| ==> Tolerated(os[i])) ==>
                  exists i :: 0 <= i < |os| && os[i] == r && !Caught(r.error) &&
                              forall j :: 0 <= j < i ==> Tolerated(os[j]))
  {
    var os := NodeOutcomes(urls, search, WithDefaultProject(facets));
    GatherOutcome(os);
  }

  /** `_search_esgf_nodes`, with its loop over the index nodes. */
  method SearchNodes(facets: Dict<string>, urls: seq<string>,
                     search: (string, Dict<string>) -> Result<seq<RawResult>>)
    returns (r: Result<seq<RawResult>>)
    ensures r == SearchNodesSpec(facets, urls, search)
  {
    var query := facets;
    if !HasKey(query, "project") {
      query := Put(query, "project", "CMIP6");
    }
    ghost var outcomes := NodeOutcomes(urls, search, query);
    var errors: seq<Error> := [];
    var results: seq<RawResult> := [];
    var i := 0;
    while i < |urls|
      invariant 0 <= i <= |urls|
      invariant Gather(outcomes[..i]) == Ok(Gathered(results, errors))
    {
      assert outcomes[..i + 1][..i] == outcomes[..i];
      var urlResults := search(urls[i], query);
      if urlResults.Ok? {
        results := results + urlResults.value;
      } else if Caught(urlResults.error) {
        errors := errors + [urlResults.error];
      } else {
        GatherPrefixError(outcomes, i);
        return Err(urlResults.error);
      }
      i := i + 1;
    }
    assert outcomes[..i] == outcomes;
    if |results| == 0 {
      return Err(FileNotFoundError(errors));
    }
    r := Ok(results);
  }

  /** An uncaught error of one node is what the whole loop raises, once the nodes before it were tolerated. */
  lemma GatherPrefixError<T>(outcomes: seq<Result<seq<T>>>, i: nat)
    requires i < |outcomes| && Gather(outcomes[..i]).Ok?
    requires outcomes[i].Err? && !Caught(outcomes[i].error)
    ensures Gather(outcomes) == Err(outcomes[i].error)
  {
    GatherOutcome(outcomes[..i]);
    GatherOutcome(outcomes);
    assert forall j :: 0 <= j < i ==> outcomes[..i][j] == outcomes[j];
    var k :| 0 <= k < |outcomes| && outcomes[k] == Err(Gather(outcomes).error) &&
             !Caught(Gather(outcomes).error) && forall j :: 0 <= j < k ==> Tolerated(outcomes[j]);
    assert k == i;
  }

  // ------------------------------------------------------------ parallel queries

  /** Where the split sends a facet: `Ok(true)` to the base facets, `Ok(false)` to the varying ones. */
  function Route(facet: string, v: Value): (r: Result<bool>)
  {
    if facet == "table_id" || v.Str? || v.Int? || v.Float? || v.Bool? || v.NoneValue? then Ok(true)
    else if v.List? || v.Tuple? then Ok(false)
    else Err(TypeError)
  }

  /** The base facets, common to every query, and the varying facets, one query per combination. */
  datatype FacetSplit = FacetSplit(base: Dict<Value>, varying: Dict<Value>)

  /** One step of the split loop: `facet` and its value sent where `Route` says. */
  function SplitStep(s: FacetSplit, facet: string, v: Value): Result<FacetSplit>
  {
    var toBase :- Route(facet, v);
    if toBase then Ok(FacetSplit(Put(s.base, facet, v), s.varying))
    else Ok(FacetSplit(s.base, Put(s.varying, facet, Tuple(v.items))))
  }

  /** The split loop over the facets in order. */
  function SplitFacetsSpec(facets: Dict<Value>): Result<FacetSplit>
    decreases |facets|
  {
    if |facets| == 0 then Ok(FacetSplit([], []))
    else
      var s :- SplitFacetsSpec(facets[..|facets| - 1]);
      SplitStep(s, facets[|facets| - 1].0, facets[|facets| - 1].1)
  }

  /** The split raises `TypeError` iff some facet is neither `table_id` nor a scalar, `None`, list or tuple. */
  lemma {:induction false} SplitFacetsTypeError(facets: Dict<Value>)
    ensures SplitFacetsSpec(facets).Ok? <==> forall i :: 0 <= i < |facets| ==> Route(facets[i].0, facets[i].1).Ok?
    ensures SplitFacetsSpec(facets).Err? ==> SplitFacetsSpec(facets).error == TypeError
    decreases |facets|
  {
    if |facets| > 0 {
      var n := |facets| - 1;
      assert forall i :: 0 <= i < n ==> facets[..n][i] == facets[i];
      SplitFacetsTypeError(facets[..n]);
    }
  }

  /** Where one facet ended up: on the side `Route` names, as it was or as a tuple, and not on the other. */
  predicate PlacedItem(item: (string, Value), s: FacetSplit)
  {
    match Route(item.0, item.1)
    case Ok(true) => HasKey(s.base, item.0) && Get(s.base, item.0) == item.1 && !HasKey(s.varying, item.0)
    case Ok(false) =>
      HasKey(s.varying, item.0) && Get(s.varying, item.0) == Tuple(item.1.items) && !HasKey(s.base, item.0)
    case Err(_) => true
  }

  /** Both sides are dicts, every facet is placed, and the sides hold nothing but facets. */
  ghost predicate Placed(facets: Dict<Value>, s: FacetSplit)
  {
    && IsDict(s.base) && IsDict(s.varying)
    && (forall i :: 0 <= i < |facets| ==> PlacedItem(facets[i], s))
    && (forall k :: HasKey(s.base, k) || HasKey(s.varying, k) ==> HasKey(facets, k))
  }

  /**
   * Every facet lands on exactly one side: `table_id`, scalars and `None`
   * in the base facets as they are, lists and tuples in the varying facets
   * as tuples; nothing else is there.
   */
  lemma {:induction false} SplitFacetsPlacement(facets: Dict<Value>)
    requires IsDict(facets) && SplitFacetsSpec(facets).Ok?
    ensures Placed(facets, SplitFacetsSpec(facets).value)
    decreases |facets|
  {
    if |facets| > 0 {
      var n := |facets| - 1;
      var init := facets[..n];
      assert forall i :: 0 <= i < n ==> init[i] == facets[i];
      assert IsDict(init);
      SplitFacetsPlacement(init);
      assert !HasKey(init, facets[n].0) by {
        forall j | 0 <= j < n ensures init[j].0 != facets[n].0 { assert facets[j].0 != facets[n].0; }
      }
      assert facets == init + [facets[n]];
      PlacedStep(init, facets[n], SplitFacetsSpec(init).value);
    }
  }

  lemma PlacedStep(init: Dict<Value>, item: (string, Value), s: FacetSplit)
    requires Placed(init, s) && !HasKey(init, item.0) && SplitStep(s, item.0, item.1).Ok?
    ensures Placed(init + [item], SplitStep(s, item.0, item.1).value)
  {
    var (k, v) := item;
    var t := SplitStep(s, k, v).value;
    var facets := init + [item];
    if Route(k, v).value {
      PutGet(s.base, k, v);
    } else {
      PutGet(s.varying, k, Tuple(v.items));
    }
    forall i | 0 <= i < |facets| ensures PlacedItem(facets[i], t) {
      if i < |init| {
        assert facets[i] == init[i] && PlacedItem(init[i], s);
        assert init[i].0 != k;
      }
    }
    forall k' | HasKey(t.base, k') || HasKey(t.varying, k') ensures HasKey(facets, k') {
      if k' == k {
        assert facets[|init|].0 == k;
      } else {
        var j :| 0 <= j < |init| && init[j].0 == k';
        assert facets[j].0 == k';
      }
    }
  }

  /** The facet split, the loop filling `base_facets` and `varying_facets`. */
  method SplitFacets(facets: Dict<Value>) returns (r: Result<FacetSplit>)
    ensures r == SplitFacetsSpec(facets)
  {
    var base: Dict<Value> := [];
    var varying: Dict<Value> := [];
    var i := 0;
    while i < |facets|
      invariant 0 <= i <= |facets|
      invariant SplitFacetsSpec(facets[..i]) == Ok(FacetSplit(base, varying))
    {
      assert facets[..i + 1][..i] == facets[..i];
      var (facet, facetVal) := facets[i];
      var toBase := Route(facet, facetVal);
      if toBase.Err? {
        SplitPrefixError(facets, i);
        return Err(TypeError);
      }
      if toBase.value {
        base := Put(base, facet, facetVal);
      } else {
        varying := Put(varying, facet, Tuple(facetVal.items));
      }
      i := i + 1;
    }
    assert facets[..i] == facets;
    r := Ok(FacetSplit(base, varying));
  }

  /** A facet the split cannot route raises `TypeError`, whatever follows it. */
  lemma {:induction false} SplitPrefixError(facets: Dict<Value>, i: nat)
    requires i < |facets| && SplitFacetsSpec(facets[..i]).Ok? && Route(facets[i].0, facets[i].1).Err?
    ensures SplitFacetsSpec(facets) == Err(TypeError)
    decreases |facets| - i
  {
    if i + 1 == |facets| {
      assert facets[..i] == facets[..|facets| - 1];
    } else {
      var n := |facets| - 1;
      assert facets[..n][..i] == facets[..i];
      SplitPrefixError(facets[..n], i);
    }
  }

  /** One parallel query: a copy of the base facets updated with one combination, then converted. */
  function Query(base: Dict<Value>, combination: Dict<Value>): Dict<string>
  {
    ConvertFacets(Update(base, combination))
  }

  /**
   * A query sends, for a facet of the combination, the combination's value,
   * and for any other base facet the base value, converted; no other facet.
   */
  lemma QueryFacets(base: Dict<Value>, combination: Dict<Value>)
    requires IsDict(base) && IsDict(combination)
    ensures var q := Query(base, combination);
            && IsDict(q)
            && (forall k :: HasKey(q, k) <==> HasKey(base, k) || HasKey(combination, k))
            && (forall k :: HasKey(combination, k) ==> Get(q, k) == ConvertFacetValues(Get(combination, k)))
            && (forall k :: HasKey(base, k) && !HasKey(combination, k) ==> Get(q, k) == ConvertFacetValues(Get(base, k)))
  {
    UpdateGet(base, combination);
    ConvertFacetsGet(Update(base, combination));
  }

  /** The top-level names `cmip6py/commons/utils.py` binds: its imports and its functions. */
  const CommonsUtilsNames: set<string> := {
    "shutil", "os", "Path", "datetime", "Iterable", "random", "np", "CACHE_DIR",
    "clear_cache", "is_iterable_but_not_string", "remove_all_extensions", "extract_esgf_file_datetimes",
    "convert_esgf_file_datetime", "convert_version_to_datetime", "set_random_seed", "overlapping_spans"}

  /** `from module import names` against the names the module binds: `ImportError` for the first it lacks. */
  function FromImport(bound: set<string>, names: seq<string>): (r: Result<()>)
    ensures r.Ok? <==> forall i :: 0 <= i < |names| ==> names[i] in bound
    ensures r.Err? ==> exists i :: 0 <= i < |names| && names[i] !in bound && r.error == ImportError(names[i]) &&
                                   forall j :: 0 <= j < i ==> names[j] in bound
  {
    if |names| == 0 then Ok(())
    else if names[0] !in bound then Err(ImportError(names[0]))
    else
      var rest := FromImport(bound, names[1..]);
      assert forall i :: 0 < i < |names| ==> names[i] == names[1..][i - 1];
      if rest.Err? then
        var i :| 0 <= i < |names[1..]| && names[1..][i] !in bound && rest.error == ImportError(names[1..][i]) &&
                 forall j :: 0 <= j < i ==> names[1..][j] in bound;
        assert names[i + 1] == names[1..][i];
        rest
      else
        rest
  }

  /**
   * As written, importing this module fails: `cmip6py/commons/utils.py`
   * binds `is_iterable_but_not_string` but no `dict_product`.
   */
  lemma SearchUtilsImportAsWritten()
    ensures FromImport(CommonsUtilsNames, ["is_iterable_but_not_string", "dict_product"]) == Err(ImportError("dict_product"))
  {
    assert "is_iterable_but_not_string" in CommonsUtilsNames;
    assert "dict_product" !in CommonsUtilsNames;
  }

  /** What `search_esgf_nodes` relies on: the index nodes, their answers, and `dict_product`. */
  datatype SearchEnv = SearchEnv(
    urls: seq<string>,
    search: (string, Dict<string>) -> Result<seq<RawResult>>,
    product: Dict<Value> -> seq<Dict<Value>>)

  function QueryRunner(env: SearchEnv, base: Dict<Value>): Dict<Value> -> Result<seq<RawResult>>
  {
    combination => TaskOutcome(env, base, combination)
  }

  /** What one pool task returns or raises: the search of one query. */
  function TaskOutcome(env: SearchEnv, base: Dict<Value>, combination: Dict<Value>): Result<seq<RawResult>>
  {
    SearchNodesSpec(Query(base, combination), env.urls, env.search)
  }

  /** The parallel queries, one per combination, their hits concatenated in submission order. */
  function ParallelSpec(base: Dict<Value>, combinations: seq<Dict<Value>>, env: SearchEnv): Result<seq<RawResult>>
  {
    var hits :- MapResult(combinations, QueryRunner(env, base));
    Ok(Flatten(hits))
  }

  /**
   * `search_esgf_nodes(facets, max_workers)`: one query of the converted
   * facets for one worker; otherwise the split, one query per combination
   * of the varying facets, and the pool's `ValueError` for fewer than one
   * worker.
   */
  function SearchEsgfNodesSpec(facets: Dict<Value>, maxWorkers: int, env: SearchEnv): Result<seq<RawResult>>
  {
    if maxWorkers == 1 then SearchNodesSpec(ConvertFacets(facets), env.urls, env.search)
    else
      var split :- SplitFacetsSpec(facets);
      var combinations := env.product(split.varying);
      if maxWorkers <= 0 then Err(ValueError) else ParallelSpec(split.base, combinations, env)
  }

  /**
   * The parallel search succeeds iff every query succeeds, and then returns
   * each query's hits in submission order; each query is the base facets
   * overridden by one combination. Otherwise it raises the first failing
   * query's error.
   */
  lemma ParallelOutcome(base: Dict<Value>, combinations: seq<Dict<Value>>, env: SearchEnv)
    ensures var r := ParallelSpec(base, combinations, env);
            && (r.Ok? <==> forall i :: 0 <= i < |combinations| ==>
                  SearchNodesSpec(Query(base, combinations[i]), env.urls, env.search).Ok?)
            && (r.Ok? ==> exists hits: seq<seq<RawResult>> ::
                  && |hits| == |combinations| && r.value == Flatten(hits)
                  && forall i :: 0 <= i < |combinations| ==>
                       SearchNodesSpec(Query(base, combinations[i]), env.urls, env.search) == Ok(hits[i]))
            && (r.Err? ==>
                  exists i :: (0 <= i < |combinations| &&
                    SearchNodesSpec(Query(base, combinations[i]), env.urls, env.search) == r &&
                    forall j :: 0 <= j < i ==> SearchNodesSpec(Query(base, combinations[j]), env.urls, env.search).Ok?))
  {
    var f := QueryRunner(env, base);
    assert forall i :: 0 <= i < |combinations| ==>
      f(combinations[i]) == SearchNodesSpec(Query(base, combinations[i]), env.urls, env.search);
    var m := MapResult(combinations, f);
    if m.Ok? {
      assert ParallelSpec(base, combinations, env).value == Flatten(m.value);
    }
  }

  /**
   * With one worker the facets are converted and sent as one query;
   * otherwise a facet that cannot be routed raises `TypeError` before
   * anything is sent, and fewer than one worker raises `ValueError`.
   */
  lemma SearchEsgfNodesDispatch(facets: Dict<Value>, maxWorkers: int, env: SearchEnv)
    ensures maxWorkers == 1 ==>
              SearchEsgfNodesSpec(facets, maxWorkers, env) == SearchNodesSpec(ConvertFacets(facets), env.urls, env.search)
    ensures maxWorkers != 1 && (exists i :: 0 <= i < |facets| && Route(facets[i].0, facets[i].1).Err?) ==>
              SearchEsgfNodesSpec(facets, maxWorkers, env) == Err(TypeError)
    ensures maxWorkers <= 0 && (forall i :: 0 <= i < |facets| ==> Route(facets[i].0, facets[i].1).Ok?) ==>
              SearchEsgfNodesSpec(facets, maxWorkers, env) == Err(ValueError)
  {
    SplitFacetsTypeError(facets);
  }

  /** `search_esgf_nodes`, running the queries one after another. */
  method SearchEsgfNodes(facets: Dict<Value>, maxWorkers: int, env: SearchEnv) returns (r: Result<seq<RawResult>>)
    ensures r == SearchEsgfNodesSpec(facets, maxWorkers, env)
  {
    if maxWorkers == 1 {
      r := SearchNodes(ConvertFacets(facets), env.urls, env.search);
      return;
    }
    var split := SplitFacets(facets);
    if split.Err? {
      return Err(split.error);
    }
    var combinations := env.product(split.value.varying);
    if maxWorkers <= 0 {
      return Err(ValueError);
    }
    r := RunQueries(split.value.base, combinations, env);
  }

  /** One task of the pool: the base facets updated with one combination, converted and searched. */
  method SubmitQuery(base: Dict<Value>, combination: Dict<Value>, env: SearchEnv) returns (r: Result<seq<RawResult>>)
    ensures r == TaskOutcome(env, base, combination)
  {
    var theseFacets := Update(base, combination);
    r := SearchNodes(ConvertFacets(theseFacets), env.urls, env.search);
  }

  /** The loop submitting one query per combination: each task's outcome, in submission order. */
  method SubmitQueries(base: Dict<Value>, combinations: seq<Dict<Value>>, env: SearchEnv)
    returns (futures: seq<Result<seq<RawResult>>>)
    ensures |futures| == |combinations|
    ensures forall j :: 0 <= j < |combinations| ==> futures[j] == TaskOutcome(env, base, combinations[j])
  {
    futures := [];
    var i := 0;
    while i < |combinations|
      invariant 0 <= i <= |combinations|
      invariant |futures| == i
      invariant forall j :: 0 <= j < i ==> futures[j] == TaskOutcome(env, base, combinations[j])
    {
      var these := SubmitQuery(base, combinations[i], env);
      futures := futures + [these];
      i := i + 1;
    }
  }

  /** A finished task's `result()`: its hits, or the exception it raised. */
  function Outcome<U>(future: Result<U>): Result<U>
  {
    future
  }

  /** The hits of every task concatenated in order, or the first raised exception. */
  function GatheredSpec<T>(futures: seq<Result<seq<T>>>): Result<seq<T>>
  {
    var hits :- MapResult(futures, Outcome);
    Ok(Flatten(hits))
  }

  /** The collection loop: `results.extend(future.result())` for every task. */
  method GatherHits<T>(futures: seq<Result<seq<T>>>) returns (r: Result<seq<T>>)
    ensures r == GatheredSpec(futures)
  {
    ghost var hits: seq<seq<T>> := [];
    var results: seq<T> := [];
    var i := 0;
    while i < |futures|
      invariant 0 <= i <= |futures|
      invariant MapResult(futures[..i], Outcome) == Ok(hits)
      invariant results == Flatten(hits)
    {
      var these := futures[i];
      MapResultStep(futures, i, Outcome, hits);
      if these.Err? {
        return Err(these.error);
      }
      FlattenSnoc(hits, these.value);
      hits := hits + [these.value];
      results := results + these.value;
      i := i + 1;
    }
    assert futures[..i] == futures;
    r := Ok(results);
  }

  /**
   * Gathering the tasks' outcomes is the same as mapping the query over
   * the combinations: the first error, or all the hits in order.
   */
  lemma {:induction false} GatheredMatches<T, U>(s: seq<T>, f: T -> Result<seq<U>>, futures: seq<Result<seq<U>>>)
    requires |futures| == |s|
    requires forall j :: 0 <= j < |s| ==> futures[j] == f(s[j])
    ensures MapResult(futures, Outcome) == MapResult(s, f)
  {
    if |s| > 0 {
      assert futures[0] == f(s[0]);
      assert forall j :: 0 <= j < |s[1..]| ==> futures[1..][j] == f(s[1..][j]) by {
        forall j | 0 <= j < |s[1..]| ensures futures[1..][j] == f(s[1..][j]) {
          assert futures[1..][j] == futures[j + 1];
        }
      }
      GatheredMatches(s[1..], f, futures[1..]);
    }
  }

  /** The parallel search is the gathering of one task per combination. */
  lemma ParallelIsGathered(base: Dict<Value>, combinations: seq<Dict<Value>>, env: SearchEnv, futures: seq<Result<seq<RawResult>>>)
    requires |futures| == |combinations|
    requires forall j :: 0 <= j < |combinations| ==> futures[j] == TaskOutcome(env, base, combinations[j])
    ensures ParallelSpec(base, combinations, env) == GatheredSpec(futures)
  {
    GatheredMatches(combinations, QueryRunner(env, base), futures);
  }

  /** The pool: submit one task per combination, then collect their hits. */
  method RunQueries(base: Dict<Value>, combinations: seq<Dict<Value>>, env: SearchEnv) returns (r: Result<seq<RawResult>>)
    ensures r == ParallelSpec(base, combinations, env)
  {
    var futures := SubmitQueries(base, combinations, env);
    ParallelIsGathered(base, combinations, env, futures);
    r := GatherHits(futures);
  }
}
