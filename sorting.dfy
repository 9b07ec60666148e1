/**
 * Python's stable `sorted(xs, key=...)` and `itertools.groupby`, written once
 * and used for the three grouping levels: duplicate entries inside a file,
 * search results into files, and files into datasets.
 */
module Sorting {
  import opened Errors
  import opened Lists

  ghost predicate TotalPreorder<K(!new)>(le: (K, K) -> bool)
  {
    && (forall a, b :: le(a, b) || le(b, a))
    && (forall a, b, c :: le(a, b) && le(b, c) ==> le(a, c))
  }

  ghost predicate TotalOrder<K(!new)>(le: (K, K) -> bool)
  {
    && TotalPreorder(le)
    && (forall a, b :: le(a, b) && le(b, a) ==> a == b)
  }

  function Id<T>(x: T): T { x }

  predicate SortedBy<T, K>(s: seq<T>, key: T -> K, le: (K, K) -> bool)
  {
    forall i, j :: 0 <= i < j < |s| ==> le(key(s[i]), key(s[j]))
  }

  /** Inserts `x` before the first element whose key is not smaller than its own. */
  function Insert<T, K>(x: T, s: seq<T>, key: T -> K, le: (K, K) -> bool): (r: seq<T>)
    ensures multiset(r) == multiset{x} + multiset(s)
  {
    if |s| == 0 || le(key(x), key(s[0])) then [x] + s
    else
      assert s == [s[0]] + s[1..];
      [s[0]] + Insert(x, s[1..], key, le)
  }

  /** `sorted(s, key=key)`: a stable insertion sort. */
  function SortBy<T, K>(s: seq<T>, key: T -> K, le: (K, K) -> bool): (r: seq<T>)
    ensures multiset(r) == multiset(s)
  {
    if |s| == 0 then []
    else
      assert s == [s[0]] + s[1..];
      Insert(s[0], SortBy(s[1..], key, le), key, le)
  }

  lemma {:induction false} InsertSorted<T, K(!new)>(x: T, s: seq<T>, key: T -> K, le: (K, K) -> bool)
    requires TotalPreorder(le)
    requires SortedBy(s, key, le)
    ensures SortedBy(Insert(x, s, key, le), key, le)
  {
    if |s| > 0 && !le(key(x), key(s[0])) {
      InsertSorted(x, s[1..], key, le);
      var tail := Insert(x, s[1..], key, le);
      forall e | e in tail ensures le(key(s[0]), key(e)) {
        assert e in multiset(tail);
        if e != x {
          assert e in s[1..];
        }
      }
    }
  }

  lemma {:induction false} InsertDistinct<T, K>(x: T, s: seq<T>, key: T -> K, le: (K, K) -> bool)
    requires Distinct(s) && x !in s
    ensures Distinct(Insert(x, s, key, le))
  {
    if |s| > 0 && !le(key(x), key(s[0])) {
      assert Distinct(s[1..]);
      assert x !in s[1..];
      InsertDistinct(x, s[1..], key, le);
      var tail := Insert(x, s[1..], key, le);
      assert s[0] !in multiset(tail);
    }
  }

  /** Sorting a list without repeats gives a list without repeats. */
  lemma {:induction false} SortByDistinct<T, K>(s: seq<T>, key: T -> K, le: (K, K) -> bool)
    requires Distinct(s)
    ensures Distinct(SortBy(s, key, le))
  {
    if |s| > 0 {
      assert Distinct(s[1..]);
      SortByDistinct(s[1..], key, le);
      assert s[0] !in multiset(SortBy(s[1..], key, le));
      InsertDistinct(s[0], SortBy(s[1..], key, le), key, le);
    }
  }

  /** `sorted` returns a permutation of its input, ordered by the keys. */
  lemma {:induction false} SortBySorted<T, K(!new)>(s: seq<T>, key: T -> K, le: (K, K) -> bool)
    requires TotalPreorder(le)
    ensures SortedBy(SortBy(s, key, le), key, le)
    ensures multiset(SortBy(s, key, le)) == multiset(s) && |SortBy(s, key, le)| == |s|
  {
    if |s| > 0 {
      SortBySorted(s[1..], key, le);
      InsertSorted(s[0], SortBy(s[1..], key, le), key, le);
    }
    assert |multiset(SortBy(s, key, le))| == |multiset(s)|;
  }

  /** The first element of `s` whose key is `k`. */
  function FirstWith<T, K(==)>(s: seq<T>, key: T -> K, k: K): (r: Option<T>)
    ensures r.Some? ==> r.value in s && key(r.value) == k
    ensures r.None? <==> forall x :: x in s ==> key(x) != k
  {
    if |s| == 0 then None
    else if key(s[0]) == k then Some(s[0])
    else
      assert forall x :: x in s ==> x == s[0] || x in s[1..];
      FirstWith(s[1..], key, k)
  }

  lemma {:induction false} InsertFirstWith<T, K(!new)>(x: T, s: seq<T>, key: T -> K, le: (K, K) -> bool, k: K)
    requires forall a :: le(a, a)
    ensures FirstWith(Insert(x, s, key, le), key, k) ==
            if key(x) == k then Some(x) else FirstWith(s, key, k)
  {
    if |s| > 0 && !le(key(x), key(s[0])) {
      InsertFirstWith(x, s[1..], key, le, k);
    }
  }

  /**
   * Stability: among the elements with one key, `sorted` keeps the one that
   * came first in its input at the front.
   */
  lemma {:induction false} SortByFirstWith<T, K(!new)>(s: seq<T>, key: T -> K, le: (K, K) -> bool, k: K)
    requires forall a :: le(a, a)
    ensures FirstWith(SortBy(s, key, le), key, k) == FirstWith(s, key, k)
  {
    if |s| > 0 {
      SortByFirstWith(s[1..], key, le, k);
      InsertFirstWith(s[0], SortBy(s[1..], key, le), key, le, k);
    }
  }

  /** In a sequence sorted by `key2`, the first element with a given `key` is a least one among them. */
  lemma {:induction false} FirstWithIsLeast<T, K, L(!new)>(s: seq<T>, key: T -> K, k: K, key2: T -> L, le: (L, L) -> bool)
    requires forall a :: le(a, a)
    requires SortedBy(s, key2, le)
    requires FirstWith(s, key, k).Some?
    ensures forall j :: 0 <= j < |s| && key(s[j]) == k ==> le(key2(FirstWith(s, key, k).value), key2(s[j]))
  {
    if key(s[0]) != k {
      FirstWithIsLeast(s[1..], key, k, key2, le);
      forall j | 0 <= j < |s| && key(s[j]) == k
        ensures le(key2(FirstWith(s, key, k).value), key2(s[j]))
      {
        assert s[j] == s[1..][j - 1];
      }
    } else {
      assert le(key2(s[0]), key2(s[0]));
    }
  }

  /** Concatenation of a sequence of sequences. */
  function Flatten<T>(g: seq<seq<T>>): seq<T>
  {
    if |g| == 0 then [] else g[0] + Flatten(g[1..])
  }

  /** `[list(run) for _, run in groupby(s, key=key)]`: maximal runs of consecutive equal keys. */
  function GroupRuns<T, K(==)>(s: seq<T>, key: T -> K): (g: seq<seq<T>>)
    ensures forall i :: 0 <= i < |g| ==> |g[i]| > 0
    ensures forall i, x :: 0 <= i < |g| && x in g[i] ==> x in s
    ensures |s| > 0 ==> |g| > 0 && g[0][0] == s[0]
    ensures |s| == 0 ==> g == []
    decreases |s|
  {
    if |s| == 0 then []
    else
      var rest := GroupRuns(s[1..], key);
      assert forall x :: x in s[1..] ==> x in s;
      if |rest| > 0 && key(rest[0][0]) == key(s[0]) then [[s[0]] + rest[0]] + rest[1..]
      else [[s[0]]] + rest
  }

  /** The runs partition `s`: they concatenate back to `s`, keys are constant in a run and change between runs. */
  lemma GroupRunsPartition<T, K>(s: seq<T>, key: T -> K)
    ensures Flatten(GroupRuns(s, key)) == s
    ensures forall i, x :: 0 <= i < |GroupRuns(s, key)| && x in GroupRuns(s, key)[i] ==>
              key(x) == key(GroupRuns(s, key)[i][0])
    ensures forall i :: 0 <= i < |GroupRuns(s, key)| - 1 ==>
              key(GroupRuns(s, key)[i][0]) != key(GroupRuns(s, key)[i + 1][0])
  {
    GroupRunsFlatten(s, key);
    GroupRunsConstant(s, key);
    GroupRunsChange(s, key);
  }

  lemma {:induction false} GroupRunsFlatten<T, K>(s: seq<T>, key: T -> K)
    ensures Flatten(GroupRuns(s, key)) == s
    decreases |s|
  {
    if |s| > 0 {
      GroupRunsFlatten(s[1..], key);
      var rest := GroupRuns(s[1..], key);
      var g := GroupRuns(s, key);
      assert s == [s[0]] + s[1..];
      if |rest| > 0 && key(rest[0][0]) == key(s[0]) {
        assert g[1..] == rest[1..];
        assert Flatten(rest) == rest[0] + Flatten(rest[1..]);
        assert Flatten(g) == g[0] + Flatten(rest[1..]);
      } else {
        assert g[1..] == rest;
      }
    }
  }

  lemma {:induction false} GroupRunsConstant<T, K>(s: seq<T>, key: T -> K)
    ensures forall i, x :: 0 <= i < |GroupRuns(s, key)| && x in GroupRuns(s, key)[i] ==>
              key(x) == key(GroupRuns(s, key)[i][0])
    decreases |s|
  {
    if |s| > 0 {
      GroupRunsConstant(s[1..], key);
      var rest := GroupRuns(s[1..], key);
      var g := GroupRuns(s, key);
      if |rest| > 0 && key(rest[0][0]) == key(s[0]) {
        forall i, x | 0 <= i < |g| && x in g[i] ensures key(x) == key(g[i][0]) {
          if i == 0 {
            assert x == s[0] || x in rest[0];
          } else {
            assert g[i] == rest[i];
          }
        }
      } else {
        forall i, x | 0 <= i < |g| && x in g[i] ensures key(x) == key(g[i][0]) {
          if i > 0 {
            assert g[i] == rest[i - 1];
          }
        }
      }
    }
  }

  lemma {:induction false} GroupRunsChange<T, K>(s: seq<T>, key: T -> K)
    ensures forall i :: 0 <= i < |GroupRuns(s, key)| - 1 ==>
              key(GroupRuns(s, key)[i][0]) != key(GroupRuns(s, key)[i + 1][0])
    decreases |s|
  {
    if |s| > 0 {
      GroupRunsChange(s[1..], key);
      var rest := GroupRuns(s[1..], key);
      var g := GroupRuns(s, key);
      if |rest| > 0 && key(rest[0][0]) == key(s[0]) {
        forall i | 0 <= i < |g| - 1 ensures key(g[i][0]) != key(g[i + 1][0]) {
          assert g[i + 1] == rest[i + 1];
          if i > 0 { assert g[i] == rest[i]; }
        }
      } else {
        forall i | 0 <= i < |g| - 1 ensures key(g[i][0]) != key(g[i + 1][0]) {
          assert g[i + 1] == rest[i];
          if i > 0 { assert g[i] == rest[i - 1]; }
        }
      }
    }
  }

  /** On input sorted by a total order on keys, the runs' keys strictly increase. */
  lemma {:induction false} GroupRunsSorted<T, K(!new)>(s: seq<T>, key: T -> K, le: (K, K) -> bool)
    requires TotalOrder(le)
    requires SortedBy(s, key, le)
    ensures forall i, j :: 0 <= i < j < |GroupRuns(s, key)| ==>
              le(key(GroupRuns(s, key)[i][0]), key(GroupRuns(s, key)[j][0])) &&
              key(GroupRuns(s, key)[i][0]) != key(GroupRuns(s, key)[j][0])
    decreases |s|
  {
    if |s| > 0 {
      assert SortedBy(s[1..], key, le);
      GroupRunsSorted(s[1..], key, le);
      var rest := GroupRuns(s[1..], key);
      var g := GroupRuns(s, key);
      if |rest| > 0 && key(rest[0][0]) == key(s[0]) {
        forall i, j | 0 <= i < j < |g|
          ensures le(key(g[i][0]), key(g[j][0])) && key(g[i][0]) != key(g[j][0])
        {
          assert g[j] == rest[j];
          if i > 0 { assert g[i] == rest[i]; }
        }
      } else {
        forall i, j | 0 <= i < j < |g|
          ensures le(key(g[i][0]), key(g[j][0])) && key(g[i][0]) != key(g[j][0])
        {
          assert g[j] == rest[j - 1];
          if i > 0 {
            assert g[i] == rest[i - 1];
          } else {
            var y := rest[j - 1][0];
            assert y in s[1..];
            assert le(key(s[0]), key(y));
            assert rest[0][0] == s[1];
            if j > 1 {
              assert le(key(rest[0][0]), key(y));
            }
          }
        }
      }
    }
  }

  /**
   * In a sequence sorted by `le`, an element strictly below another is first
   * found earlier: `s.index(x) < s.index(y)`.
   */
  lemma SortedIndexOrder<T>(s: seq<T>, le: (T, T) -> bool, x: T, y: T, i: nat, j: nat)
    requires SortedBy(s, Id, le)
    requires le(x, y) && !le(y, x)
    requires i < |s| && s[i] == x && forall k :: 0 <= k < i ==> s[k] != x
    requires j < |s| && s[j] == y && forall k :: 0 <= k < j ==> s[k] != y
    ensures i < j
  {
  }

  /** The first element of each run: what `[run[0] for _, run in groupby(...)]` keeps. */
  function Heads<T>(g: seq<seq<T>>): (h: seq<T>)
    requires forall i :: 0 <= i < |g| ==> |g[i]| > 0
    ensures |h| == |g| && forall i :: 0 <= i < |g| ==> h[i] == g[i][0]
  {
    seq(|g|, i requires 0 <= i < |g| => g[i][0])
  }

  lemma {:induction false} InFlatten<T>(g: seq<seq<T>>, x: T)
    requires x in Flatten(g)
    ensures exists i :: 0 <= i < |g| && x in g[i]
  {
    if x !in g[0] {
      InFlatten(g[1..], x);
      var i :| 0 <= i < |g[1..]| && x in g[1..][i];
      assert x in g[i + 1];
    }
  }

  lemma {:induction false} FirstWithSkip<T, K>(a: seq<T>, b: seq<T>, key: T -> K, k: K)
    requires forall x :: x in a ==> key(x) != k
    ensures FirstWith(a + b, key, k) == FirstWith(b, key, k)
  {
    if |a| > 0 {
      assert (a + b)[1..] == a[1..] + b;
      assert (a + b)[0] == a[0] && a[0] in a;
      FirstWithSkip(a[1..], b, key, k);
    } else {
      assert a + b == b;
    }
  }

  lemma {:induction false} FirstWithFlatten<T, K>(g: seq<seq<T>>, key: T -> K, i: nat)
    requires i < |g| && forall j :: 0 <= j < |g| ==> |g[j]| > 0
    requires forall j, x :: 0 <= j < |g| && x in g[j] ==> key(x) == key(g[j][0])
    requires forall j :: 0 <= j < i ==> key(g[j][0]) != key(g[i][0])
    ensures FirstWith(Flatten(g), key, key(g[i][0])) == Some(g[i][0])
  {
    if i == 0 {
      assert Flatten(g)[0] == g[0][0];
    } else {
      FirstWithSkip(g[0], Flatten(g[1..]), key, key(g[i][0]));
      assert g[1..][i - 1] == g[i];
      FirstWithFlatten(g[1..], key, i - 1);
    }
  }

  /**
   * Keeping the head of each run of a sorted sequence: the kept keys strictly
   * increase, each kept element is the first one with its key, and every key
   * of the input is kept.
   */
  lemma GroupRunsHeads<T, K(!new)>(s: seq<T>, key: T -> K, le: (K, K) -> bool)
    requires TotalOrder(le)
    requires SortedBy(s, key, le)
    ensures var h := Heads(GroupRuns(s, key));
            && (forall i, j :: 0 <= i < j < |h| ==> le(key(h[i]), key(h[j])) && key(h[i]) != key(h[j]))
            && (forall i :: 0 <= i < |h| ==> FirstWith(s, key, key(h[i])) == Some(h[i]))
            && (forall x :: x in s ==> exists i :: 0 <= i < |h| && key(h[i]) == key(x))
            && (forall i :: 0 <= i < |h| ==> h[i] in s)
  {
    var g := GroupRuns(s, key);
    var h := Heads(g);
    GroupRunsPartition(s, key);
    GroupRunsSorted(s, key, le);
    forall i | 0 <= i < |h| ensures FirstWith(s, key, key(h[i])) == Some(h[i]) {
      FirstWithFlatten(g, key, i);
    }
    forall x | x in s ensures exists i :: 0 <= i < |h| && key(h[i]) == key(x) {
      InFlatten(g, x);
      var i :| 0 <= i < |g| && x in g[i];
      assert key(h[i]) == key(x);
    }
    forall i | 0 <= i < |h| ensures h[i] in s {
      assert g[i][0] in g[i];
    }
  }

  /**
   * `groupby(sorted(s, key=key), key=key)`: the groups partition `s`, each
   * group shares one key, and the groups' keys are distinct and ascending.
   */
  lemma SortedGroups<T, K(!new)>(s: seq<T>, key: T -> K, le: (K, K) -> bool)
    requires TotalOrder(le)
    ensures var g := GroupRuns(SortBy(s, key, le), key);
            && multiset(Flatten(g)) == multiset(s)
            && (forall i, x :: 0 <= i < |g| && x in g[i] ==> x in s && key(x) == key(g[i][0]))
            && (forall i, j :: 0 <= i < j < |g| ==> le(key(g[i][0]), key(g[j][0])) && key(g[i][0]) != key(g[j][0]))
  {
    var sorted := SortBy(s, key, le);
    var g := GroupRuns(sorted, key);
    SortBySorted(s, key, le);
    GroupRunsPartition(sorted, key);
    GroupRunsSorted(sorted, key, le);
    forall i, x | 0 <= i < |g| && x in g[i] ensures x in s {
      assert x in sorted;
      assert x in multiset(sorted);
    }
  }
}

/** Python's `list.index`, which raises `ValueError` for a missing element. */
module Lists {
  import opened Errors

  function IndexOf<T(==)>(s: seq<T>, x: T): (r: Result<nat>)
    ensures r.Ok? <==> x in s
    ensures r.Ok? ==> r.value < |s| && s[r.value] == x && forall j :: 0 <= j < r.value ==> s[j] != x
    ensures r.Err? ==> r.error == ValueError
  {
    if |s| == 0 then Err(ValueError)
    else if s[0] == x then Ok(0)
    else
      match IndexOf(s[1..], x)
      case Ok(i) => Ok(i + 1)
      case Err(e) => Err(e)
  }

  /**
   * Evaluating `f` on each element in order, as a comprehension or
   * `sorted(s, key=f)` does: the first failure is raised.
   */
  function FirstFailure<T, U>(s: seq<T>, f: T -> Result<U>): (r: Result<()>)
    ensures r.Ok? <==> forall i :: 0 <= i < |s| ==> f(s[i]).Ok?
    ensures r.Err? ==> exists i :: 0 <= i < |s| && f(s[i]) == Err(r.error) &&
                                   forall j :: 0 <= j < i ==> f(s[j]).Ok?
  {
    if |s| == 0 then Ok(())
    else if f(s[0]).Err? then Err(f(s[0]).error)
    else
      var rest := FirstFailure(s[1..], f);
      if rest.Err? then
        var i :| 0 <= i < |s[1..]| && f(s[1..][i]) == Err(rest.error) && forall j :: 0 <= j < i ==> f(s[1..][j]).Ok?;
        assert s[i + 1] == s[1..][i];
        assert forall j :: 0 < j <= i ==> s[j] == s[1..][j - 1];
        rest
      else
        assert forall i :: 0 < i < |s| ==> s[i] == s[1..][i - 1];
        rest
  }

  /** `[f(x) for x in s]` where `f` may raise: the first failure is raised. */
  function MapResult<T, U>(s: seq<T>, f: T -> Result<U>): (r: Result<seq<U>>)
    ensures r.Ok? <==> forall i :: 0 <= i < |s| ==> f(s[i]).Ok?
    ensures r.Ok? ==> |r.value| == |s| && forall i :: 0 <= i < |s| ==> f(s[i]) == Ok(r.value[i])
    ensures r.Err? ==> exists i :: 0 <= i < |s| && f(s[i]) == Err(r.error) && forall j :: 0 <= j < i ==> f(s[j]).Ok?
  {
    if |s| == 0 then Ok([])
    else if f(s[0]).Err? then Err(f(s[0]).error)
    else
      var rest := MapResult(s[1..], f);
      assert forall i :: 0 < i < |s| ==> s[i] == s[1..][i - 1];
      if rest.Err? then
        var i :| 0 <= i < |s[1..]| && f(s[1..][i]) == Err(rest.error) && forall j :: 0 <= j < i ==> f(s[1..][j]).Ok?;
        assert s[i + 1] == s[1..][i];
        rest
      else
        Ok([f(s[0]).value] + rest.value)
  }

  /** One more step of the comprehension. */
  lemma MapResultSnoc<T, U>(s: seq<T>, x: T, f: T -> Result<U>)
    ensures MapResult(s + [x], f) ==
            if MapResult(s, f).Err? then MapResult(s, f)
            else if f(x).Err? then Err(f(x).error)
            else Ok(MapResult(s, f).value + [f(x).value])
  {
    var t := s + [x];
    assert forall i :: 0 <= i < |s| ==> t[i] == s[i];
    assert t[|s|] == x;
    if MapResult(s, f).Err? {
      var i :| 0 <= i < |s| && f(s[i]) == Err(MapResult(s, f).error) && forall j :: 0 <= j < i ==> f(s[j]).Ok?;
      var k :| 0 <= k < |t| && f(t[k]) == Err(MapResult(t, f).error) && forall j :: 0 <= j < k ==> f(t[j]).Ok?;
      assert k == i;
    } else if f(x).Err? {
      var k :| 0 <= k < |t| && f(t[k]) == Err(MapResult(t, f).error) && forall j :: 0 <= j < k ==> f(t[j]).Ok?;
      assert k == |s|;
    } else {
      var v := MapResult(t, f).value;
      assert v == MapResult(s, f).value + [f(x).value];
    }
  }

  /** One more element of the comprehension, taken as a longer prefix of `s`. */
  lemma MapResultPrefixStep<T, U>(s: seq<T>, i: nat, f: T -> Result<U>)
    requires i < |s| && MapResult(s[..i], f).Ok? && f(s[i]).Ok?
    ensures MapResult(s[..i + 1], f) == Ok(MapResult(s[..i], f).value + [f(s[i]).value])
  {
    assert s[..i + 1] == s[..i] + [s[i]];
    MapResultSnoc(s[..i], s[i], f);
  }

  /** One more element: its error ends the whole map, its value is appended. */
  lemma MapResultStep<T, U>(s: seq<T>, i: nat, f: T -> Result<U>, acc: seq<U>)
    requires i < |s| && MapResult(s[..i], f) == Ok(acc)
    ensures f(s[i]).Err? ==> MapResult(s, f) == Err(f(s[i]).error)
    ensures f(s[i]).Ok? ==> MapResult(s[..i + 1], f) == Ok(acc + [f(s[i]).value])
  {
    if f(s[i]).Err? {
      MapResultFirstError(s, i, f);
    } else {
      MapResultPrefixStep(s, i, f);
    }
  }

  /** The comprehension raises the failure of the first element that fails. */
  lemma MapResultFirstError<T, U>(s: seq<T>, i: nat, f: T -> Result<U>)
    requires i < |s| && MapResult(s[..i], f).Ok? && f(s[i]).Err?
    ensures MapResult(s, f) == Err(f(s[i]).error)
  {
    assert forall j :: 0 <= j < i ==> s[..i][j] == s[j];
    var k :| 0 <= k < |s| && f(s[k]) == Err(MapResult(s, f).error) && forall j :: 0 <= j < k ==> f(s[j]).Ok?;
    assert k == i;
  }

  /** `[x for x in s if p(x)]`. */
  function Filter<T(!new)>(s: seq<T>, p: T -> bool): (r: seq<T>)
    ensures forall x :: x in r <==> x in s && p(x)
    ensures |r| <= |s|
  {
    if |s| == 0 then []
    else
      assert forall x :: x in s <==> x == s[0] || x in s[1..];
      (if p(s[0]) then [s[0]] else []) + Filter(s[1..], p)
  }

  lemma {:induction false} FilterAppend<T(!new)>(s: seq<T>, x: T, p: T -> bool)
    ensures Filter(s + [x], p) == Filter(s, p) + (if p(x) then [x] else [])
  {
    if |s| == 0 {
      assert s + [x] == [x];
    } else {
      assert (s + [x])[1..] == s[1..] + [x];
      FilterAppend(s[1..], x, p);
    }
  }

  predicate Distinct<T(==)>(s: seq<T>)
  {
    forall i, j :: 0 <= i < j < |s| ==> s[i] != s[j]
  }

  /** The elements in order of first occurrence, each once: `list(dict.fromkeys(s))`. */
  function Unique<T(==, !new)>(s: seq<T>): (r: seq<T>)
    ensures Distinct(r)
    ensures forall x :: x in r <==> x in s
    decreases |s|
  {
    if |s| == 0 then []
    else
      var init := s[..|s| - 1];
      assert forall x :: x in s <==> x in init || x == s[|s| - 1];
      var u := Unique(init);
      if s[|s| - 1] in u then u else u + [s[|s| - 1]]
  }

  /** The present values, in order: what a loop appending every non-`None` result keeps. */
  function Somes<T>(s: seq<Option<T>>): (r: seq<T>)
    ensures |r| <= |s|
    decreases |s|
  {
    if |s| == 0 then []
    else
      var rest := Somes(s[..|s| - 1]);
      match s[|s| - 1]
      case Some(x) => rest + [x]
      case None => rest
  }

  /** Nothing is kept exactly when every value is `None`, and what is kept is the present values. */
  lemma {:induction false} SomesContents<T>(s: seq<Option<T>>)
    ensures |Somes(s)| == 0 <==> forall i :: 0 <= i < |s| ==> s[i].None?
    ensures forall x :: x in Somes(s) <==> Some(x) in s
    decreases |s|
  {
    if |s| > 0 {
      var init := s[..|s| - 1];
      SomesContents(init);
      assert forall i :: 0 <= i < |init| ==> s[i] == init[i];
      assert forall o :: o in s <==> o in init || o == s[|s| - 1];
    }
  }

  /** One more value: it is appended when present. */
  lemma SomesStep<T>(s: seq<Option<T>>, i: nat)
    requires i < |s|
    ensures s[i].Some? ==> Somes(s[..i + 1]) == Somes(s[..i]) + [s[i].value]
    ensures s[i].None? ==> Somes(s[..i + 1]) == Somes(s[..i])
  {
    assert s[..i + 1][..i] == s[..i];
  }

  /**
   * Keeping the present results of a comprehension that succeeded: nothing
   * is kept exactly when every result is `None`, and what is kept is what
   * some element gave.
   */
  lemma MapResultSomes<T, U>(s: seq<T>, f: T -> Result<Option<U>>)
    requires MapResult(s, f).Ok?
    ensures var kept := Somes(MapResult(s, f).value);
            && (|kept| == 0 <==> forall x :: x in s ==> f(x) == Ok(None))
            && (forall y :: y in kept <==> exists x :: x in s && f(x) == Ok(Some(y)))
  {
    var os := MapResult(s, f).value;
    SomesContents(os);
    forall y ensures Some(y) in os <==> exists x :: x in s && f(x) == Ok(Some(y)) {
      if Some(y) in os {
        var i :| 0 <= i < |os| && os[i] == Some(y);
        assert s[i] in s && f(s[i]) == Ok(os[i]);
      }
      if exists x :: x in s && f(x) == Ok(Some(y)) {
        var x :| x in s && f(x) == Ok(Some(y));
        var i :| 0 <= i < |s| && s[i] == x;
        assert f(s[i]) == Ok(os[i]);
      }
    }
    if forall i :: 0 <= i < |os| ==> os[i].None? {
      forall x | x in s ensures f(x) == Ok(None) {
        var i :| 0 <= i < |s| && s[i] == x;
        assert f(s[i]) == Ok(os[i]);
      }
    } else {
      var i :| 0 <= i < |os| && os[i].Some?;
      assert f(s[i]) == Ok(os[i]);
      assert s[i] in s;
    }
  }
}
