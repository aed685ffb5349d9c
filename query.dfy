/** The relational operations the handlers use on a table held as a sequence of
    rows: `WHERE` (Filter), first row of a `WHERE` (FirstMatch) and
    `ORDER BY key DESC` (SortDesc). */
module Query {
  import opened Wrappers

  /** The position of the first row satisfying `p`, if any. */
  function FirstMatch<T>(s: seq<T>, p: T -> bool): (r: Option<nat>)
    ensures r.Some? ==> r.value < |s| && p(s[r.value]) && forall j :: 0 <= j < r.value ==> !p(s[j])
    ensures r.None? <==> forall j :: 0 <= j < |s| ==> !p(s[j])
  {
    if s == [] then None
    else if p(s[0]) then Some(0)
    else
      match FirstMatch(s[1..], p)
      case None => None
      case Some(i) => Some(i + 1)
  }

  /** The first row satisfying `p`, if any: `select ... where p` read at `[0]`. */
  function FirstRow<T>(s: seq<T>, p: T -> bool): (r: Option<T>)
    ensures r.Some? ==> r.value in s && p(r.value)
    ensures r.None? <==> forall j :: 0 <= j < |s| ==> !p(s[j])
  {
    match FirstMatch(s, p)
    case None => None
    case Some(i) => Some(s[i])
  }

  /** Appending a row changes the first match only when there was none before. */
  lemma FirstRowAppend<T>(s: seq<T>, x: T, p: T -> bool)
    ensures FirstRow(s + [x], p) == if FirstRow(s, p).Some? then FirstRow(s, p) else if p(x) then Some(x) else None
  {
    var t := s + [x];
    match FirstMatch(s, p)
    case Some(i) =>
      assert t[i] == s[i];
    case None =>
      if p(x) {
        assert t[|s|] == x;
      } else {
        forall j | 0 <= j < |t| ensures !p(t[j]) {
          if j < |s| { assert t[j] == s[j]; }
        }
      }
  }

  /** A scan for the first row satisfying `p`, stopping there. */
  method FindFirst<T>(s: seq<T>, p: T -> bool) returns (r: Option<T>)
    ensures r == FirstRow(s, p)
  {
    var i := 0;
    while i < |s| && !p(s[i])
      invariant 0 <= i <= |s|
      invariant forall j :: 0 <= j < i ==> !p(s[j])
    {
      i := i + 1;
    }
    if i == |s| {
      return None;
    }
    r := Some(s[i]);
  }

  /** The rows satisfying `p`, in table order. */
  function Filter<T>(s: seq<T>, p: T -> bool): (r: seq<T>)
    ensures |r| <= |s|
    ensures forall k :: 0 <= k < |r| ==> r[k] in s && p(r[k])
    ensures forall k :: 0 <= k < |s| && p(s[k]) ==> s[k] in r
  {
    if s == [] then []
    else (if p(s[0]) then [s[0]] else []) + Filter(s[1..], p)
  }

  /** Filtering keeps each satisfying row exactly as often as it occurs, and drops the others. */
  lemma {:induction false} FilterMultiset<T>(s: seq<T>, p: T -> bool, x: T)
    ensures multiset(Filter(s, p))[x] == if p(x) then multiset(s)[x] else 0
  {
    if s != [] {
      FilterMultiset(s[1..], p, x);
      assert s == [s[0]] + s[1..];
    }
  }

  lemma {:induction false} FilterAppend<T>(s: seq<T>, x: T, p: T -> bool)
    ensures Filter(s + [x], p) == Filter(s, p) + (if p(x) then [x] else [])
  {
    if s != [] {
      assert (s + [x])[1..] == s[1..] + [x];
      FilterAppend(s[1..], x, p);
    }
  }

  lemma {:induction false} FilterAll<T>(s: seq<T>, p: T -> bool)
    requires forall k :: 0 <= k < |s| ==> p(s[k])
    ensures Filter(s, p) == s
  {
    if s != [] {
      FilterAll(s[1..], p);
    }
  }

  predicate NonIncreasing<T>(s: seq<T>, key: T -> int) {
    forall i, j :: 0 <= i < j < |s| ==> key(s[i]) >= key(s[j])
  }

  /** Inserts `x` into a non-increasing sequence, keeping it non-increasing. */
  function InsertDesc<T>(x: T, s: seq<T>, key: T -> int): (r: seq<T>)
    requires NonIncreasing(s, key)
    ensures NonIncreasing(r, key)
    ensures multiset(r) == multiset(s) + multiset{x}
    ensures |r| == |s| + 1
    ensures r[0] == x || (|s| > 0 && r[0] == s[0])
  {
    if s == [] then [x]
    else if key(x) >= key(s[0]) then [x] + s
    else
      var rest := s[1..];
      assert s == [s[0]] + rest;
      assert forall k :: 0 <= k < |rest| ==> key(rest[k]) <= key(s[0]) by {
        forall k | 0 <= k < |rest| ensures key(rest[k]) <= key(s[0]) { assert rest[k] == s[k + 1]; }
      }
      assert NonIncreasing(rest, key) by {
        forall i, j | 0 <= i < j < |rest| ensures key(rest[i]) >= key(rest[j]) {
          assert rest[i] == s[i + 1] && rest[j] == s[j + 1];
        }
      }
      var tail := InsertDesc(x, rest, key);
      assert key(tail[0]) <= key(s[0]);
      [s[0]] + tail
  }

  /** `ORDER BY key DESC`: a permutation of the rows with keys non-increasing;
      the relative order of rows with equal keys is not specified. */
  function SortDesc<T>(s: seq<T>, key: T -> int): (r: seq<T>)
    ensures NonIncreasing(r, key)
    ensures multiset(r) == multiset(s)
    ensures |r| == |s|
  {
    if s == [] then []
    else
      assert s == [s[0]] + s[1..];
      InsertDesc(s[0], SortDesc(s[1..], key), key)
  }

  predicate IncreasingBy<T>(s: seq<T>, key: T -> int) {
    forall i, j :: 0 <= i < j < |s| ==> key(s[i]) < key(s[j])
  }

  predicate DistinctBy<T, U(==)>(s: seq<T>, key: T -> U) {
    forall i, j :: 0 <= i < j < |s| ==> key(s[i]) != key(s[j])
  }

  /** Every kept row's key stays above a bound all rows' keys were above. */
  lemma {:induction false} FilterKeyAbove<T>(s: seq<T>, key: T -> int, p: T -> bool, bound: int)
    requires forall k :: 0 <= k < |s| ==> bound < key(s[k])
    ensures forall k :: 0 <= k < |Filter(s, p)| ==> bound < key(Filter(s, p)[k])
  {
    if s != [] {
      FilterKeyAbove(s[1..], key, p, bound);
    }
  }

  /** No kept row has a key value that no row had. */
  lemma {:induction false} FilterKeyAvoids<T, U>(s: seq<T>, key: T -> U, p: T -> bool, v: U)
    requires forall k :: 0 <= k < |s| ==> key(s[k]) != v
    ensures forall k :: 0 <= k < |Filter(s, p)| ==> key(Filter(s, p)[k]) != v
  {
    if s != [] {
      FilterKeyAvoids(s[1..], key, p, v);
    }
  }

  /** A row whose key is below every key of an increasing sequence can be put in front of it. */
  lemma PrependIncreasing<T>(x: T, s: seq<T>, key: T -> int)
    requires IncreasingBy(s, key)
    requires forall k :: 0 <= k < |s| ==> key(x) < key(s[k])
    ensures IncreasingBy([x] + s, key)
  {
    var r := [x] + s;
    forall i, j | 0 <= i < j < |r| ensures key(r[i]) < key(r[j]) {
      assert r[j] == s[j - 1];
      if i > 0 {
        assert r[i] == s[i - 1];
      }
    }
  }

  /** A row whose key is above every key of an increasing sequence can be put after it. */
  lemma AppendIncreasing<T>(s: seq<T>, x: T, key: T -> int)
    requires IncreasingBy(s, key)
    requires forall k :: 0 <= k < |s| ==> key(s[k]) < key(x)
    ensures IncreasingBy(s + [x], key)
  {
    var r := s + [x];
    forall i, j | 0 <= i < j < |r| ensures key(r[i]) < key(r[j]) {
      assert r[i] == s[i];
      if j < |s| {
        assert r[j] == s[j];
      }
    }
  }

  /** Deleting rows keeps a strictly increasing key strictly increasing. */
  lemma {:induction false} FilterKeepsIncreasing<T>(s: seq<T>, key: T -> int, p: T -> bool)
    requires IncreasingBy(s, key)
    ensures IncreasingBy(Filter(s, p), key)
  {
    if s != [] {
      var rest := s[1..];
      assert IncreasingBy(rest, key) by {
        forall i, j | 0 <= i < j < |rest| ensures key(rest[i]) < key(rest[j]) {
          assert rest[i] == s[i + 1] && rest[j] == s[j + 1];
        }
      }
      FilterKeepsIncreasing(rest, key, p);
      var tail := Filter(rest, p);
      if p(s[0]) {
        assert forall k :: 0 <= k < |rest| ==> key(s[0]) < key(rest[k]) by {
          forall k | 0 <= k < |rest| ensures key(s[0]) < key(rest[k]) { assert rest[k] == s[k + 1]; }
        }
        FilterKeyAbove(rest, key, p, key(s[0]));
        PrependIncreasing(s[0], tail, key);
        assert Filter(s, p) == [s[0]] + tail;
      } else {
        assert Filter(s, p) == tail;
      }
    }
  }

  /** Deleting rows keeps a unique key unique. */
  lemma {:induction false} FilterKeepsDistinct<T, U>(s: seq<T>, key: T -> U, p: T -> bool)
    requires DistinctBy(s, key)
    ensures DistinctBy(Filter(s, p), key)
  {
    if s != [] {
      var rest := s[1..];
      assert DistinctBy(rest, key) by {
        forall i, j | 0 <= i < j < |rest| ensures key(rest[i]) != key(rest[j]) {
          assert rest[i] == s[i + 1] && rest[j] == s[j + 1];
        }
      }
      FilterKeepsDistinct(rest, key, p);
      var tail := Filter(rest, p);
      if p(s[0]) {
        assert forall k :: 0 <= k < |rest| ==> key(rest[k]) != key(s[0]) by {
          forall k | 0 <= k < |rest| ensures key(rest[k]) != key(s[0]) { assert rest[k] == s[k + 1]; }
        }
        FilterKeyAvoids(rest, key, p, key(s[0]));
        var r := [s[0]] + tail;
        assert Filter(s, p) == r;
        forall i, j | 0 <= i < j < |r| ensures key(r[i]) != key(r[j]) {
          assert r[j] == tail[j - 1];
          if i > 0 {
            assert r[i] == tail[i - 1];
          }
        }
      }
    }
  }
}
