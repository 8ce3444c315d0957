/** Order-preserving row filters and sorting: the boolean masks and
    `sort_values` calls that every script applies to its tables. */
module SeqUtil {
  import opened Common

  /** `idx` lists, in increasing order, positions of `s` whose elements
      are exactly `r`: `r` is `s` with some rows removed, order kept. */
  ghost predicate Picks<T>(r: seq<T>, s: seq<T>, idx: seq<nat>) {
    && |idx| == |r|
    && (forall i, j :: 0 <= i < j < |idx| ==> idx[i] < idx[j])
    && (forall k :: 0 <= k < |idx| ==> idx[k] < |s| && r[k] == s[idx[k]])
  }

  ghost predicate IsSubsequence<T>(r: seq<T>, s: seq<T>) {
    exists idx :: Picks(r, s, idx)
  }

  /** The rows of `s` for which the mask `p` holds (`df[mask]`). */
  function Filter<T>(s: seq<T>, p: T -> bool): (r: seq<T>)
    ensures |r| <= |s|
    ensures forall k :: 0 <= k < |r| ==> r[k] in s && p(r[k])
    ensures forall j :: 0 <= j < |s| && p(s[j]) ==> s[j] in r
    decreases |s|
  {
    if s == [] then []
    else
      var init := s[..|s| - 1];
      assert s == init + [s[|s| - 1]];
      Filter(init, p) + (if p(s[|s| - 1]) then [s[|s| - 1]] else [])
  }

  /** The positions of `s` that `Filter` keeps. */
  function FilterIndices<T>(s: seq<T>, p: T -> bool): (idx: seq<nat>)
    ensures |idx| == |Filter(s, p)|
    ensures forall k :: 0 <= k < |idx| ==> idx[k] < |s|
    decreases |s|
  {
    if s == [] then []
    else
      var n := |s| - 1;
      FilterIndices(s[..n], p) + (if p(s[n]) then [n] else [])
  }

  /** `Filter` takes the rows at the positions `FilterIndices` lists, in
      increasing order. */
  lemma {:induction false} FilterPicks<T>(s: seq<T>, p: T -> bool)
    ensures Picks(Filter(s, p), s, FilterIndices(s, p))
    decreases |s|
  {
    if s != [] {
      var n := |s| - 1;
      var init := s[..n];
      FilterPicks(init, p);
      var rest := FilterIndices(init, p);
      var f := Filter(init, p);
      var idx := FilterIndices(s, p);
      var r := Filter(s, p);
      assert idx == rest + (if p(s[n]) then [n] else []);
      assert r == f + (if p(s[n]) then [s[n]] else []);
      forall k | 0 <= k < |idx|
        ensures r[k] == s[idx[k]]
      {
        if k < |rest| {
          assert r[k] == f[k] == init[rest[k]];
        }
      }
    }
  }

  lemma FilterIsSubsequence<T>(s: seq<T>, p: T -> bool)
    ensures IsSubsequence(Filter(s, p), s)
  {
    FilterPicks(s, p);
  }

  /** A mask that holds of every row removes nothing. */
  lemma {:induction false} FilterAll<T>(s: seq<T>, p: T -> bool)
    requires forall k :: 0 <= k < |s| ==> p(s[k])
    ensures Filter(s, p) == s
    decreases |s|
  {
    if s != [] {
      var init := s[..|s| - 1];
      assert s == init + [s[|s| - 1]];
      FilterAll(init, p);
    }
  }

  /** Applying a weaker mask first changes nothing: `df[p][q] == df[q]`
      whenever `q` implies `p`. */
  lemma {:induction false} FilterNarrow<T>(s: seq<T>, p: T -> bool, q: T -> bool)
    requires forall x :: q(x) ==> p(x)
    ensures Filter(Filter(s, p), q) == Filter(s, q)
    decreases |s|
  {
    if s != [] {
      var init := s[..|s| - 1];
      var last := s[|s| - 1];
      FilterNarrow(init, p, q);
      FilterAppend(Filter(init, p), if p(last) then [last] else [], q);
    }
  }

  /** Two masks that agree on every row filter alike. */
  lemma {:induction false} FilterExtensional<T>(rows: seq<T>, p: T -> bool, q: T -> bool)
    requires forall x :: p(x) == q(x)
    ensures Filter(rows, p) == Filter(rows, q)
    decreases |rows|
  {
    if rows != [] {
      FilterExtensional(rows[..|rows| - 1], p, q);
    }
  }

  /** Filtering by `p` and then by `q` is filtering by their conjunction. */
  lemma {:induction false} FilterConjunction<T>(rows: seq<T>, p: T -> bool, q: T -> bool, both: T -> bool)
    requires forall x :: both(x) == (p(x) && q(x))
    ensures Filter(Filter(rows, p), q) == Filter(rows, both)
    decreases |rows|
  {
    if rows != [] {
      var init := rows[..|rows| - 1];
      var last := rows[|rows| - 1];
      FilterConjunction(init, p, q, both);
      FilterAppend(Filter(init, p), if p(last) then [last] else [], q);
    }
  }

  lemma {:induction false} FilterAppend<T>(a: seq<T>, b: seq<T>, p: T -> bool)
    ensures Filter(a + b, p) == Filter(a, p) + Filter(b, p)
    decreases |b|
  {
    if b == [] {
      assert a + b == a;
    } else {
      var initB := b[..|b| - 1];
      assert (a + b)[..|a + b| - 1] == a + initB;
      FilterAppend(a, initB, p);
    }
  }

  /** Filtering a row followed by more rows. */
  lemma FilterCons<T>(x: T, s: seq<T>, p: T -> bool)
    ensures Filter([x] + s, p) == (if p(x) then [x] else []) + Filter(s, p)
  {
    assert Filter([x], p) == (if p(x) then [x] else []) by {
      assert [x][..0] == [];
    }
    FilterAppend([x], s, p);
  }

  /** A sequence that maps the first `|ys|` elements of `xs` through `f`
      still does so after `f` of the next element is appended. */
  lemma ExtendMapped<T, U>(ys: seq<U>, xs: seq<T>, f: T -> U)
    requires |ys| < |xs|
    requires forall k :: 0 <= k < |ys| ==> ys[k] == f(xs[k])
    ensures forall k :: 0 <= k <= |ys| ==> (ys + [f(xs[|ys|])])[k] == f(xs[k])
  {
  }

  /** Number of rows of `s` for which `p` holds. */
  function Count<T>(s: seq<T>, p: T -> bool): (n: nat)
    ensures n <= |s|
    decreases |s|
  {
    if s == [] then 0
    else Count(s[..|s| - 1], p) + (if p(s[|s| - 1]) then 1 else 0)
  }

  /** The filter keeps as many rows as the mask counts. */
  lemma {:induction false} CountFilter<T>(s: seq<T>, p: T -> bool)
    ensures Count(s, p) == |Filter(s, p)|
    decreases |s|
  {
    if s != [] {
      CountFilter(s[..|s| - 1], p);
    }
  }

  lemma SubsequenceTransitive<T>(a: seq<T>, b: seq<T>, c: seq<T>)
    requires IsSubsequence(a, b) && IsSubsequence(b, c)
    ensures IsSubsequence(a, c)
  {
    var i1 :| Picks(a, b, i1);
    var i2 :| Picks(b, c, i2);
    var idx := seq(|i1|, k requires 0 <= k < |i1| => i2[i1[k]]);
    assert Picks(a, c, idx);
  }

  /** The position of the first element satisfying `p` (the first of a
      list comprehension's matches), if any. */
  function FirstIndex<T>(s: seq<T>, p: T -> bool): (r: Option<nat>)
    ensures r.Some? ==> r.value < |s| && p(s[r.value])
    ensures r.Some? ==> forall j :: 0 <= j < r.value ==> !p(s[j])
    ensures r.None? <==> forall j :: 0 <= j < |s| ==> !p(s[j])
    decreases |s|
  {
    if s == [] then None
    else if p(s[0]) then Some(0)
    else match FirstIndex(s[1..], p)
      case None => None
      case Some(i) => Some(i + 1)
  }

  /** Keep the rows satisfying `p` if there are any, otherwise keep every
      row (a filter with a fallback to the whole table). */
  function PreferMatching<T>(s: seq<T>, p: T -> bool): (r: seq<T>)
    ensures (exists i :: 0 <= i < |s| && p(s[i])) ==> r == Filter(s, p)
    ensures (forall i :: 0 <= i < |s| ==> !p(s[i])) ==> r == s
    ensures IsSubsequence(r, s)
    ensures r == [] <==> s == []
  {
    var matching := Filter(s, p);
    FilterIsSubsequence(s, p);
    if matching == [] then
      assert Picks(s, s, seq(|s|, k requires 0 <= k < |s| => k));
      s
    else
      assert matching[0] in s && p(matching[0]);
      matching
  }

  /** `df.head(n)`. */
  function Take<T>(s: seq<T>, n: nat): (r: seq<T>)
    ensures |r| == if |s| < n then |s| else n
    ensures forall k :: 0 <= k < |r| ==> r[k] == s[k]
  {
    if |s| < n then s else s[..n]
  }

  // ----- sorting by a real-valued key (`sort_values`) -----

  ghost predicate SortedByKey<T>(s: seq<T>, key: T -> real) {
    forall i, j :: 0 <= i < j < |s| ==> key(s[i]) <= key(s[j])
  }

  function Insert<T>(x: T, s: seq<T>, key: T -> real): (r: seq<T>)
    ensures multiset(r) == multiset(s) + multiset{x}
    decreases |s|
  {
    if s == [] then [x]
    else if key(x) <= key(s[0]) then [x] + s
    else
      assert s == [s[0]] + s[1..];
      [s[0]] + Insert(x, s[1..], key)
  }

  /** A lower bound on the keys of `x` and of `s` bounds every key of the
      insertion. */
  lemma {:induction false} InsertLowerBound<T>(x: T, s: seq<T>, key: T -> real, b: real)
    requires b <= key(x)
    requires forall k :: 0 <= k < |s| ==> b <= key(s[k])
    ensures forall k :: 0 <= k < |Insert(x, s, key)| ==> b <= key(Insert(x, s, key)[k])
    decreases |s|
  {
    if s != [] && key(s[0]) < key(x) {
      InsertLowerBound(x, s[1..], key, b);
    }
  }

  lemma {:induction false} InsertSorted<T>(x: T, s: seq<T>, key: T -> real)
    requires SortedByKey(s, key)
    ensures SortedByKey(Insert(x, s, key), key)
    decreases |s|
  {
    if s != [] && key(s[0]) < key(x) {
      var tail := Insert(x, s[1..], key);
      InsertSorted(x, s[1..], key);
      InsertLowerBound(x, s[1..], key, key(s[0]));
      assert Insert(x, s, key) == [s[0]] + tail;
    }
  }

  /** The rows of `s`, reordered so that `key` never decreases. */
  function SortByKey<T>(s: seq<T>, key: T -> real): (r: seq<T>)
    ensures SortedByKey(r, key)
    ensures multiset(r) == multiset(s)
    decreases |s|
  {
    if s == [] then []
    else
      assert s == s[..|s| - 1] + [s[|s| - 1]];
      var sorted := SortByKey(s[..|s| - 1], key);
      InsertSorted(s[|s| - 1], sorted, key);
      Insert(s[|s| - 1], sorted, key)
  }
}
