/** Small facts about maps, sequences and orders that several models share. */
module Collections {

  datatype Option<+T> = None | Some(value: T)

  /** The sum of a map's values; the order in which they are added is irrelevant (TotalRemove). */
  ghost function Total<K>(m: map<K, nat>): nat {
    if m == map[] then 0
    else var k :| k in m; m[k] + Total(m - {k})
  }

  lemma {:induction false} TotalRemove<K>(m: map<K, nat>, k: K)
    requires k in m
    ensures Total(m) == m[k] + Total(m - {k})
    decreases m
  {
    var j :| j in m && Total(m) == m[j] + Total(m - {j});
    if j != k {
      TotalRemove(m - {j}, k);
      TotalRemove(m - {k}, j);
      assert m - {j} - {k} == m - {k} - {j};
    }
  }

  lemma TotalInsert<K>(m: map<K, nat>, k: K, v: nat)
    ensures Total(m[k := v]) == v + Total(m - {k})
  {
    TotalRemove(m[k := v], k);
    assert m[k := v] - {k} == m - {k};
  }

  /** A counter map reads as zero where it has no entry, as a Go map does. */
  function CountAt<K>(m: map<K, nat>, k: K): nat {
    if k in m then m[k] else 0
  }

  function Bumped<K>(m: map<K, nat>, k: K): map<K, nat> {
    m[k := CountAt(m, k) + 1]
  }

  /** Raising one counter by one raises the sum by one. */
  lemma TotalBump<K>(m: map<K, nat>, k: K)
    ensures Total(Bumped(m, k)) == Total(m) + 1
  {
    TotalInsert(m, k, CountAt(m, k) + 1);
    if k in m { TotalRemove(m, k); } else { assert m - {k} == m; }
  }

  lemma {:induction false} TotalMonotone<K>(m: map<K, nat>, n: map<K, nat>)
    requires forall k <- m :: k in n && m[k] <= n[k]
    ensures Total(m) <= Total(n)
    decreases m
  {
    if m != map[] {
      var k :| k in m;
      TotalRemove(m, k);
      TotalRemove(n, k);
      TotalMonotone(m - {k}, n - {k});
    }
  }

  function Filter<T>(xs: seq<T>, keep: T -> bool): (r: seq<T>) {
    if xs == [] then []
    else (if keep(xs[0]) then [xs[0]] else []) + Filter(xs[1..], keep)
  }

  lemma {:induction false} FilterMembers<T>(xs: seq<T>, keep: T -> bool)
    ensures forall x :: x in Filter(xs, keep) <==> x in xs && keep(x)
    ensures |Filter(xs, keep)| <= |xs|
  {
    if xs != [] {
      FilterMembers(xs[1..], keep);
      assert xs == [xs[0]] + xs[1..];
    }
  }

  lemma Associates<T>(a: seq<T>, b: seq<T>, c: seq<T>)
    ensures a + (b + c) == (a + b) + c
  {
  }

  lemma {:induction false} FilterAppend<T>(xs: seq<T>, ys: seq<T>, keep: T -> bool)
    ensures Filter(xs + ys, keep) == Filter(xs, keep) + Filter(ys, keep)
  {
    if xs == [] {
      assert xs + ys == ys;
    } else {
      FilterAppend(xs[1..], ys, keep);
      var all := xs + ys;
      var first := if keep(xs[0]) then [xs[0]] else [];
      assert all[0] == xs[0] && all[1..] == xs[1..] + ys;
      assert Filter(all, keep) == first + Filter(all[1..], keep);
      Associates(first, Filter(xs[1..], keep), Filter(ys, keep));
    }
  }

  lemma {:induction false} FilterMultiset<T(!new)>(xs: seq<T>, ys: seq<T>, keep: T -> bool)
    requires multiset(xs) == multiset(ys)
    ensures multiset(Filter(xs, keep)) == multiset(Filter(ys, keep))
  {
    var a, b := multiset(Filter(xs, keep)), multiset(Filter(ys, keep));
    forall x ensures a[x] == b[x] {
      FilterCount(xs, keep, x);
      FilterCount(ys, keep, x);
    }
  }

  lemma {:induction false} FilterCount<T>(xs: seq<T>, keep: T -> bool, x: T)
    ensures multiset(Filter(xs, keep))[x] == if keep(x) then multiset(xs)[x] else 0
  {
    if xs != [] {
      FilterCount(xs[1..], keep, x);
      assert xs == [xs[0]] + xs[1..];
      assert multiset(xs) == multiset{xs[0]} + multiset(xs[1..]);
      assert multiset(Filter(xs, keep)) ==
        multiset(if keep(xs[0]) then [xs[0]] else []) + multiset(Filter(xs[1..], keep));
    }
  }

  ghost predicate Distinct<T>(xs: seq<T>) {
    forall i, j :: 0 <= i < j < |xs| ==> xs[i] != xs[j]
  }

  lemma {:induction false} DistinctCardinality<T>(xs: seq<T>)
    requires Distinct(xs)
    ensures |set x | x in xs| == |xs|
  {
    var s := set x | x in xs;
    if xs == [] {
      assert s == {};
    } else {
      var rest := xs[..|xs| - 1];
      var last := xs[|xs| - 1];
      DistinctCardinality(rest);
      assert last !in (set x | x in rest);
      assert s == (set x | x in rest) + {last} by {
        assert xs == rest + [last];
      }
    }
  }

  /** Pigeonhole: a subset as large as its superset is all of it. */
  lemma SubsetOfSameSize<T>(a: set<T>, b: set<T>)
    requires a <= b
    requires |a| >= |b|
    ensures a == b
  {
    assert |b| == |a| + |b - a| by { assert b == a + (b - a); }
  }

  lemma SubsetSize<T>(a: set<T>, b: set<T>)
    requires a <= b
    ensures |a| <= |b|
  {
    assert b == a + (b - a);
  }
}
