/** Sorting by a strict order. Where the order is total, only one arrangement is in order. */
module Ordering {
  import opened Collections

  ghost predicate InOrder<T(!new)>(xs: seq<T>, before: (T, T) -> bool) {
    forall i, j :: 0 <= i < j < |xs| ==> before(xs[i], xs[j])
  }

  /** A strict total order on the elements of xs. */
  ghost predicate OrdersStrictly<T(!new)>(before: (T, T) -> bool, xs: seq<T>) {
    && (forall x <- xs :: !before(x, x))
    && (forall x, y :: x in xs && y in xs && x != y ==> before(x, y) || before(y, x))
    && (forall x, y, z :: x in xs && y in xs && z in xs && before(x, y) && before(y, z) ==> before(x, z))
  }

  function Insert<T>(x: T, sorted: seq<T>, before: (T, T) -> bool): seq<T> {
    if sorted == [] then [x]
    else if before(x, sorted[0]) then [x] + sorted
    else [sorted[0]] + Insert(x, sorted[1..], before)
  }

  function Sort<T>(xs: seq<T>, before: (T, T) -> bool): seq<T> {
    if xs == [] then [] else Insert(xs[0], Sort(xs[1..], before), before)
  }

  lemma {:induction false} InsertAdds<T>(x: T, sorted: seq<T>, before: (T, T) -> bool)
    ensures multiset(Insert(x, sorted, before)) == multiset{x} + multiset(sorted)
  {
    if sorted != [] {
      assert sorted == [sorted[0]] + sorted[1..];
      if !before(x, sorted[0]) { InsertAdds(x, sorted[1..], before); }
    }
  }

  lemma {:induction false} SortPermutes<T>(xs: seq<T>, before: (T, T) -> bool)
    ensures multiset(Sort(xs, before)) == multiset(xs)
  {
    if xs != [] {
      assert xs == [xs[0]] + xs[1..];
      SortPermutes(xs[1..], before);
      InsertAdds(xs[0], Sort(xs[1..], before), before);
    }
  }

  lemma SameMembers<T>(xs: seq<T>, ys: seq<T>)
    requires multiset(xs) == multiset(ys)
    ensures |xs| == |ys|
    ensures forall x :: x in xs <==> x in ys
  {
    assert |multiset(xs)| == |multiset(ys)|;
    assert forall x :: x in xs <==> x in multiset(xs);
    assert forall x :: x in ys <==> x in multiset(ys);
  }

  lemma {:induction false} InsertKeepsOrder<T(!new)>(x: T, sorted: seq<T>, before: (T, T) -> bool)
    requires InOrder(sorted, before) && x !in sorted && OrdersStrictly(before, [x] + sorted)
    ensures InOrder(Insert(x, sorted, before), before)
  {
    if sorted != [] {
      var all, rest := [x] + sorted, sorted[1..];
      assert all[0] == x && all[1] == sorted[0];
      assert x in all && sorted[0] in all && forall y <- sorted :: y in all;
      if before(x, sorted[0]) {
        forall j | 0 <= j < |sorted| ensures before(x, sorted[j]) {
          if j > 0 { assert before(sorted[0], sorted[j]); }
        }
      } else {
        InsertKeepsOrder(x, rest, before);
        InsertAdds(x, rest, before);
        var tail := Insert(x, rest, before);
        assert before(sorted[0], x);
        forall y <- tail ensures before(sorted[0], y) {
          assert y in multiset(tail);
          if y != x {
            var j :| 0 <= j < |rest| && rest[j] == y;
            assert before(sorted[0], sorted[j + 1]);
          }
        }
      }
    }
  }

  lemma {:induction false} SortOrders<T(!new)>(xs: seq<T>, before: (T, T) -> bool)
    requires Distinct(xs) && OrdersStrictly(before, xs)
    ensures InOrder(Sort(xs, before), before)
  {
    if xs != [] {
      var rest := xs[1..];
      assert forall x <- rest :: x in xs;
      SortOrders(rest, before);
      SortPermutes(rest, before);
      SameMembers(Sort(rest, before), rest);
      assert forall x <- [xs[0]] + Sort(rest, before) :: x in xs;
      InsertKeepsOrder(xs[0], Sort(rest, before), before);
    }
  }

  lemma SameHead<T(!new)>(xs: seq<T>, ys: seq<T>, before: (T, T) -> bool)
    requires xs != [] && |xs| == |ys| && forall x :: x in xs <==> x in ys
    requires OrdersStrictly(before, xs) && InOrder(xs, before) && InOrder(ys, before)
    ensures xs[0] == ys[0]
  {
    assert xs[0] in ys && ys[0] in xs;
    var i :| 0 <= i < |ys| && ys[i] == xs[0];
    var j :| 0 <= j < |xs| && xs[j] == ys[0];
  }

  lemma TailMultiset<T>(xs: seq<T>)
    requires xs != []
    ensures multiset(xs[1..]) == multiset(xs) - multiset{xs[0]}
  {
    assert xs == [xs[0]] + xs[1..];
  }

  lemma CutAt<T>(xs: seq<T>, i: nat)
    requires i < |xs|
    ensures xs == xs[..i] + ([xs[i]] + xs[i + 1..])
  {
  }

  lemma RemovedAt<T>(xs: seq<T>, i: nat)
    requires i < |xs|
    ensures multiset(xs[..i] + xs[i + 1..]) == multiset(xs) - multiset{xs[i]}
  {
    assert xs == xs[..i] + [xs[i]] + xs[i + 1..];
  }

  /** At most one arrangement of given elements is in order. */
  lemma {:induction false} InOrderIsUnique<T(!new)>(xs: seq<T>, ys: seq<T>, before: (T, T) -> bool)
    requires multiset(xs) == multiset(ys)
    requires OrdersStrictly(before, xs) && InOrder(xs, before) && InOrder(ys, before)
    ensures xs == ys
  {
    SameMembers(xs, ys);
    if xs != [] {
      SameHead(xs, ys, before);
      TailMultiset(xs);
      TailMultiset(ys);
      assert forall x <- xs[1..] :: x in xs;
      InOrderIsUnique(xs[1..], ys[1..], before);
    }
  }
}
