/** The library calls `sort_by` and `sort_by_key`, as a stable insertion sort, and what lists and sets share. */
module Sorting {

  function Members<T(==)>(xs: seq<T>): set<T> {
    set x | x in xs
  }

  lemma SubsetSize<T>(a: set<T>, b: set<T>)
    requires a <= b
    ensures |a| <= |b|
  {
    assert b == a + (b - a);
  }

  ghost predicate TotalPreorder<T(!new)>(leq: (T, T) -> bool) {
    && (forall x, y :: leq(x, y) || leq(y, x))
    && (forall x, y, z :: leq(x, y) && leq(y, z) ==> leq(x, z))
  }

  ghost predicate Sorted<T>(leq: (T, T) -> bool, xs: seq<T>) {
    forall i, j :: 0 <= i < j < |xs| ==> leq(xs[i], xs[j])
  }

  /** Puts `x` in front of the first element that need not come before it. */
  function Insert<T>(leq: (T, T) -> bool, x: T, xs: seq<T>): seq<T> {
    if xs == [] then [x]
    else if leq(x, xs[0]) then [x] + xs
    else [xs[0]] + Insert(leq, x, xs[1..])
  }

  function SortBy<T>(leq: (T, T) -> bool, xs: seq<T>): seq<T> {
    if xs == [] then [] else Insert(leq, xs[0], SortBy(leq, xs[1..]))
  }

  lemma {:induction false} InsertKeepsElements<T>(leq: (T, T) -> bool, x: T, xs: seq<T>)
    ensures multiset(Insert(leq, x, xs)) == multiset(xs) + multiset{x}
  {
    if xs != [] && !leq(x, xs[0]) {
      InsertKeepsElements(leq, x, xs[1..]);
      assert xs == [xs[0]] + xs[1..];
    }
  }

  lemma {:induction false} InsertKeepsSorted<T(!new)>(leq: (T, T) -> bool, x: T, xs: seq<T>)
    requires TotalPreorder(leq) && Sorted(leq, xs)
    ensures Sorted(leq, Insert(leq, x, xs))
  {
    if xs != [] {
      if leq(x, xs[0]) {
        var r := [x] + xs;
        forall i, j | 0 <= i < j < |r|
          ensures leq(r[i], r[j])
        {
          if i == 0 {
            assert leq(x, xs[0]) && (j == 1 || leq(xs[0], xs[j - 1]));
          }
        }
      } else {
        InsertKeepsSorted(leq, x, xs[1..]);
        InsertKeepsElements(leq, x, xs[1..]);
        var rest := Insert(leq, x, xs[1..]);
        forall k | 0 <= k < |rest|
          ensures leq(xs[0], rest[k])
        {
          assert rest[k] in multiset(rest);
          if rest[k] != x {
            assert rest[k] in xs[1..];
          }
        }
      }
    }
  }

  /** The result is a permutation of the input, in order. */
  lemma {:induction false} SortBySorts<T(!new)>(leq: (T, T) -> bool, xs: seq<T>)
    requires TotalPreorder(leq)
    ensures Sorted(leq, SortBy(leq, xs))
    ensures multiset(SortBy(leq, xs)) == multiset(xs)
    ensures |SortBy(leq, xs)| == |xs|
  {
    if xs != [] {
      SortBySorts(leq, xs[1..]);
      InsertKeepsSorted(leq, xs[0], SortBy(leq, xs[1..]));
      InsertKeepsElements(leq, xs[0], SortBy(leq, xs[1..]));
      assert xs == [xs[0]] + xs[1..];
    }
    assert |multiset(SortBy(leq, xs))| == |SortBy(leq, xs)|;
  }

  ghost predicate Distinct<T>(xs: seq<T>) {
    forall i, j :: 0 <= i < j < |xs| ==> xs[i] != xs[j]
  }

  lemma {:induction false} MembersSize<T>(xs: seq<T>)
    requires Distinct(xs)
    ensures |Members(xs)| == |xs|
  {
    if xs == [] {
      assert Members(xs) == {};
    } else {
      var front, last := xs[..|xs| - 1], xs[|xs| - 1];
      MembersSize(front);
      assert xs == front + [last];
      assert Members(xs) == Members(front) + {last};
    }
  }

  /** Being free of duplicates is a property of the multiset. */
  lemma {:induction false} DistinctByCount<T(!new)>(xs: seq<T>)
    ensures Distinct(xs) <==> forall x :: multiset(xs)[x] <= 1
  {
    if xs != [] {
      var last, front := xs[|xs| - 1], xs[..|xs| - 1];
      DistinctByCount(front);
      assert xs == front + [last];
      assert Distinct(xs) <==> Distinct(front) && last !in front;
      if Distinct(xs) {
        assert multiset(front)[last] == 0;
      } else if Distinct(front) {
        assert last in multiset(front);
        assert multiset(xs)[last] == multiset(front)[last] + 1;
      } else {
        var x :| multiset(front)[x] > 1;
        assert multiset(xs)[x] >= multiset(front)[x];
      }
    }
  }

  /** Sorting a list of distinct elements lists the same elements once each. */
  lemma SortedListing<T(!new)>(leq: (T, T) -> bool, xs: seq<T>)
    requires TotalPreorder(leq) && Distinct(xs)
    ensures var sorted := SortBy(leq, xs);
      Sorted(leq, sorted) && Distinct(sorted) && |sorted| == |xs| && forall x :: x in sorted <==> x in xs
  {
    var sorted := SortBy(leq, xs);
    SortBySorts(leq, xs);
    DistinctByCount(xs);
    DistinctByCount(sorted);
    assert forall x :: x in sorted <==> x in multiset(sorted);
    assert forall x :: x in xs <==> x in multiset(xs);
  }
}
