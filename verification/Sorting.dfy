/** Sorting by a numeric rank, as the library sort does it, and why the result does not depend on the input order. */
module Sorting {

  function Insert<T>(x: T, s: seq<T>, rank: T -> int): (r: seq<T>)
    ensures |r| == |s| + 1
  {
    if s == [] || rank(x) <= rank(s[0]) then [x] + s else [s[0]] + Insert(x, s[1..], rank)
  }

  function Sort<T>(s: seq<T>, rank: T -> int): (r: seq<T>)
    ensures |r| == |s|
  {
    if s == [] then [] else Insert(s[0], Sort(s[1..], rank), rank)
  }

  predicate Sorted<T>(s: seq<T>, rank: T -> int) {
    forall i, j :: 0 <= i < j < |s| ==> rank(s[i]) <= rank(s[j])
  }

  ghost predicate Injective<T(!new)>(rank: T -> int) {
    forall x, y :: rank(x) == rank(y) ==> x == y
  }

  lemma {:induction false} InsertSorts<T>(x: T, s: seq<T>, rank: T -> int)
    requires Sorted(s, rank)
    ensures Sorted(Insert(x, s, rank), rank) && multiset(Insert(x, s, rank)) == multiset(s) + multiset{x}
  {
    if s == [] || rank(x) <= rank(s[0]) {
      InFront(x, s, rank);
    } else {
      TailSorted(s, rank);
      InsertSorts(x, s[1..], rank);
      var rest := Insert(x, s[1..], rank);
      Prefixed(s[0], rest, x, s[1..], rank);
      MovedIn(s, rest, x);
    }
  }

  lemma InFront<T>(x: T, s: seq<T>, rank: T -> int)
    requires Sorted(s, rank) && (s != [] ==> rank(x) <= rank(s[0]))
    ensures Sorted([x] + s, rank) && multiset([x] + s) == multiset(s) + multiset{x}
  {
  }

  lemma MovedIn<T>(s: seq<T>, rest: seq<T>, x: T)
    requires s != [] && multiset(rest) == multiset(s[1..]) + multiset{x}
    ensures multiset([s[0]] + rest) == multiset(s) + multiset{x}
  {
    assert s == [s[0]] + s[1..];
  }

  lemma Prefixed<T>(first: T, rest: seq<T>, x: T, tail: seq<T>, rank: T -> int)
    requires Sorted(rest, rank) && multiset(rest) == multiset(tail) + multiset{x}
    requires rank(first) <= rank(x) && forall i :: 0 <= i < |tail| ==> rank(first) <= rank(tail[i])
    ensures Sorted([first] + rest, rank)
  {
    forall i | 0 <= i < |rest|
      ensures rank(first) <= rank(rest[i])
    {
      assert rest[i] in multiset(tail) + multiset{x};
    }
  }

  lemma {:induction false} SortSorts<T>(s: seq<T>, rank: T -> int)
    ensures Sorted(Sort(s, rank), rank) && multiset(Sort(s, rank)) == multiset(s)
  {
    if s != [] {
      SortSorts(s[1..], rank);
      InsertSorts(s[0], Sort(s[1..], rank), rank);
      assert s == [s[0]] + s[1..];
    }
  }

  lemma TailMultiset<T>(s: seq<T>)
    requires s != []
    ensures multiset(s[1..]) == multiset(s) - multiset{s[0]}
  {
    assert s == [s[0]] + s[1..];
  }

  lemma SameFirst<T>(a: seq<T>, b: seq<T>, rank: T -> int)
    requires a != [] && b != [] && Sorted(a, rank) && Sorted(b, rank) && multiset(a) == multiset(b)
    ensures rank(a[0]) == rank(b[0]) && b[0] in a
  {
    assert a[0] in multiset(b) && b[0] in multiset(a);
    var i :| 0 <= i < |b| && b[i] == a[0];
    var j :| 0 <= j < |a| && a[j] == b[0];
  }

  /** Equal elements in rank order can only be arranged in one way when ranks tell elements apart. */
  lemma {:induction false} SortedUnique<T>(a: seq<T>, b: seq<T>, rank: T -> int)
    requires Sorted(a, rank) && Sorted(b, rank) && multiset(a) == multiset(b)
    requires TellsApart(rank, a)
    ensures a == b
  {
    SameLength(a, b);
    if a != [] {
      FirstAgrees(a, b, rank);
      TailsAgree(a, b);
      TailSorted(a, rank);
      TailSorted(b, rank);
      TailApart(a, rank);
      SortedUnique(a[1..], b[1..], rank);
      assert a == [a[0]] + a[1..] && b == [b[0]] + b[1..];
    }
  }

  /** Elements of s with one rank are one element. */
  predicate TellsApart<T(==)>(rank: T -> int, s: seq<T>) {
    forall i, j :: 0 <= i < |s| && 0 <= j < |s| && rank(s[i]) == rank(s[j]) ==> s[i] == s[j]
  }

  lemma FirstAgrees<T>(a: seq<T>, b: seq<T>, rank: T -> int)
    requires a != [] && b != [] && Sorted(a, rank) && Sorted(b, rank) && multiset(a) == multiset(b)
             && TellsApart(rank, a)
    ensures a[0] == b[0]
  {
    SameFirst(a, b, rank);
  }

  lemma TailsAgree<T>(a: seq<T>, b: seq<T>)
    requires a != [] && b != [] && a[0] == b[0] && multiset(a) == multiset(b)
    ensures multiset(a[1..]) == multiset(b[1..])
  {
    TailMultiset(a);
    TailMultiset(b);
  }

  lemma SameLength<T>(a: seq<T>, b: seq<T>)
    requires multiset(a) == multiset(b)
    ensures |a| == |b|
  {
    assert |multiset(a)| == |a| && |multiset(b)| == |b|;
  }

  lemma TailSorted<T>(s: seq<T>, rank: T -> int)
    requires s != [] && Sorted(s, rank)
    ensures Sorted(s[1..], rank)
  {
  }

  lemma TailApart<T>(s: seq<T>, rank: T -> int)
    requires s != [] && TellsApart(rank, s)
    ensures TellsApart(rank, s[1..])
  {
  }

  /** Sorting forgets the order of its input. */
  lemma SortForgetsOrder<T>(a: seq<T>, b: seq<T>, rank: T -> int)
    requires multiset(a) == multiset(b)
    requires forall x, y :: x in a && y in a && rank(x) == rank(y) ==> x == y
    ensures Sort(a, rank) == Sort(b, rank)
  {
    SortSorts(a, rank);
    SortSorts(b, rank);
    var s := Sort(a, rank);
    forall i | 0 <= i < |s|
      ensures s[i] in a
    {
      assert s[i] in multiset(s);
    }
    SortedUnique(s, Sort(b, rank), rank);
  }
}
