/** Stable sorting by a key, as the built-in sorts of the source do it. */
module Sorting {

  function Insert<T>(x: T, ys: seq<T>, key: T -> real): seq<T> {
    if ys == [] || key(x) <= key(ys[0]) then [x] + ys else [ys[0]] + Insert(x, ys[1..], key)
  }

  /** Ascending by `key`, equal keys in their old order. */
  function SortAsc<T>(xs: seq<T>, key: T -> real): seq<T> {
    if xs == [] then [] else Insert(xs[0], SortAsc(xs[1..], key), key)
  }

  /** Descending by `key`, equal keys in their old order. */
  function SortDesc<T>(xs: seq<T>, key: T -> real): seq<T> {
    SortAsc(xs, Negated(key))
  }

  function Negated<T>(key: T -> real): T -> real {
    x => -key(x)
  }

  ghost predicate Sorted<T>(xs: seq<T>, key: T -> real) {
    forall i, j :: 0 <= i < j < |xs| ==> key(xs[i]) <= key(xs[j])
  }

  ghost predicate SortedDown<T>(xs: seq<T>, key: T -> real) {
    forall i, j :: 0 <= i < j < |xs| ==> key(xs[i]) >= key(xs[j])
  }

  ghost predicate Permutation<T>(xs: seq<T>, ys: seq<T>) {
    multiset(xs) == multiset(ys)
  }

  lemma {:induction false} InsertPermutes<T>(x: T, ys: seq<T>, key: T -> real)
    ensures multiset(Insert(x, ys, key)) == multiset{x} + multiset(ys)
  {
    if ys != [] && key(x) > key(ys[0]) {
      InsertPermutes(x, ys[1..], key);
      assert ys == [ys[0]] + ys[1..];
    }
  }

  lemma {:induction false} InsertSorted<T>(x: T, ys: seq<T>, key: T -> real)
    requires Sorted(ys, key)
    ensures Sorted(Insert(x, ys, key), key)
  {
    if ys == [] || key(x) <= key(ys[0]) {
      ConsSorted(x, ys, key);
    } else {
      var rest := Insert(x, ys[1..], key);
      InsertSorted(x, ys[1..], key);
      InsertPermutes(x, ys[1..], key);
      forall y | y in rest ensures key(ys[0]) <= key(y) {
        assert y in multiset(rest);
        assert y == x || y in ys[1..];
      }
      ConsSorted(ys[0], rest, key);
    }
  }

  lemma ConsSorted<T>(x: T, ys: seq<T>, key: T -> real)
    requires Sorted(ys, key) && (ys == [] || key(x) <= key(ys[0]) || forall y :: y in ys ==> key(x) <= key(y))
    ensures Sorted([x] + ys, key)
  {
    var zs := [x] + ys;
    forall i, j | 0 <= i < j < |zs| ensures key(zs[i]) <= key(zs[j]) {
      assert zs[j] == ys[j - 1] && ys[j - 1] in ys;
      assert j > 1 ==> key(ys[0]) <= key(ys[j - 1]);
    }
  }

  lemma {:induction false} SortAscSorts<T>(xs: seq<T>, key: T -> real)
    ensures Sorted(SortAsc(xs, key), key) && Permutation(SortAsc(xs, key), xs)
    ensures |SortAsc(xs, key)| == |xs|
  {
    if xs != [] {
      SortAscSorts(xs[1..], key);
      InsertSorted(xs[0], SortAsc(xs[1..], key), key);
      InsertPermutes(xs[0], SortAsc(xs[1..], key), key);
      assert xs == [xs[0]] + xs[1..];
    }
    PermutationSize(SortAsc(xs, key), xs);
  }

  lemma PermutationSize<T>(xs: seq<T>, ys: seq<T>)
    requires Permutation(xs, ys)
    ensures |xs| == |ys|
  {
    assert |multiset(xs)| == |xs| && |multiset(ys)| == |ys|;
  }

  lemma PermutationMembers<T>(xs: seq<T>, ys: seq<T>, x: T)
    requires Permutation(xs, ys)
    ensures x in xs <==> x in ys
  {
    assert x in multiset(xs) <==> x in multiset(ys);
  }

  lemma SortDescSorts<T>(xs: seq<T>, key: T -> real)
    ensures SortedDown(SortDesc(xs, key), key) && Permutation(SortDesc(xs, key), xs)
    ensures |SortDesc(xs, key)| == |xs|
  {
    SortAscSorts(xs, Negated(key));
  }

  /** Where a rank rises along the list, the sorted list orders equal keys by rank. */
  ghost predicate TiesByRank<T>(xs: seq<T>, key: T -> real, rank: T -> int) {
    forall i, j :: 0 <= i < j < |xs| && key(xs[i]) == key(xs[j]) ==> rank(xs[i]) < rank(xs[j])
  }

  lemma {:induction false} InsertTies<T>(x: T, ys: seq<T>, key: T -> real, rank: T -> int)
    requires TiesByRank(ys, key, rank) && forall y :: y in ys ==> rank(x) < rank(y)
    ensures TiesByRank(Insert(x, ys, key), key, rank)
  {
    if ys == [] || key(x) <= key(ys[0]) {
      forall j | 0 <= j < |ys| ensures rank(x) < rank(ys[j]) {
        assert ys[j] in ys;
      }
    } else {
      var rest := Insert(x, ys[1..], key);
      InsertTies(x, ys[1..], key, rank);
      InsertPermutes(x, ys[1..], key);
      forall j | 0 <= j < |rest| && key(ys[0]) == key(rest[j]) ensures rank(ys[0]) < rank(rest[j]) {
        assert rest[j] in multiset(rest);
        assert rest[j] in ys[1..];
        var k :| 0 <= k < |ys[1..]| && ys[1..][k] == rest[j];
        assert ys[k + 1] == rest[j];
      }
    }
  }

  lemma {:induction false} SortAscTies<T>(xs: seq<T>, key: T -> real, rank: T -> int)
    requires forall i, j :: 0 <= i < j < |xs| ==> rank(xs[i]) < rank(xs[j])
    ensures TiesByRank(SortAsc(xs, key), key, rank)
  {
    if xs != [] {
      SortAscTies(xs[1..], key, rank);
      SortAscSorts(xs[1..], key);
      forall y | y in SortAsc(xs[1..], key) ensures rank(xs[0]) < rank(y) {
        PermutationMembers(SortAsc(xs[1..], key), xs[1..], y);
        var k :| 0 <= k < |xs[1..]| && xs[1..][k] == y;
        assert xs[k + 1] == y;
      }
      InsertTies(xs[0], SortAsc(xs[1..], key), key, rank);
    }
  }

  lemma SortDescTies<T>(xs: seq<T>, key: T -> real, rank: T -> int)
    requires forall i, j :: 0 <= i < j < |xs| ==> rank(xs[i]) < rank(xs[j])
    ensures TiesByRank(SortDesc(xs, key), key, rank)
  {
    SortAscTies(xs, Negated(key), rank);
  }

  /** A permutation of a list without repetition has no repetition. */
  lemma PermutationDistinct<T>(xs: seq<T>, ys: seq<T>)
    requires Permutation(xs, ys) && forall i, j :: 0 <= i < j < |ys| ==> ys[i] != ys[j]
    ensures forall i, j :: 0 <= i < j < |xs| ==> xs[i] != xs[j]
  {
    forall i, j | 0 <= i < j < |xs| ensures xs[i] != xs[j] {
      if xs[i] == xs[j] {
        CountTwo(xs, i, j);
        CountOne(ys, xs[i]);
        assert false;
      }
    }
  }

  lemma CountTwo<T>(xs: seq<T>, i: nat, j: nat)
    requires i < j < |xs| && xs[i] == xs[j]
    ensures multiset(xs)[xs[i]] >= 2
  {
    assert xs == xs[..j] + xs[j..];
    assert xs[..j][i] in multiset(xs[..j]) && xs[j..][0] in multiset(xs[j..]);
  }

  lemma {:induction false} CountOne<T>(ys: seq<T>, y: T)
    requires forall i, j :: 0 <= i < j < |ys| ==> ys[i] != ys[j]
    ensures multiset(ys)[y] <= 1
  {
    if ys != [] {
      CountOne(ys[1..], y);
      assert ys == [ys[0]] + ys[1..];
      if ys[0] == y {
        assert y !in ys[1..];
        assert y !in multiset(ys[1..]);
      }
    }
  }
}
