/** Sorting by a total preorder, and when sorted permutations are unique. */
module Ordering {
  ghost predicate TotalPreorder<T(!new)>(leq: (T, T) -> bool) {
    && (forall a, b :: leq(a, b) || leq(b, a))
    && (forall a, b, c :: leq(a, b) && leq(b, c) ==> leq(a, c))
  }

  /** No two different elements of xs are tied. */
  ghost predicate NoTies<T(!new)>(leq: (T, T) -> bool, xs: seq<T>) {
    forall a, b :: a in xs && b in xs && leq(a, b) && leq(b, a) ==> a == b
  }

  ghost predicate SortedBy<T>(leq: (T, T) -> bool, xs: seq<T>) {
    forall i, j :: 0 <= i < j < |xs| ==> leq(xs[i], xs[j])
  }

  ghost predicate Permutation<T>(xs: seq<T>, ys: seq<T>) {
    multiset(xs) == multiset(ys)
  }

  function Insert<T>(leq: (T, T) -> bool, x: T, xs: seq<T>): seq<T> {
    if xs == [] || leq(x, xs[0]) then [x] + xs else [xs[0]] + Insert(leq, x, xs[1..])
  }

  function Sort<T>(leq: (T, T) -> bool, xs: seq<T>): seq<T> {
    if xs == [] then [] else Insert(leq, xs[0], Sort(leq, xs[1..]))
  }

  lemma InPermutation<T>(xs: seq<T>, ys: seq<T>, x: T)
    requires Permutation(xs, ys) && x in xs
    ensures x in ys
  {
    assert x in multiset(xs);
  }

  lemma NoTiesPermuted<T(!new)>(leq: (T, T) -> bool, xs: seq<T>, ys: seq<T>)
    requires Permutation(xs, ys) && NoTies(leq, ys)
    ensures NoTies(leq, xs)
  {
    forall a, b | a in xs && b in xs && leq(a, b) && leq(b, a) ensures a == b {
      InPermutation(xs, ys, a);
      InPermutation(xs, ys, b);
    }
  }

  lemma {:induction false} InsertPermutes<T(!new)>(leq: (T, T) -> bool, x: T, xs: seq<T>)
    ensures Permutation(Insert(leq, x, xs), [x] + xs)
  {
    if xs != [] && !leq(x, xs[0]) {
      InsertPermutes(leq, x, xs[1..]);
      assert [x] + xs == [x] + ([xs[0]] + xs[1..]);
    }
  }

  lemma ConsSorted<T(!new)>(leq: (T, T) -> bool, x: T, xs: seq<T>)
    requires SortedBy(leq, xs) && forall i :: 0 <= i < |xs| ==> leq(x, xs[i])
    ensures SortedBy(leq, [x] + xs)
  {
  }

  lemma {:induction false} InsertSorts<T(!new)>(leq: (T, T) -> bool, x: T, xs: seq<T>)
    requires TotalPreorder(leq) && SortedBy(leq, xs)
    ensures SortedBy(leq, Insert(leq, x, xs))
  {
    if xs == [] {
    } else if leq(x, xs[0]) {
      assert forall i :: 0 <= i < |xs| ==> leq(x, xs[i]);
      ConsSorted(leq, x, xs);
    } else {
      var rest := Insert(leq, x, xs[1..]);
      InsertSorts(leq, x, xs[1..]);
      InsertPermutes(leq, x, xs[1..]);
      forall i | 0 <= i < |rest| ensures leq(xs[0], rest[i]) {
        InPermutation(rest, [x] + xs[1..], rest[i]);
      }
      ConsSorted(leq, xs[0], rest);
    }
  }

  lemma {:induction false} SortSorts<T(!new)>(leq: (T, T) -> bool, xs: seq<T>)
    requires TotalPreorder(leq)
    ensures SortedBy(leq, Sort(leq, xs)) && Permutation(Sort(leq, xs), xs)
  {
    if xs != [] {
      SortSorts(leq, xs[1..]);
      InsertSorts(leq, xs[0], Sort(leq, xs[1..]));
      InsertPermutes(leq, xs[0], Sort(leq, xs[1..]));
      assert xs == [xs[0]] + xs[1..];
    }
  }

  /** Without ties, two sorted arrangements of the same elements are the same. */
  lemma {:induction false} SortedUnique<T(!new)>(leq: (T, T) -> bool, xs: seq<T>, ys: seq<T>)
    requires Permutation(xs, ys) && SortedBy(leq, xs) && SortedBy(leq, ys) && NoTies(leq, xs)
    ensures xs == ys
  {
    assert |xs| == |multiset(xs)| == |ys|;
    if xs != [] {
      InPermutation(xs, ys, xs[0]);
      InPermutation(ys, xs, ys[0]);
      assert xs[0] == ys[0];
      assert xs == [xs[0]] + xs[1..] && ys == [ys[0]] + ys[1..];
      assert multiset(xs[1..]) == multiset(xs) - multiset{xs[0]} == multiset(ys[1..]);
      SortedUnique(leq, xs[1..], ys[1..]);
    }
  }
}
