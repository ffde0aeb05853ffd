/** Stable insertion sort, standing in for Go's `sort.SliceStable`, `sort.Strings` and `sort.Ints`. */
module Sorting {

  /** A strict weak order. */
  ghost predicate Order<T(!new)>(less: (T, T) -> bool) {
    && (forall x, y :: less(x, y) ==> !less(y, x))
    && (forall x, y, z :: !less(x, y) && !less(y, z) ==> !less(x, z))
  }

  ghost predicate Sorted<T(!new)>(less: (T, T) -> bool, xs: seq<T>) {
    forall i, j | 0 <= i < j < |xs| :: !less(xs[j], xs[i])
  }

  /** Places `x` behind every element that is not greater. */
  function Insert<T>(less: (T, T) -> bool, xs: seq<T>, x: T): (r: seq<T>)
    ensures |r| == |xs| + 1
  {
    if xs == [] then [x]
    else if less(x, xs[|xs| - 1]) then Insert(less, xs[..|xs| - 1], x) + [xs[|xs| - 1]]
    else xs + [x]
  }

  function Sort<T>(less: (T, T) -> bool, xs: seq<T>): (r: seq<T>)
    ensures |r| == |xs|
  {
    if xs == [] then [] else Insert(less, Sort(less, xs[..|xs| - 1]), xs[|xs| - 1])
  }

  lemma {:induction false} InsertContents<T>(less: (T, T) -> bool, xs: seq<T>, x: T)
    ensures multiset(Insert(less, xs, x)) == multiset(xs) + multiset{x}
  {
    if xs != [] && less(x, xs[|xs| - 1]) {
      InsertContents(less, xs[..|xs| - 1], x);
      assert xs == xs[..|xs| - 1] + [xs[|xs| - 1]];
    }
  }

  lemma {:induction false} SortContents<T>(less: (T, T) -> bool, xs: seq<T>)
    ensures multiset(Sort(less, xs)) == multiset(xs)
  {
    if xs != [] {
      SortContents(less, xs[..|xs| - 1]);
      InsertContents(less, Sort(less, xs[..|xs| - 1]), xs[|xs| - 1]);
      assert xs == xs[..|xs| - 1] + [xs[|xs| - 1]];
    }
  }

  lemma {:induction false} InsertSorts<T(!new)>(less: (T, T) -> bool, xs: seq<T>, x: T)
    requires Order(less) && Sorted(less, xs)
    ensures Sorted(less, Insert(less, xs, x))
  {
    if xs != [] {
      var n := |xs| - 1;
      if less(x, xs[n]) {
        InsertSorts(less, xs[..n], x);
        InsertContents(less, xs[..n], x);
        var r := Insert(less, xs[..n], x);
        forall i | 0 <= i < |r| ensures !less(xs[n], r[i]) {
          assert r[i] in multiset(r);
          if r[i] != x {
            assert r[i] in multiset(xs[..n]);
          }
        }
      } else {
        forall i | 0 <= i < |xs| ensures !less(x, xs[i]) {
        }
      }
    }
  }

  lemma {:induction false} SortSorts<T(!new)>(less: (T, T) -> bool, xs: seq<T>)
    requires Order(less)
    ensures Sorted(less, Sort(less, xs))
  {
    if xs != [] {
      SortSorts(less, xs[..|xs| - 1]);
      InsertSorts(less, Sort(less, xs[..|xs| - 1]), xs[|xs| - 1]);
    }
  }

  /** Any two different elements are ordered one way or the other. */
  ghost predicate Distinguishes<T(!new)>(less: (T, T) -> bool, xs: seq<T>) {
    forall x, y | x in xs && y in xs && x != y :: less(x, y) || less(y, x)
  }

  lemma LastIsUnique<T(!new)>(less: (T, T) -> bool, xs: seq<T>, ys: seq<T>)
    requires Sorted(less, xs) && Sorted(less, ys) && Distinguishes(less, xs)
    requires xs != [] && ys != [] && multiset(xs) == multiset(ys)
    ensures xs[|xs| - 1] == ys[|ys| - 1]
  {
    var x, y := xs[|xs| - 1], ys[|ys| - 1];
    assert x in multiset(ys) && y in multiset(xs);
    var i :| 0 <= i < |xs| && xs[i] == y;
    var j :| 0 <= j < |ys| && ys[j] == x;
    assert i < |xs| - 1 ==> !less(x, y);
    assert j < |ys| - 1 ==> !less(y, x);
  }

  /** When the order tells all elements apart there is one sorted arrangement of them. */
  lemma {:induction false} SortedIsUnique<T(!new)>(less: (T, T) -> bool, xs: seq<T>, ys: seq<T>)
    requires Sorted(less, xs) && Sorted(less, ys) && Distinguishes(less, xs)
    requires multiset(xs) == multiset(ys)
    ensures xs == ys
  {
    SameLength(xs, ys);
    if xs != [] {
      LastIsUnique(less, xs, ys);
      var n := |xs| - 1;
      Last(xs);
      Last(ys);
      Cancel(multiset(xs[..n]), multiset(ys[..n]), xs[n]);
      AllButLast(less, xs);
      AllButLast(less, ys);
      SortedIsUnique(less, xs[..n], ys[..n]);
    }
  }

  lemma SameLength<T>(xs: seq<T>, ys: seq<T>)
    requires multiset(xs) == multiset(ys)
    ensures |xs| == |ys|
  {
    assert |multiset(xs)| == |multiset(ys)|;
  }

  lemma AllButLast<T(!new)>(less: (T, T) -> bool, xs: seq<T>)
    requires Sorted(less, xs) && xs != []
    ensures Sorted(less, xs[..|xs| - 1])
    ensures Distinguishes(less, xs) ==> Distinguishes(less, xs[..|xs| - 1])
  {
    assert forall x | x in xs[..|xs| - 1] :: x in xs;
  }

  /** The sorted arrangement does not depend on the order of the input. */
  lemma SortOfPermutation<T(!new)>(less: (T, T) -> bool, xs: seq<T>, ys: seq<T>)
    requires Order(less) && multiset(xs) == multiset(ys) && Distinguishes(less, xs)
    ensures Sort(less, xs) == Sort(less, ys)
  {
    SortSorts(less, xs);
    SortSorts(less, ys);
    SortContents(less, xs);
    SortContents(less, ys);
    forall x, y | x in Sort(less, xs) && y in Sort(less, xs) && x != y ensures less(x, y) || less(y, x) {
      assert x in multiset(Sort(less, xs)) && y in multiset(Sort(less, xs));
      assert x in multiset(xs) && y in multiset(xs);
    }
    SortedIsUnique(less, Sort(less, xs), Sort(less, ys));
  }

  /** A rearrangement of distinct elements has distinct elements. */
  lemma DistinctPermutation<T>(xs: seq<T>, ys: seq<T>, i: nat, j: nat)
    requires multiset(xs) == multiset(ys) && i < j < |ys|
    requires forall a, b | 0 <= a < b < |xs| :: xs[a] != xs[b]
    ensures ys[i] != ys[j]
  {
    var y := ys[i];
    assert ys == ys[..i] + [y] + ys[i + 1..j] + [ys[j]] + ys[j + 1..];
    AtMostOnce(xs, y);
    assert multiset(ys) == multiset(ys[..i]) + multiset{y} + multiset(ys[i + 1..j]) + multiset{ys[j]} + multiset(ys[j + 1..]);
  }

  lemma {:induction false} AtMostOnce<T>(xs: seq<T>, x: T)
    requires forall a, b | 0 <= a < b < |xs| :: xs[a] != xs[b]
    ensures multiset(xs)[x] <= 1
  {
    if xs != [] {
      var n := |xs| - 1;
      AtMostOnce(xs[..n], x);
      assert xs == xs[..n] + [xs[n]];
      assert x == xs[n] ==> x !in xs[..n];
    }
  }

  /** Sorting what is sorted changes nothing. */
  lemma {:induction false} SortOfSorted<T(!new)>(less: (T, T) -> bool, xs: seq<T>)
    requires Sorted(less, xs)
    ensures Sort(less, xs) == xs
  {
    if xs != [] {
      var n := |xs| - 1;
      SortOfSorted(less, xs[..n]);
      assert xs == xs[..n] + [xs[n]];
      assert n > 0 ==> !less(xs[n], xs[n - 1]);
    }
  }

  // ---------------------------------------------------------------- sums that do not depend on the order

  /** The sum of a multiset per element. */
  function Collect<T, U>(f: T -> multiset<U>, xs: seq<T>): multiset<U> {
    if xs == [] then multiset{} else Collect(f, xs[..|xs| - 1]) + f(xs[|xs| - 1])
  }

  lemma {:induction false} CollectAppend<T, U>(f: T -> multiset<U>, xs: seq<T>, ys: seq<T>)
    ensures Collect(f, xs + ys) == Collect(f, xs) + Collect(f, ys)
  {
    if ys == [] {
      assert xs + ys == xs;
    } else {
      var n := |ys| - 1;
      CollectAppend(f, xs, ys[..n]);
      assert (xs + ys)[..|xs + ys| - 1] == xs + ys[..n];
    }
  }

  lemma CollectOne<T, U>(f: T -> multiset<U>, x: T)
    ensures Collect(f, [x]) == f(x)
  {
    assert [x][..0] == [];
  }

  lemma CollectAround<T, U>(f: T -> multiset<U>, a: seq<T>, x: T, b: seq<T>)
    ensures Collect(f, a + [x] + b) == Collect(f, a + b) + f(x)
  {
    CollectAppend(f, a + [x], b);
    CollectAppend(f, a, [x]);
    CollectAppend(f, a, b);
    CollectOne(f, x);
  }

  lemma CollectAt<T, U>(f: T -> multiset<U>, xs: seq<T>, k: nat)
    requires k < |xs|
    ensures Collect(f, xs) == Collect(f, xs[..k]) + f(xs[k]) + Collect(f, xs[k + 1..])
  {
    assert xs == xs[..k] + [xs[k]] + xs[k + 1..];
    CollectAround(f, xs[..k], xs[k], xs[k + 1..]);
    CollectAppend(f, xs[..k], xs[k + 1..]);
  }

  /** The last element of one arrangement, found in the other. */
  lemma FindLast<T>(xs: seq<T>, ys: seq<T>) returns (a: seq<T>, b: seq<T>)
    requires xs != [] && multiset(xs) == multiset(ys)
    ensures ys == a + [xs[|xs| - 1]] + b && multiset(xs[..|xs| - 1]) == multiset(a + b)
  {
    var n := |xs| - 1;
    assert xs[n] in multiset(ys);
    var k :| 0 <= k < |ys| && ys[k] == xs[n];
    a, b := ys[..k], ys[k + 1..];
    assert ys == a + [xs[n]] + b;
    Around(a, xs[n], b);
    Last(xs);
    Cancel(multiset(xs[..n]), multiset(a + b), xs[n]);
  }

  lemma Around<T>(a: seq<T>, x: T, b: seq<T>)
    ensures multiset(a + [x] + b) == multiset(a + b) + multiset{x}
  {
    assert multiset(a + [x] + b) == multiset(a + [x]) + multiset(b);
    assert multiset(a + b) == multiset(a) + multiset(b);
  }

  lemma Last<T>(xs: seq<T>)
    requires xs != []
    ensures xs == xs[..|xs| - 1] + [xs[|xs| - 1]]
    ensures multiset(xs) == multiset(xs[..|xs| - 1]) + multiset{xs[|xs| - 1]}
  {
    assert xs == xs[..|xs| - 1] + [xs[|xs| - 1]];
  }

  lemma Cancel<T>(a: multiset<T>, b: multiset<T>, x: T)
    requires a + multiset{x} == b + multiset{x}
    ensures a == b
  {
    forall y ensures a[y] == b[y] {
      assert (a + multiset{x})[y] == (b + multiset{x})[y];
    }
  }

  lemma {:induction false} CollectPermutation<T, U>(f: T -> multiset<U>, xs: seq<T>, ys: seq<T>)
    requires multiset(xs) == multiset(ys)
    ensures Collect(f, xs) == Collect(f, ys)
  {
    SameLength(xs, ys);
    if xs != [] {
      var a, b := FindLast(xs, ys);
      CollectPermutation(f, xs[..|xs| - 1], a + b);
      CollectAround(f, a, xs[|xs| - 1], b);
    }
  }

  lemma SortCollects<T, U>(less: (T, T) -> bool, f: T -> multiset<U>, xs: seq<T>)
    ensures Collect(f, Sort(less, xs)) == Collect(f, xs)
  {
    SortContents(less, xs);
    CollectPermutation(f, Sort(less, xs), xs);
  }
}
