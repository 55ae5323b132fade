/**
 * Array.prototype.sort with a comparator `(a, b) => key(b) - key(a)`: a stable sort into
 * non-increasing key order, written as insertion sort.
 */
module Sorting {

  /** Keys never increase from left to right. */
  ghost predicate NonIncreasing<T>(xs: seq<T>, key: T -> int) {
    forall i, j :: 0 <= i < j < |xs| ==> key(xs[i]) >= key(xs[j])
  }

  /** Puts x after every element whose key is at least key(x), so equal keys keep their order. */
  function Insert<T>(x: T, xs: seq<T>, key: T -> int): seq<T> {
    if xs == [] || key(xs[0]) < key(x) then [x] + xs
    else [xs[0]] + Insert(x, xs[1..], key)
  }

  lemma {:induction false} InsertKeepsOrder<T>(x: T, xs: seq<T>, key: T -> int)
    requires NonIncreasing(xs, key)
    ensures multiset(Insert(x, xs, key)) == multiset(xs) + multiset{x}
    ensures NonIncreasing(Insert(x, xs, key), key)
  {
    if xs == [] || key(xs[0]) < key(x) {
    } else {
      var tail := Insert(x, xs[1..], key);
      InsertKeepsOrder(x, xs[1..], key);
      assert xs == [xs[0]] + xs[1..];
      forall y | y in tail ensures key(xs[0]) >= key(y) {
        assert y in multiset(tail);
        if y != x {
          assert y in multiset(xs[1..]);
          var k :| 0 <= k < |xs[1..]| && xs[1..][k] == y;
          assert xs[k + 1] == y;
        }
      }
    }
  }

  /** The stable sort: a permutation of xs in non-increasing key order. */
  function SortDesc<T>(xs: seq<T>, key: T -> int): (r: seq<T>)
    ensures multiset(r) == multiset(xs)
    ensures |r| == |xs|
    ensures NonIncreasing(r, key)
  {
    if xs == [] then []
    else
      var init := SortDesc(xs[..|xs| - 1], key);
      InsertKeepsOrder(xs[|xs| - 1], init, key);
      assert xs == xs[..|xs| - 1] + [xs[|xs| - 1]];
      assert |multiset(Insert(xs[|xs| - 1], init, key))| == |multiset(xs)|;
      Insert(xs[|xs| - 1], init, key)
  }
}
