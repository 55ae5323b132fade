/**
 * What a collection query returns: every key of the collection exactly once, in an order
 * the document store chooses.
 */
module Listing {

  /** xs lists the elements of s, each exactly once. */
  ghost predicate IsListing<T>(xs: seq<T>, s: set<T>) {
    multiset(xs) == multiset(s)
  }

  /** No element occurs twice. */
  ghost predicate Distinct<T>(xs: seq<T>) {
    forall i, j :: 0 <= i < j < |xs| ==> xs[i] != xs[j]
  }

  /** A listing has the same members as the set, no repetitions, and the set's size. */
  lemma ListingFacts<T>(xs: seq<T>, s: set<T>)
    requires IsListing(xs, s)
    ensures forall x :: x in xs <==> x in s
    ensures Distinct(xs)
    ensures |xs| == |s|
  {
    forall x ensures x in xs <==> x in s {
      assert x in xs <==> x in multiset(xs);
    }
    forall i, j | 0 <= i < j < |xs| ensures xs[i] != xs[j] {
      var x := xs[i];
      assert xs == xs[..j] + xs[j..];
      assert x in xs[..j];
      assert multiset(xs)[x] == multiset(xs[..j])[x] + multiset(xs[j..])[x];
      assert multiset(s)[x] <= 1;
      assert multiset(xs[j..])[x] == 0;
      assert xs[j] in multiset(xs[j..]);
    }
    assert |multiset(xs)| == |xs|;
    assert |multiset(s)| == |s|;
  }

  /** Walks a set in an arbitrary order, the way the store iterates a query snapshot. */
  method Enumerate<T>(s: set<T>) returns (xs: seq<T>)
    ensures IsListing(xs, s)
  {
    xs := [];
    var rest := s;
    while rest != {}
      invariant rest <= s
      invariant multiset(xs) + multiset(rest) == multiset(s)
      decreases |rest|
    {
      var x :| x in rest;
      xs := xs + [x];
      rest := rest - {x};
    }
  }
}
