/** Sequence helpers: the "for each item, if it qualifies, append what it
    maps to" loop that both scripts use to build their result lists. */
module Seqs {

  /** The items of `xs` that `keep` accepts, each turned into `make(x)`, in
      the order of `xs`. */
  function FilterMap<T, U>(xs: seq<T>, keep: T -> bool, make: T -> U): (r: seq<U>)
    ensures |r| <= |xs|
    ensures forall x | x in xs && keep(x) :: make(x) in r
    ensures forall y | y in r :: exists x | x in xs :: keep(x) && y == make(x)
    ensures r == [] <==> forall x | x in xs :: !keep(x)
    decreases |xs|
  {
    if |xs| == 0 then []
    else
      var rest := FilterMap(xs[1..], keep, make);
      assert xs == [xs[0]] + xs[1..];
      if keep(xs[0]) then [make(xs[0])] + rest else rest
  }

  /** Filtering a concatenation filters each part. */
  lemma {:induction false} FilterMapAppend<T, U>(a: seq<T>, b: seq<T>, keep: T -> bool, make: T -> U)
    ensures FilterMap(a + b, keep, make) == FilterMap(a, keep, make) + FilterMap(b, keep, make)
    decreases |a|
  {
    if |a| == 0 {
      assert a + b == b;
    } else {
      assert (a + b)[0] == a[0];
      assert (a + b)[1..] == a[1..] + b;
      FilterMapAppend(a[1..], b, keep, make);
    }
  }

  /** The concatenation of `f(x)` for the items `x` of `xs`, in order. */
  function FlatMap<T, U>(xs: seq<T>, f: T -> seq<U>): (r: seq<U>)
    ensures forall y | y in r :: exists x | x in xs :: y in f(x)
    ensures forall x, y | x in xs && y in f(x) :: y in r
    ensures (forall x | x in xs :: f(x) == []) ==> r == []
    decreases |xs|
  {
    if |xs| == 0 then []
    else
      var rest := FlatMap(xs[1..], f);
      assert xs == [xs[0]] + xs[1..];
      assert forall x | x in xs :: x == xs[0] || x in xs[1..];
      f(xs[0]) + rest
  }

  /** Mapping a concatenation maps each part. */
  lemma {:induction false} FlatMapAppend<T, U>(a: seq<T>, b: seq<T>, f: T -> seq<U>)
    ensures FlatMap(a + b, f) == FlatMap(a, f) + FlatMap(b, f)
    decreases |a|
  {
    if |a| == 0 {
      assert a + b == b;
    } else {
      assert (a + b)[0] == a[0];
      assert (a + b)[1..] == a[1..] + b;
      FlatMapAppend(a[1..], b, f);
    }
  }

  /** No element occurs twice. */
  predicate Distinct<T(==)>(s: seq<T>) {
    forall i, j | 0 <= i < j < |s| :: s[i] != s[j]
  }

  /** A sequence without repetitions has as many elements as its set. */
  lemma {:induction false} DistinctCardinality<T>(s: seq<T>)
    requires Distinct(s)
    ensures |set x | x in s| == |s|
    decreases |s|
  {
    if |s| > 0 {
      var init := s[..|s| - 1];
      var last := s[|s| - 1];
      assert Distinct(init);
      DistinctCardinality(init);
      assert (set x | x in s) == (set x | x in init) + {last};
      assert last !in init by {
        forall i | 0 <= i < |init| ensures init[i] != last {
          assert s[i] != s[|s| - 1];
        }
      }
    }
  }
}
