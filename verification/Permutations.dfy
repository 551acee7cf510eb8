// What a list computes without looking at its order.
module Permutations {
  import opened Prelude
  import opened Sums

  function Collect<X, Y>(xs: seq<X>, f: X -> seq<Y>): seq<Y> {
    if xs == [] then [] else Collect(xs[..|xs| - 1], f) + f(xs[|xs| - 1])
  }

  function Map<X, Y>(xs: seq<X>, f: X -> Y): seq<Y> {
    seq(|xs|, i requires 0 <= i < |xs| => f(xs[i]))
  }

  lemma {:induction false} CollectApart<X, Y>(xs: seq<X>, ys: seq<X>, f: X -> seq<Y>)
    ensures Collect(xs + ys, f) == Collect(xs, f) + Collect(ys, f)
  {
    if ys == [] {
      assert xs + ys == xs;
    } else {
      var n := |ys| - 1;
      assert (xs + ys)[..|xs + ys| - 1] == xs + ys[..n];
      CollectApart(xs, ys[..n], f);
    }
  }

  // A permutation of the list collects a permutation of the results.
  lemma {:induction false} CollectPermuted<X, Y>(xs: seq<X>, ys: seq<X>, f: X -> seq<Y>)
    requires multiset(xs) == multiset(ys)
    ensures multiset(Collect(xs, f)) == multiset(Collect(ys, f))
  {
    if xs == [] {
      assert |ys| == |multiset(ys)|;
    } else {
      var n, x := |xs| - 1, xs[|xs| - 1];
      assert x in multiset(ys);
      var j :| 0 <= j < |ys| && ys[j] == x;
      var rest := ys[..j] + ys[j + 1..];
      assert ys == ys[..j] + [x] + ys[j + 1..];
      assert xs == xs[..n] + [x];
      assert multiset(rest) == multiset(ys) - multiset{x};
      assert multiset(xs[..n]) == multiset(xs) - multiset{x};
      CollectPermuted(xs[..n], rest, f);
      CollectApart(ys[..j] + [x], ys[j + 1..], f);
      CollectApart(ys[..j], [x], f);
      CollectApart(ys[..j], ys[j + 1..], f);
      assert Collect([x], f) == f(x);
    }
  }

  lemma {:induction false} MapCollects<X, Y>(xs: seq<X>, f: X -> Y)
    ensures Map(xs, f) == Collect(xs, x => [f(x)])
  {
    if xs != [] {
      var n := |xs| - 1;
      MapCollects(xs[..n], f);
      assert Map(xs, f) == Map(xs[..n], f) + [f(xs[n])];
    }
  }

  lemma MapPermuted<X, Y>(xs: seq<X>, ys: seq<X>, f: X -> Y)
    requires multiset(xs) == multiset(ys)
    ensures multiset(Map(xs, f)) == multiset(Map(ys, f))
  {
    MapCollects(xs, f);
    MapCollects(ys, f);
    CollectPermuted(xs, ys, x => [f(x)]);
  }

  lemma {:induction false} TotalApart(xs: seq<nat>, ys: seq<nat>)
    ensures Total(xs + ys) == Total(xs) + Total(ys)
  {
    if ys == [] {
      assert xs + ys == xs;
    } else {
      var n := |ys| - 1;
      assert (xs + ys)[..|xs + ys| - 1] == xs + ys[..n];
      TotalApart(xs, ys[..n]);
    }
  }

  lemma {:induction false} TotalPermuted(xs: seq<nat>, ys: seq<nat>)
    requires multiset(xs) == multiset(ys)
    ensures Total(xs) == Total(ys)
  {
    if xs == [] {
      assert |ys| == |multiset(ys)|;
    } else {
      var n, x := |xs| - 1, xs[|xs| - 1];
      assert x in multiset(ys);
      var j :| 0 <= j < |ys| && ys[j] == x;
      assert ys == ys[..j] + [x] + ys[j + 1..];
      assert xs == xs[..n] + [x];
      assert multiset(ys[..j] + ys[j + 1..]) == multiset(ys) - multiset{x};
      assert multiset(xs[..n]) == multiset(xs) - multiset{x};
      TotalPermuted(xs[..n], ys[..j] + ys[j + 1..]);
      TotalApart(ys[..j] + [x], ys[j + 1..]);
      TotalApart(ys[..j], [x]);
      TotalApart(ys[..j], ys[j + 1..]);
      assert Total([x]) == x;
    }
  }

  function Elements<X(==)>(xs: seq<X>): set<X> {
    set x | x in xs
  }

  // A duplicate-free list has as many elements as it has places.
  lemma {:induction false} DistinctCount<X>(xs: seq<X>)
    requires Distinct(xs)
    ensures |Elements(xs)| == |xs|
  {
    if xs != [] {
      var n := |xs| - 1;
      DistinctCount(xs[..n]);
      assert Elements(xs) == Elements(xs[..n]) + {xs[n]};
    }
  }

  // So do its places picked out by a set of indexes.
  lemma {:induction false} ImageCount<X>(xs: seq<X>, ids: set<nat>)
    requires Distinct(xs) && Within(ids, |xs|)
    ensures |set i | i in ids :: xs[i]| == |ids|
    decreases |ids|
  {
    if ids != {} {
      var k :| k in ids;
      ImageCount(xs, ids - {k});
      assert (set i | i in ids :: xs[i]) == (set i | i in ids - {k} :: xs[i]) + {xs[k]};
    }
  }
}
