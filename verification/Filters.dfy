// Lists made from others by leaving entries out.
module Filters {
  import opened Prelude

  // Places in a list of length n, in order.
  predicate Places(places: seq<nat>, n: nat) {
    && (forall k :: 0 <= k < |places| ==> places[k] < n)
    && (forall k, m :: 0 <= k < m < |places| ==> places[k] < places[m])
  }

  function Keep<X, Y>(xs: seq<X>, f: X -> Option<Y>): seq<Y> {
    if xs == [] then []
    else
      var n := |xs| - 1;
      Keep(xs[..n], f) + if f(xs[n]).Some? then [f(xs[n]).value] else []
  }

  // The kept results are those of the entries at `places`, in their order, and
  // these are all the entries that have one.
  ghost predicate Kept<X(!new), Y(!new)>(xs: seq<X>, f: X -> Option<Y>, ys: seq<Y>, places: seq<nat>) {
    && |ys| == |places| && Places(places, |xs|)
    && (forall k :: 0 <= k < |places| ==> f(xs[places[k]]) == Some(ys[k]))
    && (forall i :: 0 <= i < |xs| ==> (i in places <==> f(xs[i]).Some?))
  }

  lemma {:induction false} KeepKeeps<X(!new), Y(!new)>(xs: seq<X>, f: X -> Option<Y>) returns (places: seq<nat>)
    ensures Kept(xs, f, Keep(xs, f), places)
  {
    if xs == [] {
      places := [];
    } else {
      var n := |xs| - 1;
      places := KeepKeeps(xs[..n], f);
      if f(xs[n]).Some? {
        OneMore(xs, f, Keep(xs[..n], f), places);
        places := places + [n];
      } else {
        NoMore(xs, f, Keep(xs[..n], f), places);
      }
    }
  }

  lemma OneMore<X(!new), Y(!new)>(xs: seq<X>, f: X -> Option<Y>, ys: seq<Y>, places: seq<nat>)
    requires xs != [] && Kept(xs[..|xs| - 1], f, ys, places) && f(xs[|xs| - 1]).Some?
    ensures Kept(xs, f, ys + [f(xs[|xs| - 1]).value], places + [|xs| - 1])
  {
    var n := |xs| - 1;
    var all := places + [n];
    forall i | 0 <= i < |xs| ensures i in all <==> f(xs[i]).Some? {
      if i < n { assert xs[..n][i] == xs[i] && (i in all <==> i in places); }
    }
    forall k | 0 <= k < |all| ensures all[k] < |xs| && f(xs[all[k]]) == Some((ys + [f(xs[n]).value])[k]) {
      if k < |places| { assert xs[..n][places[k]] == xs[all[k]]; }
    }
  }

  lemma NoMore<X(!new), Y(!new)>(xs: seq<X>, f: X -> Option<Y>, ys: seq<Y>, places: seq<nat>)
    requires xs != [] && Kept(xs[..|xs| - 1], f, ys, places) && f(xs[|xs| - 1]).None?
    ensures Kept(xs, f, ys, places)
  {
    var n := |xs| - 1;
    forall i | 0 <= i < |xs| ensures i in places <==> f(xs[i]).Some? {
      if i < n { assert xs[..n][i] == xs[i]; }
    }
    forall k | 0 <= k < |places| ensures f(xs[places[k]]) == Some(ys[k]) {
      assert xs[..n][places[k]] == xs[places[k]];
    }
  }
}
