// Sums over the rows of a table selected by their ids.  Every total the ledger
// talks about (pending for an address, attached to a hash, issued for a batch)
// is such a sum, so the conservation arguments are all about `Sum`.
module Sums {
  import opened Prelude

  // The sum of the amounts whose row id is in `ids`.
  function Sum(amounts: seq<nat>, ids: set<nat>): nat {
    if amounts == [] then 0
    else
      var n := |amounts| - 1;
      Sum(amounts[..n], ids) + if n in ids then amounts[n] else 0
  }

  function Total(values: seq<nat>): nat {
    if values == [] then 0 else Total(values[..|values| - 1]) + values[|values| - 1]
  }

  ghost predicate Within(ids: set<nat>, n: nat) {
    forall i :: i in ids ==> i < n
  }

  lemma {:induction false} TotalSplit(values: seq<nat>)
    requires values != []
    ensures Total(values) == values[0] + Total(values[1..])
  {
    if |values| > 1 {
      var n := |values| - 1;
      TotalSplit(values[..n]);
      assert values[1..][..n - 1] == values[..n][1..];
    }
  }

  // Appending a row changes a sum by exactly that row's amount.
  lemma SumAppend(amounts: seq<nat>, a: nat, ids: set<nat>)
    ensures Sum(amounts + [a], ids) == Sum(amounts, ids) + if |amounts| in ids then a else 0
  {
    assert (amounts + [a])[..|amounts|] == amounts;
  }

  // Ids outside a sum's rows do not matter.
  lemma {:induction false} SumSameIds(amounts: seq<nat>, ids: set<nat>, other: set<nat>)
    requires forall i :: 0 <= i < |amounts| ==> (i in ids <==> i in other)
    ensures Sum(amounts, ids) == Sum(amounts, other)
  {
    if amounts != [] {
      SumSameIds(amounts[..|amounts| - 1], ids, other);
    }
  }

  // A sum over two disjoint selections splits.
  lemma {:induction false} SumUnion(amounts: seq<nat>, a: set<nat>, b: set<nat>)
    requires a !! b
    ensures Sum(amounts, a + b) == Sum(amounts, a) + Sum(amounts, b)
  {
    if amounts != [] {
      SumUnion(amounts[..|amounts| - 1], a, b);
    }
  }

  lemma {:induction false} SumEmpty(amounts: seq<nat>)
    ensures Sum(amounts, {}) == 0
  {
    if amounts != [] {
      SumEmpty(amounts[..|amounts| - 1]);
    }
  }

  // A larger selection sums to more: the difference is what was added.
  lemma SumSubset(amounts: seq<nat>, a: set<nat>, b: set<nat>)
    requires a <= b
    ensures Sum(amounts, b) == Sum(amounts, a) + Sum(amounts, b - a)
    ensures Sum(amounts, a) <= Sum(amounts, b)
  {
    SumUnion(amounts, a, b - a);
    assert a + (b - a) == b;
  }

  // With positive amounts only the empty selection sums to zero.
  lemma {:induction false} SumZero(amounts: seq<nat>, ids: set<nat>)
    requires forall i :: 0 <= i < |amounts| ==> amounts[i] > 0
    requires Within(ids, |amounts|)
    ensures Sum(amounts, ids) == 0 <==> ids == {}
  {
    if amounts == [] {
      assert ids == {};
    } else if ids == {} {
      SumEmpty(amounts);
    } else {
      var n := |amounts| - 1;
      if n !in ids {
        SumZero(amounts[..n], ids);
      }
    }
  }

  // The ids whose label is one of the keys.
  ghost function Labelled<K(!new)>(labels: seq<Option<K>>, keys: seq<K>): (ids: set<nat>) {
    set i | 0 <= i < |labels| && labels[i].Some? && labels[i].value in keys
  }

  // Rows grouped by a label: if each listed group stays within its cap on one
  // side, so do all listed groups together.  `caps[i]` bounds group `keys[i]`
  // from above (`upper`) or from below (`!upper`).
  lemma {:induction false} GroupedBound<K(!new)>(
      amounts: seq<nat>, labels: seq<Option<K>>, keys: seq<K>, caps: seq<nat>, upper: bool)
    requires |labels| == |amounts| && |keys| == |caps|
    requires Distinct(keys)
    requires forall i :: 0 <= i < |keys| ==>
               if upper then Sum(amounts, Labelled(labels, [keys[i]])) <= caps[i]
               else caps[i] <= Sum(amounts, Labelled(labels, [keys[i]]))
    ensures if upper then Sum(amounts, Labelled(labels, keys)) <= Total(caps)
            else Total(caps) <= Sum(amounts, Labelled(labels, keys))
  {
    if keys == [] {
      SumEmpty(amounts);
      assert Labelled(labels, keys) == {};
    } else {
      var n := |keys| - 1;
      GroupedBound(amounts, labels, keys[..n], caps[..n], upper);
      var rest, last := Labelled(labels, keys[..n]), Labelled(labels, [keys[n]]);
      assert Labelled(labels, keys) == rest + last by {
        assert keys == keys[..n] + [keys[n]];
      }
      SumUnion(amounts, rest, last);
    }
  }
}
