// Reward splitting and distribution (checkpoint.go): integer Luna throughout,
// products formed in unsigned 64-bit arithmetic.
module Rewards {
  import opened Prelude
  import opened Sums
  import opened Filters
  import opened Arithmetic

  const BASIS := 10000

  datatype Staker = Staker(address: string, stake: nat)
  datatype Share = Share(address: string, amount: nat)
  datatype Split = Split(afterFee: nat, fee: nat)

  // The configuration keeps the fee percentage within [0, 1).
  function SplitReward(reward: nat, basisPoints: nat): Split
    requires basisPoints <= BASIS
  {
    var fee := (reward * basisPoints % TWO64) / BASIS;
    FeeAtMostReward(reward, basisPoints);
    Split(reward - fee, fee)
  }

  function ShareOf(afterFee: nat, stake: nat, total: nat): nat
    requires total > 0
  {
    (afterFee * stake % TWO64) / total
  }

  function Stakes(stakers: seq<Staker>): seq<nat> {
    seq(|stakers|, i requires 0 <= i < |stakers| => stakers[i].stake)
  }

  function Amounts(shares: seq<Share>): seq<nat> {
    seq(|shares|, i requires 0 <= i < |shares| => shares[i].amount)
  }

  // The payslips to be written, in order: one per staker with a non-zero share.
  function Shares(stakers: seq<Staker>, afterFee: nat, total: nat): seq<Share>
    requires total > 0
  {
    if stakers == [] then []
    else
      var n := |stakers| - 1;
      var share := ShareOf(afterFee, stakers[n].stake, total);
      Shares(stakers[..n], afterFee, total)
      + if share == 0 then [] else [Share(stakers[n].address, share)]
  }

  function Plan(stakers: seq<Staker>, reward: nat, afterFee: nat): seq<Share> {
    var total := Total(Stakes(stakers));
    if reward == 0 || stakers == [] || total == 0 then [] else Shares(stakers, afterFee, total)
  }

  lemma FeeAtMostReward(reward: nat, basisPoints: nat)
    requires basisPoints <= BASIS
    ensures (reward * basisPoints % TWO64) / BASIS <= reward
  {
    MulMono(basisPoints, BASIS, reward);
    DivMono(reward * basisPoints % TWO64, reward * BASIS, BASIS);
  }

  // Wrapping a product before dividing it gives the exact quotient exactly when
  // the product fits, and otherwise a smaller one.
  lemma WrappedQuotient(product: nat, d: nat)
    requires 0 < d <= TWO64
    ensures (product % TWO64) / d <= product / d
    ensures (product % TWO64) / d == product / d <==> product < TWO64
  {
    var wrapped := product % TWO64;
    DivMono(wrapped, product, d);
    if product >= TWO64 {
      assert wrapped + d <= product by { assert wrapped <= product - TWO64; }
      DivMono(wrapped + d, product, d);
      DivPlusOne(wrapped, d);
    }
  }

  lemma DivPlusOne(n: nat, d: nat)
    requires d > 0
    ensures (n + d) / d == n / d + 1
  {
    DivMono(n, n + d, d);
    assert n == d * (n / d) + n % d;
    assert n + d == d * ((n + d) / d) + (n + d) % d;
    var k := (n + d) / d - n / d;
    assert d * k == d * ((n + d) / d) - d * (n / d);
    if k >= 2 { MulMono(2, k, d); }
  }

  // Nothing is created or lost by the split, whatever the fee and even when the
  // product wraps; the fee is the exact floor just when it does not.
  lemma SplitConserves(reward: nat, basisPoints: nat)
    requires basisPoints <= BASIS
    ensures var s := SplitReward(reward, basisPoints);
            && s.afterFee + s.fee == reward
            && s.fee == reward * basisPoints % 0x1_0000_0000_0000_0000 / 10000
            && s.fee <= reward * basisPoints / 10000
            && (s.fee == reward * basisPoints / 10000 <==> reward * basisPoints < 0x1_0000_0000_0000_0000)
  {
    FeeAtMostReward(reward, basisPoints);
    WrappedQuotient(reward * basisPoints, BASIS);
  }

  lemma {:induction false} TotalStakeSplit(stakers: seq<Staker>)
    requires stakers != []
    ensures Total(Stakes(stakers)) ==
            Total(Stakes(stakers[..|stakers| - 1])) + stakers[|stakers| - 1].stake
  {
    assert Stakes(stakers)[..|stakers| - 1] == Stakes(stakers[..|stakers| - 1]);
  }

  // Writing one more share adds exactly its amount.
  lemma TotalShares(shares: seq<Share>, s: Share)
    ensures Total(Amounts(shares + [s])) == Total(Amounts(shares)) + s.amount
  {
    assert Amounts(shares + [s]) == Amounts(shares) + [s.amount];
  }

  lemma {:induction false} SharesBounds(stakers: seq<Staker>, afterFee: nat, total: nat)
    requires total > 0
    ensures Total(Amounts(Shares(stakers, afterFee, total))) * total <= afterFee * Total(Stakes(stakers))
    ensures (forall i :: 0 <= i < |stakers| ==> afterFee * stakers[i].stake < TWO64) ==>
              afterFee * Total(Stakes(stakers))
              <= Total(Amounts(Shares(stakers, afterFee, total))) * total + |stakers| * (total - 1)
  {
    if stakers != [] {
      var n := |stakers| - 1;
      var front, s := stakers[..n], stakers[n];
      SharesBounds(front, afterFee, total);
      TotalStakeSplit(stakers);
      var share := ShareOf(afterFee, s.stake, total);
      var before := Total(Amounts(Shares(front, afterFee, total)));
      assert Total(Amounts(Shares(stakers, afterFee, total))) == before + share by {
        if share != 0 {
          TotalShares(Shares(front, afterFee, total), Share(s.address, share));
        } else {
          assert Shares(stakers, afterFee, total) == Shares(front, afterFee, total);
        }
      }
      var product := afterFee * s.stake;
      ShareBounds(product, total, share);
      BoundStep(afterFee, Total(Stakes(front)), s.stake, before, share, total, n);
    }
  }

  lemma ShareBounds(product: nat, total: nat, share: nat)
    requires total > 0 && share == (product % TWO64) / total
    ensures share * total <= product
    ensures product < TWO64 ==> product <= share * total + (total - 1)
  {
    var wrapped := product % TWO64;
    assert wrapped == total * (wrapped / total) + wrapped % total;
  }

  lemma BoundStep(a: nat, stakes: nat, stake: nat, before: nat, share: nat, total: nat, n: nat)
    requires total > 0
    ensures a * (stakes + stake) == a * stakes + a * stake
    ensures (before + share) * total == before * total + share * total
    ensures (n + 1) * (total - 1) == n * (total - 1) + (total - 1)
  {
  }

  // The payslips of a batch never add up to more than the reward after fee -
  // even if products wrap - and as long as no product wraps they fall short by
  // strictly less than one Luna per staker.
  lemma PlanConserves(stakers: seq<Staker>, reward: nat, afterFee: nat)
    ensures Total(Amounts(Plan(stakers, reward, afterFee))) <= afterFee
    ensures reward > 0 && Total(Stakes(stakers)) > 0 &&
            (forall i :: 0 <= i < |stakers| ==> afterFee * stakers[i].stake < TWO64) ==>
              afterFee < Total(Amounts(Plan(stakers, reward, afterFee))) + |stakers|
  {
    var total := Total(Stakes(stakers));
    if total > 0 {
      SharesBounds(stakers, afterFee, total);
      var paid := Total(Amounts(Shares(stakers, afterFee, total)));
      CancelUpper(paid, afterFee, total);
      CancelLower(paid, |stakers|, afterFee, total);
    }
  }

  lemma CancelUpper(paid: nat, fund: nat, total: nat)
    requires total > 0 && paid * total <= fund * total
    ensures paid <= fund
  {
    if paid > fund { MulMono(fund + 1, paid, total); }
  }

  lemma CancelLower(paid: nat, n: nat, fund: nat, total: nat)
    requires total > 0 && n > 0
    ensures fund * total <= paid * total + n * (total - 1) ==> fund < paid + n
  {
    BoundStep(0, 0, 0, paid, n, total, n);
    assert n * (total - 1) == n * total - n;
    if fund >= paid + n { MulMono(paid + n, fund, total); }
  }

  predicate IsShareOf(share: Share, staker: Staker, afterFee: nat, total: nat)
    requires total > 0
  {
    share.address == staker.address && share.amount == ShareOf(afterFee, staker.stake, total)
  }

  // Soundness and completeness of the plan: its entries are exactly the
  // non-zero shares of the listed stakers.
  lemma {:induction false} SharesExactly(stakers: seq<Staker>, afterFee: nat, total: nat, share: Share)
    requires total > 0
    ensures share in Shares(stakers, afterFee, total) <==>
            share.amount > 0 && exists i :: 0 <= i < |stakers| && IsShareOf(share, stakers[i], afterFee, total)
  {
    if stakers != [] {
      var n := |stakers| - 1;
      var front := stakers[..n];
      SharesExactly(front, afterFee, total, share);
      assert share in Shares(stakers, afterFee, total) <==>
               share in Shares(front, afterFee, total) || (share.amount > 0 && IsShareOf(share, stakers[n], afterFee, total));
      if i :| 0 <= i < |stakers| && IsShareOf(share, stakers[i], afterFee, total) {
        if i < n { assert IsShareOf(share, front[i], afterFee, total); }
      }
      if i :| 0 <= i < |front| && IsShareOf(share, front[i], afterFee, total) {
        assert IsShareOf(share, stakers[i], afterFee, total);
      }
    }
  }

  lemma {:induction false} SharesDistinct(stakers: seq<Staker>, afterFee: nat, total: nat)
    requires total > 0
    requires Distinct(Addresses(stakers))
    ensures Distinct(PlanAddresses(Shares(stakers, afterFee, total)))
  {
    if stakers != [] {
      var n := |stakers| - 1;
      assert Addresses(stakers[..n]) == Addresses(stakers)[..n];
      SharesDistinct(stakers[..n], afterFee, total);
      var front := Shares(stakers[..n], afterFee, total);
      forall k | 0 <= k < |front| ensures PlanAddresses(front)[k] != stakers[n].address {
        SharesExactly(stakers[..n], afterFee, total, front[k]);
        var i :| 0 <= i < n && IsShareOf(front[k], stakers[..n][i], afterFee, total);
        assert Addresses(stakers)[i] != Addresses(stakers)[n];
      }
      var share := ShareOf(afterFee, stakers[n].stake, total);
      if share == 0 {
        assert Shares(stakers, afterFee, total) == front;
      } else {
        assert PlanAddresses(Shares(stakers, afterFee, total)) == PlanAddresses(front) + [stakers[n].address];
      }
    }
  }

  // One payslip per address at most, every one for a positive amount.
  lemma PlanShape(stakers: seq<Staker>, reward: nat, afterFee: nat)
    requires Distinct(Addresses(stakers))
    ensures Distinct(PlanAddresses(Plan(stakers, reward, afterFee)))
    ensures forall k :: 0 <= k < |Plan(stakers, reward, afterFee)| ==> Plan(stakers, reward, afterFee)[k].amount > 0
  {
    var total := Total(Stakes(stakers));
    if total > 0 {
      SharesDistinct(stakers, afterFee, total);
      forall s | s in Shares(stakers, afterFee, total) ensures s.amount > 0 {
        SharesExactly(stakers, afterFee, total, s);
      }
    }
  }

  // A fund shared out in proportion to stake, the product in 64 bits: the entries
  // are those of the stakers at `places`, in their order, which are all whose
  // share is not zero.
  ghost predicate SharedOut(stakers: seq<Staker>, fund: nat, shares: seq<Share>, places: seq<nat>) {
    var total := Total(Stakes(stakers));
    && |shares| == |places| && Places(places, |stakers|)
    && (forall k :: 0 <= k < |places| ==>
          && shares[k].address == stakers[places[k]].address
          && total > 0 && shares[k].amount == fund * stakers[places[k]].stake % 0x1_0000_0000_0000_0000 / total)
    && (forall i :: 0 <= i < |stakers| ==>
          (i in places <==> total > 0 && fund * stakers[i].stake % 0x1_0000_0000_0000_0000 / total > 0))
  }

  // A staker's share, if it is not zero.
  function EarnedShare(afterFee: nat, total: nat): Staker -> Option<Share>
    requires total > 0
  {
    (s: Staker) => if ShareOf(afterFee, s.stake, total) == 0 then None else Some(Share(s.address, ShareOf(afterFee, s.stake, total)))
  }

  lemma {:induction false} SharesKeep(stakers: seq<Staker>, afterFee: nat, total: nat)
    requires total > 0
    ensures Shares(stakers, afterFee, total) == Keep(stakers, EarnedShare(afterFee, total))
  {
    if stakers != [] { SharesKeep(stakers[..|stakers| - 1], afterFee, total); }
  }

  lemma EarnedIs(afterFee: nat, total: nat, s: Staker)
    requires total > 0
    ensures var amount := afterFee * s.stake % 0x1_0000_0000_0000_0000 / total;
            EarnedShare(afterFee, total)(s) == if amount > 0 then Some(Share(s.address, amount)) else None
  {
  }

  lemma KeptIsSharedOut(stakers: seq<Staker>, afterFee: nat, shares: seq<Share>, places: seq<nat>)
    requires Total(Stakes(stakers)) > 0
    requires Kept(stakers, EarnedShare(afterFee, Total(Stakes(stakers))), shares, places)
    ensures SharedOut(stakers, afterFee, shares, places)
  {
    var total := Total(Stakes(stakers));
    forall i | 0 <= i < |stakers|
      ensures i in places <==> afterFee * stakers[i].stake % 0x1_0000_0000_0000_0000 / total > 0
    {
      EarnedIs(afterFee, total, stakers[i]);
    }
    forall k | 0 <= k < |places|
      ensures shares[k].address == stakers[places[k]].address
      ensures shares[k].amount == afterFee * stakers[places[k]].stake % 0x1_0000_0000_0000_0000 / total
    {
      EarnedIs(afterFee, total, stakers[places[k]]);
    }
  }

  // The plan is the fund shared out, and nothing else.
  lemma PlanIsSharedOut(stakers: seq<Staker>, reward: nat, afterFee: nat) returns (places: seq<nat>)
    requires afterFee <= reward
    ensures SharedOut(stakers, afterFee, Plan(stakers, reward, afterFee), places)
  {
    places := [];
    var total := Total(Stakes(stakers));
    if total > 0 && reward > 0 {
      SharesKeep(stakers, afterFee, total);
      places := KeepKeeps(stakers, EarnedShare(afterFee, total));
      KeptIsSharedOut(stakers, afterFee, Shares(stakers, afterFee, total), places);
    } else {
      NothingShared(stakers, afterFee, total);
    }
  }

  lemma NothingShared(stakers: seq<Staker>, afterFee: nat, total: nat)
    requires total == 0 || afterFee == 0
    ensures forall i :: 0 <= i < |stakers| ==>
              !(total > 0 && afterFee * stakers[i].stake % 0x1_0000_0000_0000_0000 / total > 0)
  {
  }

  // A planned payslip is for one of the stakers, and the same amount shared out
  // again over them gives somebody a payslip again.
  lemma PlanMembers(stakers: seq<Staker>, reward: nat, afterFee: nat, share: Share)
    requires share in Plan(stakers, reward, afterFee)
    ensures share.address in Addresses(stakers)
    ensures Plan(stakers, afterFee, afterFee) != []
  {
    var total := Total(Stakes(stakers));
    SharesExactly(stakers, afterFee, total, share);
    var i :| 0 <= i < |stakers| && IsShareOf(share, stakers[i], afterFee, total);
    assert Addresses(stakers)[i] == share.address;
    SomeIsShared(afterFee, stakers[i].stake, total);
  }

  lemma SomeIsShared(afterFee: nat, stake: nat, total: nat)
    requires total > 0 && ShareOf(afterFee, stake, total) > 0
    ensures afterFee > 0
  {
  }

  function Addresses(stakers: seq<Staker>): seq<string> {
    seq(|stakers|, i requires 0 <= i < |stakers| => stakers[i].address)
  }

  function PlanAddresses(shares: seq<Share>): seq<string> {
    seq(|shares|, i requires 0 <= i < |shares| => shares[i].address)
  }

  // A share is the exact floor of afterFee * stake / total exactly when the
  // product fits in 64 bits.
  lemma ShareExact(afterFee: nat, stake: nat, total: nat)
    requires 0 < total < TWO64
    ensures ShareOf(afterFee, stake, total) <= afterFee * stake / total
    ensures ShareOf(afterFee, stake, total) == afterFee * stake / total <==> afterFee * stake < TWO64
  {
    WrappedQuotient(afterFee * stake, total);
  }

  // More stake never earns less while the larger product fits.
  lemma ShareMonotone(afterFee: nat, small: nat, large: nat, total: nat)
    requires total > 0 && small <= large && afterFee * large < TWO64
    ensures ShareOf(afterFee, small, total) <= ShareOf(afterFee, large, total)
  {
    MulMono(small, large, afterFee);
    DivMono(afterFee * small, afterFee * large, total);
  }

  // Without that bound monotonicity fails: a reward of 2^32 Luna gives a
  // staker of 2^32 Luna nothing and one of 2^32 - 1 Luna almost half of it.
  lemma ShareNotMonotoneWhenWrapped()
    ensures var total := 0x1_0000_0000 + 0xFFFF_FFFF;
            && ShareOf(0x1_0000_0000, 0x1_0000_0000, total) == 0
            && ShareOf(0x1_0000_0000, 0xFFFF_FFFF, total) > 0
  {
  }

  // More stake never earns less, up to a largest stake.
  ghost predicate MonotoneUpTo(afterFee: nat, largest: nat, total: nat)
    requires total > 0
  {
    forall x: nat, y: nat :: x <= y <= largest ==> ShareOf(afterFee, x, total) <= ShareOf(afterFee, y, total)
  }

  // The first stake whose product does not fit earns less than the one before it.
  lemma FirstWrapEarnsLess(afterFee: nat, x: nat, total: nat)
    requires 0 < total && afterFee + total <= TWO64
    requires afterFee * x < TWO64 <= afterFee * (x + 1)
    ensures ShareOf(afterFee, x + 1, total) < ShareOf(afterFee, x, total)
  {
    var before, after := afterFee * x, afterFee * (x + 1);
    assert after == before + afterFee;
    Wraps(after);
    WrappedLess(before, after - TWO64, total);
  }

  lemma Wraps(n: nat)
    requires TWO64 <= n < TWO64 + TWO64
    ensures n % TWO64 == n - TWO64
  {
  }

  lemma WrappedLess(before: nat, wrapped: nat, total: nat)
    requires 0 < total && wrapped + total <= before < TWO64
    ensures wrapped / total < (before % TWO64) / total
  {
    NoWrap(before, TWO64);
    DivMono(wrapped + total, before, total);
    DivPlusOne(wrapped, total);
  }

  // Shares are monotone over all stakes up to the largest if and only if the
  // largest product fits in 64 bits.
  lemma ShareMonotoneExactly(afterFee: nat, largest: nat, total: nat)
    requires 0 < total && afterFee + total <= TWO64
    ensures MonotoneUpTo(afterFee, largest, total) <==> afterFee * largest < TWO64
  {
    if afterFee * largest < TWO64 {
      forall x: nat, y: nat | x <= y <= largest ensures ShareOf(afterFee, x, total) <= ShareOf(afterFee, y, total) {
        MulMono(y, largest, afterFee);
        ShareMonotone(afterFee, x, y, total);
      }
    } else {
      var x := LastFitting(afterFee, largest);
      FirstWrapEarnsLess(afterFee, x, total);
    }
  }

  // The last stake whose product fits.
  lemma {:induction false} LastFitting(afterFee: nat, largest: nat) returns (x: nat)
    requires afterFee * largest >= TWO64
    ensures x < largest && afterFee * x < TWO64 <= afterFee * (x + 1)
  {
    x := largest - 1;
    if afterFee * x >= TWO64 { x := LastFitting(afterFee, x); }
  }
}
