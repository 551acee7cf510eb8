// What the apportionment of slots.go guarantees: the slots add up, nobody gets
// less than the floor of a proportional share or more than one above it, more
// stake never gets fewer slots, and the order of the list does not matter.
module Apportionment {
  import opened Prelude
  import opened Sums
  import opened Permutations
  import opened Slots
  import opened Arithmetic
  import Rewards

  // The total and every product the source forms fit in 64 bits.
  predicate Fits(es: seq<Entry>, slots: nat) {
    && 0 < slots < TWO32 && 0 < Total(Stakes(es)) < TWO64
    && forall i :: 0 <= i < |es| ==> es[i].stake * slots < TWO64
  }

  lemma {:induction false} TotalAtLeast(values: seq<nat>, i: nat)
    requires i < |values|
    ensures values[i] <= Total(values)
  {
    if i < |values| - 1 { TotalAtLeast(values[..|values| - 1], i); }
  }

  lemma ExactQuota(es: seq<Entry>, slots: nat, i: nat)
    requires Fits(es, slots) && i < |es|
    ensures var total := Total(Stakes(es));
            && TotalStake(es) == total
            && Scaled(es[i].stake, slots) == es[i].stake * slots <= total * slots
            && Quotas(es, slots)[i] == es[i].stake * slots / total <= slots
            && Remainders(es, slots)[i] == es[i].stake * slots % total
            && (Remainders(es, slots)[i] > 0 ==> Quotas(es, slots)[i] < slots)
  {
    TotalFits(es, slots);
    TotalAtLeast(Stakes(es), i);
    QuotaExact(es[i].stake, slots, Total(Stakes(es)));
  }

  lemma QuotaExact(stake: nat, slots: nat, total: nat)
    requires 0 < total && stake <= total && slots < TWO32 && stake * slots < TWO64
    ensures Scaled(stake, slots) == stake * slots <= total * slots
    ensures Quota(stake, slots, total) == stake * slots / total <= slots
    ensures Remainder(stake, slots, total) == stake * slots % total
    ensures stake * slots % total > 0 ==> stake * slots / total < slots
  {
    MulMono(stake, total, slots);
    var n := stake * slots;
    QuotientBound(n, total, slots);
    NoWrap(n, TWO64);
    NoWrap(n / total, TWO32);
  }

  lemma TotalFits(es: seq<Entry>, slots: nat)
    requires Fits(es, slots)
    ensures TotalStake(es) == Total(Stakes(es))
  {
  }

  lemma QuotientBound(n: nat, d: nat, m: nat)
    requires d > 0 && n <= d * m
    ensures n / d <= m
    ensures n % d > 0 ==> n / d < m
  {
    var q := n / d;
    assert n == d * q + n % d;
    assert q == m ==> d * q == d * m;
  }

  // ---- the slots left over ------------------------------------------------

  function Floor(stake: nat, slots: nat, d: nat): nat
    requires d > 0
  {
    stake * slots / d
  }

  function Rest(stake: nat, slots: nat, d: nat): nat
    requires d > 0
  {
    stake * slots % d
  }

  function Floors(stakes: seq<nat>, slots: nat, d: nat): seq<nat>
    requires d > 0
  {
    seq(|stakes|, i requires 0 <= i < |stakes| => Floor(stakes[i], slots, d))
  }

  function Rests(stakes: seq<nat>, slots: nat, d: nat): seq<nat>
    requires d > 0
  {
    seq(|stakes|, i requires 0 <= i < |stakes| => Rest(stakes[i], slots, d))
  }

  lemma {:induction false} FloorsAndRests(stakes: seq<nat>, slots: nat, d: nat)
    requires d > 0
    ensures Total(Floors(stakes, slots, d)) * d + Total(Rests(stakes, slots, d)) == Total(stakes) * slots
  {
    if stakes != [] {
      var n := |stakes| - 1;
      FloorsAndRests(stakes[..n], slots, d);
      assert Floors(stakes, slots, d)[..n] == Floors(stakes[..n], slots, d);
      assert Rests(stakes, slots, d)[..n] == Rests(stakes[..n], slots, d);
      FloorAndRest(stakes[n], slots, d);
      Spread(Total(stakes[..n]), stakes[n], slots);
      Spread(Total(Floors(stakes[..n], slots, d)), Floor(stakes[n], slots, d), d);
    }
  }

  lemma FloorAndRest(stake: nat, slots: nat, d: nat)
    requires d > 0
    ensures Floor(stake, slots, d) * d + Rest(stake, slots, d) == stake * slots
  {
    DivMod(stake * slots, d);
  }

  lemma DivMod(n: nat, d: nat)
    requires d > 0
    ensures n == (n / d) * d + n % d
  {
  }

  lemma Spread(a: nat, b: nat, c: nat)
    ensures (a + b) * c == a * c + b * c
  {
  }

  function Positive(rests: seq<nat>): set<nat> {
    set i: nat | i < |rests| && rests[i] > 0
  }

  lemma {:induction false} RestsBound(rests: seq<nat>, d: nat)
    requires d > 0 && forall i :: 0 <= i < |rests| ==> rests[i] < d
    ensures Total(rests) <= |Positive(rests)| * (d - 1)
    ensures |Positive(rests)| <= |rests|
  {
    if rests != [] {
      var n := |rests| - 1;
      RestsBound(rests[..n], d);
      var before := Positive(rests[..n]);
      if rests[n] > 0 {
        assert Positive(rests) == before + {n};
        Spread(|before|, 1, d - 1);
      } else {
        assert Positive(rests) == before;
      }
    }
  }

  lemma {:induction false} QuotasAreFloors(es: seq<Entry>, slots: nat)
    requires Fits(es, slots)
    ensures TotalStake(es) == Total(Stakes(es))
    ensures Quotas(es, slots) == Floors(Stakes(es), slots, TotalStake(es))
    ensures Remainders(es, slots) == Rests(Stakes(es), slots, TotalStake(es))
  {
    TotalFits(es, slots);
    forall i | 0 <= i < |es|
      ensures Quotas(es, slots)[i] == Floors(Stakes(es), slots, TotalStake(es))[i]
      ensures Remainders(es, slots)[i] == Rests(Stakes(es), slots, TotalStake(es))[i]
    {
      ExactQuota(es, slots, i);
    }
  }

  // The quotas never use more than the slots, and what is left over is less than
  // the number of entries, and at most the number of positive remainders.
  lemma {:induction false} LeftoverInBounds(es: seq<Entry>, slots: nat)
    requires Fits(es, slots)
    ensures Total(Quotas(es, slots)) <= slots
    ensures Leftover(es, slots) == slots - Total(Quotas(es, slots))
    ensures Leftover(es, slots) < |es|
    ensures Leftover(es, slots) <= |Positive(Remainders(es, slots))|
  {
    QuotasAreFloors(es, slots);
    var d, used, rests := TotalStake(es), Total(Quotas(es, slots)), Remainders(es, slots);
    FloorsAndRests(Stakes(es), slots, d);
    RestsBound(rests, d);
    LeftArithmetic(d, slots, used, Total(rests), |Positive(rests)|);
    NoWrap(used, TWO32);
    NoWrap(slots - used, TWO32);
    assert Stakes(es) != [];
  }

  // `used` multiples of d and a sum of `positive` remainders make `slots` of them.
  lemma LeftArithmetic(d: nat, slots: nat, used: nat, rests: nat, positive: nat)
    requires d > 0 && used * d + rests == d * slots && rests <= positive * (d - 1)
    ensures used <= slots && slots - used <= positive
    ensures slots - used == positive ==> positive == 0
  {
    if used > slots { MulMono(slots + 1, used, d); Spread(slots, 1, d); }
    var left := slots - used;
    Spread(left, used, d);
    assert left * d == rests;
    assert positive * (d - 1) == positive * d - positive;
    if left > positive { MulMono(positive + 1, left, d); Spread(positive, 1, d); }
  }

  // ---- the guarantees -----------------------------------------------------

  // Only an entry with a positive remainder gets one of the slots left over.
  lemma {:induction false} ExtraNeedsRemainder(es: seq<Entry>, slots: nat, i: nat)
    requires Fits(es, slots) && i < |es|
    requires TotalStake(es) > 0 && Rank(Keys(es, slots), i) < Leftover(es, slots)
    ensures Remainders(es, slots)[i] > 0
  {
    var rests, keys := Remainders(es, slots), Keys(es, slots);
    if rests[i] == 0 {
      LeftoverInBounds(es, slots);
      assert Positive(rests) <= Winners(keys, i);
      SubsetCount(Positive(rests), Winners(keys, i));
    }
  }

  lemma SubsetCount(a: set<nat>, b: set<nat>)
    requires a <= b
    ensures |a| <= |b|
  {
    assert b == a + (b - a);
  }

  // Each entry gets the floor of its proportional share or one slot more; one
  // more only if its remainder is positive and fewer entries than slots left
  // over have a claim before it.
  lemma {:induction false} QuotaRule(es: seq<Entry>, slots: nat, i: nat)
    requires Fits(es, slots) && i < |es|
    ensures TotalStake(es) > 0
    ensures var floor, rest := es[i].stake * slots / Total(Stakes(es)), es[i].stake * slots % Total(Stakes(es));
            var count := Count(es, slots, i);
            && floor <= count <= floor + 1
            && (count == floor + 1 <==> Rank(Keys(es, slots), i) < Leftover(es, slots))
            && (count == floor + 1 ==> rest > 0)
            && count <= slots
  {
    ExactQuota(es, slots, i);
    CountIs(es, slots, i);
  }

  lemma {:induction false} CountIs(es: seq<Entry>, slots: nat, i: nat)
    requires Fits(es, slots) && i < |es| && TotalStake(es) > 0
    ensures var extra := if Rank(Keys(es, slots), i) < Leftover(es, slots) then 1 else 0;
            && Count(es, slots, i) == Quotas(es, slots)[i] + extra <= slots
            && (extra == 1 ==> Remainders(es, slots)[i] > 0)
  {
    QuotaWithinSlots(es, slots, i);
    var extra := if Rank(Keys(es, slots), i) < Leftover(es, slots) then 1 else 0;
    if extra == 1 { ExtraNeedsRemainder(es, slots, i); }
    NoWrap(Quotas(es, slots)[i] + extra, TWO32);
  }

  lemma QuotaWithinSlots(es: seq<Entry>, slots: nat, i: nat)
    requires Fits(es, slots) && i < |es| && TotalStake(es) > 0
    ensures Quotas(es, slots)[i] <= slots < TWO32
    ensures Remainders(es, slots)[i] > 0 ==> Quotas(es, slots)[i] < slots
  {
    ExactQuota(es, slots, i);
  }

  lemma {:induction false} TotalWithExtras(values: seq<nat>, extras: set<nat>, counts: seq<nat>)
    requires |counts| == |values| && Within(extras, |values|)
    requires forall i :: 0 <= i < |values| ==> counts[i] == values[i] + if i in extras then 1 else 0
    ensures Total(counts) == Total(values) + |extras|
  {
    if values == [] {
      assert forall i: nat :: i !in extras;
    } else {
      var n := |values| - 1;
      TotalWithExtras(values[..n], extras - {n}, counts[..n]);
      if n !in extras { assert extras - {n} == extras; }
    }
  }

  // The counts add up to exactly the slots.
  lemma {:induction false} CountsAddUp(es: seq<Entry>, slots: nat)
    requires Fits(es, slots)
    ensures TotalStake(es) > 0
    ensures Total(Counts(es, slots)) == slots
  {
    TotalFits(es, slots);
    LeftoverInBounds(es, slots);
    var keys, left := Keys(es, slots), Leftover(es, slots);
    var order := StableOrder(keys, |keys|);
    SortedRanks(keys, order);
    var extras := Elements(order[..left]);
    DistinctCount(order[..left]);
    assert forall i :: i in order[..left] ==> i in order;
    forall i | 0 <= i < |es|
      ensures Counts(es, slots)[i] == Quotas(es, slots)[i] + if i in extras then 1 else 0
    {
      CountIs(es, slots, i);
    }
    TotalWithExtras(Quotas(es, slots), extras, Counts(es, slots));
  }

  lemma BeatsTransitive(keys: seq<Key>, i: nat, j: nat)
    requires i < |keys| && j < |keys| && Ahead(keys[j], keys[i])
    ensures Rank(keys, j) <= Rank(keys, i)
  {
    forall k | k in Winners(keys, j) ensures k in Winners(keys, i) {
      AheadOrder(keys[k], keys[j], keys[i]);
    }
    SubsetCount(Winners(keys, j), Winners(keys, i));
  }

  // The slots left over go by remainder, the largest first, and between equal ones
  // by address.
  lemma {:induction false} ExtraByRemainder(es: seq<Entry>, slots: nat, i: nat, j: nat)
    requires Fits(es, slots) && i < |es| && j < |es|
    requires var total := Total(Stakes(es));
             var x, y := es[i].stake * slots % total, es[j].stake * slots % total;
             y > x || (y == x && Before(es[j].address, es[i].address))
    ensures TotalStake(es) > 0
    ensures Count(es, slots, i) > es[i].stake * slots / Total(Stakes(es)) ==>
              Count(es, slots, j) > es[j].stake * slots / Total(Stakes(es))
  {
    ExactQuota(es, slots, i);
    ExactQuota(es, slots, j);
    QuotaRule(es, slots, i);
    QuotaRule(es, slots, j);
    assert Ahead(Keys(es, slots)[j], Keys(es, slots)[i]);
    BeatsTransitive(Keys(es, slots), i, j);
  }

  // More stake never gets fewer slots; with equal stake the smaller address is
  // served first.
  lemma {:induction false} MoreStakeNeverFewer(es: seq<Entry>, slots: nat, i: nat, j: nat)
    requires Fits(es, slots) && i < |es| && j < |es|
    requires es[i].stake < es[j].stake || (es[i].stake == es[j].stake && Before(es[j].address, es[i].address))
    ensures TotalStake(es) > 0
    ensures Count(es, slots, i) <= Count(es, slots, j)
  {
    var d := Total(Stakes(es));
    ExactQuota(es, slots, i);
    ExactQuota(es, slots, j);
    QuotaRule(es, slots, i);
    QuotaRule(es, slots, j);
    var x, y := es[i].stake * slots, es[j].stake * slots;
    assert x <= y && (es[i].stake < es[j].stake ==> x < y) by {
      if es[i].stake < es[j].stake { MulMono(es[i].stake + 1, es[j].stake, slots); Spread(es[i].stake, 1, slots); }
    }
    DivMono(x, y, d);
    if x / d == y / d {
      DivMod(x, d);
      DivMod(y, d);
      assert Ahead(Keys(es, slots)[j], Keys(es, slots)[i]);
      BeatsTransitive(Keys(es, slots), i, j);
    }
  }

  // ---- the order of the list ------------------------------------------------

  predicate DistinctAddresses(es: seq<Entry>) {
    forall i, j :: 0 <= i < j < |es| ==> es[i].address != es[j].address
  }

  // Where an entry ranks is decided by the set of keys alone.
  lemma {:induction false} RankFromKeys(keys: seq<Key>, i: nat)
    requires Distinct(keys) && i < |keys|
    ensures Rank(keys, i) == |set key | key in keys && Ahead(key, keys[i])|
  {
    ImageCount(keys, Winners(keys, i));
    assert (set j | j in Winners(keys, i) :: keys[j]) == set key | key in keys && Ahead(key, keys[i]) by {
      forall key | key in keys && Ahead(key, keys[i]) ensures key in set j | j in Winners(keys, i) :: keys[j] {
        var j :| 0 <= j < |keys| && keys[j] == key;
        assert j in Winners(keys, i);
      }
    }
  }

  lemma {:induction false} EntriesPermuted(es: seq<Entry>, fs: seq<Entry>, slots: nat)
    requires multiset(es) == multiset(fs)
    ensures TotalStake(es) == TotalStake(fs)
    ensures TotalStake(es) > 0 ==> Leftover(es, slots) == Leftover(fs, slots)
    ensures TotalStake(es) > 0 ==> multiset(Keys(es, slots)) == multiset(Keys(fs, slots))
  {
    StakesPermuted(es, fs);
    if TotalStake(es) > 0 {
      QuotasPermuted(es, fs, slots);
      KeysPermuted(es, fs, slots);
    }
  }

  lemma {:induction false} StakesPermuted(es: seq<Entry>, fs: seq<Entry>)
    requires multiset(es) == multiset(fs)
    ensures TotalStake(es) == TotalStake(fs)
  {
    var stake := (e: Entry) => e.stake;
    MapPermuted(es, fs, stake);
    assert Map(es, stake) == Stakes(es) && Map(fs, stake) == Stakes(fs);
    TotalPermuted(Stakes(es), Stakes(fs));
  }

  lemma {:induction false} QuotasPermuted(es: seq<Entry>, fs: seq<Entry>, slots: nat)
    requires multiset(es) == multiset(fs) && TotalStake(es) == TotalStake(fs) > 0
    ensures Leftover(es, slots) == Leftover(fs, slots)
  {
    var total := TotalStake(es);
    var quota := (e: Entry) => Quota(e.stake, slots, total);
    MapPermuted(es, fs, quota);
    assert Map(es, quota) == Quotas(es, slots) && Map(fs, quota) == Quotas(fs, slots);
    TotalPermuted(Quotas(es, slots), Quotas(fs, slots));
  }

  lemma {:induction false} KeysPermuted(es: seq<Entry>, fs: seq<Entry>, slots: nat)
    requires multiset(es) == multiset(fs) && TotalStake(es) == TotalStake(fs) > 0
    ensures multiset(Keys(es, slots)) == multiset(Keys(fs, slots))
  {
    var total := TotalStake(es);
    var key := (e: Entry) => Key(Remainder(e.stake, slots, total), e.address);
    MapPermuted(es, fs, key);
    assert Map(es, key) == Keys(es, slots) && Map(fs, key) == Keys(fs, slots);
  }

  // Reordering the validators changes nobody's count, whatever the stakes.
  lemma {:induction false} OrderDoesNotMatter(vs: seq<Validator>, ws: seq<Validator>, slots: nat, i: nat, j: nat)
    requires multiset(vs) == multiset(ws) && DistinctAddresses(Entries(vs)) && DistinctAddresses(Entries(ws))
    requires i < |Entries(vs)| && j < |Entries(ws)| && Entries(vs)[i].address == Entries(ws)[j].address
    requires TotalStake(Entries(vs)) > 0
    ensures TotalStake(Entries(ws)) > 0
    ensures Count(Entries(vs), slots, i) == Count(Entries(ws), slots, j)
  {
    var es, fs := Entries(vs), Entries(ws);
    CollectPermuted(vs, ws, ToEntry);
    EntriesPermuted(es, fs, slots);
    SameEntry(es, fs, i, j);
    KeysDistinct(es, slots);
    KeysDistinct(fs, slots);
    SameRank(Keys(es, slots), Keys(fs, slots), i, j);
  }

  lemma {:induction false} SameRank(ks: seq<Key>, ls: seq<Key>, i: nat, j: nat)
    requires multiset(ks) == multiset(ls) && Distinct(ks) && Distinct(ls)
    requires i < |ks| && j < |ls| && ks[i] == ls[j]
    ensures Rank(ks, i) == Rank(ls, j)
  {
    RankFromKeys(ks, i);
    RankFromKeys(ls, j);
    assert forall key :: key in ks <==> key in multiset(ks);
    assert forall key :: key in ls <==> key in multiset(ls);
    assert (set key | key in ks && Ahead(key, ks[i])) == set key | key in ls && Ahead(key, ls[j]);
  }

  lemma {:induction false} KeysDistinct(es: seq<Entry>, slots: nat)
    requires TotalStake(es) > 0 && DistinctAddresses(es)
    ensures Distinct(Keys(es, slots))
  {
    forall i, j | 0 <= i < j < |es| ensures Keys(es, slots)[i] != Keys(es, slots)[j] {
      assert es[i].address != es[j].address;
    }
  }

  lemma SameEntry(es: seq<Entry>, fs: seq<Entry>, i: nat, j: nat)
    requires multiset(es) == multiset(fs) && DistinctAddresses(fs)
    requires i < |es| && j < |fs| && es[i].address == fs[j].address
    ensures es[i] == fs[j]
  {
    assert es[i] in multiset(es);
    var k :| 0 <= k < |fs| && fs[k] == es[i];
  }

  // ---- outside the bound ----------------------------------------------------

  // Wrapping makes a quota too small.
  lemma WrappedQuota(stake: nat, slots: nat, total: nat)
    requires 0 < total < TWO64 && stake * slots >= TWO64
    ensures Quota(stake, slots, total) < stake * slots / total
  {
    Rewards.WrappedQuotient(stake * slots, total);
    AtMost(Scaled(stake, slots) / total, TWO32);
  }

  lemma AtMost(n: nat, m: nat)
    requires m > 0
    ensures n % m <= n
  {
  }

  // With a total that fits, every quota is the exact floor of its proportional
  // share if and only if no product of a stake and the slots reaches 2^64.
  lemma {:induction false} QuotasExactIff(es: seq<Entry>, slots: nat)
    requires 0 < slots < TWO32 && 0 < Total(Stakes(es)) < TWO64
    ensures TotalStake(es) == Total(Stakes(es))
    ensures (forall i :: 0 <= i < |es| ==> Quotas(es, slots)[i] == es[i].stake * slots / Total(Stakes(es)))
            <==> Fits(es, slots)
  {
    var total := Total(Stakes(es));
    forall i | 0 <= i < |es|
      ensures Quotas(es, slots)[i] == es[i].stake * slots / total <==> es[i].stake * slots < TWO64
    {
      TotalAtLeast(Stakes(es), i);
      if es[i].stake * slots < TWO64 {
        QuotaExact(es[i].stake, slots, total);
      } else {
        WrappedQuota(es[i].stake, slots, total);
      }
    }
  }

  // Without the bound the indexing loop can run off its list: one validator
  // with 2^55 Luna and 512 slots gets a quota of 0 and leaves all 512 over.
  lemma OverflowLeavesTooMany(address: string)
    ensures var es := [Entry(address, 0x80_0000_0000_0000)];
            TotalStake(es) > 0 && !Fits(es, 512) && Leftover(es, 512) > |es|
  {
    var es := [Entry(address, 0x80_0000_0000_0000)];
    assert Stakes(es) == [0x80_0000_0000_0000];
    assert Total(Stakes(es)) == 0x80_0000_0000_0000;
    assert Quotas(es, 512) == [0];
    assert Total(Quotas(es, 512)) == 0;
  }
}
