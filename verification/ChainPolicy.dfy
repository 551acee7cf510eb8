// Chain policy arithmetic: which block a height is, and which epoch and batch
// it belongs to.  Heights are 32-bit in the source; `Valid` and `InRange` say
// when none of its sums wraps, and within them the arithmetic is exact.
module ChainPolicy {
  import opened Arithmetic

  const MAX_HEIGHT := 0xFFFF_FFFF

  // `batchesPerEpoch` is derived, as the node does it: an epoch is a whole
  // number of batches.
  datatype Policy = Policy(genesis: nat, blocksPerBatch: nat, batchesPerEpoch: nat, blockSeparationMs: nat) {
    function BlocksPerEpoch(): nat { blocksPerBatch * batchesPerEpoch }

    predicate Valid() {
      blocksPerBatch > 0 && batchesPerEpoch > 0 && genesis + BlocksPerEpoch() <= MAX_HEIGHT
    }

    // Far enough from the end of the 32-bit range that rounding up cannot wrap.
    predicate InRange(height: nat) { height + BlocksPerEpoch() <= MAX_HEIGHT }
  }

  datatype BlockKind = Micro | Checkpoint | Election

  function Classify(p: Policy, height: nat): BlockKind
    requires p.Valid() && p.genesis <= height
  {
    var offset := height - p.genesis;
    BlocksPerEpochPositive(p);
    if offset % p.BlocksPerEpoch() == 0 then Election
    else if offset % p.blocksPerBatch == 0 then Checkpoint
    else Micro
  }

  function DivCeil(n: nat, d: nat): nat
    requires d > 0
  {
    (n + d - 1) / d
  }

  function EpochAt(p: Policy, height: nat): nat
    requires p.Valid()
  {
    BlocksPerEpochPositive(p);
    if height <= p.genesis then 0 else DivCeil(height - p.genesis, p.BlocksPerEpoch())
  }

  function BatchAt(p: Policy, height: nat): nat
    requires p.Valid()
  {
    if height <= p.genesis then 0 else DivCeil(height - p.genesis, p.blocksPerBatch)
  }

  function EpochEndHeight(p: Policy, epoch: nat): nat {
    if epoch == 0 then p.genesis else p.genesis + epoch * p.BlocksPerEpoch()
  }

  datatype EpochClock = EpochClock(epoch: nat, into: nat, remaining: nat, remainingMs: nat)

  function EpochClockAt(p: Policy, height: nat): EpochClock
    requires p.Valid()
  {
    EpochEndBounds(p, height);
    var epoch := EpochAt(p, height);
    var end := EpochEndHeight(p, epoch);
    var remaining := if end > height then end - height else 0;
    var into := if epoch > 0 then p.BlocksPerEpoch() - remaining else 0;
    EpochClock(epoch, into, remaining, remaining * p.blockSeparationMs)
  }

  // ---- division facts ------------------------------------------------------

  lemma BlocksPerEpochPositive(p: Policy)
    requires p.Valid()
    ensures p.BlocksPerEpoch() >= p.blocksPerBatch > 0
  {
    MulMono(1, p.batchesPerEpoch, p.blocksPerBatch);
  }

  lemma DivIs(n: nat, d: nat, q: nat)
    requires d > 0 && q * d <= n < (q + 1) * d
    ensures n / d == q
  {
    var r := n / d;
    assert r * d <= n < (r + 1) * d by {
      assert n == d * r + n % d;
    }
    if r < q { MulMono(r + 1, q, d); }
    if r > q { MulMono(q + 1, r, d); }
  }

  // Rounding up: the result is q exactly on the half-open interval of length d
  // that ends at q * d.
  lemma DivCeilIs(n: nat, d: nat, q: nat)
    requires d > 0 && n > 0
    ensures DivCeil(n, d) == q <==> (q > 0 && (q - 1) * d < n <= q * d)
    ensures DivCeil(n, d) > 0
  {
    var r := DivCeil(n, d);
    var m := n + d - 1;
    assert m == d * r + m % d;
    assert (r - 1) * d < n <= r * d;
    if r == 0 { assert false; }
    if q > 0 && (q - 1) * d < n <= q * d {
      if r < q { MulMono(r, q - 1, d); }
      if r > q { MulMono(q, r - 1, d); }
    }
  }

  lemma DivCeilExact(q: nat, d: nat)
    requires d > 0
    ensures DivCeil(q * d, d) == q
    ensures (q * d) % d == 0
  {
    DivIs(q * d + d - 1, d, q);
    DivIs(q * d, d, q);
  }

  // ---- what the epoch and batch numbers mean -------------------------------

  // Epoch e >= 1 is exactly the heights (g + (e-1)*B, g + e*B]; epoch 0 is
  // genesis and anything before it.
  lemma EpochAtIs(p: Policy, height: nat, e: nat)
    requires p.Valid()
    ensures EpochAt(p, height) == e <==>
            if e == 0 then height <= p.genesis
            else p.genesis + (e - 1) * p.BlocksPerEpoch() < height <= p.genesis + e * p.BlocksPerEpoch()
  {
    BlocksPerEpochPositive(p);
    if height > p.genesis {
      DivCeilIs(height - p.genesis, p.BlocksPerEpoch(), e);
    } else if e > 0 {
      MulMono(0, e - 1, p.BlocksPerEpoch());
    }
  }

  lemma BatchAtIs(p: Policy, height: nat, b: nat)
    requires p.Valid()
    ensures BatchAt(p, height) == b <==>
            if b == 0 then height <= p.genesis
            else p.genesis + (b - 1) * p.blocksPerBatch < height <= p.genesis + b * p.blocksPerBatch
  {
    if height > p.genesis {
      DivCeilIs(height - p.genesis, p.blocksPerBatch, b);
    } else if b > 0 {
      MulMono(0, b - 1, p.blocksPerBatch);
    }
  }

  lemma EpochEndBounds(p: Policy, height: nat)
    requires p.Valid()
    ensures var end := EpochEndHeight(p, EpochAt(p, height));
            height <= p.genesis || height <= end < height + p.BlocksPerEpoch()
  {
    var e := EpochAt(p, height);
    EpochAtIs(p, height, e);
    if e > 0 {
      assert (e - 1) * p.BlocksPerEpoch() == e * p.BlocksPerEpoch() - p.BlocksPerEpoch();
    }
  }

  // The clock is consistent: the epoch's last height is still its own and the
  // next one is not, which is how many blocks, and how much time, are left.  After
  // genesis, blocks gone plus blocks left make a whole epoch and none is left
  // exactly at an election block; up to genesis it counts down to it.
  lemma EpochClockConsistent(p: Policy, height: nat)
    requires p.Valid()
    ensures var c := EpochClockAt(p, height);
            && c.epoch == EpochAt(p, height)
            && EpochAt(p, height + c.remaining) == c.epoch
            && EpochAt(p, height + c.remaining + 1) == c.epoch + 1
            && c.remainingMs == c.remaining * p.blockSeparationMs
    ensures var c := EpochClockAt(p, height);
            if height > p.genesis then
              && c.into + c.remaining == p.BlocksPerEpoch() && 1 <= c.into
              && (c.remaining == 0 <==> Classify(p, height) == Election)
            else c.epoch == 0 && c.into == 0 && height + c.remaining == p.genesis
  {
    if height > p.genesis {
      ClockAfterGenesis(p, height);
    } else {
      BlocksPerEpochPositive(p);
      EpochAtIs(p, p.genesis + 1, 1);
    }
  }

  lemma ClockAfterGenesis(p: Policy, height: nat)
    requires p.Valid() && height > p.genesis
    ensures var c := EpochClockAt(p, height);
            && c.into + c.remaining == p.BlocksPerEpoch() && 1 <= c.into
            && EpochAt(p, height + c.remaining) == c.epoch
            && EpochAt(p, height + c.remaining + 1) == c.epoch + 1
            && (c.remaining == 0 <==> Classify(p, height) == Election)
  {
    EpochEndBounds(p, height);
    BlocksPerEpochPositive(p);
    var c := EpochClockAt(p, height);
    var e, bpe := c.epoch, p.BlocksPerEpoch();
    EpochAtIs(p, height, e);
    MulStep(e, bpe);
    EpochAtIs(p, height + c.remaining, e);
    EpochAtIs(p, height + c.remaining + 1, e + 1);
    MultipleIff(height - p.genesis, bpe, e);
  }

  lemma MulStep(e: int, d: nat)
    ensures (e - 1) * d == e * d - d && (e + 1) * d == e * d + d
  {
  }

  lemma MultipleIff(n: nat, d: nat, e: nat)
    requires d > 0 && e > 0 && (e - 1) * d < n <= e * d
    ensures n % d == 0 <==> n == e * d
  {
    if n == e * d {
      DivCeilExact(e, d);
    } else {
      MulStep(e, d);
      DivIs(n, d, e - 1);
      assert n == d * (n / d) + n % d;
    }
  }

  // No sum the source forms while rounding up leaves the 32-bit range.
  lemma RoundingUpDoesNotWrap(p: Policy, height: nat)
    requires p.Valid() && p.genesis <= height && p.InRange(height)
    ensures (height - p.genesis) + p.BlocksPerEpoch() - 1 <= MAX_HEIGHT
    ensures (height - p.genesis) + p.blocksPerBatch - 1 <= MAX_HEIGHT
    ensures EpochEndHeight(p, EpochAt(p, height)) <= MAX_HEIGHT
  {
    BlocksPerEpochPositive(p);
    EpochEndBounds(p, height);
  }

  // Epoch e ends at an election block, the last height numbered e.
  lemma ElectionNumbers(p: Policy, e: nat)
    requires p.Valid()
    ensures EpochEndHeight(p, e) >= p.genesis
    ensures EpochAt(p, EpochEndHeight(p, e)) == e
    ensures Classify(p, EpochEndHeight(p, e)) == Election
    ensures e > 0 ==> EpochEndHeight(p, e) > p.genesis
  {
    BlocksPerEpochPositive(p);
    if e > 0 {
      MulMono(1, e, p.BlocksPerEpoch());
      DivCeilExact(e, p.BlocksPerEpoch());
    }
  }

  // ---- reward attribution --------------------------------------------------

  // The height at which the reward of batch j is collected: one batch later.
  function CollectHeight(p: Policy, batch: nat): nat {
    p.genesis + (batch + 1) * p.blocksPerBatch
  }

  // The epoch the source stores for the reward of batch j.
  function EpochOfBatch(p: Policy, batch: nat): nat
    requires p.Valid()
  {
    EpochAt(p, p.genesis + batch * p.blocksPerBatch)
  }

  // The macro heights after genesis are exactly the collect heights, one per
  // batch; at each of them the source computes batch `BatchAt - 1` and the
  // epoch of the height one batch earlier.
  lemma MacroHeight(p: Policy, height: nat)
    requires p.Valid() && height > p.genesis
    ensures Classify(p, height) != Micro <==> height == CollectHeight(p, BatchAt(p, height) - 1)
    ensures BatchAt(p, height) > 0
    ensures Classify(p, height) != Micro ==>
              height - p.blocksPerBatch == p.genesis + (BatchAt(p, height) - 1) * p.blocksPerBatch
  {
    var offset, b := height - p.genesis, BatchAt(p, height);
    MacroIsBatchEnd(p, height);
    CeilOfMultiple(offset, p.blocksPerBatch);
    MulStep(b, p.blocksPerBatch);
  }

  // An epoch being a whole number of batches, every election block ends a batch.
  lemma MacroIsBatchEnd(p: Policy, height: nat)
    requires p.Valid() && p.genesis <= height
    ensures Classify(p, height) != Micro <==> (height - p.genesis) % p.blocksPerBatch == 0
  {
    BlocksPerEpochPositive(p);
    var offset := height - p.genesis;
    if offset % p.BlocksPerEpoch() == 0 {
      var k := offset / p.BlocksPerEpoch();
      assert offset == p.BlocksPerEpoch() * k;
      assert offset == (k * p.batchesPerEpoch) * p.blocksPerBatch by { Regroup(k, p.batchesPerEpoch, p.blocksPerBatch); }
      DivCeilExact(k * p.batchesPerEpoch, p.blocksPerBatch);
    }
  }

  lemma CeilOfMultiple(n: nat, d: nat)
    requires d > 0 && n > 0
    ensures DivCeil(n, d) > 0
    ensures n % d == 0 <==> n == DivCeil(n, d) * d
  {
    DivCeilIs(n, d, 1);
    if n % d == 0 {
      ExactQuotient(n, d);
    }
    DivCeilExact(DivCeil(n, d), d);
  }

  lemma ExactQuotient(n: nat, d: nat)
    requires d > 0 && n % d == 0
    ensures n == DivCeil(n, d) * d
  {
    var q := n / d;
    assert n == q * d;
    DivCeilExact(q, d);
  }

  // The epoch handleCheckpoint looks stakers up for, at a height whose batch is
  // not the first: the epoch of the height one batch earlier.
  function RewardEpoch(p: Policy, height: nat): nat
    requires p.Valid() && p.genesis <= height && Classify(p, height) != Micro && BatchAt(p, height) > 0
  {
    MacroHeight(p, height);
    EpochAt(p, height - p.blocksPerBatch)
  }

  lemma RewardEpochIs(p: Policy, height: nat)
    requires p.Valid() && p.genesis <= height && Classify(p, height) != Micro && BatchAt(p, height) > 0
    ensures RewardEpoch(p, height) == EpochOfBatch(p, BatchAt(p, height) - 1)
    ensures height == CollectHeight(p, BatchAt(p, height) - 1)
  {
    MacroHeight(p, height);
  }

  lemma CollectHeightIsMacro(p: Policy, batch: nat)
    requires p.Valid()
    ensures CollectHeight(p, batch) > p.genesis
    ensures BatchAt(p, CollectHeight(p, batch)) == batch + 1
    ensures Classify(p, CollectHeight(p, batch)) != Micro
  {
    MulMono(1, batch + 1, p.blocksPerBatch);
    DivCeilExact(batch + 1, p.blocksPerBatch);
    MacroHeight(p, CollectHeight(p, batch));
  }

  // Batch 0 is attributed to epoch 0; every later batch to the one epoch all
  // of its heights are in; and epoch e >= 1 receives exactly the batches
  // (e-1)*n + 1 .. e*n, which are n batches.
  lemma RewardAttribution(p: Policy, batch: nat, e: nat)
    requires p.Valid()
    ensures EpochOfBatch(p, batch) == e <==>
            if e == 0 then batch == 0
            else (e - 1) * p.batchesPerEpoch < batch <= e * p.batchesPerEpoch
    ensures forall h :: h > p.genesis && BatchAt(p, h) == batch ==> EpochAt(p, h) == EpochOfBatch(p, batch)
  {
    BatchInEpoch(p, batch, e);
    var ep := EpochOfBatch(p, batch);
    BatchInEpoch(p, batch, ep);
    forall h | h > p.genesis && BatchAt(p, h) == batch
      ensures EpochAt(p, h) == ep
    {
      HeightInBatchEpoch(p, batch, ep, h);
    }
  }

  lemma BatchInEpoch(p: Policy, batch: nat, e: nat)
    requires p.Valid()
    ensures EpochOfBatch(p, batch) == e <==>
            if e == 0 then batch == 0
            else (e - 1) * p.batchesPerEpoch < batch <= e * p.batchesPerEpoch
  {
    var n, b := p.batchesPerEpoch, p.blocksPerBatch;
    EpochAtIs(p, p.genesis + batch * b, e);
    Regroup(e - 1, n, b);
    Regroup(e, n, b);
    MulOrder((e - 1) * n, batch, b);
    MulOrder(e * n, batch, b);
    MulOrder(0, batch, b);
  }

  lemma HeightInBatchEpoch(p: Policy, batch: nat, e: nat, h: nat)
    requires p.Valid() && h > p.genesis && BatchAt(p, h) == batch
    requires if e == 0 then batch == 0
             else (e - 1) * p.batchesPerEpoch < batch <= e * p.batchesPerEpoch
    ensures EpochAt(p, h) == e
  {
    var n, b := p.batchesPerEpoch, p.blocksPerBatch;
    BatchAtIs(p, h, batch);
    EpochAtIs(p, h, e);
    if e > 0 {
      Regroup(e - 1, n, b);
      Regroup(e, n, b);
      MulMono((e - 1) * n, batch - 1, b);
      MulMono(batch, e * n, b);
    }
  }

  lemma Regroup(k: int, n: nat, b: nat)
    ensures k * (b * n) == (k * n) * b
  {
    assert k * (b * n) == k * (n * b) == (k * n) * b;
  }

  lemma MulOrder(x: int, y: int, c: nat)
    requires c > 0
    ensures x * c < y * c <==> x < y
    ensures y * c <= x * c <==> y <= x
  {
    if x < y {
      MulMono(x + 1, y, c);
      MulStep(x, c);
    } else {
      MulMono(y, x, c);
    }
  }
}
