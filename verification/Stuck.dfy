// When a payout that cannot be confirmed counts as stuck (stuck.go).
module Stuck {
  import opened Prelude
  import opened Arithmetic
  import opened ChainPolicy

  // Times are in milliseconds; a missing timestamp is None.
  function IsStuck(submittedHeight: nat, head: nat, stuckEpochs: int, blocksPerEpoch: nat,
                   blockSeparationMs: nat, submittedAt: Option<int>, now: int): bool
  {
    if stuckEpochs <= 0 then false
    else if submittedHeight > 0 && blocksPerEpoch > 0 then
      head - submittedHeight > stuckEpochs * blocksPerEpoch
    else if submittedAt.Some? && blocksPerEpoch > 0 && blockSeparationMs > 0 then
      now - submittedAt.value > stuckEpochs * (blocksPerEpoch * blockSeparationMs)
    else false
  }

  // A payout whose height is known is failed as stuck only once the head's epoch
  // is at least `stuckEpochs` past the submission's.  (The chain has no heights
  // before genesis.)
  lemma StuckMeansEpochsPassed(p: Policy, submitted: nat, head: nat, stuckEpochs: nat, at: Option<int>, now: int)
    requires p.Valid() && submitted > 0 && p.genesis <= submitted
    requires IsStuck(submitted, head, stuckEpochs, p.BlocksPerEpoch(), p.blockSeparationMs, at, now)
    ensures EpochAt(p, head) >= EpochAt(p, submitted) + stuckEpochs
  {
    BlocksPerEpochPositive(p);
    var b, e := p.BlocksPerEpoch(), EpochAt(p, submitted);
    EpochAtIs(p, submitted, e);
    var f := EpochAt(p, head);
    EpochAtIs(p, head, f);
    assert (e - 1 + stuckEpochs) * b == (e - 1) * b + stuckEpochs * b;
    if f < e + stuckEpochs {
      if e == 0 {
        assert stuckEpochs * b == (stuckEpochs - 1) * b + b;
        MulMono(f, stuckEpochs - 1, b);
      } else {
        MulMono(f, e - 1 + stuckEpochs, b);
      }
    }
  }

  // Stuckness never goes away as the head advances, and a failed head read
  // (head = 0) never marks a payout whose height is known.
  lemma StuckMonotone(submitted: nat, head: nat, later: nat, stuckEpochs: int, blocksPerEpoch: nat,
                      sep: nat, at: Option<int>, now: int, nowLater: int)
    requires head <= later && now <= nowLater
    ensures IsStuck(submitted, head, stuckEpochs, blocksPerEpoch, sep, at, now) ==>
              IsStuck(submitted, later, stuckEpochs, blocksPerEpoch, sep, at, nowLater)
    ensures submitted > 0 && blocksPerEpoch > 0 ==>
              !IsStuck(submitted, 0, stuckEpochs, blocksPerEpoch, sep, at, now)
  {
    if stuckEpochs > 0 {
      MulMono(0, stuckEpochs, blocksPerEpoch);
    }
  }
}
