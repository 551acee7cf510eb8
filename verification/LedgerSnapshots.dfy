// Staker snapshots over runs: an epoch's snapshot never changes once its election
// is over, and only its stakers get the epoch's payslips.
module LedgerSnapshots {
  import opened Prelude
  import opened ChainPolicy
  import opened Tables
  import opened Ledger
  import opened LedgerInvariant
  import opened LedgerRuns
  import opened LedgerHeights
  import Rewards

  // The epoch has its row and no election is inserting its stakers.
  predicate Closed(s: Sys, epoch: nat) {
    epoch in s.t.epochs && !(s.pc.Electing? && epoch in s.pc.epochs)
  }

  lemma StepKeepsSnapshot(p: Policy, s: Sys, step: Step, epoch: nat)
    requires p.Valid() && ElectionOk(s.t, s.pc) && Enabled(p, s, step) && Closed(s, epoch)
    ensures Closed(Apply(p, s, step), epoch)
    ensures StakersOf(Apply(p, s, step).t, epoch) == StakersOf(s.t, epoch)
  {
    if IsHeightStep(step) { HeightStepKeepsSnapshot(p, s, step, epoch); } else { PayoutStepKeepsSnapshot(s, step, epoch); }
  }

  lemma HeightStepKeepsSnapshot(p: Policy, s: Sys, step: Step, epoch: nat)
    requires p.Valid() && ElectionOk(s.t, s.pc) && IsHeightStep(step) && Enabled(p, s, step) && Closed(s, epoch)
    ensures Closed(Apply(p, s, step), epoch)
    ensures StakersOf(Apply(p, s, step).t, epoch) == StakersOf(s.t, epoch)
  {
    if step.AddStaker? { assert s.pc.left[0] in s.pc.left; }
  }

  lemma PayoutStepKeepsSnapshot(s: Sys, step: Step, epoch: nat)
    requires !IsHeightStep(step) && PayoutEnabled(s, step) && Closed(s, epoch)
    ensures Closed(PayoutApply(s, step), epoch)
    ensures StakersOf(PayoutApply(s, step).t, epoch) == StakersOf(s.t, epoch)
  {
  }

  // Closed snapshots are frozen, whole or not.
  lemma {:induction false} SnapshotFrozen(p: Policy, r: Run, i: nat, j: nat, epoch: nat)
    requires p.Valid() && IsRun(p, r) && i <= j < |r.states| && Closed(r.states[i], epoch)
    ensures Closed(r.states[j], epoch)
    ensures StakersOf(r.states[j].t, epoch) == StakersOf(r.states[i].t, epoch)
    decreases j
  {
    if i < j {
      SnapshotFrozen(p, r, i, j - 1, epoch);
      RunInv(p, r, j - 1);
      assert IsStep(p, r, j - 1);
      StepKeepsSnapshot(p, r.states[j - 1], r.steps[j - 1], epoch);
    }
  }

  // A recorded reward's epoch was elected before, and its snapshot is frozen.
  lemma SnapshotBeforeReward(p: Policy, r: Run, i: nat, j: nat, b: nat)
    requires p.Valid() && IsRun(p, r) && i <= j < |r.states| && b in r.states[i].t.rewards
    ensures b in r.states[j].t.rewards && r.states[j].t.rewards[b] == r.states[i].t.rewards[b]
    ensures var epoch := r.states[i].t.rewards[b].epoch;
            && epoch == EpochOfBatch(p, b) && Closed(r.states[i], epoch)
            && StakersOf(r.states[j].t, epoch) == StakersOf(r.states[i].t, epoch)
            && (b > 0 ==> epoch > 0 && EpochEndHeight(p, epoch - 1) < Top(p, r, i))
  {
    RunInv(p, r, i);
    RunUpTo(p, r, i);
    assert RewardOk(p, r.states[i].t, b);
    RunEvolves(p, r, i, j);
    SnapshotFrozen(p, r, i, j, r.states[i].t.rewards[b].epoch);
    if b > 0 { SnapshotComesFirst(p, b); }
  }

  // ---- who is paid -----------------------------------------------------------

  // The address is in the snapshot the batch was shared out over, and that
  // snapshot gives somebody a share of the recorded amount.
  predicate Entitled(t: Tables, batch: nat, a: Address)
    requires batch in t.rewards
  {
    var row := t.rewards[batch];
    a in Rewards.Addresses(StakersOf(t, row.epoch)) && Rewards.Plan(StakersOf(t, row.epoch), row.amount, row.amount) != []
  }

  ghost predicate SlipsEntitled(t: Tables) {
    forall k :: 0 <= k < |t.payslips| ==> t.payslips[k].batch in t.rewards && Entitled(t, t.payslips[k].batch, t.payslips[k].address)
  }

  ghost predicate SharesEntitled(t: Tables, batch: nat, shares: seq<Rewards.Share>) {
    batch in t.rewards && forall i :: 0 <= i < |shares| ==> Entitled(t, batch, shares[i].address)
  }

  ghost predicate AllEntitled(s: Sys) {
    SlipsEntitled(s.t) && (s.pc.Collecting? ==> SharesEntitled(s.t, s.pc.batch, s.pc.shares))
  }

  lemma EntitledKept(p: Policy, s: Sys, step: Step, batch: nat, a: Address)
    requires p.Valid() && Inv(p, s) && Enabled(p, s, step)
    requires batch in s.t.rewards && Entitled(s.t, batch, a)
    ensures batch in Apply(p, s, step).t.rewards && Entitled(Apply(p, s, step).t, batch, a)
  {
    StepEvolves(p, s, step);
    assert RewardOk(p, s.t, batch);
    StepKeepsSnapshot(p, s, step, s.t.rewards[batch].epoch);
  }

  lemma CollectedEntitled(p: Policy, s: Sys, step: Step)
    requires p.Valid() && step.CollectReward? && Enabled(p, s, step)
    ensures var s' := Apply(p, s, step);
            SharesEntitled(s'.t, s'.pc.batch, s'.pc.shares)
  {
    var stakers := StakersOf(s.t, RewardEpoch(p, NextHeight(p, s.t)));
    var split := Rewards.SplitReward(step.reward, step.basisPoints);
    var plan := Rewards.Plan(stakers, step.reward, split.afterFee);
    forall i | 0 <= i < |plan|
      ensures plan[i].address in Rewards.Addresses(stakers) && Rewards.Plan(stakers, split.afterFee, split.afterFee) != []
    {
      Rewards.PlanMembers(stakers, step.reward, split.afterFee, plan[i]);
    }
  }

  lemma SharesKeptEntitled(p: Policy, s: Sys, step: Step, batch: nat, shares: seq<Rewards.Share>)
    requires p.Valid() && Inv(p, s) && Enabled(p, s, step) && SharesEntitled(s.t, batch, shares)
    ensures SharesEntitled(Apply(p, s, step).t, batch, shares)
  {
    StepEvolves(p, s, step);
    forall i | 0 <= i < |shares| ensures Entitled(Apply(p, s, step).t, batch, shares[i].address) {
      EntitledKept(p, s, step, batch, shares[i].address);
    }
  }

  // Payslip k, in the table before the step.
  lemma SlipKeptEntitled(p: Policy, s: Sys, step: Step, k: nat)
    requires p.Valid() && Inv(p, s) && Enabled(p, s, step) && SlipsEntitled(s.t) && k < |s.t.payslips|
    ensures var t' := Apply(p, s, step).t;
            k < |t'.payslips| && t'.payslips[k].batch in t'.rewards
            && Entitled(t', t'.payslips[k].batch, t'.payslips[k].address)
  {
    StepEvolves(p, s, step);
    assert SlipEvolves(s.t, Apply(p, s, step).t, k);
    EntitledKept(p, s, step, s.t.payslips[k].batch, s.t.payslips[k].address);
  }

  // A payslip the step adds is one of the shares the daemon had left.
  lemma AddedIsShare(p: Policy, s: Sys, step: Step, k: nat)
    requires p.Valid() && Enabled(p, s, step) && |s.t.payslips| <= k < |Apply(p, s, step).t.payslips|
    ensures s.pc.Collecting? && s.pc.shares != []
    ensures Apply(p, s, step).t.payslips[k] == NewPayslip(s.pc.batch, s.pc.shares[0])
  {
  }

  lemma StepKeepsSlipsEntitled(p: Policy, s: Sys, step: Step)
    requires p.Valid() && Inv(p, s) && Enabled(p, s, step) && AllEntitled(s)
    ensures SlipsEntitled(Apply(p, s, step).t)
  {
    var t' := Apply(p, s, step).t;
    forall k | 0 <= k < |t'.payslips|
      ensures t'.payslips[k].batch in t'.rewards && Entitled(t', t'.payslips[k].batch, t'.payslips[k].address)
    {
      if k < |s.t.payslips| {
        SlipKeptEntitled(p, s, step, k);
      } else {
        AddedIsShare(p, s, step, k);
        SharesKeptEntitled(p, s, step, s.pc.batch, s.pc.shares);
      }
    }
  }

  // The daemon's shares are those it had, or those of a batch it now collects.
  lemma SharesLeft(p: Policy, s: Sys, step: Step)
    requires p.Valid() && Enabled(p, s, step) && Apply(p, s, step).pc.Collecting? && !step.CollectReward?
    ensures s.pc.Collecting? && Apply(p, s, step).pc.batch == s.pc.batch
    ensures forall x :: x in Apply(p, s, step).pc.shares ==> x in s.pc.shares
  {
  }

  lemma StepKeepsEntitled(p: Policy, s: Sys, step: Step)
    requires p.Valid() && Inv(p, s) && Enabled(p, s, step) && AllEntitled(s)
    ensures AllEntitled(Apply(p, s, step))
  {
    StepKeepsSlipsEntitled(p, s, step);
    var s' := Apply(p, s, step);
    if step.CollectReward? {
      CollectedEntitled(p, s, step);
    } else if s'.pc.Collecting? {
      SharesLeft(p, s, step);
      SharesKeptEntitled(p, s, step, s.pc.batch, s.pc.shares);
      FewerSharesEntitled(s'.t, s.pc.batch, s.pc.shares, s'.pc.shares);
    }
  }

  lemma FewerSharesEntitled(t: Tables, batch: nat, shares: seq<Rewards.Share>, fewer: seq<Rewards.Share>)
    requires SharesEntitled(t, batch, shares) && forall x :: x in fewer ==> x in shares
    ensures SharesEntitled(t, batch, fewer)
  {
    forall i | 0 <= i < |fewer| ensures Entitled(t, batch, fewer[i].address) {
      assert fewer[i] in fewer;
    }
  }

  lemma {:induction false} RunEntitled(p: Policy, r: Run, i: nat)
    requires p.Valid() && IsRun(p, r) && i < |r.states|
    ensures AllEntitled(r.states[i])
  {
    if i > 0 {
      RunEntitled(p, r, i - 1);
      RunStepKeepsEntitled(p, r, i - 1);
    }
  }

  lemma RunStepKeepsEntitled(p: Policy, r: Run, i: nat)
    requires p.Valid() && IsRun(p, r) && i < |r.steps| && AllEntitled(r.states[i])
    ensures AllEntitled(r.states[i + 1])
  {
    RunInv(p, r, i);
    assert IsStep(p, r, i);
    StepKeepsEntitled(p, r.states[i], r.steps[i]);
  }

  // Whoever a closed snapshot lacks gets no payslip of its epoch, ever.
  lemma OmittedIsNeverPaid(p: Policy, r: Run, i: nat, j: nat, epoch: nat, a: Address, k: nat)
    requires p.Valid() && IsRun(p, r) && i <= j < |r.states|
    requires Closed(r.states[i], epoch) && a !in Rewards.Addresses(StakersOf(r.states[i].t, epoch))
    requires InEpoch(r.states[j].t, k, epoch)
    ensures r.states[j].t.payslips[k].address != a
  {
    SnapshotFrozen(p, r, i, j, epoch);
    RunEntitled(p, r, j);
    assert Entitled(r.states[j].t, r.states[j].t.payslips[k].batch, r.states[j].t.payslips[k].address);
  }

  // In particular a snapshot cut midway is never completed: a staker still to be
  // inserted when the election stops is in no later snapshot of the epoch.
  lemma CutSnapshotStaysCut(p: Policy, r: Run, i: nat, j: nat, x: Entrant)
    requires p.Valid() && IsRun(p, r) && i < |r.steps| && i < j < |r.states|
    requires r.steps[i].Return? && r.states[i].pc.Electing? && x in r.states[i].pc.left
    requires x.epoch in r.states[i].t.epochs
    requires x.staker.address !in Rewards.Addresses(StakersOf(r.states[i].t, x.epoch))
    ensures x.staker.address !in Rewards.Addresses(StakersOf(r.states[j].t, x.epoch))
    ensures forall k: nat :: InEpoch(r.states[j].t, k, x.epoch) ==> r.states[j].t.payslips[k].address != x.staker.address
  {
    assert IsStep(p, r, i);
    assert Closed(r.states[i + 1], x.epoch);
    SnapshotFrozen(p, r, i + 1, j, x.epoch);
    forall k: nat | InEpoch(r.states[j].t, k, x.epoch) ensures r.states[j].t.payslips[k].address != x.staker.address {
      OmittedIsNeverPaid(p, r, i + 1, j, x.epoch, x.staker.address, k);
    }
  }

  // ---- exactly when a snapshot is whole -----------------------------------------

  // The stakers of one epoch among those still to insert, in order.
  function Entering(left: seq<Entrant>, epoch: nat): seq<Staker> {
    if left == [] then []
    else (if left[0].epoch == epoch then [left[0].staker] else []) + Entering(left[1..], epoch)
  }

  // A snapshot's stakers, inserted or still to insert.
  function Expected(s: Sys, epoch: nat): seq<Staker>
    requires s.pc.Electing?
  {
    StakersOf(s.t, epoch) + Entering(s.pc.left, epoch)
  }

  predicate Holding(pc: Daemon, epoch: nat) {
    pc.Electing? && epoch in pc.epochs
  }

  // The election stops with a staker of the epoch still to insert.
  predicate Cuts(s: Sys, step: Step, epoch: nat) {
    step.Return? && s.pc.Electing? && Entering(s.pc.left, epoch) != []
  }

  ghost predicate CutBetween(r: Run, c: nat, j: nat, epoch: nat)
    requires j <= |r.steps| < |r.states|
  {
    exists i :: c <= i < j && Cuts(r.states[i], r.steps[i], epoch)
  }

  // While an election lasts, what its snapshots are to hold does not change.
  lemma ElectingStep(p: Policy, r: Run, i: nat, epoch: nat)
    requires p.Valid() && IsRun(p, r) && i < |r.steps| && r.states[i].pc.Electing?
    ensures var s, s' := r.states[i], r.states[i + 1];
            if r.steps[i].Return? then s'.pc.Idle? && StakersOf(s'.t, epoch) == StakersOf(s.t, epoch)
            else s'.pc.Electing? && s'.pc.epochs == s.pc.epochs && Expected(s', epoch) == Expected(s, epoch)
    ensures r.states[i].t.epochs.Keys <= r.states[i + 1].t.epochs.Keys
  {
    assert IsStep(p, r, i);
  }

  // How far the epoch's snapshot has got at state j, seen from state c.
  ghost predicate SoFar(r: Run, c: nat, j: nat, epoch: nat)
    requires c <= j <= |r.steps| < |r.states| && r.states[c].pc.Electing?
  {
    && epoch in r.states[j].t.epochs
    && if Holding(r.states[j].pc, epoch) then
         Expected(r.states[j], epoch) == Expected(r.states[c], epoch) && !CutBetween(r, c, j, epoch)
       else StakersOf(r.states[j].t, epoch) == Expected(r.states[c], epoch) <==> !CutBetween(r, c, j, epoch)
  }

  lemma HoldingOn(p: Policy, r: Run, c: nat, j: nat, epoch: nat)
    requires p.Valid() && IsRun(p, r) && c <= j < |r.steps| && r.states[c].pc.Electing?
    requires SoFar(r, c, j, epoch) && Holding(r.states[j].pc, epoch)
    ensures SoFar(r, c, j + 1, epoch)
  {
    ElectingStep(p, r, j, epoch);
    assert CutBetween(r, c, j + 1, epoch) <==> Cuts(r.states[j], r.steps[j], epoch);
  }

  lemma HeldBefore(p: Policy, r: Run, c: nat, j: nat, epoch: nat)
    requires p.Valid() && IsRun(p, r) && c <= j < |r.steps| && r.states[c].pc.Electing?
    requires SoFar(r, c, j, epoch) && !Holding(r.states[j].pc, epoch)
    ensures SoFar(r, c, j + 1, epoch)
  {
    ClosedStep(p, r, j, epoch);
    assert CutBetween(r, c, j + 1, epoch) <==> CutBetween(r, c, j, epoch);
  }

  // From a state whose election has written the epoch's row: as long as the
  // election lasts nothing is lost, and afterwards the snapshot is whole if and
  // only if no step cut it.
  lemma {:induction false} SnapshotProgress(p: Policy, r: Run, c: nat, j: nat, epoch: nat)
    requires p.Valid() && IsRun(p, r) && c <= j < |r.states|
    requires Holding(r.states[c].pc, epoch) && epoch in r.states[c].t.epochs
    ensures SoFar(r, c, j, epoch)
    decreases j
  {
    if c < j {
      SnapshotProgress(p, r, c, j - 1, epoch);
      if Holding(r.states[j - 1].pc, epoch) { HoldingOn(p, r, c, j - 1, epoch); } else { HeldBefore(p, r, c, j - 1, epoch); }
    }
  }

  lemma ClosedStep(p: Policy, r: Run, i: nat, epoch: nat)
    requires p.Valid() && IsRun(p, r) && i < |r.steps| && Closed(r.states[i], epoch)
    ensures Closed(r.states[i + 1], epoch) && StakersOf(r.states[i + 1].t, epoch) == StakersOf(r.states[i].t, epoch)
    ensures !Cuts(r.states[i], r.steps[i], epoch)
  {
    RunInv(p, r, i);
    assert IsStep(p, r, i);
    StepKeepsSnapshot(p, r.states[i], r.steps[i], epoch);
    if r.states[i].pc.Electing? { EnteringElected(r.states[i].pc.left, epoch); }
  }

  lemma {:induction false} EnteringElected(left: seq<Entrant>, epoch: nat)
    requires forall x :: x in left ==> x.epoch != epoch
    ensures Entering(left, epoch) == []
  {
    if left != [] {
      assert left[0] in left && forall x :: x in left[1..] ==> x in left;
      EnteringElected(left[1..], epoch);
    }
  }

  // Once the election is over, the epoch's snapshot is all that was in it or still
  // to insert at state c if and only if no step in between stopped the election
  // with a staker of the epoch left.
  lemma SnapshotExactly(p: Policy, r: Run, c: nat, j: nat, epoch: nat)
    requires p.Valid() && IsRun(p, r) && c <= j < |r.states|
    requires Holding(r.states[c].pc, epoch) && epoch in r.states[c].t.epochs && Closed(r.states[j], epoch)
    ensures StakersOf(r.states[j].t, epoch) == Expected(r.states[c], epoch) <==> !CutBetween(r, c, j, epoch)
  {
    SnapshotProgress(p, r, c, j, epoch);
  }

  // ---- from the beginning ---------------------------------------------------------

  lemma {:induction false} EnteringRoster(epochs: seq<nat>, stakers: seq<Staker>, epoch: nat)
    requires Distinct(epochs) && epoch in epochs
    ensures Entering(Roster(epochs, stakers), epoch) == stakers
  {
    var rest := Roster(epochs[1..], stakers);
    EnteringApart(Entrants(epochs[0], stakers), rest, epoch);
    EnteringOne(epochs[0], stakers, epoch);
    if epochs[0] == epoch {
      RosterEpochs(epochs[1..], stakers);
      EnteringElected(rest, epoch);
    } else {
      EnteringRoster(epochs[1..], stakers, epoch);
    }
  }

  lemma {:induction false} EnteringApart(x: seq<Entrant>, y: seq<Entrant>, epoch: nat)
    ensures Entering(x + y, epoch) == Entering(x, epoch) + Entering(y, epoch)
  {
    if x == [] {
      assert x + y == y;
    } else {
      var head := if x[0].epoch == epoch then [x[0].staker] else [];
      assert (x + y)[0] == x[0] && (x + y)[1..] == x[1..] + y;
      EnteringApart(x[1..], y, epoch);
      assert Entering(x, epoch) == head + Entering(x[1..], epoch);
      assert Entering(x + y, epoch) == head + (Entering(x[1..], epoch) + Entering(y, epoch));
    }
  }

  lemma {:induction false} EnteringOne(e: nat, stakers: seq<Staker>, epoch: nat)
    ensures Entering(Entrants(e, stakers), epoch) == if e == epoch then stakers else []
  {
    if stakers != [] {
      assert Entrants(e, stakers)[1..] == Entrants(e, stakers[1..]);
      EnteringOne(e, stakers[1..], epoch);
    }
  }

  ghost predicate NoStop(r: Run, c: nat, d: nat)
    requires d <= |r.steps|
  {
    forall i :: c <= i < d ==> !r.steps[i].Return?
  }

  lemma {:induction false} StillElecting(p: Policy, r: Run, c: nat, d: nat, epoch: nat)
    requires p.Valid() && IsRun(p, r) && c <= d < |r.states| && Holding(r.states[c].pc, epoch) && NoStop(r, c, d)
    ensures Holding(r.states[d].pc, epoch) && Expected(r.states[d], epoch) == Expected(r.states[c], epoch)
    decreases d
  {
    if c < d {
      StillElecting(p, r, c, d - 1, epoch);
      ElectingStep(p, r, d - 1, epoch);
    }
  }

  lemma BegunWith(p: Policy, r: Run, c: nat, epoch: nat)
    requires p.Valid() && IsRun(p, r) && c < |r.steps| && r.steps[c].BeginElection? && r.steps[c].epochStatus == InProgress
    requires Holding(r.states[c + 1].pc, epoch)
    ensures Expected(r.states[c + 1], epoch) == r.steps[c].stakers
  {
    RunInv(p, r, c);
    RunInv(p, r, c + 1);
    assert IsStep(p, r, c);
    EnteringRoster(r.states[c + 1].pc.epochs, r.steps[c].stakers, epoch);
  }

  // An election that step c began with these stakers, and that wrote the epoch's
  // row by state d, leaves the epoch with exactly them in the order given if and
  // only if it is not stopped after that with a staker of the epoch left.
  lemma WholeSnapshotExactly(p: Policy, r: Run, c: nat, d: nat, j: nat, epoch: nat)
    requires p.Valid() && IsRun(p, r) && c < d <= j < |r.states|
    requires r.steps[c].BeginElection? && r.steps[c].epochStatus == InProgress && Holding(r.states[c + 1].pc, epoch)
    requires NoStop(r, c + 1, d) && epoch in r.states[d].t.epochs && Closed(r.states[j], epoch)
    ensures StakersOf(r.states[j].t, epoch) == r.steps[c].stakers <==> !CutBetween(r, d, j, epoch)
  {
    BegunWith(p, r, c, epoch);
    StillElecting(p, r, c + 1, d, epoch);
    SnapshotExactly(p, r, d, j, epoch);
  }
}
