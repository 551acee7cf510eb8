// Exactly when a completed epoch is fully paid for good.
module LedgerCompletion {
  import opened Prelude
  import opened Arithmetic
  import opened ChainPolicy
  import opened Tables
  import opened Ledger
  import opened LedgerInvariant
  import opened LedgerRuns
  import opened LedgerSettlement
  import opened LedgerHeights
  import opened LedgerSnapshots
  import Rewards

  // However the first m steps of the run go on, the epoch is fully paid from
  // there on.
  ghost predicate StaysPaid(p: Policy, r: Run, m: nat, epoch: nat)
    requires p.Valid() && m < |r.states| && m <= |r.steps|
  {
    forall r', j :: IsRun(p, r') && Continues(Until(r, m), r') && m <= j < |r'.states| ==> FullyPaid(r'.states[j].t, epoch)
  }

  // ---- replaying on, with nothing earned ----------------------------------------

  // What replaying keeps: no payslip is added, epoch rows stay as they are.
  ghost predicate Quiet(t: Tables, t': Tables) {
    && t'.payslips == t.payslips
    && forall e :: e in t.epochs ==> e in t'.epochs && t'.epochs[e] == t.epochs[e]
  }

  // If the height has an election still to record, record it as not won.
  lemma ElectIfDue(p: Policy, r: Run, s: Sys) returns (r': Run, s': Sys)
    requires Running(p, r, s) && s.pc.Idle? && 0 in s.t.epochs && p.genesis <= NextHeight(p, s.t)
    ensures Running(p, r', s') && Continues(r, r') && s'.pc.Idle? && Quiet(s.t, s'.t)
    ensures s'.t == s.t.(epochs := s'.t.epochs)
    ensures Classify(p, NextHeight(p, s.t)) == Election ==> ElectionSeen(p, s'.t, NextHeight(p, s.t))
  {
    var h := NextHeight(p, s.t);
    r', s' := r, s;
    if Classify(p, h) == Election && !ElectionSeen(p, s.t, h) {
      ElectionShape(p, h);
      var es := ElectionEpochs(p, h);
      assert es[0] in es;
      var s1 := s.(pc := Electing(es, es, NotElected, []));
      r' := Extend(p, r', s, BeginElection(NotElected, []), s1);
      var s2 := s1.(t := s.t.(epochs := s.t.epochs[es[0] := NotElected]), pc := Electing(es, es[1..], NotElected, []));
      r' := Extend(p, r', s1, AddEpoch, s2);
      s' := s2.(pc := Idle);
      r' := Extend(p, r', s2, Return, s');
    }
  }

  // If the height has a batch still to collect, collect it empty.
  lemma CollectIfDue(p: Policy, r: Run, s: Sys) returns (r': Run, s': Sys)
    requires Running(p, r, s) && s.pc.Idle? && 0 in s.t.epochs && p.genesis <= NextHeight(p, s.t)
    ensures Running(p, r', s') && Continues(r, r') && s'.pc.Idle?
    ensures s'.t == s.t.(rewards := s'.t.rewards)
    ensures forall b :: b in s'.t.rewards ==> b in s.t.rewards || CollectHeight(p, b) == NextHeight(p, s.t)
    ensures IsBoundary(p, NextHeight(p, s.t)) ==> BatchAt(p, NextHeight(p, s.t)) - 1 in s'.t.rewards
  {
    var h := NextHeight(p, s.t);
    r', s' := r, s;
    if IsBoundary(p, h) && BatchAt(p, h) - 1 !in s.t.rewards {
      RunInv(p, r, |r.states| - 1);
      RewardRowThere(p, s.t);
      RewardEpochIs(p, h);
      var s1 := Apply(p, s, CollectReward(0, 0));
      r' := Extend(p, r', s, CollectReward(0, 0), s1);
      s' := s1.(pc := Idle);
      r' := Extend(p, r', s1, Return, s');
    }
  }

  lemma AdvanceOnce(p: Policy, r: Run, s: Sys) returns (r': Run, s': Sys)
    requires Running(p, r, s) && s.pc.Idle? && 0 in s.t.epochs && p.genesis <= NextHeight(p, s.t)
    ensures Running(p, r', s') && Continues(r, r') && s'.pc.Idle? && Quiet(s.t, s'.t)
    ensures NextHeight(p, s'.t) == NextHeight(p, s.t) + 1
    ensures forall b :: b in s'.t.rewards ==> b in s.t.rewards || CollectHeight(p, b) == NextHeight(p, s.t)
  {
    var h := NextHeight(p, s.t);
    var r1, s1 := ElectIfDue(p, r, s);
    var r2, s2 := CollectIfDue(p, r1, s1);
    s' := s2.(t := s2.t.(cursor := Some(h)));
    assert Classify(p, h) == Election ==> ElectionSeen(p, s2.t, h);
    r' := Extend(p, r2, s2, AdvanceCursor, s');
  }

  lemma {:induction false} AdvanceTo(p: Policy, r: Run, s: Sys, target: nat) returns (r': Run, s': Sys)
    requires Running(p, r, s) && s.pc.Idle? && 0 in s.t.epochs && p.genesis <= NextHeight(p, s.t) <= target
    ensures Running(p, r', s') && Continues(r, r') && s'.pc.Idle? && Quiet(s.t, s'.t)
    ensures NextHeight(p, s'.t) == target
    ensures forall b :: b in s'.t.rewards ==> b in s.t.rewards || CollectHeight(p, b) < target
    decreases target - NextHeight(p, s.t)
  {
    r', s' := r, s;
    if NextHeight(p, s.t) < target {
      var r1, s1 := AdvanceOnce(p, r, s);
      r', s' := AdvanceTo(p, r1, s1, target);
    }
  }

  // ---- the last batch, collected after all ---------------------------------------

  // An epoch that was paid something has a snapshot that can be paid again.
  lemma PaidBefore(p: Policy, r: Run, i: nat, epoch: nat, k: nat) returns (amount: nat)
    requires p.Valid() && IsRun(p, r) && i < |r.states| && InEpoch(r.states[i].t, k, epoch)
    ensures var t := r.states[i].t;
            && Rewards.Plan(StakersOf(t, epoch), amount, amount) != []
            && 0 in t.rewards && 0 in t.epochs && epoch in t.epochs
  {
    RunInv(p, r, i);
    RunUpTo(p, r, i);
    RunEntitled(p, r, i);
    var t := r.states[i].t;
    var b := t.payslips[k].batch;
    assert Entitled(t, b, t.payslips[k].address) && RewardOk(p, t, b);
    amount := t.rewards[b].amount;
    MulMono(1, b + 1, p.blocksPerBatch);
    if b > 0 {
      MulMono(2, b + 1, p.blocksPerBatch);
      assert CollectHeight(p, 0) < CollectHeight(p, b);
    }
    assert RewardOk(p, t, 0);
    EpochAtIs(p, p.genesis, 0);
  }

  // The epoch's last batch, collected with something to pay out,
  lemma CollectShares(p: Policy, r: Run, s: Sys, epoch: nat, amount: nat) returns (r': Run, s': Sys)
    requires Running(p, r, s) && s.pc.Idle? && 0 in s.t.epochs
    requires NextHeight(p, s.t) == CollectHeight(p, epoch * p.batchesPerEpoch) && epoch * p.batchesPerEpoch !in s.t.rewards
    requires Rewards.Plan(StakersOf(s.t, epoch), amount, amount) != []
    ensures Running(p, r', s') && Continues(r, r') && s'.t.epochs == s.t.epochs
    ensures s'.pc.Collecting? && s'.pc.shares != []
    ensures s'.pc.batch in s'.t.rewards && s'.t.rewards[s'.pc.batch].epoch == epoch
  {
    var last := epoch * p.batchesPerEpoch;
    CollectHeightIsMacro(p, last);
    LastBatch(p, epoch);
    RunInv(p, r, |r.states| - 1);
    RewardRowThere(p, s.t);
    RewardEpochIs(p, NextHeight(p, s.t));
    assert Rewards.SplitReward(amount, 0) == Rewards.Split(amount, 0);
    s' := Apply(p, s, CollectReward(amount, 0));
    r' := Extend(p, r, s, CollectReward(amount, 0), s');
  }

  // and a payslip of it, pending.
  lemma CollectLast(p: Policy, r: Run, s: Sys, epoch: nat, amount: nat) returns (r': Run, s': Sys)
    requires Running(p, r, s) && s.pc.Idle? && 0 in s.t.epochs
    requires NextHeight(p, s.t) == CollectHeight(p, epoch * p.batchesPerEpoch) && epoch * p.batchesPerEpoch !in s.t.rewards
    requires Rewards.Plan(StakersOf(s.t, epoch), amount, amount) != []
    ensures Running(p, r', s') && Continues(r, r') && !FullyPaid(s'.t, epoch)
    ensures s'.t.epochs == s.t.epochs
  {
    var r1, s1 := CollectShares(p, r, s, epoch, amount);
    s' := PayoutApply(s1, AddPayslip);
    r' := Extend(p, r1, s1, AddPayslip, s');
    assert InEpoch(s'.t, |s1.t.payslips|, epoch);
  }

  lemma GoOnOwing(p: Policy, r: Run, s: Sys, epoch: nat, amount: nat) returns (r': Run, s': Sys)
    requires Running(p, r, s) && s.pc.Idle? && 0 in s.t.epochs && epoch in s.t.epochs
    requires Rewards.Plan(StakersOf(s.t, epoch), amount, amount) != []
    requires epoch * p.batchesPerEpoch !in s.t.rewards
    ensures Running(p, r', s') && Continues(r, r') && !FullyPaid(s'.t, epoch)
    ensures epoch in s'.t.epochs && s'.t.epochs[epoch] == s.t.epochs[epoch]
  {
    var i := |r.states| - 1;
    RunUpTo(p, r, i);
    var r1, s1 := AdvanceTo(p, r, s, CollectHeight(p, epoch * p.batchesPerEpoch));
    assert r1.states[i] == s;
    SnapshotFrozen(p, r1, i, |r1.states| - 1, epoch);
    r', s' := CollectLast(p, r1, s1, epoch, amount);
  }

  // The state after the epoch was completed, with a payslip of it.
  lemma JustCompleted(p: Policy, r: Run, i: nat, epoch: nat) returns (k: nat)
    requires p.Valid() && IsRun(p, r) && i < |r.steps|
    requires r.steps[i].FinalizeEpochs? && FinalizeSelects(r.states[i].t, epoch)
    ensures var s := r.states[i + 1];
            && s.pc == Idle && InEpoch(s.t, k, epoch) && s.t.rewards == r.states[i].t.rewards
            && epoch in s.t.epochs && s.t.epochs[epoch] == EpochCompleted
  {
    var s := r.states[i];
    assert IsStep(p, r, i);
    assert r.states[i + 1] == PayoutApply(s, FinalizeEpochs);
    FinalizeSelectsExactly(s.t, epoch);
    k :| 0 <= k < |s.t.payslips| && InEpoch(s.t, k, epoch);
  }

  // An epoch completed without its last batch can still be owed: some run goes on
  // from there to a payslip of it that is not paid, under its completed row.
  lemma CompletedButOwing(p: Policy, r: Run, i: nat, epoch: nat) returns (r': Run, j: nat)
    requires p.Valid() && IsRun(p, r) && i < |r.steps|
    requires r.steps[i].FinalizeEpochs? && FinalizeSelects(r.states[i].t, epoch)
    requires epoch * p.batchesPerEpoch !in r.states[i].t.rewards
    ensures IsRun(p, r') && Continues(Until(r, i + 1), r') && i + 1 <= j < |r'.states|
    ensures !FullyPaid(r'.states[j].t, epoch)
    ensures epoch in r'.states[j].t.epochs && r'.states[j].t.epochs[epoch] == EpochCompleted
  {
    var s := r.states[i + 1];
    var k := JustCompleted(p, r, i, epoch);
    var amount := PaidBefore(p, r, i + 1, epoch, k);
    UntilRuns(p, r, i + 1);
    var s': Sys;
    r', s' := GoOnOwing(p, Until(r, i + 1), s, epoch, amount);
    j := |r'.states| - 1;
  }

  // A completed epoch is fully paid from then on, whatever happens, if and only
  // if the reward of its last batch was recorded when it was completed.
  lemma CompletedStaysPaidExactly(p: Policy, r: Run, i: nat, epoch: nat)
    requires p.Valid() && IsRun(p, r) && i < |r.steps|
    requires r.steps[i].FinalizeEpochs? && FinalizeSelects(r.states[i].t, epoch)
    ensures StaysPaid(p, r, i + 1, epoch) <==> epoch * p.batchesPerEpoch in r.states[i].t.rewards
  {
    if epoch * p.batchesPerEpoch in r.states[i].t.rewards {
      forall r', j | IsRun(p, r') && Continues(Until(r, i + 1), r') && i + 1 <= j < |r'.states|
        ensures FullyPaid(r'.states[j].t, epoch)
      {
        assert r'.states[i] == Until(r, i + 1).states[i] && r'.steps[i] == Until(r, i + 1).steps[i];
        FinalizedStaysPaid(p, r', i, j, epoch);
      }
    } else {
      var r', j := CompletedButOwing(p, r, i, epoch);
    }
  }
}
