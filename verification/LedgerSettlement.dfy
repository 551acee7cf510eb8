// Settlement over runs: when a transaction's payslips are settled, and when a
// finalised epoch stays paid.
module LedgerSettlement {
  import opened Prelude
  import opened Arithmetic
  import opened ChainPolicy
  import opened Tables
  import opened Ledger
  import opened LedgerInvariant
  import opened LedgerRuns

  // ---- the two settlement statements ----------------------------------------

  // A payslip whose transaction is final but which nobody is about to settle.
  predicate Orphaned(s: Sys, k: nat, h: Hash) {
    && k < |s.t.payslips| && s.t.payslips[k].txHash == Some(h) && s.t.payslips[k].status == Awaiting
    && h in s.t.transactions && s.t.transactions[h].status != TxAwaiting
    && !(s.pc.Settling? && s.pc.hash == h)
  }

  lemma StepKeepsOrphan(p: Policy, r: Run, i: nat, k: nat, h: Hash)
    requires p.Valid() && IsRun(p, r) && i < |r.steps| && Orphaned(r.states[i], k, h)
    ensures Orphaned(r.states[i + 1], k, h) && r.states[i + 1].t.payslips[k] == r.states[i].t.payslips[k]
  {
    CarriedSlipStep(p, r, i, k, h);
    RunStepEvolves(p, r, i);
    RunInv(p, r, i);
    assert IsStep(p, r, i);
    assert TxEvolves(r.states[i].t, r.states[i + 1].t, h);
  }

  // Once orphaned, a payslip stays awaiting for ever: no confirmation pass
  // visits its transaction again and no operator retry accepts it.
  lemma {:induction false} OrphanForever(p: Policy, r: Run, i: nat, j: nat, k: nat, h: Hash)
    requires p.Valid() && IsRun(p, r) && i <= j < |r.states| && Orphaned(r.states[i], k, h)
    ensures Orphaned(r.states[j], k, h) && r.states[j].t.payslips[k] == r.states[i].t.payslips[k]
    decreases j
  {
    if i < j {
      OrphanForever(p, r, i, j - 1, k, h);
      StepKeepsOrphan(p, r, j - 1, k, h);
    }
  }

  // Operator requests between the two statements change neither the payslip nor
  // what the daemon is about to do.
  lemma {:induction false} ApiKeepsSettling(p: Policy, r: Run, i: nat, j: nat, k: nat)
    requires p.Valid() && IsRun(p, r) && i <= j < |r.states|
    requires r.states[i].pc.Settling?
    requires k < |r.states[i].t.payslips| && r.states[i].t.payslips[k].status == Awaiting
    requires r.states[i].t.payslips[k].txHash == Some(r.states[i].pc.hash)
    requires forall n :: i <= n < j ==> IsApi(r.steps[n])
    ensures r.states[j].pc == r.states[i].pc
    ensures k < |r.states[j].t.payslips| && r.states[j].t.payslips[k] == r.states[i].t.payslips[k]
    decreases j
  {
    if i < j {
      ApiKeepsSettling(p, r, i, j - 1, k);
      assert IsStep(p, r, j - 1);
    }
  }

  // After the transaction row is written (step i), its payslips are settled with
  // the same outcome if and only if the daemon's next step (step j) is the second
  // statement; otherwise they stay awaiting for the rest of the run.
  lemma SettledIffSecondStatementRuns(p: Policy, r: Run, i: nat, j: nat, n: nat, k: nat)
    requires p.Valid() && IsRun(p, r) && i < j < |r.steps| && j < n < |r.states|
    requires r.steps[i].MarkTransaction? && r.states[i].pc.Confirming? && r.states[i].pc.hashes != []
    requires k < |r.states[i].t.payslips| && r.states[i].t.payslips[k].txHash == Some(r.states[i].pc.hashes[0])
    requires forall m :: i < m < j ==> IsApi(r.steps[m])
    requires !IsApi(r.steps[j])
    ensures k < |r.states[j + 1].t.payslips| && k < |r.states[n].t.payslips|
    ensures r.steps[j].MarkPayslips? <==> r.states[j + 1].t.payslips[k].status == PaidStatus(r.steps[i].final)
    ensures !r.steps[j].MarkPayslips? ==> r.states[n].t.payslips[k].status == Awaiting
  {
    var h := r.states[i].pc.hashes[0];
    FirstStatement(p, r, i, k, h);
    ApiKeepsSettling(p, r, i + 1, j, k);
    SecondStatementOrNot(p, r, j, k, h);
    RunEvolves(p, r, j + 1, n);
    if !r.steps[j].MarkPayslips? {
      OrphanForever(p, r, j + 1, n, k, h);
    }
  }

  lemma FirstStatement(p: Policy, r: Run, i: nat, k: nat, h: Hash)
    requires p.Valid() && IsRun(p, r) && i < |r.steps|
    requires r.steps[i].MarkTransaction? && r.states[i].pc.Confirming? && r.states[i].pc.hashes != []
    requires h == r.states[i].pc.hashes[0]
    requires k < |r.states[i].t.payslips| && r.states[i].t.payslips[k].txHash == Some(h)
    ensures r.states[i + 1].pc.Settling? && r.states[i + 1].pc.hash == h && r.states[i + 1].pc.final == r.steps[i].final
    ensures k < |r.states[i + 1].t.payslips| && r.states[i + 1].t.payslips[k].txHash == Some(h)
    ensures r.states[i + 1].t.payslips[k].status == Awaiting
  {
    RunInv(p, r, i);
    assert IsStep(p, r, i);
    assert PayslipOk(r.states[i].t.transactions, r.states[i].t.payslips[k]);
  }

  lemma SecondStatementOrNot(p: Policy, r: Run, j: nat, k: nat, h: Hash)
    requires p.Valid() && IsRun(p, r) && j < |r.steps| && !IsApi(r.steps[j])
    requires r.states[j].pc.Settling? && r.states[j].pc.hash == h
    requires k < |r.states[j].t.payslips| && r.states[j].t.payslips[k].txHash == Some(h)
    requires r.states[j].t.payslips[k].status == Awaiting
    ensures k < |r.states[j + 1].t.payslips|
    ensures if r.steps[j].MarkPayslips? then r.states[j + 1].t.payslips[k].status == PaidStatus(r.states[j].pc.final)
            else Orphaned(r.states[j + 1], k, h)
  {
    RunInv(p, r, j);
    CarriedSlipStep(p, r, j, k, h);
    assert IsStep(p, r, j);
  }

  // ---- finalised epochs -----------------------------------------------------

  // Every batch of the epoch has been collected, all its payslips are completed
  // and none is still to be inserted.
  ghost predicate Sealed(p: Policy, s: Sys, epoch: nat)
    requires p.Valid()
  {
    && (forall b: nat :: EpochOfBatch(p, b) == epoch ==> b in s.t.rewards)
    && FullyPaid(s.t, epoch)
    && (s.pc.Collecting? ==> s.pc.batch in s.t.rewards && s.t.rewards[s.pc.batch].epoch != epoch)
  }

  // All of an epoch's batches are recorded if and only if its last one is.
  lemma AllBatchesIn(p: Policy, t: Tables, epoch: nat)
    requires p.Valid() && HeightsOk(p, t)
    ensures (forall b: nat :: EpochOfBatch(p, b) == epoch ==> b in t.rewards) <==> epoch * p.batchesPerEpoch in t.rewards
  {
    var last := epoch * p.batchesPerEpoch;
    LastBatch(p, epoch);
    var top: nat :| UpTo(p, t, top);
    if last in t.rewards {
      assert RewardOk(p, t, last);
      forall b: nat | EpochOfBatch(p, b) == epoch ensures b in t.rewards {
        BatchInEpoch(p, b, epoch);
        if b < last {
          MulMono(b + 1, last, p.blocksPerBatch);
          MulStep(last, p.blocksPerBatch);
        }
      }
    }
  }

  lemma LastBatch(p: Policy, epoch: nat)
    requires p.Valid()
    ensures EpochOfBatch(p, epoch * p.batchesPerEpoch) == epoch
  {
    BatchInEpoch(p, epoch * p.batchesPerEpoch, epoch);
    MulStep(epoch, p.batchesPerEpoch);
  }

  // A cursor at g + e*BlocksPerEpoch + BlocksPerBatch says that it is.
  lemma CursorSaysLastBatch(p: Policy, t: Tables, epoch: nat)
    requires p.Valid() && HeightsOk(p, t) && t.cursor.Some?
    requires p.genesis + epoch * p.BlocksPerEpoch() + p.blocksPerBatch <= t.cursor.value
    ensures epoch * p.batchesPerEpoch in t.rewards
  {
    var top: nat :| UpTo(p, t, top);
    MulStep(epoch * p.batchesPerEpoch, p.blocksPerBatch);
    Regroup(epoch, p.batchesPerEpoch, p.blocksPerBatch);
    assert CollectHeight(p, epoch * p.batchesPerEpoch) <= t.cursor.value;
  }

  lemma StepKeepsSealed(p: Policy, s: Sys, step: Step, epoch: nat)
    requires p.Valid() && Inv(p, s) && Enabled(p, s, step) && Sealed(p, s, epoch)
    ensures Sealed(p, Apply(p, s, step), epoch)
  {
    StepEvolves(p, s, step);
    NothingAdded(p, s, step, epoch);
    StaysSealed(p, s, Apply(p, s, step), epoch);
  }

  // The step adds no payslip to the epoch and starts collecting none of its batches.
  ghost predicate Elsewhere(s: Sys, s': Sys, epoch: nat) {
    && (forall k :: |s.t.payslips| <= k < |s'.t.payslips| ==> !InEpoch(s'.t, k, epoch))
    && (s'.pc.Collecting? ==> s'.pc.batch in s'.t.rewards && s'.t.rewards[s'.pc.batch].epoch != epoch)
  }

  lemma NothingAdded(p: Policy, s: Sys, step: Step, epoch: nat)
    requires p.Valid() && Enabled(p, s, step) && Sealed(p, s, epoch)
    ensures Elsewhere(s, Apply(p, s, step), epoch)
  {
    if step.CollectReward? {
      RewardEpochIs(p, NextHeight(p, s.t));
    } else if !IsHeightStep(step) {
      NothingPaidOut(s, step, epoch);
    }
  }

  lemma NothingPaidOut(s: Sys, step: Step, epoch: nat)
    requires !IsHeightStep(step) && PayoutEnabled(s, step)
    requires s.pc.Collecting? ==> s.pc.batch in s.t.rewards && s.t.rewards[s.pc.batch].epoch != epoch
    ensures Elsewhere(s, PayoutApply(s, step), epoch)
  {
  }

  lemma StaysSealed(p: Policy, s: Sys, s': Sys, epoch: nat)
    requires p.Valid() && RewardsOk(s.t) && Sealed(p, s, epoch) && Evolves(s, s') && Elsewhere(s, s', epoch)
    ensures Sealed(p, s', epoch)
  {
    PaidStays(s.t, s'.t, epoch);
  }

  // Completed payslips stay, and the ones added belong to other epochs.
  lemma PaidStays(t: Tables, t': Tables, epoch: nat)
    requires FullyPaid(t, epoch) && |t.payslips| <= |t'.payslips|
    requires forall k :: 0 <= k < |t.payslips| ==> SlipEvolves(t, t', k) && t.payslips[k].batch in t.rewards
    requires forall b :: b in t.rewards ==> b in t'.rewards && t'.rewards[b] == t.rewards[b]
    requires forall k :: |t.payslips| <= k < |t'.payslips| ==> !InEpoch(t', k, epoch)
    ensures FullyPaid(t', epoch)
  {
    forall k | 0 <= k < |t.payslips| && InEpoch(t', k, epoch) ensures t'.payslips[k].status == Completed {
      assert SlipEvolves(t, t', k) && InEpoch(t, k, epoch);
    }
  }

  lemma {:induction false} SealedForever(p: Policy, r: Run, i: nat, j: nat, epoch: nat)
    requires p.Valid() && IsRun(p, r) && i <= j < |r.states| && Sealed(p, r.states[i], epoch)
    ensures Sealed(p, r.states[j], epoch)
    decreases j
  {
    if i < j {
      SealedForever(p, r, i, j - 1, epoch);
      RunStepKeepsSealed(p, r, j - 1, epoch);
    }
  }

  lemma RunStepKeepsSealed(p: Policy, r: Run, i: nat, epoch: nat)
    requires p.Valid() && IsRun(p, r) && i < |r.steps| && Sealed(p, r.states[i], epoch)
    ensures Sealed(p, r.states[i + 1], epoch)
  {
    RunInv(p, r, i);
    assert IsStep(p, r, i);
    StepKeepsSealed(p, r.states[i], r.steps[i], epoch);
  }

  // When an epoch is selected for completion, it is sealed if and only if its
  // last batch is recorded.
  lemma SelectedIsSealedExactly(p: Policy, r: Run, i: nat, epoch: nat)
    requires p.Valid() && IsRun(p, r) && i < |r.steps|
    requires r.steps[i].FinalizeEpochs? && FinalizeSelects(r.states[i].t, epoch)
    ensures Sealed(p, r.states[i], epoch) <==> epoch * p.batchesPerEpoch in r.states[i].t.rewards
  {
    RunInv(p, r, i);
    assert IsStep(p, r, i);
    FinalizeSelectsExactly(r.states[i].t, epoch);
    AllBatchesIn(p, r.states[i].t, epoch);
  }

  // With its last batch recorded, a completed epoch is fully paid in every later
  // state.
  lemma FinalizedStaysPaid(p: Policy, r: Run, i: nat, j: nat, epoch: nat)
    requires p.Valid() && IsRun(p, r) && i < |r.steps| && i < j < |r.states|
    requires r.steps[i].FinalizeEpochs? && FinalizeSelects(r.states[i].t, epoch)
    requires epoch * p.batchesPerEpoch in r.states[i].t.rewards
    ensures FullyPaid(r.states[j].t, epoch)
  {
    SelectedIsSealedExactly(p, r, i, epoch);
    SealedForever(p, r, i, j, epoch);
  }
}
