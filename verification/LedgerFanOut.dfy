// A batch's payslips over runs: the inserts of handleCheckpoint are not one
// database transaction, and a fan-out stopped midway is never resumed.
module LedgerFanOut {
  import opened Arithmetic
  import opened ChainPolicy
  import opened Tables
  import opened Ledger
  import opened LedgerInvariant
  import opened LedgerRuns
  import Rewards

  predicate SlipOf(slip: Payslip, batch: nat, share: Rewards.Share) {
    slip.batch == batch && slip.address == share.address && slip.amount == share.amount
  }

  // The share has been issued as a payslip of the batch, whatever became of it.
  predicate Issued(t: Tables, batch: nat, share: Rewards.Share) {
    exists k :: 0 <= k < |t.payslips| && SlipOf(t.payslips[k], batch, share)
  }

  // The address has a payslip of the batch.
  predicate HasSlip(t: Tables, batch: nat, a: Address) {
    exists k :: 0 <= k < |t.payslips| && t.payslips[k].batch == batch && t.payslips[k].address == a
  }

  predicate CollectingBatch(pc: Daemon, batch: nat) {
    pc.Collecting? && pc.batch == batch
  }

  // The fan-out of the batch stops with shares still to insert.
  predicate Abandons(s: Sys, step: Step, batch: nat) {
    step.Return? && CollectingBatch(s.pc, batch) && s.pc.shares != []
  }

  ghost predicate Abandoned(r: Run, c: nat, j: nat, batch: nat)
    requires j <= |r.steps| < |r.states|
  {
    exists i :: c <= i < j && Abandons(r.states[i], r.steps[i], batch)
  }

  // The next share is inserted.
  predicate Inserts(s: Sys, step: Step, batch: nat) {
    step.AddPayslip? && CollectingBatch(s.pc, batch) && s.pc.shares != []
  }

  // ---- one step --------------------------------------------------------------

  // A recorded batch is not collected again, and what is left of its shares
  // changes only by inserting the first of them.
  lemma CollectingStep(p: Policy, r: Run, i: nat, batch: nat)
    requires p.Valid() && IsRun(p, r) && i < |r.steps| && batch in r.states[i].t.rewards
    ensures batch in r.states[i + 1].t.rewards
    ensures var s, s', step := r.states[i], r.states[i + 1], r.steps[i];
            if Inserts(s, step, batch) then s'.pc == Collecting(batch, s.pc.shares[1..])
            else if CollectingBatch(s.pc, batch) && !step.Return? then s'.pc == s.pc
            else !CollectingBatch(s'.pc, batch)
  {
    RunInv(p, r, i);
    assert IsStep(p, r, i);
  }

  lemma RowsStep(p: Policy, r: Run, i: nat)
    requires p.Valid() && IsRun(p, r) && i < |r.steps|
    ensures var s, ps, ps', step := r.states[i], r.states[i].t.payslips, r.states[i + 1].t.payslips, r.steps[i];
            && |ps| <= |ps'|
            && (forall k :: 0 <= k < |ps| ==>
                  ps'[k].batch == ps[k].batch && ps'[k].address == ps[k].address && ps'[k].amount == ps[k].amount)
            && (|ps| < |ps'| ==> step.AddPayslip?)
            && (step.AddPayslip? ==>
                  && s.pc.Collecting? && s.pc.shares != []
                  && ps' == ps + [NewPayslip(s.pc.batch, s.pc.shares[0])])
  {
    RunStepEvolves(p, r, i);
    assert IsStep(p, r, i);
    var t, t' := r.states[i].t, r.states[i + 1].t;
    assert forall k :: 0 <= k < |t.payslips| ==> SlipEvolves(t, t', k);
  }

  // What one step does to the payslips of a batch.
  lemma SlipsStep(p: Policy, r: Run, i: nat, batch: nat)
    requires p.Valid() && IsRun(p, r) && i < |r.steps|
    ensures forall share :: Issued(r.states[i].t, batch, share) ==> Issued(r.states[i + 1].t, batch, share)
    ensures forall a :: HasSlip(r.states[i + 1].t, batch, a) <==>
              HasSlip(r.states[i].t, batch, a) || (Inserts(r.states[i], r.steps[i], batch) && r.states[i].pc.shares[0].address == a)
    ensures Inserts(r.states[i], r.steps[i], batch) ==> Issued(r.states[i + 1].t, batch, r.states[i].pc.shares[0])
  {
    RowsStep(p, r, i);
    var ps, ps' := r.states[i].t.payslips, r.states[i + 1].t.payslips;
    forall share | Issued(r.states[i].t, batch, share) ensures Issued(r.states[i + 1].t, batch, share) {
      var k :| 0 <= k < |ps| && SlipOf(ps[k], batch, share);
      assert SlipOf(ps'[k], batch, share);
    }
    forall a | HasSlip(r.states[i].t, batch, a) ensures HasSlip(r.states[i + 1].t, batch, a) {
      var k :| 0 <= k < |ps| && ps[k].batch == batch && ps[k].address == a;
      assert ps'[k].batch == batch && ps'[k].address == a;
    }
    forall a | HasSlip(r.states[i + 1].t, batch, a)
      ensures HasSlip(r.states[i].t, batch, a) || (Inserts(r.states[i], r.steps[i], batch) && r.states[i].pc.shares[0].address == a)
    {
      var k :| 0 <= k < |ps'| && ps'[k].batch == batch && ps'[k].address == a;
      if k < |ps| { assert ps[k].batch == batch && ps[k].address == a; }
    }
    if Inserts(r.states[i], r.steps[i], batch) {
      assert ps'[|ps|].batch == batch && ps'[|ps|].address == r.states[i].pc.shares[0].address;
      assert HasSlip(r.states[i + 1].t, batch, r.states[i].pc.shares[0].address);
      assert SlipOf(ps'[|ps|], batch, r.states[i].pc.shares[0]);
    }
  }

  // ---- the fan-out -----------------------------------------------------------

  // The first n shares are issued, the others' addresses have nothing.
  ghost predicate IssuedUpTo(t: Tables, batch: nat, plan: seq<Rewards.Share>, n: nat) {
    && n <= |plan|
    && (forall m :: 0 <= m < n ==> Issued(t, batch, plan[m]))
    && (forall m :: n <= m < |plan| ==> !HasSlip(t, batch, plan[m].address))
  }

  predicate Apart(plan: seq<Rewards.Share>) {
    forall m, n :: 0 <= m < n < |plan| ==> plan[m].address != plan[n].address
  }

  lemma NoneYet(t: Tables, batch: nat, plan: seq<Rewards.Share>)
    requires Fundable(t, batch, plan)
    ensures IssuedUpTo(t, batch, plan, 0) && Apart(plan)
  {
    forall m, n | 0 <= m < n < |plan| ensures plan[m].address != plan[n].address {
      assert Rewards.PlanAddresses(plan)[m] != Rewards.PlanAddresses(plan)[n];
    }
  }

  // How far the fan-out has got at state j, seen from state c: while it lasts, the
  // shares left are those not issued; once it is over, all are issued if and only
  // if it was not stopped.
  ghost predicate SoFar(r: Run, c: nat, j: nat, batch: nat, plan: seq<Rewards.Share>, n: nat)
    requires c <= j <= |r.steps| < |r.states|
  {
    && batch in r.states[j].t.rewards && IssuedUpTo(r.states[j].t, batch, plan, n)
    && if CollectingBatch(r.states[j].pc, batch) then r.states[j].pc.shares == plan[n..] && !Abandoned(r, c, j, batch)
       else n == |plan| <==> !Abandoned(r, c, j, batch)
  }

  lemma InsertGoesOn(p: Policy, r: Run, c: nat, j: nat, batch: nat, plan: seq<Rewards.Share>, n: nat)
    requires p.Valid() && IsRun(p, r) && c <= j < |r.steps|
    requires Apart(plan) && SoFar(r, c, j, batch, plan, n) && Inserts(r.states[j], r.steps[j], batch)
    ensures SoFar(r, c, j + 1, batch, plan, n + 1)
  {
    CollectingStep(p, r, j, batch);
    SlipsStep(p, r, j, batch);
    assert plan[n..][0] == plan[n] && plan[n..][1..] == plan[n + 1..];
    assert !Abandons(r.states[j], r.steps[j], batch);
  }

  lemma OthersGoOn(p: Policy, r: Run, c: nat, j: nat, batch: nat, plan: seq<Rewards.Share>, n: nat)
    requires p.Valid() && IsRun(p, r) && c <= j < |r.steps|
    requires SoFar(r, c, j, batch, plan, n) && !Inserts(r.states[j], r.steps[j], batch)
    ensures SoFar(r, c, j + 1, batch, plan, n)
  {
    CollectingStep(p, r, j, batch);
    SlipsStep(p, r, j, batch);
    assert Abandoned(r, c, j + 1, batch) <==> Abandoned(r, c, j, batch) || Abandons(r.states[j], r.steps[j], batch);
  }

  lemma {:induction false} FanOutProgress(p: Policy, r: Run, c: nat, j: nat, batch: nat, plan: seq<Rewards.Share>)
    returns (n: nat)
    requires p.Valid() && IsRun(p, r) && c <= j < |r.states| && r.states[c].pc == Collecting(batch, plan)
    ensures SoFar(r, c, j, batch, plan, n)
    decreases j
  {
    RunInv(p, r, c);
    NoneYet(r.states[c].t, batch, plan);
    if j == c {
      n := 0;
    } else {
      n := FanOutProgress(p, r, c, j - 1, batch, plan);
      if Inserts(r.states[j - 1], r.steps[j - 1], batch) {
        InsertGoesOn(p, r, c, j - 1, batch, plan, n);
        n := n + 1;
      } else {
        OthersGoOn(p, r, c, j - 1, batch, plan, n);
      }
    }
  }

  // Once a batch's fan-out is over, every share left at state c is issued, in full
  // and to everybody, if and only if no step in between stopped it with shares
  // still to insert; and that is so for good.
  lemma FanOutExactly(p: Policy, r: Run, c: nat, j: nat, batch: nat, plan: seq<Rewards.Share>)
    requires p.Valid() && IsRun(p, r) && c <= j < |r.states|
    requires r.states[c].pc == Collecting(batch, plan) && !CollectingBatch(r.states[j].pc, batch)
    ensures (forall m :: 0 <= m < |plan| ==> Issued(r.states[j].t, batch, plan[m])) <==> !Abandoned(r, c, j, batch)
    ensures (forall m :: 0 <= m < |plan| ==> HasSlip(r.states[j].t, batch, plan[m].address)) <==> !Abandoned(r, c, j, batch)
  {
    var n := FanOutProgress(p, r, c, j, batch, plan);
    forall m | 0 <= m < |plan| && Issued(r.states[j].t, batch, plan[m])
      ensures HasSlip(r.states[j].t, batch, plan[m].address)
    {
      var k :| 0 <= k < |r.states[j].t.payslips| && SlipOf(r.states[j].t.payslips[k], batch, plan[m]);
    }
    if n < |plan| { assert !HasSlip(r.states[j].t, batch, plan[n].address); }
  }

  // A stopped fan-out leaves its remaining shares unissued in every later state.
  lemma CutFanOutStaysCut(p: Policy, r: Run, i: nat, j: nat, m: nat)
    requires p.Valid() && IsRun(p, r) && i < |r.steps| && i < j < |r.states|
    requires r.steps[i].Return? && r.states[i].pc.Collecting? && m < |r.states[i].pc.shares|
    ensures !HasSlip(r.states[j].t, r.states[i].pc.batch, r.states[i].pc.shares[m].address)
  {
    var batch, plan := r.states[i].pc.batch, r.states[i].pc.shares;
    NotResumed(p, r, i, j, batch, plan);
  }

  lemma {:induction false} NotResumed(p: Policy, r: Run, i: nat, j: nat, batch: nat, plan: seq<Rewards.Share>)
    requires p.Valid() && IsRun(p, r) && i < |r.steps| && i < j < |r.states|
    requires r.steps[i].Return? && r.states[i].pc == Collecting(batch, plan)
    ensures batch in r.states[j].t.rewards && !CollectingBatch(r.states[j].pc, batch)
    ensures IssuedUpTo(r.states[j].t, batch, plan, 0)
    decreases j
  {
    if j == i + 1 {
      RunInv(p, r, i);
      NoneYet(r.states[i].t, batch, plan);
    } else {
      NotResumed(p, r, i, j - 1, batch, plan);
    }
    CollectingStep(p, r, j - 1, batch);
    SlipsStep(p, r, j - 1, batch);
  }
}
