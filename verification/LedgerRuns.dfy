// What holds over every run of the ledger, for every interleaving of daemon
// steps, operator requests and daemon stops.
module LedgerRuns {
  import opened Prelude
  import opened Sums
  import opened ChainPolicy
  import opened Tables
  import opened Ledger
  import opened LedgerInvariant

  // ---- conservation ---------------------------------------------------------

  function TxAmounts(txs: map<Hash, Transaction>, hashes: seq<Hash>): seq<nat> {
    seq(|hashes|, i requires 0 <= i < |hashes| => if hashes[i] in txs then txs[hashes[i]].amount else 0)
  }

  function RewardAmounts(rewards: map<nat, Reward>, batches: seq<nat>): seq<nat> {
    seq(|batches|, i requires 0 <= i < |batches| => if batches[i] in rewards then rewards[batches[i]].amount else 0)
  }

  function HashLabels(ps: seq<Payslip>): seq<Option<Hash>> {
    seq(|ps|, i requires 0 <= i < |ps| => ps[i].txHash)
  }

  function BatchLabels(ps: seq<Payslip>): seq<Option<nat>> {
    seq(|ps|, i requires 0 <= i < |ps| => Some(ps[i].batch))
  }

  predicate Unfailed(txs: map<Hash, Transaction>, h: Hash) {
    h in txs && txs[h].status != TxFailed
  }

  // A duplicate-free list of transactions that are awaiting or completed.
  ghost predicate UnfailedList(txs: map<Hash, Transaction>, hashes: seq<Hash>) {
    Distinct(hashes) && forall n :: 0 <= n < |hashes| ==> Unfailed(txs, hashes[n])
  }

  lemma UnfailedBacked(t: Tables, hist: History, hashes: seq<Hash>)
    requires Books(t, hist) && UnfailedList(t.transactions, hashes)
    ensures Total(TxAmounts(t.transactions, hashes))
            <= Sum(PayslipAmounts(t.payslips), Labelled(HashLabels(t.payslips), hashes))
  {
    var amounts, labels := PayslipAmounts(t.payslips), HashLabels(t.payslips);
    forall i | 0 <= i < |hashes|
      ensures TxAmounts(t.transactions, hashes)[i] <= Sum(amounts, Labelled(labels, [hashes[i]]))
    {
      var h := hashes[i];
      assert ClaimOk(t, hist, h);
      assert Labelled(labels, [h]) == CarryIds(t.payslips, h);
      SumSubset(amounts, hist.basis[hist.auditOf[h]], CarryIds(t.payslips, h));
    }
    GroupedBound(amounts, labels, hashes, TxAmounts(t.transactions, hashes), false);
  }

  // Whatever the interleaving, the transactions to an address that are awaiting
  // or completed never add up to more than the payslips issued to it.
  lemma AddressConservation(p: Policy, r: Run, i: nat, a: Address, hashes: seq<Hash>)
    requires p.Valid() && IsRun(p, r) && i < |r.states|
    requires UnfailedList(r.states[i].t.transactions, hashes)
    requires forall n :: 0 <= n < |hashes| ==> r.states[i].t.transactions[hashes[n]].address == a
    ensures Total(TxAmounts(r.states[i].t.transactions, hashes))
            <= SumOf(r.states[i].t.payslips, AddressIds(r.states[i].t.payslips, a))
  {
    RunInv(p, r, i);
    var t := r.states[i].t;
    UnfailedBacked(t, r.states[i].hist, hashes);
    assert forall k :: 0 <= k < |t.payslips| ==> PayslipOk(t.transactions, t.payslips[k]);
    SumSubset(PayslipAmounts(t.payslips), Labelled(HashLabels(t.payslips), hashes), AddressIds(t.payslips, a));
  }

  lemma {:induction false} SumAll(amounts: seq<nat>, ids: set<nat>)
    ensures Sum(amounts, ids) <= Total(amounts)
    ensures (forall i :: 0 <= i < |amounts| ==> i in ids) ==> Sum(amounts, ids) == Total(amounts)
  {
    if amounts != [] {
      SumAll(amounts[..|amounts| - 1], ids);
    }
  }

  // In total: sent (and not failed) <= issued in payslips <= collected after fee.
  // `batches` lists every batch with a recorded reward once.
  lemma TotalConservation(p: Policy, r: Run, i: nat, hashes: seq<Hash>, batches: seq<nat>)
    requires p.Valid() && IsRun(p, r) && i < |r.states|
    requires UnfailedList(r.states[i].t.transactions, hashes) && Distinct(batches)
    requires forall b :: b in batches <==> b in r.states[i].t.rewards
    ensures Total(TxAmounts(r.states[i].t.transactions, hashes)) <= Total(PayslipAmounts(r.states[i].t.payslips))
    ensures Total(PayslipAmounts(r.states[i].t.payslips)) <= Total(RewardAmounts(r.states[i].t.rewards, batches))
  {
    RunInv(p, r, i);
    var t := r.states[i].t;
    UnfailedBacked(t, r.states[i].hist, hashes);
    SumAll(PayslipAmounts(t.payslips), Labelled(HashLabels(t.payslips), hashes));
    IssuedWithinRewards(t, batches);
  }

  lemma IssuedWithinRewards(t: Tables, batches: seq<nat>)
    requires RewardsOk(t) && Distinct(batches) && forall b :: b in batches <==> b in t.rewards
    ensures Total(PayslipAmounts(t.payslips)) <= Total(RewardAmounts(t.rewards, batches))
  {
    var amounts, labels := PayslipAmounts(t.payslips), BatchLabels(t.payslips);
    forall n | 0 <= n < |batches|
      ensures Sum(amounts, Labelled(labels, [batches[n]])) <= RewardAmounts(t.rewards, batches)[n]
    {
      assert Labelled(labels, [batches[n]]) == BatchIds(t.payslips, batches[n]);
    }
    GroupedBound(amounts, labels, batches, RewardAmounts(t.rewards, batches), true);
    SumAll(amounts, Labelled(labels, batches));
  }

  // ---- exactly when a transaction pays what it settles ----------------------

  // The payslips counted when the amount of h's transaction was decided.
  function Counted(s: Sys, h: Hash): set<nat> {
    if h in s.hist.auditOf && s.hist.auditOf[h] < |s.hist.basis| then s.hist.basis[s.hist.auditOf[h]] else {}
  }

  // A transaction that has not failed carries every payslip its amount counted,
  // and it settles more than it pays by exactly the payslips that became
  // pending after the amount was decided.  So it pays in full if and only if
  // no payslip of its address became pending in between.
  lemma PaysExactlyWhatItCounted(p: Policy, r: Run, i: nat, h: Hash)
    requires p.Valid() && IsRun(p, r) && i < |r.states| && Unfailed(r.states[i].t.transactions, h)
    ensures var s := r.states[i];
            var carried, counted := CarryIds(s.t.payslips, h), Counted(s, h);
            && counted != {} && counted <= carried
            && SumOf(s.t.payslips, carried) == s.t.transactions[h].amount + SumOf(s.t.payslips, carried - counted)
            && (s.t.transactions[h].amount == SumOf(s.t.payslips, carried) <==> carried == counted)
  {
    RunInv(p, r, i);
    var s := r.states[i];
    assert ClaimOk(s.t, s.hist, h);
    assert ApprovedOk(s.t, s.hist, s.hist.auditOf[h]);
    BackedExactly(s.t, Counted(s, h), CarryIds(s.t.payslips, h), s.t.transactions[h].amount);
  }

  lemma BackedExactly(t: Tables, counted: set<nat>, carried: set<nat>, amount: nat)
    requires PayslipsOk(t) && Within(carried, |t.payslips|) && amount > 0
    requires Backed(t.payslips, counted, carried, amount)
    ensures counted != {}
    ensures SumOf(t.payslips, carried) == amount + SumOf(t.payslips, carried - counted)
    ensures amount == SumOf(t.payslips, carried) <==> carried == counted
  {
    var amounts := PayslipAmounts(t.payslips);
    SumEmpty(amounts);
    SumSubset(amounts, counted, carried);
    assert forall k :: 0 <= k < |amounts| ==> PayslipOk(t.transactions, t.payslips[k]);
    SumZero(amounts, carried - counted);
    assert carried == counted + (carried - counted);
  }

  // ---- one active attempt per address --------------------------------------

  // Never two approved payout audits for an address, never an approved audit
  // next to an awaiting transaction, never two awaiting transactions.
  lemma OneActiveAttempt(p: Policy, r: Run, i: nat)
    requires p.Valid() && IsRun(p, r) && i < |r.states|
    ensures OneApproved(r.states[i].t.audits) && OneAwaiting(r.states[i].t.transactions)
    ensures forall a :: !(ApprovedFor(r.states[i].t.audits, a) && AwaitingFor(r.states[i].t.transactions, a))
  {
    RunInv(p, r, i);
    var s := r.states[i];
    forall a | ApprovedFor(s.t.audits, a) ensures !AwaitingFor(s.t.transactions, a) {
      var id :| 0 <= id < |s.t.audits| && s.t.audits[id].status == Approved && s.t.audits[id].address == a;
      assert ApprovedOk(s.t, s.hist, id);
    }
  }

  // So the partial unique index on awaiting transactions never rejects a claim:
  // a claim succeeds exactly when the audit row is approved and the hash is new.
  lemma IndexNeverRejects(p: Policy, r: Run, i: nat, id: nat, h: Hash, head: nat)
    requires p.Valid() && IsRun(p, r) && i < |r.states|
    ensures var t := r.states[i].t;
            && Persist(t, id, h, head) != Failure(AddressBusy)
            && (Persist(t, id, h, head).Success? <==>
                  id < |t.audits| && t.audits[id].status == Approved && h !in t.transactions)
  {
    OneActiveAttempt(p, r, i);
    var t := r.states[i].t;
    if id < |t.audits| && t.audits[id].status == Approved {
      assert ApprovedFor(t.audits, t.audits[id].address);
    }
  }

  predicate Audited(t: Tables, h: Hash, id: nat)
    requires h in t.transactions
  {
    && id < |t.audits| && t.audits[id].txHash == Some(h)
    && t.audits[id].address == t.transactions[h].address && t.audits[id].amount == t.transactions[h].amount
  }

  // Every transaction has exactly one audit row carrying its hash, with its
  // address and amount; unless it failed it has at least one payslip, and all
  // its payslips are its address's.
  lemma TransactionsAreAudited(p: Policy, r: Run, i: nat, h: Hash) returns (id: nat)
    requires p.Valid() && IsRun(p, r) && i < |r.states| && h in r.states[i].t.transactions
    ensures Audited(r.states[i].t, h, id)
    ensures forall j :: 0 <= j < |r.states[i].t.audits| && r.states[i].t.audits[j].txHash == Some(h) ==> j == id
    ensures r.states[i].t.transactions[h].status != TxFailed ==> CarryIds(r.states[i].t.payslips, h) != {}
    ensures CarryIds(r.states[i].t.payslips, h)
            <= AddressIds(r.states[i].t.payslips, r.states[i].t.transactions[h].address)
  {
    RunInv(p, r, i);
    var s := r.states[i];
    id := s.hist.auditOf[h];
    assert ClaimOk(s.t, s.hist, h);
    forall j | 0 <= j < |s.t.audits| && s.t.audits[j].txHash == Some(h) ensures j == id {
      assert ApprovedOk(s.t, s.hist, j);
    }
    forall k | k in CarryIds(s.t.payslips, h) ensures k in AddressIds(s.t.payslips, s.t.transactions[h].address) {
      assert PayslipOk(s.t.transactions, s.t.payslips[k]);
    }
    if s.t.transactions[h].status != TxFailed {
      PaysExactlyWhatItCounted(p, r, i, h);
    }
  }

  // Every hash that reached the network was recorded first, and a broadcast
  // never sends a hash that was sent before.
  lemma RecordedBeforeBroadcast(p: Policy, r: Run, i: nat)
    requires p.Valid() && IsRun(p, r) && i < |r.states|
    ensures forall h :: h in r.states[i].hist.sent ==> h in r.states[i].t.transactions
    ensures i < |r.steps| && r.steps[i].Broadcast? ==>
              r.states[i].pc.Sending? && r.states[i].pc.hash in r.states[i].t.transactions && r.states[i].pc.hash !in r.states[i].hist.sent
  {
    RunInv(p, r, i);
    if i < |r.steps| { assert IsStep(p, r, i); }
  }

  // The approve request can never succeed: nothing ever writes a pending row.
  lemma ApproveNeverSucceeds(p: Policy, r: Run, i: nat)
    requires p.Valid() && IsRun(p, r) && i < |r.steps|
    ensures !r.steps[i].ApiApprove?
    ensures forall id :: 0 <= id < |r.states[i].t.audits| ==> r.states[i].t.audits[id].status != AuditPending
  {
    RunInv(p, r, i);
    assert IsStep(p, r, i);
    forall id | 0 <= id < |r.states[i].t.audits| ensures r.states[i].t.audits[id].status != AuditPending {
      NothingToApprove(r.states[i].t, r.states[i].hist, id);
    }
  }

  // ---- runs grow -------------------------------------------------------------

  ghost predicate Running(p: Policy, r: Run, last: Sys) {
    p.Valid() && IsRun(p, r) && r.states[|r.states| - 1] == last
  }

  // r' goes on where r ends.
  ghost predicate Continues(r: Run, r': Run) {
    r.states <= r'.states && r.steps <= r'.steps
  }

  // The run's last step, and the state it was taken from.
  ghost predicate LastTaken(r: Run, from: Sys, step: Step) {
    && |r.states| == |r.steps| + 1 && r.steps != []
    && r.states[|r.steps| - 1] == from && r.steps[|r.steps| - 1] == step
  }

  lemma Extend(p: Policy, r: Run, s: Sys, step: Step, s': Sys) returns (r': Run)
    requires Running(p, r, s) && Enabled(p, s, step) && s' == Apply(p, s, step)
    ensures Running(p, r', s') && Continues(r, r') && LastTaken(r', s, step)
  {
    r' := Run(r.states + [s'], r.steps + [step]);
    forall i | 0 <= i < |r'.steps| ensures IsStep(p, r', i) {
      if i < |r.steps| { assert IsStep(p, r, i); }
    }
  }

  // The first m steps of the run.
  function Until(r: Run, m: nat): Run
    requires m < |r.states| && m <= |r.steps|
  {
    Run(r.states[..m + 1], r.steps[..m])
  }

  lemma UntilRuns(p: Policy, r: Run, m: nat)
    requires p.Valid() && IsRun(p, r) && m < |r.states|
    ensures Running(p, Until(r, m), r.states[m]) && Continues(Until(r, m), r)
  {
    forall i | 0 <= i < m ensures IsStep(p, Until(r, m), i) {
      assert IsStep(p, r, i);
    }
  }

  // ---- what later states keep ----------------------------------------------

  predicate SlipEvolves(t: Tables, t': Tables, k: nat)
    requires k < |t.payslips| <= |t'.payslips|
  {
    var slip, slip' := t.payslips[k], t'.payslips[k];
    && slip'.batch == slip.batch && slip'.address == slip.address && slip'.amount == slip.amount
    && (slip.status == Completed ==> slip' == slip)
    && (slip.txHash.Some? && slip'.txHash != slip.txHash ==>
          slip.txHash.value in t'.transactions && t'.transactions[slip.txHash.value].status == TxFailed)
  }

  predicate TxEvolves(t: Tables, t': Tables, h: Hash)
    requires h in t.transactions
  {
    && h in t'.transactions
    && t'.transactions[h].(status := TxAwaiting) == t.transactions[h].(status := TxAwaiting)
    && (t.transactions[h].status != TxAwaiting ==> t'.transactions[h] == t.transactions[h])
  }

  predicate AuditEvolves(t: Tables, t': Tables, id: nat)
    requires id < |t.audits| <= |t'.audits|
  {
    var audit, audit' := t.audits[id], t'.audits[id];
    && audit'.address == audit.address && audit'.amount == audit.amount && audit'.fee == audit.fee
    && (audit.txHash.Some? ==> audit'.txHash == audit.txHash)
    && (audit.status != Approved ==> audit'.status != Approved && audit'.txHash == audit.txHash)
  }

  ghost predicate Evolves(s: Sys, s': Sys) {
    var t, t' := s.t, s'.t;
    && |t.payslips| <= |t'.payslips| && |t.audits| <= |t'.audits|
    && (forall k :: 0 <= k < |t.payslips| ==> SlipEvolves(t, t', k))
    && (forall h :: h in t.transactions ==> TxEvolves(t, t', h))
    && (forall id :: 0 <= id < |t.audits| ==> AuditEvolves(t, t', id))
    && (forall b :: b in t.rewards ==> b in t'.rewards && t'.rewards[b] == t.rewards[b])
    && t.epochs.Keys <= t'.epochs.Keys
    && s.hist.sent <= s'.hist.sent
  }

  lemma ClaimEvolves(s: Sys, step: Step)
    requires Books(s.t, s.hist) && step.Claim? && PayoutEnabled(s, step)
    ensures Evolves(s, PayoutApply(s, step))
  {
    PersistPayslips(s.t, s.pc.ids[0], step.hash, step.head);
    assert ApprovedOk(s.t, s.hist, s.pc.ids[0]);
    assert forall k :: 0 <= k < |s.t.payslips| ==> PayslipOk(s.t.transactions, s.t.payslips[k]);
  }

  lemma MarkPayslipsEvolves(s: Sys)
    requires Books(s.t, s.hist) && WorkOk(s.t, s.pc, s.hist) && s.pc.Settling?
    ensures Evolves(s, PayoutApply(s, MarkPayslips))
  {
    var s' := PayoutApply(s, MarkPayslips);
    forall k | 0 <= k < |s.t.payslips| ensures SlipEvolves(s.t, s'.t, k) {
      assert PayslipOk(s.t.transactions, s.t.payslips[k]);
    }
  }

  lemma HeightStepEvolves(p: Policy, s: Sys, step: Step)
    requires p.Valid() && IsHeightStep(step) && Enabled(p, s, step)
    ensures Evolves(s, Apply(p, s, step))
  {
  }

  lemma StepEvolves(p: Policy, s: Sys, step: Step)
    requires p.Valid() && Inv(p, s) && Enabled(p, s, step)
    ensures Evolves(s, Apply(p, s, step))
  {
    if IsHeightStep(step) {
      HeightStepEvolves(p, s, step);
    } else if step.Claim? {
      ClaimEvolves(s, step);
    } else if step.MarkPayslips? {
      MarkPayslipsEvolves(s);
    } else if step.ApiApprove? {
      NothingToApprove(s.t, s.hist, step.id);
    } else {
      OtherStepEvolves(s, step);
    }
  }

  lemma OtherStepEvolves(s: Sys, step: Step)
    requires !IsHeightStep(step) && PayoutEnabled(s, step)
    requires !step.Claim? && !step.MarkPayslips? && !step.ApiApprove?
    requires WorkOk(s.t, s.pc, s.hist)
    ensures Evolves(s, PayoutApply(s, step))
  {
  }

  lemma EvolvesTransitive(s: Sys, m: Sys, s': Sys)
    requires Evolves(s, m) && Evolves(m, s')
    ensures Evolves(s, s')
  {
    forall k | 0 <= k < |s.t.payslips| ensures SlipEvolves(s.t, s'.t, k) {
      assert SlipEvolves(s.t, m.t, k) && SlipEvolves(m.t, s'.t, k);
      var slip := s.t.payslips[k];
      if slip.txHash.Some? && m.t.payslips[k].txHash != slip.txHash {
        assert TxEvolves(m.t, s'.t, slip.txHash.value);
      }
    }
    forall h | h in s.t.transactions ensures TxEvolves(s.t, s'.t, h) {
      assert TxEvolves(s.t, m.t, h) && TxEvolves(m.t, s'.t, h);
    }
    forall id | 0 <= id < |s.t.audits| ensures AuditEvolves(s.t, s'.t, id) {
      assert AuditEvolves(s.t, m.t, id) && AuditEvolves(m.t, s'.t, id);
    }
  }

  lemma RunStepEvolves(p: Policy, r: Run, i: nat)
    requires p.Valid() && IsRun(p, r) && i < |r.steps|
    ensures Evolves(r.states[i], r.states[i + 1])
  {
    RunInv(p, r, i);
    assert IsStep(p, r, i);
    StepEvolves(p, r.states[i], r.steps[i]);
  }

  // Over any stretch of a run: rows are never deleted; a completed payslip and a
  // completed or failed transaction never change again; an audit row that is not
  // approved never becomes approved; and a payslip only ever lets go of a hash
  // whose transaction has failed.
  lemma {:induction false} RunEvolves(p: Policy, r: Run, i: nat, j: nat)
    requires p.Valid() && IsRun(p, r) && i <= j < |r.states|
    ensures Evolves(r.states[i], r.states[j])
    decreases j
  {
    if i < j {
      RunEvolves(p, r, i, j - 1);
      RunStepEvolves(p, r, j - 1);
      EvolvesTransitive(r.states[i], r.states[j - 1], r.states[j]);
    }
  }

  lemma StepKeepsSkipped(p: Policy, r: Run, i: nat, id: nat)
    requires p.Valid() && IsRun(p, r) && i < |r.steps|
    requires id < |r.states[i].t.audits| && r.states[i].t.audits[id].status == Skipped
    ensures id < |r.states[i + 1].t.audits| && r.states[i + 1].t.audits[id] == r.states[i].t.audits[id]
  {
    assert IsStep(p, r, i);
  }

  // What the operator withdraws stays withdrawn: the row is as the skip left it in
  // every later state, and no later claim takes it.
  lemma {:induction false} SkippedForGood(p: Policy, r: Run, i: nat, j: nat, id: nat)
    requires p.Valid() && IsRun(p, r) && i < |r.steps| && r.steps[i] == ApiSkip(id) && i < j < |r.states|
    ensures id < |r.states[i].t.audits| && id < |r.states[j].t.audits|
    ensures r.states[j].t.audits[id] == r.states[i].t.audits[id].(status := Skipped)
    ensures j < |r.steps| && r.steps[j].Claim? ==> r.states[j].pc.Submitting? && r.states[j].pc.ids != [] && r.states[j].pc.ids[0] != id
    decreases j
  {
    assert IsStep(p, r, i);
    if i + 1 < j {
      SkippedForGood(p, r, i, j - 1, id);
      StepKeepsSkipped(p, r, j - 1, id);
    }
    if j < |r.steps| { assert IsStep(p, r, j); }
  }

  // No payslip is settled twice: every hash it carried before its current one
  // belongs to a failed transaction, and once it is completed its transaction
  // is completed and both stay as they are.
  lemma NeverSettledTwice(p: Policy, r: Run, i: nat, j: nat, k: nat, h: Hash)
    requires p.Valid() && IsRun(p, r) && i <= j < |r.states|
    requires k < |r.states[i].t.payslips| && r.states[i].t.payslips[k].txHash == Some(h)
    ensures k < |r.states[j].t.payslips|
    ensures var t' := r.states[j].t;
            && (t'.payslips[k].txHash != Some(h) ==> h in t'.transactions && t'.transactions[h].status == TxFailed)
            && (r.states[i].t.payslips[k].status == Completed ==>
                  && t'.payslips[k] == r.states[i].t.payslips[k]
                  && h in t'.transactions && t'.transactions[h].status == TxCompleted)
  {
    RunEvolves(p, r, i, j);
    RunInv(p, r, j);
    var t, t' := r.states[i].t, r.states[j].t;
    assert SlipEvolves(t, t', k);
    assert PayslipOk(t'.transactions, t'.payslips[k]);
  }

  // What one step may do to a payslip that carries a hash: an operator retry of
  // that hash detaches it, the second settlement statement settles it, and
  // nothing else touches it.
  predicate SlipStepped(s: Sys, step: Step, slip: Payslip, slip': Payslip, h: Hash) {
    || slip' == slip
    || (step == ApiRetry(h) && slip.status == Failed && slip' == slip.(status := Pending, txHash := None))
    || (step == MarkPayslips && s.pc.Settling? && s.pc.hash == h && slip' == slip.(status := PaidStatus(s.pc.final)))
  }

  lemma CarriedSlipStep(p: Policy, r: Run, i: nat, k: nat, h: Hash)
    requires p.Valid() && IsRun(p, r) && i < |r.steps|
    requires k < |r.states[i].t.payslips| && r.states[i].t.payslips[k].txHash == Some(h)
    ensures k < |r.states[i + 1].t.payslips|
    ensures SlipStepped(r.states[i], r.steps[i], r.states[i].t.payslips[k], r.states[i + 1].t.payslips[k], h)
    ensures r.steps[i] == MarkPayslips && r.states[i].pc.Settling? && r.states[i].pc.hash == h ==>
              r.states[i + 1].t.payslips[k].status == PaidStatus(r.states[i].pc.final)
  {
    RunInv(p, r, i);
    assert IsStep(p, r, i);
    var s, step := r.states[i], r.steps[i];
    assert PayslipOk(s.t.transactions, s.t.payslips[k]);
    if step.Claim? { PersistPayslips(s.t, s.pc.ids[0], step.hash, step.head); }
  }

  // A payslip's hash only changes from one to another through an operator retry
  // of the first.
  lemma {:induction false} SecondAttachmentNeedsRetry(p: Policy, r: Run, i: nat, j: nat, k: nat, h: Hash) returns (m: nat)
    requires p.Valid() && IsRun(p, r) && i <= j < |r.states|
    requires k < |r.states[i].t.payslips| && r.states[i].t.payslips[k].txHash == Some(h)
    requires k < |r.states[j].t.payslips| && r.states[j].t.payslips[k].txHash != Some(h)
    ensures i <= m < j && r.steps[m] == ApiRetry(h)
    ensures k < |r.states[m].t.payslips| && r.states[m].t.payslips[k].txHash == Some(h)
    ensures k < |r.states[m + 1].t.payslips| && r.states[m + 1].t.payslips[k].txHash == None
    decreases j - i
  {
    CarriedSlipStep(p, r, i, k, h);
    if r.states[i + 1].t.payslips[k].txHash == Some(h) {
      m := SecondAttachmentNeedsRetry(p, r, i + 1, j, k, h);
    } else {
      m := i;
    }
  }
}
