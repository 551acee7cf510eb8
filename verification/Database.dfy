// The daemon's and the API's side of the ledger: the tables are fields, each
// statement is a method that updates them in place, and a ghost record of the
// run so far ties every method to the step machine of Ledger.
module Database {
  import opened Prelude
  import opened Sums
  import opened ChainPolicy
  import opened Tables
  import opened Ledger
  import opened LedgerInvariant
  import opened LedgerRuns
  import Rewards

  ghost predicate Extends(r: Run, r': Run) {
    r.states <= r'.states && r.steps <= r'.steps
  }

  // The operator may have skipped the row; nothing else about it changes.
  predicate OnlyStatus(before: Audit, after: Audit) {
    after == before.(status := after.status) && (after.status == before.status || after.status == Skipped)
  }

  predicate AwaitingTogether(slip: Payslip, txs: map<Hash, Transaction>) {
    slip.txHash.Some? && slip.txHash.value in txs && txs[slip.txHash.value].status == TxAwaiting
    ==> slip.status == Awaiting
  }

  // A failed payslip may have been returned to pending.
  predicate OnlyRetried(before: Payslip, after: Payslip) {
    after == before || (before.status == Failed && after == before.(status := Pending, txHash := None))
  }

  // What operator requests may have changed, whatever they were.
  ghost predicate ApiChanged(t: Tables, t': Tables) {
    && t' == t.(payslips := t'.payslips, audits := t'.audits)
    && |t.payslips| == |t'.payslips|
    && (forall k :: 0 <= k < |t.payslips| ==> OnlyRetried(t.payslips[k], t'.payslips[k]))
    && |t.audits| == |t'.audits|
    && forall id :: 0 <= id < |t.audits| ==> OnlyStatus(t.audits[id], t'.audits[id])
  }

  lemma ListedAppend(rows: seq<EligibleRow>, row: EligibleRow)
    ensures forall a :: Listed(rows + [row], a) <==> Listed(rows, a) || a == row.address
  {
    forall a | Listed(rows, a) ensures Listed(rows + [row], a) {
      var i :| 0 <= i < |rows| && rows[i].address == a;
      assert (rows + [row])[i].address == a;
    }
    assert (rows + [row])[|rows|] == row;
  }

  lemma FirstIsNew(epochs: map<nat, EpochStatus>, pc: Daemon)
    requires pc.Electing? && Underway(epochs, pc) && pc.todo != []
    ensures pc.todo[0] !in epochs
  {
    assert pc.todo[0] == pc.epochs[|pc.epochs| - |pc.todo|] && pc.todo[0] in pc.todo;
  }

  lemma FirstIsElected(epochs: map<nat, EpochStatus>, pc: Daemon)
    requires pc.Electing? && Underway(epochs, pc) && pc.todo == [] && pc.left != []
    ensures pc.left[0].epoch in epochs
  {
    assert pc.left[0] in pc.left;
  }

  // When a claim succeeds in the last state of a run, and what it does to payslips.
  lemma Claims(p: Policy, r: Run, t: Tables, id: nat, h: Hash, head: nat)
    requires p.Valid() && IsRun(p, r) && r.states[|r.states| - 1].t == t
    ensures Persist(t, id, h, head).Success? <==> id < |t.audits| && t.audits[id].status == Approved && h !in t.transactions
    ensures Persist(t, id, h, head).Success? ==>
              var ps := Persist(t, id, h, head).value.payslips;
              |ps| == |t.payslips| && forall k :: 0 <= k < |ps| ==>
                ps[k] == if t.payslips[k].status == Pending && t.payslips[k].address == t.audits[id].address
                         then t.payslips[k].(status := Awaiting, txHash := Some(h)) else t.payslips[k]
  {
    IndexNeverRejects(p, r, |r.states| - 1, id, h, head);
    if Persist(t, id, h, head).Success? {
      RunInv(p, r, |r.states| - 1);
      PersistPayslips(t, id, h, head);
    }
  }

  // The epoch was paid something, and everything recorded for it is paid.
  ghost predicate AllPaid(t: Tables, epoch: nat) {
    (exists k :: 0 <= k < |t.payslips| && InEpoch(t, k, epoch)) && FullyPaid(t, epoch)
  }

  lemma SelectedAreAllPaid(t: Tables)
    ensures forall e :: e in t.epochs ==> (FinalizeSelects(t, e) <==> t.epochs[e] == InProgress && AllPaid(t, e))
  {
    forall e | e in t.epochs ensures FinalizeSelects(t, e) <==> t.epochs[e] == InProgress && AllPaid(t, e) {
      FinalizeSelectsExactly(t, e);
    }
  }

  lemma EligibleColumns(t: Tables, min: nat)
    ensures forall a :: IsEligible(t, min, a) <==>
              && (exists k :: 0 <= k < |t.payslips| && t.payslips[k].status == Pending && t.payslips[k].address == a)
              && (forall id :: 0 <= id < |t.audits| && t.audits[id].status == Approved ==> t.audits[id].address != a)
              && (forall h :: h in t.transactions && t.transactions[h].status == TxAwaiting ==> t.transactions[h].address != a)
              && Sum(PayslipAmounts(t.payslips), set k | 0 <= k < |t.payslips| && t.payslips[k].status == Pending && t.payslips[k].address == a) >= min
    ensures forall a :: SumOf(t.payslips, PendingIds(t.payslips, a)) ==
              Sum(PayslipAmounts(t.payslips), set k | 0 <= k < |t.payslips| && t.payslips[k].status == Pending && t.payslips[k].address == a)
  {
    forall a: Address
      ensures PendingIds(t.payslips, a) == set k | 0 <= k < |t.payslips| && t.payslips[k].status == Pending && t.payslips[k].address == a
    {
    }
    forall a: Address
      ensures PendingIds(t.payslips, a) != {} <==>
              exists k :: 0 <= k < |t.payslips| && t.payslips[k].status == Pending && t.payslips[k].address == a
    {
      if k :| 0 <= k < |t.payslips| && t.payslips[k].status == Pending && t.payslips[k].address == a {
        assert k in PendingIds(t.payslips, a);
      }
      if PendingIds(t.payslips, a) != {} { var k :| k in PendingIds(t.payslips, a); }
    }
  }

  class Database {
    const policy: Policy

    var cursor: Option<nat>
    var epochs: map<nat, EpochStatus>
    var stakers: map<nat, seq<Staker>>
    var rewards: map<nat, Reward>
    var payslips: seq<Payslip>
    var audits: seq<Audit>
    var transactions: map<Hash, Transaction>

    ghost var pc: Daemon
    ghost var hist: History
    ghost var run: Run

    function T(): Tables
      reads this
    {
      Tables(cursor, epochs, stakers, rewards, payslips, audits, transactions)
    }

    ghost function S(): Sys
      reads this
    {
      Sys(T(), pc, hist)
    }

    // The fields are where the recorded run has got to.
    ghost predicate Valid()
      reads this
    {
      policy.Valid() && IsRun(policy, run) && run.states[|run.states| - 1] == S()
    }

    // The database took one step from the state `r` ended in.
    ghost predicate Took(r: Run, step: Step)
      reads this
    {
      Valid() && run.states == r.states + [S()] && run.steps == r.steps + [step]
    }

    constructor (p: Policy)
      requires p.Valid()
      ensures Valid() && policy == p && T() == EMPTY && pc == Idle
    {
      policy := p;
      cursor, epochs, stakers, rewards, payslips, audits, transactions :=
        None, map[], map[], map[], [], [], map[];
      pc, hist, run := Idle, INITIAL.hist, Run([INITIAL], []);
    }

    ghost method Record(before: Sys, step: Step)
      requires policy.Valid() && IsRun(policy, run) && run.states[|run.states| - 1] == before
      requires Enabled(policy, before, step) && S() == Apply(policy, before, step)
      modifies this`run
      ensures Took(old(run), step)
    {
      var r := run;
      run := Run(run.states + [S()], run.steps + [step]);
      forall i | 0 <= i < |run.steps| ensures IsStep(policy, run, i) {
        if i < |r.steps| { assert IsStep(policy, r, i); }
      }
    }

    // The invariant of the ledger, for use inside the methods below.
    lemma Known()
      requires Valid()
      ensures Inv(policy, S())
    {
      RunInv(policy, run, |run.states| - 1);
    }

    lemma ApprovedUnclaimed()
      requires Valid()
      ensures forall id :: 0 <= id < |audits| && audits[id].status == Approved ==> audits[id].txHash.None?
    {
      Known();
      forall id | 0 <= id < |audits| ensures audits[id].status == Approved ==> audits[id].txHash.None? {
        assert ApprovedOk(T(), hist, id);
      }
    }

    // The index on awaiting transactions never gets in the way of a claim.
    lemma NeverBusy(id: nat, h: Hash, head: nat)
      requires Valid()
      ensures Persist(T(), id, h, head).Success? <==>
              id < |audits| && audits[id].status == Approved && h !in transactions
    {
      IndexNeverRejects(policy, run, |run.states| - 1, id, h, head);
    }

    // While confirming, every hash still on the list is awaiting, and so are the
    // payslips that carry it.
    lemma ConfirmingAwaiting()
      requires Valid() && pc.Confirming?
      ensures forall h :: h in pc.hashes ==> h in transactions && transactions[h].status == TxAwaiting
      ensures forall k :: 0 <= k < |payslips| ==> AwaitingTogether(payslips[k], transactions)
    {
      Known();
      assert forall k :: 0 <= k < |payslips| ==> PayslipOk(transactions, payslips[k]);
    }

    // ---- steps that only move the daemon -----------------------------------

    ghost method Move(step: Step)
      requires Valid() && Enabled(policy, S(), step)
      requires step.Return? || step.Pass? || step.ListEligible? || step.ListApproved? || step.ListAwaiting?
      modifies this`pc, this`run
      ensures Valid() && Extends(old(run), run) && pc == PayoutApply(old(S()), step).pc
    {
      var before := S();
      pc := PayoutApply(before, step).pc;
      Record(before, step);
    }

    ghost method BeginPayouts(min: nat, rows: seq<EligibleRow>)
      requires Valid() && pc == Idle && ListsEligible(T(), min, rows)
      modifies this`pc, this`run
      ensures Valid() && Extends(old(run), run) && pc == Proposing(rows)
    {
      Move(ListEligible(min, rows));
    }

    ghost method BeginSubmissions(ids: seq<nat>)
      requires Valid() && pc == Idle && Distinct(ids)
      requires forall id :: id in ids <==> 0 <= id < |audits| && audits[id].status == Approved
      modifies this`pc, this`run
      ensures Valid() && Extends(old(run), run) && pc == Submitting(ids)
    {
      Move(ListApproved(ids));
    }

    ghost method BeginConfirmations(hashes: seq<Hash>)
      requires Valid() && pc == Idle && Distinct(hashes)
      requires forall h :: h in hashes <==> h in transactions && transactions[h].status == TxAwaiting
      modifies this`pc, this`run
      ensures Valid() && Extends(old(run), run) && pc == Confirming(hashes)
    {
      Move(ListAwaiting(hashes));
    }

    ghost method PassOver()
      requires Valid() && AfterPass(pc) != pc
      modifies this`pc, this`run
      ensures Valid() && Extends(old(run), run) && pc == AfterPass(old(pc))
    {
      Move(Pass);
    }

    ghost method EndPass()
      requires Valid()
      modifies this`pc, this`run
      ensures Valid() && Extends(old(run), run) && pc == Idle
    {
      Move(Return);
    }

    // ---- operator requests --------------------------------------------------

    method HandleAuditSkip(id: nat)
      requires Valid()
      modifies this
      ensures Valid() && Extends(old(run), run) && pc == old(pc) && hist == old(hist)
      ensures T() == old(T()).(audits := SetAuditStatus(old(audits), id, Skipped))
      // Whatever the row's status was.
      ensures if id < |old(audits)| then audits == old(audits)[id := old(audits)[id].(status := Skipped)]
              else S() == old(S())
    {
      ghost var before := S();
      if id < |audits| {
        audits := audits[id := audits[id].(status := Skipped)];
        Record(before, ApiSkip(id));
      }
    }

    method HandleAuditApprove(id: nat) returns (conflict: bool)
      requires Valid()
      modifies this
      ensures Valid() && run == old(run) && S() == old(S())
      ensures conflict
    {
      conflict := true;
      if id < |audits| && audits[id].status == AuditPending {
        ghost var before := S();
        audits := audits[id := audits[id].(status := Approved)];
        conflict := false;
        Record(before, ApiApprove(id));
        RunInv(policy, run, |run.states| - 2);
        NothingToApprove(before.t, before.hist, id);
        assert false;
      }
    }

    // The retry and its event row are one database transaction: with no payslip
    // to return, nothing is written.
    method HandlePayoutRetry(h: Hash) returns (retried: set<nat>)
      requires Valid()
      modifies this
      ensures Valid() && Extends(old(run), run) && pc == old(pc) && hist == old(hist)
      ensures retried == RetryIds(old(T()), h)
      ensures retried == {} ==> S() == old(S())
      ensures T() == old(T()).(payslips := RetryFailedPayoutPayslips(old(T()), h))
      // Column by column: the failed payslips of the failed transaction, unless
      // another one to the same address is awaiting.
      ensures forall k :: k in retried <==>
                && 0 <= k < |old(payslips)|
                && old(payslips)[k].txHash == Some(h) && old(payslips)[k].status == Failed
                && h in transactions && transactions[h].status == TxFailed
                && forall x :: x in transactions && transactions[x].status == TxAwaiting ==>
                     transactions[x].address != old(payslips)[k].address
      ensures |payslips| == |old(payslips)|
      ensures forall k :: 0 <= k < |payslips| ==>
                payslips[k] == if k in retried then old(payslips)[k].(status := Pending, txHash := None) else old(payslips)[k]
    {
      ghost var before := S();
      retried := RetryIds(T(), h);
      payslips := RetryFailedPayoutPayslips(T(), h);
      if retried != {} {
        Record(before, ApiRetry(h));
      } else {
        assert payslips == before.t.payslips by {
          assert forall i :: 0 <= i < |payslips| && Retryable(before.t, h, before.t.payslips[i]) ==>
                               i in RetryIds(before.t, h);
        }
      }
    }

    // Any number of operator requests, of any kind, while the daemon waits for
    // the network or for its turn at the database.
    method Interfere()
      requires Valid()
      modifies this
      ensures Valid() && Extends(old(run), run)
      ensures pc == old(pc) && hist == old(hist) && ApiChanged(old(T()), T())
    {
      var requests: nat := *;
      while requests > 0
        invariant Valid() && Extends(old(run), run)
        invariant pc == old(pc) && hist == old(hist) && ApiChanged(old(T()), T())
      {
        var skip: bool, id: nat, h: Hash := *, *, *;
        if skip {
          HandleAuditSkip(id);
        } else {
          var retried := HandlePayoutRetry(h);
        }
        requests := requests - 1;
      }
    }

    // ---- replayed heights ---------------------------------------------------

    // The node has answered: these rows are to be inserted, in this order.
    ghost method BeginElection(status: EpochStatus, entrants: seq<Staker>)
      requires Valid() && HeightEnabled(policy, T(), pc, Ledger.BeginElection(status, entrants))
      modifies this`pc, this`run
      ensures Valid() && Extends(old(run), run)
      ensures pc == HeightGoesOn(policy, T(), old(pc), Ledger.BeginElection(status, entrants))
    {
      var before := S();
      pc := HeightGoesOn(policy, T(), pc, Ledger.BeginElection(status, entrants));
      Record(before, Ledger.BeginElection(status, entrants));
    }

    method InsertEpoch(number: nat, status: EpochStatus)
      requires Valid() && pc.Electing? && pc.todo != [] && pc.todo[0] == number && pc.status == status
      modifies this
      ensures Valid() && Extends(old(run), run) && pc == old(pc).(todo := old(pc.todo)[1..]) && hist == old(hist)
      ensures number !in old(epochs) && T() == old(T()).(epochs := old(epochs)[number := status])
    {
      ghost var before := S();
      Known();
      FirstIsNew(epochs, pc);
      epochs := epochs[number := status];
      pc := pc.(todo := pc.todo[1..]);
      Record(before, AddEpoch);
    }

    method InsertStaker(epoch: nat, staker: Staker)
      requires Valid() && pc.Electing? && pc.todo == [] && pc.left != [] && pc.left[0] == Entrant(epoch, staker)
      requires staker.address !in Rewards.Addresses(StakersOf(T(), epoch))
      modifies this
      ensures Valid() && Extends(old(run), run) && pc == old(pc).(left := old(pc.left)[1..]) && hist == old(hist)
      ensures T() == old(T()).(stakers := old(stakers)[epoch := StakersOf(old(T()), epoch) + [staker]])
    {
      ghost var before := S();
      Known();
      FirstIsElected(epochs, pc);
      stakers := stakers[epoch := StakersOf(T(), epoch) + [staker]];
      pc := pc.(left := pc.left[1..]);
      Record(before, AddStaker);
    }

    method InsertReward(batch: nat, row: Reward, ghost reward: nat, ghost basisPoints: nat)
      requires Valid() && pc == Idle && HeightEnabled(policy, T(), pc, CollectReward(reward, basisPoints))
      requires batch == BatchAt(policy, NextHeight(policy, T())) - 1
      requires var epoch := RewardEpoch(policy, NextHeight(policy, T()));
               var split := Rewards.SplitReward(reward, basisPoints);
               row == Reward(epoch, split.afterFee, split.fee, |StakersOf(T(), epoch)|)
      modifies this
      ensures Valid() && Extends(old(run), run) && hist == old(hist)
      ensures pc == Collecting(batch, PlanFor(policy, old(T()), reward, basisPoints))
      ensures T() == old(T()).(rewards := old(rewards)[batch := row])
    {
      ghost var before := S();
      rewards := rewards[batch := row];
      pc := Collecting(batch, PlanFor(policy, before.t, reward, basisPoints));
      Record(before, CollectReward(reward, basisPoints));
    }

    method InsertPayslip(batch: nat, share: Rewards.Share)
      requires Valid() && pc.Collecting? && pc.batch == batch && pc.shares != [] && pc.shares[0] == share
      modifies this
      ensures Valid() && Extends(old(run), run) && pc == Collecting(batch, old(pc.shares)[1..]) && hist == old(hist)
      ensures T() == old(T()).(payslips := old(payslips) + [Payslip(batch, share.address, share.amount, Pending, None)])
    {
      ghost var before := S();
      payslips := payslips + [NewPayslip(batch, share)];
      pc := Collecting(batch, pc.shares[1..]);
      Record(before, AddPayslip);
    }

    // The cursor is moved on, or back to genesis when it could not be read.
    method UpsertCursor(height: nat)
      requires Valid() && pc == Idle && policy.genesis <= height
      requires height == NextHeight(policy, T()) || height == policy.genesis
      requires HeightDone(policy, T(), height)
      modifies this
      ensures Valid() && Extends(old(run), run) && pc == Idle && hist == old(hist)
      ensures T() == old(T()).(cursor := Some(height))
    {
      ghost var before := S();
      ghost var step := if height == NextHeight(policy, T()) then AdvanceCursor else RewindCursor;
      cursor := Some(height);
      Record(before, step);
    }

    // ---- persistPayoutSubmission --------------------------------------------

    // One database transaction of four statements; on any error every effect is
    // rolled back.
    method PersistPayoutSubmission(id: nat, h: Hash, head: nat) returns (r: Result<(), PersistError>)
      requires Valid() && pc.Submitting? && pc.ids != [] && pc.ids[0] == id
      modifies this
      ensures match Persist(old(T()), id, h, head)
              case Failure(e) => r == Failure(e) && S() == old(S()) && run == old(run)
              case Success(t) => r == Success(()) && T() == t && pc == Sending(h, old(pc.ids)[1..])
                                 && hist == old(hist).(auditOf := old(hist).auditOf[h := id])
      ensures Valid() && Extends(old(run), run)
      // It succeeds exactly for an approved row and a new hash, and then the row is
      // executed, and what was pending for its address is awaiting the transaction.
      ensures r.Success? <==> id < |old(audits)| && old(audits)[id].status == Approved && h !in old(transactions)
      ensures r.Failure? ==>
                r.error == if id < |old(audits)| && old(audits)[id].status == Approved then DuplicateHash else NoLongerApproved
      ensures r.Success? ==> audits == old(audits)[id := old(audits)[id].(status := Executed, txHash := Some(h))]
      ensures r.Success? ==>
                transactions == old(transactions)[h := Transaction(old(audits)[id].address, old(audits)[id].amount, TxAwaiting, head)]
      ensures r.Success? ==> |payslips| == |old(payslips)| && forall k :: 0 <= k < |payslips| ==>
                payslips[k] == if old(payslips)[k].status == Pending && old(payslips)[k].address == old(audits)[id].address
                               then old(payslips)[k].(status := Awaiting, txHash := Some(h)) else old(payslips)[k]
    {
      ghost var before := S();
      var savedAudits, savedPayslips := audits, payslips;
      if id >= |audits| || audits[id].status != Approved {
        return Failure(NoLongerApproved);
      }
      var log := audits[id];
      audits := audits[id := log.(status := Executed, txHash := Some(h))];
      payslips := MarkPayslipsOutForPayment(payslips, log.address);
      payslips := SetPayslipsTransaction(payslips, h, log.address);
      if h in transactions {
        audits, payslips := savedAudits, savedPayslips;
        return Failure(DuplicateHash);
      }
      if AwaitingFor(transactions, log.address) {
        audits, payslips := savedAudits, savedPayslips;
        r := Failure(AddressBusy);
        Claims(policy, run, T(), id, h, head);
        assert false;
      }
      transactions := transactions[h := Transaction(log.address, log.amount, TxAwaiting, head)];
      pc, hist := Sending(h, pc.ids[1..]), hist.(auditOf := hist.auditOf[h := id]);
      Claims(policy, run, before.t, id, h, head);
      Record(before, Claim(h, head));
      r := Success(());
    }

    method InsertAuditLog(row: EligibleRow, fee: nat, kind: PayoutKind, dryRun: bool)
      requires Valid() && pc.Proposing? && pc.rows != [] && pc.rows[0] == row
      modifies this
      ensures Valid() && Extends(old(run), run) && pc == Proposing(old(pc.rows)[1..])
      ensures T() == old(T()).(audits := old(audits) +
                [Audit(row.address, row.total, fee, kind, if dryRun then DryRun else Approved, None)])
      ensures hist == old(hist).(basis := old(hist).basis + [row.ids])
    {
      ghost var before := S();
      audits := audits + [NewAudit(row, fee, kind, dryRun)];
      hist := hist.(basis := hist.basis + [row.ids]);
      pc := Proposing(pc.rows[1..]);
      Record(before, Propose(fee, kind, dryRun));
    }

    // The transaction is on the network, or may be: either way it counts as sent.
    ghost method SendTransaction()
      requires Valid() && pc.Sending?
      modifies this`pc, this`hist, this`run
      ensures Valid() && Extends(old(run), run) && pc == Submitting(old(pc.ids))
      ensures hist == old(hist).(sent := old(hist).sent + {old(pc.hash)})
    {
      var before := S();
      hist := hist.(sent := hist.sent + {pc.hash});
      pc := Submitting(pc.ids);
      Record(before, Broadcast);
    }

    method UpdateTransaction(h: Hash, final: TxStatus)
      requires Valid() && pc.Confirming? && pc.hashes != [] && pc.hashes[0] == h
      requires h in transactions && final != TxAwaiting
      modifies this
      ensures Valid() && Extends(old(run), run) && pc == Settling(h, final, old(pc.hashes)[1..]) && hist == old(hist)
      ensures T() == old(T()).(transactions := SetTransactionStatus(old(transactions), h, final))
      ensures transactions.Keys == old(transactions).Keys && transactions[h] == old(transactions)[h].(status := final)
      ensures forall x :: x in transactions && x != h ==> transactions[x] == old(transactions)[x]
    {
      ghost var before := S();
      transactions := SetTransactionStatus(transactions, h, final);
      pc := Settling(h, final, pc.hashes[1..]);
      Record(before, MarkTransaction(final));
    }

    method UpdatePayslips(h: Hash, final: TxStatus)
      requires Valid() && pc.Settling? && pc.hash == h && pc.final == final
      modifies this
      ensures Valid() && Extends(old(run), run) && pc == Confirming(old(pc.hashes)) && hist == old(hist)
      ensures T() == old(T()).(payslips := SetPayslipStatus(old(payslips), h, PaidStatus(final)))
      ensures CarryIds(payslips, h) == old(CarryIds(payslips, h))
      ensures forall k :: k in CarryIds(payslips, h) ==> payslips[k].status == if final == TxCompleted then Completed else Failed
      ensures forall k :: 0 <= k < |payslips| && k !in CarryIds(payslips, h) ==> payslips[k] == old(payslips)[k]
    {
      ghost var before := S();
      payslips := SetPayslipStatus(payslips, h, PaidStatus(final));
      pc := Confirming(pc.hashes);
      Record(before, MarkPayslips);
    }

    method UpdateEpochs()
      requires Valid() && pc.Confirming? && pc.hashes == []
      modifies this
      ensures Valid() && Extends(old(run), run) && pc == Idle && hist == old(hist)
      ensures T() == old(T()).(epochs := FinalizeCompletedEpochs(old(T())))
      ensures epochs.Keys == old(epochs).Keys
      ensures forall e :: e in epochs ==>
                epochs[e] == if old(epochs)[e] == InProgress && old(AllPaid(T(), e)) then EpochCompleted else old(epochs)[e]
    {
      ghost var before := S();
      SelectedAreAllPaid(T());
      epochs := FinalizeCompletedEpochs(T());
      pc := Idle;
      Record(before, FinalizeEpochs);
    }

    // ---- queries ------------------------------------------------------------

    method GetEligibleForPayout(min: nat) returns (rows: seq<EligibleRow>)
      ensures ListsEligible(T(), min, rows)
      // In the query's own terms: something pending, no approved row, no transaction
      // awaiting, the minimum reached, and the pending amounts added up.
      ensures forall a :: Listed(rows, a) <==>
                && (exists k :: 0 <= k < |payslips| && payslips[k].status == Pending && payslips[k].address == a)
                && (forall id :: 0 <= id < |audits| && audits[id].status == Approved ==> audits[id].address != a)
                && (forall h :: h in transactions && transactions[h].status == TxAwaiting ==> transactions[h].address != a)
                && Sum(PayslipAmounts(payslips), set k | 0 <= k < |payslips| && payslips[k].status == Pending && payslips[k].address == a) >= min
      ensures forall i :: 0 <= i < |rows| ==>
                rows[i].total == Sum(PayslipAmounts(payslips),
                  set k | 0 <= k < |payslips| && payslips[k].status == Pending && payslips[k].address == rows[i].address)
    {
      var t := T();
      var addresses := seq(|t.payslips|, i requires 0 <= i < |t.payslips| => t.payslips[i].address);
      var keys := GroupKeys(addresses);
      GroupKeysExactly(addresses);
      rows := [];
      for n := 0 to |keys|
        invariant forall i :: 0 <= i < |rows| ==>
                    IsEligible(t, min, rows[i].address) && rows[i] == EligibleFor(t.payslips, rows[i].address)
        invariant forall i, j :: 0 <= i < j < |rows| ==> rows[i].address != rows[j].address
        invariant forall m :: n <= m < |keys| ==> !Listed(rows, keys[m])
        invariant forall m :: 0 <= m < n && IsEligible(t, min, keys[m]) ==> Listed(rows, keys[m])
      {
        if IsEligible(t, min, keys[n]) {
          ghost var before := rows;
          rows := rows + [EligibleFor(t.payslips, keys[n])];
          ListedAppend(before, EligibleFor(t.payslips, keys[n]));
        }
      }
      forall a | IsEligible(t, min, a) ensures Listed(rows, a) {
        var k :| k in PendingIds(t.payslips, a);
        assert addresses[k] == a;
        assert a in addresses && a in keys;
      }
      forall a ensures Listed(rows, a) <==> IsEligible(t, min, a) {
        if Listed(rows, a) { var i :| 0 <= i < |rows| && rows[i].address == a; }
      }
      EligibleColumns(t, min);
    }

    method ListApprovedAuditLogs() returns (ids: seq<nat>)
      ensures Distinct(ids)
      ensures forall id :: id in ids <==> 0 <= id < |audits| && audits[id].status == Approved
    {
      ids := [];
      for n := 0 to |audits|
        invariant Distinct(ids)
        invariant forall id :: id in ids <==> 0 <= id < n && audits[id].status == Approved
      {
        if audits[n].status == Approved { ids := ids + [n]; }
      }
    }

    method GetPendingTransactions() returns (hashes: seq<Hash>)
      ensures Distinct(hashes)
      ensures forall h :: h in hashes <==> h in transactions && transactions[h].status == TxAwaiting
    {
      hashes := [];
      var rest := transactions.Keys;
      while rest != {}
        invariant rest <= transactions.Keys
        invariant Distinct(hashes)
        invariant forall h :: h in hashes <==>
                    h in transactions && h !in rest && transactions[h].status == TxAwaiting
        decreases rest
      {
        var h :| h in rest;
        rest := rest - {h};
        if transactions[h].status == TxAwaiting { hashes := hashes + [h]; }
      }
    }
  }
}
