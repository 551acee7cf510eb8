// The inductive invariant of the ledger and its preservation by every step.
module LedgerInvariant {
  import opened Prelude
  import opened Sums
  import opened ChainPolicy
  import opened Tables
  import opened Ledger
  import Rewards

  // ---- the books: payslips, audit rows and transactions agree ---------------

  // The statuses a payslip may have while it carries the hash of a transaction
  // with a given status.  Awaiting goes with all three: the transaction row is
  // always written first.
  predicate Coherent(slip: PayslipStatus, tx: TxStatus) {
    match slip
    case Awaiting => true
    case Completed => tx == TxCompleted
    case Failed => tx == TxFailed
    case _ => false
  }

  predicate PayslipOk(txs: map<Hash, Transaction>, slip: Payslip) {
    && slip.amount > 0
    && (slip.txHash.None? ==> slip.status == Pending)
    && (slip.txHash.Some? ==>
          && slip.txHash.value in txs
          && txs[slip.txHash.value].address == slip.address
          && Coherent(slip.status, txs[slip.txHash.value].status))
  }

  ghost predicate PayslipsOk(t: Tables) {
    forall k :: 0 <= k < |t.payslips| ==> PayslipOk(t.transactions, t.payslips[k])
  }

  predicate BothAwaiting(x: Transaction, y: Transaction) {
    x.status == TxAwaiting && y.status == TxAwaiting && x.address == y.address
  }

  ghost predicate OneAwaiting(txs: map<Hash, Transaction>) {
    forall x, y :: x in txs && y in txs && BothAwaiting(txs[x], txs[y]) ==> x == y
  }

  predicate BothApproved(x: Audit, y: Audit) {
    x.status == Approved && y.status == Approved && x.address == y.address
  }

  ghost predicate OneApproved(audits: seq<Audit>) {
    forall i, j :: 0 <= i < |audits| && 0 <= j < |audits| && BothApproved(audits[i], audits[j]) ==> i == j
  }

  // The amount is the sum of the payslips it counted, all of them selected.
  predicate Backed(ps: seq<Payslip>, basis: set<nat>, selected: set<nat>, amount: nat) {
    basis <= selected && SumOf(ps, basis) == amount
  }

  predicate ApprovedOk(t: Tables, hist: History, id: nat)
    requires id < |t.audits| == |hist.basis|
  {
    var audit := t.audits[id];
    && audit.amount > 0
    && audit.status != AuditPending
    && (audit.status == Executed ==> audit.txHash.Some?)
    && (audit.txHash.Some? ==>
          && audit.txHash.value in t.transactions && audit.txHash.value in hist.auditOf
          && hist.auditOf[audit.txHash.value] == id)
    && (audit.status == Approved ==>
          && audit.txHash.None?
          && !AwaitingFor(t.transactions, audit.address)
          && Backed(t.payslips, hist.basis[id], PendingIds(t.payslips, audit.address), audit.amount))
  }

  predicate ClaimOk(t: Tables, hist: History, h: Hash)
    requires h in t.transactions && |t.audits| == |hist.basis|
  {
    && h in hist.auditOf
    && var id, tx := hist.auditOf[h], t.transactions[h];
    && id < |t.audits|
    && t.audits[id].txHash == Some(h)
    && t.audits[id].address == tx.address
    && t.audits[id].amount == tx.amount
    && (tx.status != TxFailed ==> Backed(t.payslips, hist.basis[id], CarryIds(t.payslips, h), tx.amount))
  }

  ghost predicate AuditsOk(t: Tables, hist: History) {
    && |t.audits| == |hist.basis|
    && (forall id :: 0 <= id < |t.audits| ==> ApprovedOk(t, hist, id))
    && (forall h :: h in t.transactions ==> ClaimOk(t, hist, h))
  }

  ghost predicate Books(t: Tables, hist: History) {
    && PayslipsOk(t)
    && OneAwaiting(t.transactions)
    && OneApproved(t.audits)
    && AuditsOk(t, hist)
    && (forall h :: h in hist.sent ==> h in t.transactions)
  }

  // ---- frame lemmas ---------------------------------------------------------

  // Rows are only added, and amounts never change.
  ghost predicate AmountsKept(ps: seq<Payslip>, ps': seq<Payslip>) {
    |ps| <= |ps'| && forall k :: 0 <= k < |ps| ==> ps'[k].amount == ps[k].amount
  }

  lemma {:induction false} SumKept(ps: seq<Payslip>, ps': seq<Payslip>, ids: set<nat>)
    requires AmountsKept(ps, ps') && Within(ids, |ps|)
    ensures SumOf(ps', ids) == SumOf(ps, ids)
  {
    if |ps'| == |ps| {
      assert PayslipAmounts(ps') == PayslipAmounts(ps);
    } else {
      var n := |ps'| - 1;
      SumKept(ps, ps'[..n], ids);
      assert PayslipAmounts(ps') == PayslipAmounts(ps'[..n]) + [ps'[n].amount];
      SumAppend(PayslipAmounts(ps'[..n]), ps'[n].amount, ids);
    }
  }

  lemma BackedKept(ps: seq<Payslip>, ps': seq<Payslip>, basis: set<nat>, from: set<nat>, to: set<nat>, amount: nat)
    requires Backed(ps, basis, from, amount) && AmountsKept(ps, ps')
    requires Within(from, |ps|)
    requires from <= to
    ensures Backed(ps', basis, to, amount)
  {
    SumKept(ps, ps', basis);
  }

  // A payslip update that keeps pending rows pending and keeps the rows of
  // every transaction that has not failed.
  ghost predicate KeepsBacking(t: Tables, ps': seq<Payslip>) {
    && AmountsKept(t.payslips, ps')
    && (forall k :: 0 <= k < |t.payslips| && t.payslips[k].status == Pending ==>
          ps'[k].status == Pending && ps'[k].address == t.payslips[k].address)
    && (forall k :: 0 <= k < |t.payslips| && t.payslips[k].txHash.Some?
          && !(t.payslips[k].txHash.value in t.transactions
               && t.transactions[t.payslips[k].txHash.value].status == TxFailed)
          ==> ps'[k].txHash == t.payslips[k].txHash)
  }

  lemma AuditsKept(t: Tables, hist: History, ps': seq<Payslip>)
    requires AuditsOk(t, hist) && KeepsBacking(t, ps')
    ensures AuditsOk(t.(payslips := ps'), hist)
  {
    var t' := t.(payslips := ps');
    forall id | 0 <= id < |t.audits| ensures ApprovedOk(t', hist, id) {
      assert ApprovedOk(t, hist, id);
      var a := t.audits[id];
      if a.status == Approved {
        BackedKept(t.payslips, ps', hist.basis[id],
          PendingIds(t.payslips, a.address), PendingIds(ps', a.address), a.amount);
      }
    }
    forall h | h in t.transactions ensures ClaimOk(t', hist, h) {
      assert ClaimOk(t, hist, h);
      if t.transactions[h].status != TxFailed {
        BackedKept(t.payslips, ps', hist.basis[hist.auditOf[h]],
          CarryIds(t.payslips, h), CarryIds(ps', h), t.transactions[h].amount);
      }
    }
  }

  // The books look at three tables, and at what was claimed for what.
  lemma BooksElsewhere(t: Tables, t': Tables, hist: History, hist': History)
    requires Books(t, hist)
    requires t'.payslips == t.payslips && t'.audits == t.audits && t'.transactions == t.transactions
    requires hist'.basis == hist.basis && hist'.auditOf == hist.auditOf
    requires forall h :: h in hist'.sent ==> h in t.transactions
    ensures Books(t', hist')
  {
    forall id | 0 <= id < |t.audits| ensures ApprovedOk(t', hist', id) {
      assert ApprovedOk(t, hist, id);
    }
    forall h | h in t.transactions ensures ClaimOk(t', hist', h) {
      assert ClaimOk(t, hist, h);
    }
  }

  // ---- the books under each payout step ------------------------------------

  lemma AddPayslipKeepsBooks(t: Tables, hist: History, slip: Payslip)
    requires Books(t, hist) && slip.amount > 0 && slip.status == Pending && slip.txHash.None?
    ensures Books(t.(payslips := t.payslips + [slip]), hist)
  {
    AuditsKept(t, hist, t.payslips + [slip]);
  }

  lemma MarkPayslipsKeepsBooks(t: Tables, hist: History, h: Hash, final: TxStatus)
    requires Books(t, hist)
    requires h in t.transactions && t.transactions[h].status == final != TxAwaiting
    ensures Books(t.(payslips := SetPayslipStatus(t.payslips, h, PaidStatus(final))), hist)
  {
    var ps' := SetPayslipStatus(t.payslips, h, PaidStatus(final));
    AuditsKept(t, hist, ps');
    forall k | 0 <= k < |ps'| ensures PayslipOk(t.transactions, ps'[k]) {
      assert PayslipOk(t.transactions, t.payslips[k]);
    }
  }

  lemma RetryKeepsBooks(t: Tables, hist: History, h: Hash)
    requires Books(t, hist)
    ensures Books(t.(payslips := RetryFailedPayoutPayslips(t, h)), hist)
  {
    var ps' := RetryFailedPayoutPayslips(t, h);
    AuditsKept(t, hist, ps');
    forall k | 0 <= k < |ps'| ensures PayslipOk(t.transactions, ps'[k]) {
      assert PayslipOk(t.transactions, t.payslips[k]);
    }
  }

  lemma SkipKeepsBooks(t: Tables, hist: History, id: nat)
    requires Books(t, hist) && id < |t.audits|
    ensures Books(t.(audits := SetAuditStatus(t.audits, id, Skipped)), hist)
  {
    var t' := t.(audits := SetAuditStatus(t.audits, id, Skipped));
    forall i | 0 <= i < |t.audits| ensures ApprovedOk(t', hist, i) {
      assert ApprovedOk(t, hist, i);
    }
    forall h | h in t.transactions ensures ClaimOk(t', hist, h) {
      assert ClaimOk(t, hist, h);
    }
  }

  // What runPayouts may rely on for every address it has yet to propose.
  predicate Proposable(t: Tables, row: EligibleRow) {
    && row.total > 0
    && Backed(t.payslips, row.ids, PendingIds(t.payslips, row.address), row.total)
    && !ApprovedFor(t.audits, row.address)
    && !AwaitingFor(t.transactions, row.address)
  }

  lemma ProposeKeepsBooks(t: Tables, hist: History, row: EligibleRow, fee: nat, kind: PayoutKind, dryRun: bool)
    requires Books(t, hist) && Proposable(t, row)
    ensures Books(t.(audits := t.audits + [NewAudit(row, fee, kind, dryRun)]),
                  hist.(basis := hist.basis + [row.ids]))
  {
    var t' := t.(audits := t.audits + [NewAudit(row, fee, kind, dryRun)]);
    var hist' := hist.(basis := hist.basis + [row.ids]);
    forall i | 0 <= i < |t'.audits| ensures ApprovedOk(t', hist', i) {
      if i < |t.audits| { assert ApprovedOk(t, hist, i); }
    }
    forall h | h in t.transactions ensures ClaimOk(t', hist', h) {
      assert ClaimOk(t, hist, h);
    }
  }

  lemma MarkTransactionKeepsBooks(t: Tables, hist: History, h: Hash, final: TxStatus)
    requires Books(t, hist)
    requires h in t.transactions && t.transactions[h].status == TxAwaiting && final != TxAwaiting
    ensures Books(t.(transactions := SetTransactionStatus(t.transactions, h, final)), hist)
  {
    var t' := t.(transactions := SetTransactionStatus(t.transactions, h, final));
    forall k | 0 <= k < |t.payslips| ensures PayslipOk(t'.transactions, t.payslips[k]) {
      assert PayslipOk(t.transactions, t.payslips[k]);
    }
    forall i | 0 <= i < |t.audits| ensures ApprovedOk(t', hist, i) {
      assert ApprovedOk(t, hist, i);
    }
    forall x | x in t'.transactions ensures ClaimOk(t', hist, x) {
      assert ClaimOk(t, hist, x);
    }
  }

  // Claiming moves exactly the address's pending payslips under the new hash.
  lemma PersistPayslips(t: Tables, id: nat, h: Hash, head: nat)
    requires PayslipsOk(t) && Persist(t, id, h, head).Success?
    ensures var ps', a := Persist(t, id, h, head).value.payslips, t.audits[id].address;
            && |ps'| == |t.payslips|
            && (forall k :: 0 <= k < |ps'| ==>
                  ps'[k] == if k in PendingIds(t.payslips, a)
                            then t.payslips[k].(status := Awaiting, txHash := Some(h)) else t.payslips[k])
            && CarryIds(ps', h) == PendingIds(t.payslips, a)
            && (forall x :: x != h ==> CarryIds(ps', x) == CarryIds(t.payslips, x))
            && (forall b :: b != a ==> PendingIds(ps', b) == PendingIds(t.payslips, b))
            && PendingIds(ps', a) == {}
            && AmountsKept(t.payslips, ps')
  {
    var ps', a := Persist(t, id, h, head).value.payslips, t.audits[id].address;
    forall k | 0 <= k < |ps'|
      ensures ps'[k] == if k in PendingIds(t.payslips, a)
                        then t.payslips[k].(status := Awaiting, txHash := Some(h)) else t.payslips[k]
    {
      assert PayslipOk(t.transactions, t.payslips[k]);
    }
    forall k | 0 <= k < |ps'| ensures t.payslips[k].txHash != Some(h) {
      assert PayslipOk(t.transactions, t.payslips[k]);
    }
    forall k | 0 <= k < |ps'| && t.payslips[k].status == Pending ensures t.payslips[k].txHash.None? {
      assert PayslipOk(t.transactions, t.payslips[k]);
    }
  }

  lemma ClaimKeepsPayslips(t: Tables, id: nat, h: Hash, head: nat)
    requires PayslipsOk(t) && Persist(t, id, h, head).Success?
    ensures PayslipsOk(Persist(t, id, h, head).value)
  {
    PersistPayslips(t, id, h, head);
    var t' := Persist(t, id, h, head).value;
    forall k | 0 <= k < |t'.payslips| ensures PayslipOk(t'.transactions, t'.payslips[k]) {
      assert PayslipOk(t.transactions, t.payslips[k]);
    }
  }

  lemma ClaimKeepsAudits(t: Tables, hist: History, id: nat, h: Hash, head: nat)
    requires Books(t, hist) && Persist(t, id, h, head).Success?
    ensures AuditsOk(Persist(t, id, h, head).value, hist.(auditOf := hist.auditOf[h := id]))
  {
    PersistPayslips(t, id, h, head);
    var t', hist' := Persist(t, id, h, head).value, hist.(auditOf := hist.auditOf[h := id]);
    var ps, ps', a := t.payslips, t'.payslips, t.audits[id].address;
    assert ApprovedOk(t, hist, id);
    forall i | 0 <= i < |t'.audits| ensures ApprovedOk(t', hist', i) {
      assert ApprovedOk(t, hist, i);
      var b := t'.audits[i].address;
      if t'.audits[i].status == Approved {
        assert b != a;
        BackedKept(ps, ps', hist.basis[i], PendingIds(ps, b), PendingIds(ps', b), t.audits[i].amount);
      }
    }
    forall x | x in t'.transactions ensures ClaimOk(t', hist', x) {
      if x == h {
        BackedKept(ps, ps', hist.basis[id], PendingIds(ps, a), CarryIds(ps', h), t.audits[id].amount);
      } else {
        assert ClaimOk(t, hist, x);
        if t.transactions[x].status != TxFailed {
          BackedKept(ps, ps', hist.basis[hist.auditOf[x]], CarryIds(ps, x), CarryIds(ps', x), t.transactions[x].amount);
        }
      }
    }
  }

  lemma ClaimKeepsBooks(t: Tables, hist: History, id: nat, h: Hash, head: nat)
    requires Books(t, hist) && Persist(t, id, h, head).Success?
    ensures Books(Persist(t, id, h, head).value, hist.(auditOf := hist.auditOf[h := id]))
  {
    ClaimKeepsPayslips(t, id, h, head);
    ClaimKeepsAudits(t, hist, id, h, head);
  }

  // ---- issued payslips never exceed the recorded reward --------------------

  ghost predicate RewardsOk(t: Tables) {
    && (forall k :: 0 <= k < |t.payslips| ==> t.payslips[k].batch in t.rewards)
    && (forall i, j :: 0 <= i < |t.payslips| && 0 <= j < |t.payslips|
          && t.payslips[i].batch == t.payslips[j].batch && t.payslips[i].address == t.payslips[j].address
          ==> i == j)
    && (forall b :: b in t.rewards ==> SumOf(t.payslips, BatchIds(t.payslips, b)) <= t.rewards[b].amount)
  }

  // The columns no statement ever updates.
  ghost predicate SameColumns(ps: seq<Payslip>, ps': seq<Payslip>) {
    && |ps| == |ps'|
    && forall k :: 0 <= k < |ps| ==>
         ps'[k].batch == ps[k].batch && ps'[k].address == ps[k].address && ps'[k].amount == ps[k].amount
  }

  lemma RewardsKept(t: Tables, ps': seq<Payslip>)
    requires RewardsOk(t) && SameColumns(t.payslips, ps')
    ensures RewardsOk(t.(payslips := ps'))
  {
    assert PayslipAmounts(ps') == PayslipAmounts(t.payslips);
    forall b | b in t.rewards ensures BatchIds(ps', b) == BatchIds(t.payslips, b) {}
  }

  // The rest of a batch's payslips still fits under its reward, one per address.
  ghost predicate Fundable(t: Tables, batch: nat, shares: seq<Rewards.Share>) {
    && batch in t.rewards
    && SumOf(t.payslips, BatchIds(t.payslips, batch)) + Total(Rewards.Amounts(shares)) <= t.rewards[batch].amount
    && Distinct(Rewards.PlanAddresses(shares))
    && (forall i :: 0 <= i < |shares| ==> shares[i].amount > 0)
    && (forall i, k :: 0 <= i < |shares| && 0 <= k < |t.payslips| && t.payslips[k].batch == batch ==>
          t.payslips[k].address != shares[i].address)
  }

  lemma FundableKept(t: Tables, ps': seq<Payslip>, batch: nat, shares: seq<Rewards.Share>)
    requires Fundable(t, batch, shares) && SameColumns(t.payslips, ps')
    ensures Fundable(t.(payslips := ps'), batch, shares)
  {
    assert PayslipAmounts(ps') == PayslipAmounts(t.payslips);
    assert BatchIds(ps', batch) == BatchIds(t.payslips, batch);
  }

  lemma AddPayslipFunded(t: Tables, batch: nat, shares: seq<Rewards.Share>)
    requires RewardsOk(t) && Fundable(t, batch, shares) && shares != []
    ensures var t' := t.(payslips := t.payslips + [NewPayslip(batch, shares[0])]);
            RewardsOk(t') && Fundable(t', batch, shares[1..])
  {
    var ps, slip := t.payslips, NewPayslip(batch, shares[0]);
    var t' := t.(payslips := ps + [slip]);
    assert PayslipAmounts(ps + [slip]) == PayslipAmounts(ps) + [slip.amount];
    forall b | b in t.rewards
      ensures SumOf(t'.payslips, BatchIds(t'.payslips, b))
              == SumOf(ps, BatchIds(ps, b)) + if b == batch then slip.amount else 0
    {
      var ids' := BatchIds(t'.payslips, b);
      SumAppend(PayslipAmounts(ps), slip.amount, ids');
      SumSameIds(PayslipAmounts(ps), ids', BatchIds(ps, b));
    }
    TotalSplit(Rewards.Amounts(shares));
    assert Rewards.Amounts(shares)[1..] == Rewards.Amounts(shares[1..]);
    var addresses := Rewards.PlanAddresses(shares);
    assert Rewards.PlanAddresses(shares[1..]) == addresses[1..];
    forall i | 0 <= i < |shares[1..]| ensures shares[1..][i].address != slip.address {
      assert addresses[0] != addresses[i + 1];
    }
  }

  lemma CollectRewardFunded(t: Tables, batch: nat, reward: Reward, shares: seq<Rewards.Share>)
    requires RewardsOk(t) && batch !in t.rewards
    requires Total(Rewards.Amounts(shares)) <= reward.amount
    requires Distinct(Rewards.PlanAddresses(shares))
    requires forall i :: 0 <= i < |shares| ==> shares[i].amount > 0
    ensures var t' := t.(rewards := t.rewards[batch := reward]);
            RewardsOk(t') && Fundable(t', batch, shares)
  {
    assert BatchIds(t.payslips, batch) == {};
    SumEmpty(PayslipAmounts(t.payslips));
  }

  ghost predicate StakersOk(t: Tables) {
    forall e :: e in t.stakers ==> e in t.epochs && Distinct(Rewards.Addresses(t.stakers[e]))
  }

  lemma AddStakerKeeps(t: Tables, e: nat, staker: Staker)
    requires StakersOk(t) && e in t.epochs && staker.address !in Rewards.Addresses(StakersOf(t, e))
    ensures StakersOk(t.(stakers := t.stakers[e := StakersOf(t, e) + [staker]]))
  {
    var ss := StakersOf(t, e);
    assert Rewards.Addresses(ss + [staker]) == Rewards.Addresses(ss) + [staker.address];
  }

  // ---- replayed heights -----------------------------------------------------

  // Some height has been worked up to, below which everything is done and above
  // which nothing is.  The cursor may have been set back since.
  ghost predicate HeightsOk(p: Policy, t: Tables)
    requires p.Valid()
  {
    exists top: nat :: UpTo(p, t, top)
  }

  ghost predicate UpTo(p: Policy, t: Tables, top: nat)
    requires p.Valid()
  {
    && p.genesis <= NextHeight(p, t) <= top
    && (t.cursor.Some? ==> p.genesis <= t.cursor.value)
    && (forall b :: b in t.rewards ==> RewardOk(p, t, b) && CollectHeight(p, b) <= top)
    && (forall b: nat :: CollectHeight(p, b) < top ==> b in t.rewards)
    && (forall e: nat :: EpochEndHeight(p, e) < top ==> e + 1 in t.epochs)
    && (0 in t.epochs ==> 1 in t.epochs)
  }

  predicate RewardOk(p: Policy, t: Tables, b: nat)
    requires p.Valid() && b in t.rewards
  {
    t.rewards[b].epoch == EpochOfBatch(p, b) && t.rewards[b].epoch in t.epochs
  }

  // Below the top a step changes nothing that counts here but the cursor.
  lemma UpToKept(p: Policy, t: Tables, t': Tables, top: nat)
    requires p.Valid() && UpTo(p, t, top) && p.genesis <= NextHeight(p, t') <= top
    requires t'.cursor.Some? ==> p.genesis <= t'.cursor.value
    requires t'.rewards == t.rewards && t.epochs.Keys <= t'.epochs.Keys && (0 in t'.epochs ==> 1 in t'.epochs)
    ensures UpTo(p, t', top)
  {
    forall b | b in t.rewards ensures RewardOk(p, t', b) {
      assert RewardOk(p, t, b);
    }
  }

  lemma AdvanceTop(p: Policy, t: Tables)
    requires p.Valid() && UpTo(p, t, NextHeight(p, t)) && HeightDone(p, t, NextHeight(p, t))
    ensures UpTo(p, t.(cursor := Some(NextHeight(p, t))), NextHeight(p, t) + 1)
  {
    var h := NextHeight(p, t);
    var t' := t.(cursor := Some(h));
    forall b | b in t.rewards ensures RewardOk(p, t', b) {
      assert RewardOk(p, t, b);
    }
    forall b: nat | CollectHeight(p, b) < h + 1 ensures b in t.rewards {
      if CollectHeight(p, b) == h { CollectHeightIsMacro(p, b); }
    }
    forall e: nat | EpochEndHeight(p, e) < h + 1 ensures e + 1 in t.epochs {
      if EpochEndHeight(p, e) == h { ElectionNumbers(p, e); }
    }
  }

  lemma CollectKeepsTop(p: Policy, t: Tables, reward: Reward, top: nat)
    requires p.Valid() && UpTo(p, t, top)
    requires var h := NextHeight(p, t); IsBoundary(p, h) && reward.epoch == RewardEpoch(p, h) && reward.epoch in t.epochs
    ensures UpTo(p, t.(rewards := t.rewards[BatchAt(p, NextHeight(p, t)) - 1 := reward]), top)
  {
    var h := NextHeight(p, t);
    var t' := t.(rewards := t.rewards[BatchAt(p, h) - 1 := reward]);
    RewardEpochIs(p, h);
    forall b | b in t'.rewards ensures RewardOk(p, t', b) && CollectHeight(p, b) <= top {
      if b in t.rewards { assert RewardOk(p, t, b); }
    }
  }

  function Higher(x: nat, y: nat): nat { if x < y then y else x }

  // Each step works at most one height further up.
  lemma StepMovesTop(p: Policy, s: Sys, step: Step, top: nat)
    requires p.Valid() && UpTo(p, s.t, top) && ElectionOk(s.t, s.pc) && Enabled(p, s, step)
    ensures UpTo(p, Apply(p, s, step).t, Higher(top, NextHeight(p, Apply(p, s, step).t)))
  {
    if IsHeightStep(step) {
      HeightStepMovesTop(p, s.t, s.pc, step, top);
    } else {
      UpToKept(p, s.t, PayoutApply(s, step).t, top);
    }
  }

  lemma HeightStepMovesTop(p: Policy, t: Tables, pc: Daemon, step: Step, top: nat)
    requires p.Valid() && UpTo(p, t, top) && ElectionOk(t, pc) && IsHeightStep(step) && HeightEnabled(p, t, pc, step)
    ensures var t' := HeightApply(p, t, pc, step);
            UpTo(p, t', Higher(top, NextHeight(p, t')))
  {
    if step.CollectReward? {
      var epoch := RewardEpoch(p, NextHeight(p, t));
      var split := Rewards.SplitReward(step.reward, step.basisPoints);
      CollectKeepsTop(p, t, Reward(epoch, split.afterFee, split.fee, |StakersOf(t, epoch)|), top);
    } else if step.AdvanceCursor? && NextHeight(p, t) == top {
      AdvanceTop(p, t);
    } else {
      if step.AddEpoch? { NewEpochRow(t, pc); }
      UpToKept(p, t, HeightApply(p, t, pc, step), top);
    }
  }

  lemma NewEpochRow(t: Tables, pc: Daemon)
    requires ElectionOk(t, pc) && pc.Electing? && pc.todo != []
    ensures pc.todo[0] == 0 ==> 1 in t.epochs
  {
    assert pc.todo[0] in pc.todo && pc.todo[0] in pc.epochs;
    if pc.todo[0] == 0 { assert 1 in pc.epochs && 1 !in pc.todo; }
  }

  lemma StepKeepsHeights(p: Policy, s: Sys, step: Step)
    requires p.Valid() && HeightsOk(p, s.t) && ElectionOk(s.t, s.pc) && Enabled(p, s, step)
    ensures HeightsOk(p, Apply(p, s, step).t)
  {
    var top: nat :| UpTo(p, s.t, top);
    StepMovesTop(p, s, step, top);
  }

  // Its rows are inserted in order, its stakers belong to it.
  ghost predicate Underway(epochs: map<nat, EpochStatus>, pc: Daemon)
    requires pc.Electing?
  {
    && pc.status != EpochCompleted && Distinct(pc.epochs)
    && |pc.todo| <= |pc.epochs| && pc.todo == pc.epochs[|pc.epochs| - |pc.todo|..]
    && (forall e :: e in pc.epochs ==> (e in epochs <==> e !in pc.todo))
    && (forall x :: x in pc.left ==> x.epoch in pc.epochs)
  }

  // No reward refers to the epochs of the election under way yet.
  ghost predicate ElectionOk(t: Tables, pc: Daemon) {
    pc.Electing? ==>
      && Underway(t.epochs, pc)
      && (0 in pc.epochs || 1 in pc.epochs ==> pc.epochs == [1, 0])
      && forall b :: b in t.rewards ==> t.rewards[b].epoch !in pc.epochs
  }

  lemma {:induction false} RosterEpochs(epochs: seq<nat>, stakers: seq<Staker>)
    ensures forall x :: x in Roster(epochs, stakers) ==> x.epoch in epochs
  {
    if epochs != [] { RosterEpochs(epochs[1..], stakers); }
  }

  lemma BeginKeepsElection(p: Policy, t: Tables, status: EpochStatus, stakers: seq<Staker>)
    requires p.Valid() && HeightsOk(p, t) && HeightEnabled(p, t, Idle, BeginElection(status, stakers))
    ensures ElectionOk(t, HeightGoesOn(p, t, Idle, BeginElection(status, stakers)))
  {
    var es := ElectionEpochs(p, NextHeight(p, t));
    ElectionShape(p, NextHeight(p, t));
    RosterEpochs(es, stakers);
    forall b | b in t.rewards ensures t.rewards[b].epoch !in es {
      assert RewardOk(p, t, b);
    }
  }

  lemma ElectionShape(p: Policy, height: nat)
    requires p.Valid() && p.genesis <= height
    ensures Distinct(ElectionEpochs(p, height))
    ensures 0 in ElectionEpochs(p, height) <==> height == p.genesis
    ensures 1 in ElectionEpochs(p, height) <==> height == p.genesis
    ensures height == p.genesis ==> ElectionEpochs(p, height) == [1, 0]
  {
    EpochAtIs(p, p.genesis, 0);
    EpochAtIs(p, height, 0);
  }

  lemma RowKeepsElection(epochs: map<nat, EpochStatus>, pc: Daemon)
    requires pc.Electing? && Underway(epochs, pc) && pc.todo != []
    ensures Underway(epochs[pc.todo[0] := pc.status], pc.(todo := pc.todo[1..]))
  {
    var todo' := pc.todo[1..];
    assert pc.todo == [pc.todo[0]] + todo';
    var n := |pc.epochs| - |pc.todo|;
    assert forall k :: 0 <= k < |todo'| ==> todo'[k] == pc.epochs[n + 1 + k];
    assert pc.todo[0] == pc.epochs[n] && pc.todo[0] !in todo';
  }

  lemma StakerKeepsElection(epochs: map<nat, EpochStatus>, pc: Daemon)
    requires pc.Electing? && Underway(epochs, pc) && pc.left != []
    ensures Underway(epochs, pc.(left := pc.left[1..]))
  {
    assert forall x :: x in pc.left[1..] ==> x in pc.left;
  }

  // ---- the daemon's work lists ---------------------------------------------

  ghost predicate AllAwaiting(t: Tables, hashes: seq<Hash>) {
    Distinct(hashes) && forall x :: x in hashes ==> x in t.transactions && t.transactions[x].status == TxAwaiting
  }

  ghost predicate AllProposable(t: Tables, rows: seq<EligibleRow>) {
    && (forall i :: 0 <= i < |rows| ==> Proposable(t, rows[i]))
    && (forall i, j :: 0 <= i < j < |rows| ==> rows[i].address != rows[j].address)
  }

  ghost predicate WorkOk(t: Tables, pc: Daemon, hist: History) {
    match pc
    case Collecting(batch, shares) => Fundable(t, batch, shares)
    case Proposing(rows) => AllProposable(t, rows)
    case Sending(hash, _) => hash in t.transactions && hash !in hist.sent
    case Confirming(hashes) => AllAwaiting(t, hashes)
    case Settling(hash, final, hashes) =>
      && AllAwaiting(t, hashes)
      && hash in t.transactions && t.transactions[hash].status == final != TxAwaiting
    case _ => true
  }

  ghost predicate Inv(p: Policy, s: Sys)
    requires p.Valid()
  {
    && Books(s.t, s.hist)
    && RewardsOk(s.t)
    && StakersOk(s.t)
    && HeightsOk(p, s.t)
    && ElectionOk(s.t, s.pc)
    && WorkOk(s.t, s.pc, s.hist)
  }

  // A payslip update by the API while the daemon holds a work list.
  lemma WorkKept(t: Tables, pc: Daemon, hist: History, ps': seq<Payslip>)
    requires WorkOk(t, pc, hist) && KeepsBacking(t, ps') && SameColumns(t.payslips, ps')
    ensures WorkOk(t.(payslips := ps'), pc, hist)
  {
    match pc
    case Collecting(batch, shares) => FundableKept(t, ps', batch, shares);
    case Proposing(rows) =>
      forall i | 0 <= i < |rows| ensures Proposable(t.(payslips := ps'), rows[i]) {
        var row := rows[i];
        BackedKept(t.payslips, ps', row.ids, PendingIds(t.payslips, row.address),
          PendingIds(ps', row.address), row.total);
      }
    case _ =>
  }

  // Everything the eligible-rows query returns is proposable.
  lemma EligibleProposable(t: Tables, hist: History, min: nat, rows: seq<EligibleRow>)
    requires Books(t, hist) && ListsEligible(t, min, rows)
    ensures AllProposable(t, rows)
  {
    forall i | 0 <= i < |rows| ensures Proposable(t, rows[i]) {
      var a := rows[i].address;
      assert IsEligible(t, min, a) && rows[i] == EligibleFor(t.payslips, a);
      assert forall k :: 0 <= k < |t.payslips| ==> PayslipOk(t.transactions, t.payslips[k]);
      SumZero(PayslipAmounts(t.payslips), rows[i].ids);
    }
  }

  lemma ProposeKeepsWork(t: Tables, rows: seq<EligibleRow>, audit: Audit)
    requires AllProposable(t, rows) && rows != [] && audit.address == rows[0].address
    ensures AllProposable(t.(audits := t.audits + [audit]), rows[1..])
  {
    var t' := t.(audits := t.audits + [audit]);
    forall i | 0 <= i < |rows[1..]| ensures Proposable(t', rows[1..][i]) {
      assert Proposable(t, rows[i + 1]);
      assert rows[0].address != rows[i + 1].address;
    }
  }

  lemma SkipKeepsWork(t: Tables, pc: Daemon, hist: History, id: nat)
    requires WorkOk(t, pc, hist) && id < |t.audits|
    ensures WorkOk(t.(audits := SetAuditStatus(t.audits, id, Skipped)), pc, hist)
  {
    var t' := t.(audits := SetAuditStatus(t.audits, id, Skipped));
    if pc.Proposing? {
      forall i | 0 <= i < |pc.rows| ensures Proposable(t', pc.rows[i]) {
        assert Proposable(t, pc.rows[i]);
      }
    } else if pc.Collecting? {
      assert Fundable(t', pc.batch, pc.shares);
    }
  }

  // ---- the invariant is inductive ------------------------------------------

  lemma ElectionStepKeepsInv(p: Policy, s: Sys, step: Step)
    requires step.BeginElection? || step.AddEpoch? || step.AddStaker?
    requires p.Valid() && Inv(p, s) && Enabled(p, s, step)
    ensures Inv(p, Apply(p, s, step))
  {
    BooksElsewhere(s.t, Apply(p, s, step).t, s.hist, s.hist);
    StepKeepsHeights(p, s, step);
    match step
    case BeginElection(status, stakers) => BeginKeepsElection(p, s.t, status, stakers);
    case AddEpoch =>
      RowKeepsElection(s.t.epochs, s.pc);
    case AddStaker =>
      StakerKeepsElection(s.t.epochs, s.pc);
      AddStakerKeeps(s.t, s.pc.left[0].epoch, s.pc.left[0].staker);
  }

  lemma CursorStepKeepsInv(p: Policy, s: Sys, step: Step)
    requires p.Valid() && Inv(p, s) && Enabled(p, s, step) && (step.AdvanceCursor? || step.RewindCursor?)
    ensures Inv(p, Apply(p, s, step))
  {
    BooksElsewhere(s.t, Apply(p, s, step).t, s.hist, s.hist);
    StepKeepsHeights(p, s, step);
  }

  lemma CollectStepKeepsInv(p: Policy, s: Sys, reward: nat, bp: nat)
    requires p.Valid() && Inv(p, s) && Enabled(p, s, CollectReward(reward, bp))
    ensures Inv(p, Apply(p, s, CollectReward(reward, bp)))
  {
    BooksElsewhere(s.t, Apply(p, s, CollectReward(reward, bp)).t, s.hist, s.hist);
    StepKeepsHeights(p, s, CollectReward(reward, bp));
    CollectKeepsRows(p, s.t, s.pc, reward, bp);
  }

  lemma CollectKeepsRows(p: Policy, t: Tables, pc: Daemon, reward: nat, bp: nat)
    requires p.Valid() && HeightEnabled(p, t, pc, CollectReward(reward, bp))
    requires RewardsOk(t) && StakersOk(t)
    ensures var t' := HeightApply(p, t, pc, CollectReward(reward, bp));
            RewardsOk(t') && Fundable(t', BatchAt(p, NextHeight(p, t)) - 1, PlanFor(p, t, reward, bp))
  {
    var h := NextHeight(p, t);
    var stakers := StakersOf(t, RewardEpoch(p, h));
    var split := Rewards.SplitReward(reward, bp);
    var row := Reward(RewardEpoch(p, h), split.afterFee, split.fee, |stakers|);
    Rewards.PlanConserves(stakers, reward, split.afterFee);
    Rewards.PlanShape(stakers, reward, split.afterFee);
    CollectRewardFunded(t, BatchAt(p, h) - 1, row, PlanFor(p, t, reward, bp));
  }

  lemma AddPayslipStepKeepsInv(s: Sys, step: Step)
    requires step.AddPayslip? && PayoutEnabled(s, step)
    requires Books(s.t, s.hist) && RewardsOk(s.t) && WorkOk(s.t, s.pc, s.hist)
    ensures var s' := PayoutApply(s, step);
            Books(s'.t, s'.hist) && RewardsOk(s'.t) && WorkOk(s'.t, s'.pc, s'.hist)
  {
    AddPayslipKeepsBooks(s.t, s.hist, NewPayslip(s.pc.batch, s.pc.shares[0]));
    AddPayslipFunded(s.t, s.pc.batch, s.pc.shares);
  }

  lemma MarkPayslipsStepKeepsInv(s: Sys, step: Step)
    requires step.MarkPayslips? && PayoutEnabled(s, step)
    requires Books(s.t, s.hist) && RewardsOk(s.t) && WorkOk(s.t, s.pc, s.hist)
    ensures var s' := PayoutApply(s, step);
            Books(s'.t, s'.hist) && RewardsOk(s'.t) && WorkOk(s'.t, s'.pc, s'.hist)
  {
    MarkPayslipsKeepsBooks(s.t, s.hist, s.pc.hash, s.pc.final);
    RewardsKept(s.t, SetPayslipStatus(s.t.payslips, s.pc.hash, PaidStatus(s.pc.final)));
  }

  lemma RetryStepKeepsInv(s: Sys, step: Step)
    requires step.ApiRetry? && PayoutEnabled(s, step)
    requires Books(s.t, s.hist) && RewardsOk(s.t) && WorkOk(s.t, s.pc, s.hist)
    ensures var s' := PayoutApply(s, step);
            Books(s'.t, s'.hist) && RewardsOk(s'.t) && WorkOk(s'.t, s'.pc, s'.hist)
  {
    RetryKeepsAll(s.t, s.pc, s.hist, step.hash);
  }

  lemma RetryKeepsAll(t: Tables, pc: Daemon, hist: History, h: Hash)
    requires Books(t, hist) && RewardsOk(t) && WorkOk(t, pc, hist)
    ensures var t' := t.(payslips := RetryFailedPayoutPayslips(t, h));
            Books(t', hist) && RewardsOk(t') && WorkOk(t', pc, hist)
  {
    var ps' := RetryFailedPayoutPayslips(t, h);
    RetryKeepsBooks(t, hist, h);
    RewardsKept(t, ps');
    WorkKept(t, pc, hist, ps');
  }

  lemma ClaimStepKeepsInv(s: Sys, step: Step)
    requires step.Claim? && PayoutEnabled(s, step)
    requires Books(s.t, s.hist) && RewardsOk(s.t)
    ensures var s' := PayoutApply(s, step);
            Books(s'.t, s'.hist) && RewardsOk(s'.t) && WorkOk(s'.t, s'.pc, s'.hist)
  {
    var t, id := s.t, s.pc.ids[0];
    ClaimKeepsBooks(t, s.hist, id, step.hash, step.head);
    PersistPayslips(t, id, step.hash, step.head);
    RewardsKept(t, Persist(t, id, step.hash, step.head).value.payslips);
  }

  // No audit row is ever pending, so there is nothing for the API to approve.
  lemma NothingToApprove(t: Tables, hist: History, id: nat)
    requires AuditsOk(t, hist) && id < |t.audits|
    ensures t.audits[id].status != AuditPending
  {
    assert ApprovedOk(t, hist, id);
  }

  lemma AuditStepKeepsInv(s: Sys, step: Step)
    requires step.Propose? || step.MarkTransaction? || step.ApiSkip? || step.ApiApprove? || step.Broadcast?
    requires PayoutEnabled(s, step)
    requires Books(s.t, s.hist) && RewardsOk(s.t) && WorkOk(s.t, s.pc, s.hist)
    ensures var s' := PayoutApply(s, step);
            Books(s'.t, s'.hist) && RewardsOk(s'.t) && WorkOk(s'.t, s'.pc, s'.hist)
  {
    var t, hist := s.t, s.hist;
    match step
    case Propose(fee, kind, dryRun) =>
      ProposeKeepsBooks(t, hist, s.pc.rows[0], fee, kind, dryRun);
      ProposeKeepsWork(t, s.pc.rows, NewAudit(s.pc.rows[0], fee, kind, dryRun));
    case MarkTransaction(final) =>
      MarkTransactionKeepsBooks(t, hist, s.pc.hashes[0], final);
    case ApiSkip(id) =>
      SkipKeepsBooks(t, hist, id);
      SkipKeepsWork(t, s.pc, hist, id);
    case ApiApprove(id) =>
      NothingToApprove(t, hist, id);
    case Broadcast =>
      BooksElsewhere(t, t, hist, PayoutApply(s, step).hist);
  }

  // Steps that change neither payslips nor audits nor transactions.
  lemma QuietStepKeepsInv(s: Sys, step: Step)
    requires step.ListEligible? || step.ListApproved? || step.ListAwaiting? || step.FinalizeEpochs? || step.Pass? || step.Return?
    requires PayoutEnabled(s, step)
    requires Books(s.t, s.hist) && RewardsOk(s.t) && WorkOk(s.t, s.pc, s.hist)
    ensures var s' := PayoutApply(s, step);
            Books(s'.t, s'.hist) && RewardsOk(s'.t) && WorkOk(s'.t, s'.pc, s'.hist)
  {
    BooksElsewhere(s.t, PayoutApply(s, step).t, s.hist, s.hist);
    if step.ListEligible? { EligibleProposable(s.t, s.hist, step.min, step.rows); }
  }

  lemma PayoutStepKeepsBooks(s: Sys, step: Step)
    requires !IsHeightStep(step) && PayoutEnabled(s, step)
    requires Books(s.t, s.hist) && RewardsOk(s.t) && WorkOk(s.t, s.pc, s.hist)
    ensures var s' := PayoutApply(s, step);
            Books(s'.t, s'.hist) && RewardsOk(s'.t) && WorkOk(s'.t, s'.pc, s'.hist)
  {
    if step.AddPayslip? {
      AddPayslipStepKeepsInv(s, step);
    } else if step.MarkPayslips? {
      MarkPayslipsStepKeepsInv(s, step);
    } else if step.ApiRetry? {
      RetryStepKeepsInv(s, step);
    } else if step.Claim? {
      ClaimStepKeepsInv(s, step);
    } else if step.Propose? || step.MarkTransaction? || step.ApiSkip? || step.ApiApprove? || step.Broadcast? {
      AuditStepKeepsInv(s, step);
    } else {
      QuietStepKeepsInv(s, step);
    }
  }

  lemma PayoutStepKeepsElection(s: Sys, step: Step)
    requires !IsHeightStep(step) && PayoutEnabled(s, step) && StakersOk(s.t) && ElectionOk(s.t, s.pc)
    ensures var s' := PayoutApply(s, step);
            StakersOk(s'.t) && ElectionOk(s'.t, s'.pc)
  {
    var s' := PayoutApply(s, step);
    assert s'.pc == s.pc || !s'.pc.Electing?;
  }

  lemma PayoutStepKeepsInv(p: Policy, s: Sys, step: Step)
    requires p.Valid() && Inv(p, s) && !IsHeightStep(step) && PayoutEnabled(s, step)
    ensures Inv(p, PayoutApply(s, step))
  {
    PayoutStepKeepsBooks(s, step);
    PayoutStepKeepsElection(s, step);
    StepKeepsHeights(p, s, step);
  }

  lemma StepKeepsInv(p: Policy, s: Sys, step: Step)
    requires p.Valid() && Inv(p, s) && Enabled(p, s, step)
    ensures Inv(p, Apply(p, s, step))
  {
    if step.AdvanceCursor? || step.RewindCursor? {
      CursorStepKeepsInv(p, s, step);
    } else if step.CollectReward? {
      CollectStepKeepsInv(p, s, step.reward, step.basisPoints);
    } else if IsHeightStep(step) {
      ElectionStepKeepsInv(p, s, step);
    } else {
      PayoutStepKeepsInv(p, s, step);
    }
  }

  lemma InitialInv(p: Policy)
    requires p.Valid()
    ensures UpTo(p, INITIAL.t, p.genesis) && Inv(p, INITIAL)
  {
    forall b: nat ensures CollectHeight(p, b) > p.genesis { CollectHeightIsMacro(p, b); }
    forall e: nat ensures EpochEndHeight(p, e) >= p.genesis { ElectionNumbers(p, e); }
    assert UpTo(p, INITIAL.t, p.genesis);
  }

  lemma {:induction false} RunInv(p: Policy, r: Run, i: nat)
    requires p.Valid() && IsRun(p, r) && i < |r.states|
    ensures Inv(p, r.states[i])
  {
    if i == 0 {
      InitialInv(p);
    } else {
      RunInv(p, r, i - 1);
      assert IsStep(p, r, i - 1);
      StepKeepsInv(p, r.states[i - 1], r.steps[i - 1]);
    }
  }

  // The highest height worked on up to state i of the run.
  function Top(p: Policy, r: Run, i: nat): nat
    requires i < |r.states|
  {
    if i == 0 then p.genesis else Higher(Top(p, r, i - 1), NextHeight(p, r.states[i].t))
  }

  lemma {:induction false} RunUpTo(p: Policy, r: Run, i: nat)
    requires p.Valid() && IsRun(p, r) && i < |r.states|
    ensures UpTo(p, r.states[i].t, Top(p, r, i))
  {
    if i == 0 {
      InitialInv(p);
    } else {
      RunUpTo(p, r, i - 1);
      RunInv(p, r, i - 1);
      assert IsStep(p, r, i - 1);
      StepMovesTop(p, r.states[i - 1], r.steps[i - 1], Top(p, r, i - 1));
    }
  }
}
