// The pool's database: one sequence or map per table, and one function per SQL
// statement of sql/queries.sql that the daemon or the API issues on them.
// An autoincrement id is a position in the sequence; a primary key is a map key.
module Tables {
  import opened Prelude
  import opened Sums
  import Rewards

  type Address = string
  type Hash = string
  type Staker = Rewards.Staker

  datatype EpochStatus = InProgress | EpochCompleted | NotElected | Retired | Inactive | Jailed | NoStakers
  datatype PayslipStatus = Pending | OutForPayment | Awaiting | Completed | Failed
  datatype TxStatus = TxAwaiting | TxCompleted | TxFailed
  datatype AuditStatus = AuditPending | Approved | Executed | Skipped | DryRun
  datatype PayoutKind = Transfer | Delegate

  datatype Reward = Reward(epoch: nat, amount: nat, poolFee: nat, numStakers: nat)
  datatype Payslip = Payslip(batch: nat, address: Address, amount: nat, status: PayslipStatus, txHash: Option<Hash>)
  datatype Audit = Audit(address: Address, amount: nat, fee: nat, kind: PayoutKind, status: AuditStatus, txHash: Option<Hash>)
  datatype Transaction = Transaction(address: Address, amount: nat, status: TxStatus, submittedHeight: nat)

  datatype Tables = Tables(
    cursor: Option<nat>,
    epochs: map<nat, EpochStatus>,
    stakers: map<nat, seq<Staker>>,
    rewards: map<nat, Reward>,
    payslips: seq<Payslip>,
    audits: seq<Audit>,
    transactions: map<Hash, Transaction>)

  const EMPTY := Tables(None, map[], map[], map[], [], [], map[])

  // ---- selections -----------------------------------------------------------

  function PayslipAmounts(ps: seq<Payslip>): seq<nat> {
    seq(|ps|, i requires 0 <= i < |ps| => ps[i].amount)
  }

  function PendingIds(ps: seq<Payslip>, a: Address): set<nat> {
    set i | 0 <= i < |ps| && ps[i].status == Pending && ps[i].address == a
  }

  function CarryIds(ps: seq<Payslip>, h: Hash): set<nat> {
    set i | 0 <= i < |ps| && ps[i].txHash == Some(h)
  }

  function BatchIds(ps: seq<Payslip>, b: nat): set<nat> {
    set i | 0 <= i < |ps| && ps[i].batch == b
  }

  function AddressIds(ps: seq<Payslip>, a: Address): set<nat> {
    set i | 0 <= i < |ps| && ps[i].address == a
  }

  function SumOf(ps: seq<Payslip>, ids: set<nat>): nat {
    Sum(PayslipAmounts(ps), ids)
  }

  predicate ApprovedFor(audits: seq<Audit>, a: Address) {
    exists id :: 0 <= id < |audits| && audits[id].status == Approved && audits[id].address == a
  }

  predicate AwaitingFor(txs: map<Hash, Transaction>, a: Address) {
    exists h :: h in txs && txs[h].status == TxAwaiting && txs[h].address == a
  }

  function StakersOf(t: Tables, epoch: nat): seq<Staker> {
    if epoch in t.stakers then t.stakers[epoch] else []
  }

  // ---- single-row statements -------------------------------------------------

  function NewPayslip(batch: nat, share: Rewards.Share): Payslip {
    Payslip(batch, share.address, share.amount, Pending, None)
  }

  function NewAudit(row: EligibleRow, fee: nat, kind: PayoutKind, dryRun: bool): Audit {
    Audit(row.address, row.total, fee, kind, if dryRun then DryRun else Approved, None)
  }

  // Both leave the table alone when no row matches.
  function SetTransactionStatus(txs: map<Hash, Transaction>, h: Hash, status: TxStatus): map<Hash, Transaction> {
    if h in txs then txs[h := txs[h].(status := status)] else txs
  }

  function SetAuditStatus(audits: seq<Audit>, id: nat, status: AuditStatus): seq<Audit> {
    if id < |audits| then audits[id := audits[id].(status := status)] else audits
  }

  // ---- payslip updates ------------------------------------------------------

  function MarkPayslipsOutForPayment(ps: seq<Payslip>, a: Address): seq<Payslip> {
    seq(|ps|, i requires 0 <= i < |ps| =>
      if ps[i].address == a && ps[i].status == Pending then ps[i].(status := OutForPayment) else ps[i])
  }

  function SetPayslipsTransaction(ps: seq<Payslip>, h: Hash, a: Address): seq<Payslip> {
    seq(|ps|, i requires 0 <= i < |ps| =>
      if ps[i].address == a && ps[i].status == OutForPayment
      then ps[i].(txHash := Some(h), status := Awaiting) else ps[i])
  }

  // FinalizePayslips (Completed) and UpdatePayslipStatusFailed (Failed): neither
  // looks at the row's current status.
  function SetPayslipStatus(ps: seq<Payslip>, h: Hash, status: PayslipStatus): seq<Payslip> {
    seq(|ps|, i requires 0 <= i < |ps| =>
      if ps[i].txHash == Some(h) then ps[i].(status := status) else ps[i])
  }

  // The rows RetryFailedPayoutPayslips returns to pending.
  function RetryIds(t: Tables, h: Hash): set<nat> {
    set i | 0 <= i < |t.payslips| && Retryable(t, h, t.payslips[i])
  }

  predicate Retryable(t: Tables, h: Hash, p: Payslip) {
    && p.txHash == Some(h) && p.status == Failed
    && h in t.transactions && t.transactions[h].status == TxFailed
    && !exists other :: other in t.transactions && t.transactions[other].address == p.address
                        && other != h && t.transactions[other].status == TxAwaiting
  }

  function RetryFailedPayoutPayslips(t: Tables, h: Hash): seq<Payslip> {
    seq(|t.payslips|, i requires 0 <= i < |t.payslips| =>
      if Retryable(t, h, t.payslips[i]) then t.payslips[i].(status := Pending, txHash := None)
      else t.payslips[i])
  }

  // ---- the payout claim -----------------------------------------------------

  datatype PersistError = NoLongerApproved | DuplicateHash | AddressBusy

  // persistPayoutSubmission: the four statements of one database transaction.
  // Either all of them take effect or none does.
  function Persist(t: Tables, id: nat, h: Hash, head: nat): Result<Tables, PersistError> {
    if id >= |t.audits| || t.audits[id].status != Approved then Failure(NoLongerApproved)
    else
      var audit := t.audits[id];
      var audits := t.audits[id := audit.(status := Executed, txHash := Some(h))];
      var out := MarkPayslipsOutForPayment(t.payslips, audit.address);
      var payslips := SetPayslipsTransaction(out, h, audit.address);
      if h in t.transactions then Failure(DuplicateHash)
      else if AwaitingFor(t.transactions, audit.address) then Failure(AddressBusy)
      else
        var tx := Transaction(audit.address, audit.amount, TxAwaiting, head);
        Success(t.(audits := audits, payslips := payslips, transactions := t.transactions[h := tx]))
  }

  // ---- grouped queries ------------------------------------------------------

  // GROUP BY: the distinct keys, here in order of first appearance.
  function GroupKeys<K(==)>(keys: seq<K>): seq<K> {
    if keys == [] then []
    else
      var n := |keys| - 1;
      var front := GroupKeys(keys[..n]);
      if keys[n] in front then front else front + [keys[n]]
  }

  lemma {:induction false} GroupKeysExactly<K>(keys: seq<K>)
    ensures Distinct(GroupKeys(keys))
    ensures forall k :: k in GroupKeys(keys) <==> k in keys
  {
    if keys != [] {
      var n := |keys| - 1;
      GroupKeysExactly(keys[..n]);
      assert keys == keys[..n] + [keys[n]];
    }
  }

  datatype EligibleRow = EligibleRow(address: Address, total: nat, ids: set<nat>)

  // The row GetEligibleForPayout returns for an address with pending payslips:
  // its total, and (kept by the model only) which payslips that total counted.
  function EligibleFor(ps: seq<Payslip>, a: Address): EligibleRow {
    EligibleRow(a, SumOf(ps, PendingIds(ps, a)), PendingIds(ps, a))
  }

  predicate IsEligible(t: Tables, min: nat, a: Address) {
    && PendingIds(t.payslips, a) != {}
    && !ApprovedFor(t.audits, a)
    && !AwaitingFor(t.transactions, a)
    && SumOf(t.payslips, PendingIds(t.payslips, a)) >= min
  }

  // The result of GetEligibleForPayout, in whatever order the database returns it.
  ghost predicate ListsEligible(t: Tables, min: nat, rows: seq<EligibleRow>) {
    && (forall i, j :: 0 <= i < j < |rows| ==> rows[i].address != rows[j].address)
    && (forall i :: 0 <= i < |rows| ==>
          IsEligible(t, min, rows[i].address) && rows[i] == EligibleFor(t.payslips, rows[i].address))
    && (forall a :: IsEligible(t, min, a) ==> Listed(rows, a))
  }

  predicate Listed(rows: seq<EligibleRow>, a: Address) {
    exists i :: 0 <= i < |rows| && rows[i].address == a
  }

  // ---- epoch finalisation ---------------------------------------------------

  function Batches(ps: seq<Payslip>): seq<nat> {
    seq(|ps|, i requires 0 <= i < |ps| => ps[i].batch)
  }

  // COUNT(*) and SUM(CASE WHEN status = 'completed' ...) of one batch group.
  function CountRows(ps: seq<Payslip>, b: nat, onlyDone: bool): nat {
    if ps == [] then 0
    else
      var p := ps[|ps| - 1];
      CountRows(ps[..|ps| - 1], b, onlyDone)
      + if p.batch == b && (onlyDone ==> p.status == Completed) then 1 else 0
  }

  // The groups joined to the rewards of one epoch.
  function JoinedBatches(t: Tables, keys: seq<nat>, epoch: nat): seq<nat> {
    if keys == [] then []
    else
      var n := |keys| - 1;
      JoinedBatches(t, keys[..n], epoch)
      + if keys[n] in t.rewards && t.rewards[keys[n]].epoch == epoch then [keys[n]] else []
  }

  function CountJoined(ps: seq<Payslip>, batches: seq<nat>, onlyDone: bool): nat {
    if batches == [] then 0
    else CountJoined(ps, batches[..|batches| - 1], onlyDone) + CountRows(ps, batches[|batches| - 1], onlyDone)
  }

  predicate FinalizeSelects(t: Tables, epoch: nat) {
    var joined := JoinedBatches(t, GroupKeys(Batches(t.payslips)), epoch);
    && epoch in t.epochs && t.epochs[epoch] == InProgress
    && joined != []
    && CountJoined(t.payslips, joined, false) == CountJoined(t.payslips, joined, true)
  }

  function FinalizeCompletedEpochs(t: Tables): map<nat, EpochStatus> {
    map e | e in t.epochs :: if FinalizeSelects(t, e) then EpochCompleted else t.epochs[e]
  }

  // Payslip k belongs to the epoch its batch's reward is attributed to.
  predicate InEpoch(t: Tables, k: nat, epoch: nat) {
    k < |t.payslips| && t.payslips[k].batch in t.rewards && t.rewards[t.payslips[k].batch].epoch == epoch
  }

  ghost predicate FullyPaid(t: Tables, epoch: nat) {
    forall k :: 0 <= k < |t.payslips| && InEpoch(t, k, epoch) ==> t.payslips[k].status == Completed
  }

  lemma {:induction false} CountRowsFacts(ps: seq<Payslip>, b: nat)
    ensures CountRows(ps, b, true) <= CountRows(ps, b, false)
    ensures CountRows(ps, b, true) == CountRows(ps, b, false) <==>
            forall k :: 0 <= k < |ps| && ps[k].batch == b ==> ps[k].status == Completed
  {
    if ps != [] {
      CountRowsFacts(ps[..|ps| - 1], b);
    }
  }

  lemma {:induction false} CountJoinedFacts(ps: seq<Payslip>, batches: seq<nat>)
    ensures CountJoined(ps, batches, true) <= CountJoined(ps, batches, false)
    ensures CountJoined(ps, batches, true) == CountJoined(ps, batches, false) <==>
            forall k :: 0 <= k < |ps| && ps[k].batch in batches ==> ps[k].status == Completed
  {
    if batches != [] {
      var n := |batches| - 1;
      CountJoinedFacts(ps, batches[..n]);
      CountRowsFacts(ps, batches[n]);
      assert batches == batches[..n] + [batches[n]];
    }
  }

  lemma {:induction false} JoinedExactly(t: Tables, keys: seq<nat>, epoch: nat)
    ensures forall b :: b in JoinedBatches(t, keys, epoch) <==>
                        b in keys && b in t.rewards && t.rewards[b].epoch == epoch
  {
    if keys != [] {
      var n := |keys| - 1;
      JoinedExactly(t, keys[..n], epoch);
      assert keys == keys[..n] + [keys[n]];
    }
  }

  // The two-level grouped count selects exactly the in-progress epochs that
  // have a payslip and whose recorded payslips are all completed.
  lemma FinalizeSelectsExactly(t: Tables, epoch: nat)
    ensures FinalizeSelects(t, epoch) <==>
            && epoch in t.epochs && t.epochs[epoch] == InProgress
            && (exists k :: 0 <= k < |t.payslips| && InEpoch(t, k, epoch))
            && FullyPaid(t, epoch)
  {
    var keys := Batches(t.payslips);
    var joined := JoinedBatches(t, GroupKeys(keys), epoch);
    GroupKeysExactly(keys);
    JoinedExactly(t, GroupKeys(keys), epoch);
    CountJoinedFacts(t.payslips, joined);
    assert forall k :: 0 <= k < |t.payslips| ==> keys[k] == t.payslips[k].batch;
    assert forall k :: 0 <= k < |t.payslips| ==> (t.payslips[k].batch in joined <==> InEpoch(t, k, epoch));
    if joined != [] {
      assert joined[0] in keys;
      var k :| 0 <= k < |keys| && keys[k] == joined[0];
      assert InEpoch(t, k, epoch);
    }
  }
}
