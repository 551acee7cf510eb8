// The daemon's payout passes (payout.go, confirmation.go): loops over a work
// list read from the database, with operator requests possible between any two
// statements.  What the network answers is a parameter.
module Manager {
  import opened Prelude
  import opened Sums
  import opened Arithmetic
  import opened ChainPolicy
  import opened Tables
  import opened Ledger
  import opened Database
  import Stuck

  const FEE_PAYOUT_MULTIPLE := 10

  // Unsigned 64-bit: the product may wrap, the checked sum may overflow.
  predicate PayoutWorthSending(amount: nat, fee: nat) {
    fee == 0 || amount >= fee * FEE_PAYOUT_MULTIPLE % TWO64
  }

  predicate PayoutFitsBalance(balance: nat, amount: nat, fee: nat) {
    amount + fee < TWO64 && balance >= amount + fee
  }

  datatype Quote = Quote(fee: nat, kind: PayoutKind)

  datatype Confirmation = Confirmation(final: bool, succeeded: bool)
  datatype Lookup = NotFound | RpcFailed | Found(conf: Confirmation)

  // What confirming a transaction decides; None leaves it awaiting.  Only a
  // macro-final result is decisive, short of being stuck.
  function Decide(lookup: Lookup, stuck: bool): Option<TxStatus> {
    match lookup
    case RpcFailed => None
    case NotFound => if stuck then Some(TxFailed) else None
    case Found(conf) =>
      if !conf.final then (if stuck then Some(TxFailed) else None)
      else if conf.succeeded then Some(TxCompleted) else Some(TxFailed)
  }

  // What the network and the clock answer during one confirmation pass.
  datatype Answers = Answers(head: nat, now: int, stuckEpochs: int,
                             lookup: Hash -> Lookup, submittedAt: Hash -> Option<int>)

  predicate IsStuck(p: Policy, answers: Answers, h: Hash, tx: Transaction) {
    Stuck.IsStuck(tx.submittedHeight, answers.head, answers.stuckEpochs, p.BlocksPerEpoch(),
                  p.blockSeparationMs, answers.submittedAt(h), answers.now)
  }

  function Decision(p: Policy, answers: Answers, h: Hash, tx: Transaction): Option<TxStatus> {
    if tx.status == TxAwaiting then Decide(answers.lookup(h), IsStuck(p, answers, h, tx)) else None
  }

  // A payout with a recorded height fails without a final answer only once the
  // head's epoch is the configured number past its own.
  lemma StuckDecision(p: Policy, answers: Answers, h: Hash, tx: Transaction)
    requires p.Valid() && tx.submittedHeight > 0 && p.genesis <= tx.submittedHeight
    requires Decision(p, answers, h, tx) == Some(TxFailed)
    requires answers.lookup(h).Found? ==> !answers.lookup(h).conf.final
    ensures answers.stuckEpochs > 0
    ensures EpochAt(p, answers.head) >= EpochAt(p, tx.submittedHeight) + answers.stuckEpochs
  {
    Stuck.StuckMeansEpochsPassed(p, tx.submittedHeight, answers.head, answers.stuckEpochs,
                                 answers.submittedAt(h), answers.now);
  }

  // Unconfirmed for longer than the configured epochs last: counted in heights if
  // the payout's own is known, in time otherwise.
  predicate Overdue(p: Policy, answers: Answers, h: Hash, submittedHeight: nat) {
    && answers.stuckEpochs > 0
    && if submittedHeight > 0 then
         answers.head > submittedHeight + answers.stuckEpochs * (p.blocksPerBatch * p.batchesPerEpoch)
       else
         && p.blockSeparationMs > 0 && answers.submittedAt(h).Some?
         && answers.now > answers.submittedAt(h).value
                          + answers.stuckEpochs * (p.blocksPerBatch * p.batchesPerEpoch * p.blockSeparationMs)
  }

  // How an awaiting transaction must end a pass: completed if and only if the
  // network reports it final and succeeded; failed if and only if final and not
  // succeeded, or overdue with the network knowing of no final result.
  predicate EndsAs(p: Policy, answers: Answers, h: Hash, submittedHeight: nat, status: TxStatus) {
    var lookup := answers.lookup(h);
    && (status == TxCompleted <==> lookup == Found(Confirmation(true, true)))
    && (status == TxFailed <==>
          || lookup == Found(Confirmation(true, false))
          || (Overdue(p, answers, h, submittedHeight) && (lookup == NotFound || (lookup.Found? && !lookup.conf.final))))
  }

  // A payslip ends up like its transaction; a failed one may have been retried.
  predicate SlipEnds(before: Payslip, after: Payslip, status: TxStatus) {
    match status
    case TxCompleted => after == before.(status := Completed)
    case TxFailed => after == before.(status := Failed) || after == before.(status := Pending, txHash := None)
    case TxAwaiting => after == before && before.status == Awaiting
  }

  // Every transaction awaiting before ends as it must, its payslips with it; no
  // other transaction changes.
  ghost predicate AllEnd(p: Policy, answers: Answers, t: Tables, t': Tables) {
    && t'.transactions.Keys == t.transactions.Keys && |t'.payslips| == |t.payslips|
    && (forall h :: h in t.transactions ==> t'.transactions[h] == t.transactions[h].(status := t'.transactions[h].status))
    && (forall h :: h in t.transactions && t.transactions[h].status == TxAwaiting ==>
          EndsAs(p, answers, h, t.transactions[h].submittedHeight, t'.transactions[h].status))
    && (forall h :: h in t.transactions && t.transactions[h].status != TxAwaiting ==> t'.transactions[h] == t.transactions[h])
    && (forall h, k :: h in t.transactions && t.transactions[h].status == TxAwaiting && k in CarryIds(t.payslips, h) ==>
          SlipEnds(t.payslips[k], t'.payslips[k], t'.transactions[h].status))
  }

  lemma DecisionEnds(p: Policy, answers: Answers, h: Hash, tx: Transaction)
    requires p.Valid() && tx.status == TxAwaiting
    ensures EndsAs(p, answers, h, tx.submittedHeight, Decision(p, answers, h, tx).GetOr(TxAwaiting))
  {
    BlocksPerEpochPositive(p);
  }

  lemma PassEnds(p: Policy, answers: Answers, t: Tables, t': Tables)
    requires p.Valid() && PassDone(p, answers, t, t')
    ensures AllEnd(p, answers, t, t')
  {
    forall h | h in t.transactions && t.transactions[h].status == TxAwaiting
      ensures EndsAs(p, answers, h, t.transactions[h].submittedHeight, t'.transactions[h].status)
    {
      DecisionEnds(p, answers, h, t.transactions[h]);
    }
    forall h, k | h in t.transactions && t.transactions[h].status == TxAwaiting && k in CarryIds(t.payslips, h)
      ensures SlipEnds(t.payslips[k], t'.payslips[k], t'.transactions[h].status)
    {
      assert SlipSettled(p, answers, t.transactions, t.payslips[k], t'.payslips[k]);
    }
  }

  // The transactions after a pass that got to look at the hashes in `done`.
  function Decided(p: Policy, answers: Answers, txs: map<Hash, Transaction>, done: seq<Hash>): map<Hash, Transaction> {
    map h | h in txs ::
      if h in done && Decision(p, answers, h, txs[h]).Some?
      then txs[h].(status := Decision(p, answers, h, txs[h]).value) else txs[h]
  }

  // A payslip through one turn of the confirmation loop: settled with its
  // transaction, or at most retried by the operator.
  predicate SlipAfter(before: Payslip, after: Payslip, h: Hash, decided: Option<TxStatus>) {
    if decided.Some? && before.txHash == Some(h) then after == before.(status := PaidStatus(decided.value))
    else OnlyRetried(before, after)
  }

  // One turn without database errors.
  ghost predicate Turned(t: Tables, t': Tables, h: Hash, decided: Option<TxStatus>) {
    && t'.transactions == (if decided.Some? then SetTransactionStatus(t.transactions, h, decided.value) else t.transactions)
    && |t'.payslips| == |t.payslips|
    && forall k :: 0 <= k < |t.payslips| ==> SlipAfter(t.payslips[k], t'.payslips[k], h, decided)
  }

  // A payslip through a pass that got to look at the hashes in `done`.
  predicate SlipDecided(p: Policy, answers: Answers, txs: map<Hash, Transaction>, done: seq<Hash>,
                        before: Payslip, after: Payslip)
  {
    if before.txHash.Some? && before.txHash.value in txs && txs[before.txHash.value].status == TxAwaiting then
      var h := before.txHash.value;
      var decided := if h in done then Decision(p, answers, h, txs[h]) else None;
      if decided.None? then after == before
      else
        || after == before.(status := PaidStatus(decided.value))
        || (decided.value == TxFailed && after == before.(status := Pending, txHash := None))
    else OnlyRetried(before, after)
  }

  lemma SlipDecidedStep(p: Policy, answers: Answers, txs: map<Hash, Transaction>, done: seq<Hash>, h: Hash,
                        before: Payslip, between: Payslip, after: Payslip)
    requires h in txs && txs[h].status == TxAwaiting && h !in done && AwaitingTogether(before, txs)
    requires SlipDecided(p, answers, txs, done, before, between)
    requires SlipAfter(between, after, h, Decision(p, answers, h, txs[h]))
    ensures SlipDecided(p, answers, txs, done + [h], before, after)
  {
  }

  // The transaction's status, whatever the operator does, then its payslips' status.
  lemma BothStatements(t: Tables, between: Tables, h: Hash, final: TxStatus)
    requires h in t.transactions && t.transactions[h].status == TxAwaiting
    requires forall k :: 0 <= k < |t.payslips| ==> AwaitingTogether(t.payslips[k], t.transactions)
    requires ApiChanged(t.(transactions := SetTransactionStatus(t.transactions, h, final)), between)
    ensures Turned(t, between.(payslips := SetPayslipStatus(between.payslips, h, PaidStatus(final))), h, Some(final))
  {
    var ps' := SetPayslipStatus(between.payslips, h, PaidStatus(final));
    forall k | 0 <= k < |t.payslips| ensures SlipAfter(t.payslips[k], ps'[k], h, Some(final)) {
      assert AwaitingTogether(t.payslips[k], t.transactions) && OnlyRetried(t.payslips[k], between.payslips[k]);
    }
  }

  // What every row a payout pass inserts satisfies, even if it is skipped by the
  // operator before the pass is over.
  predicate Proposed(audit: Audit, min: nat, quote: Address -> Option<Quote>, dryRun: bool) {
    && quote(audit.address) == Some(Quote(audit.fee, audit.kind))
    && PayoutWorthSending(audit.amount, audit.fee)
    && audit.amount >= min
    && (audit.status == (if dryRun then DryRun else Approved) || audit.status == Skipped)
  }

  ghost predicate AllProposed(audits: seq<Audit>, first: nat, min: nat, quote: Address -> Option<Quote>, dryRun: bool) {
    forall id :: first <= id < |audits| ==> Proposed(audits[id], min, quote, dryRun)
  }

  predicate Affordable(row: EligibleRow, available: nat, quote: Address -> Option<Quote>) {
    && quote(row.address).Some?
    && PayoutWorthSending(row.total, quote(row.address).value.fee)
    && PayoutFitsBalance(available, row.total, quote(row.address).value.fee)
  }

  // The audit rows a pass over `rows` inserts, and what it leaves of the balance:
  // first come, first served.
  function Greedy(rows: seq<EligibleRow>, balance: nat, quote: Address -> Option<Quote>, dryRun: bool): (seq<Audit>, nat) {
    if rows == [] then ([], balance)
    else
      var row := rows[|rows| - 1];
      var (inserted, left) := Greedy(rows[..|rows| - 1], balance, quote, dryRun);
      if Affordable(row, left, quote) then
        var quoted := quote(row.address).value;
        (inserted + [NewAudit(row, quoted.fee, quoted.kind, dryRun)], left - (row.total + quoted.fee))
      else (inserted, left)
  }

  // The rows as inserted, but for what the operator has skipped since.
  ghost predicate UpToSkips(inserted: seq<Audit>, rows: seq<Audit>) {
    |inserted| == |rows| && forall i :: 0 <= i < |rows| ==> OnlyStatus(inserted[i], rows[i])
  }

  // One turn of the pass, without failed inserts.
  ghost predicate TurnProposed(before: seq<Audit>, after: seq<Audit>, row: EligibleRow, available: nat, left: nat,
                               quote: Address -> Option<Quote>, dryRun: bool)
  {
    && |before| <= |after| && UpToSkips(before, after[..|before|])
    && if Affordable(row, available, quote) then
         var quoted := quote(row.address).value;
         && after[|before|..] == [NewAudit(row, quoted.fee, quoted.kind, dryRun)]
         && left == available - (row.total + quoted.fee)
       else |after| == |before| && left == available
  }

  lemma GreedyTurn(rows: seq<EligibleRow>, i: nat, balance: nat, quote: Address -> Option<Quote>, dryRun: bool,
                   first: nat, before: seq<Audit>, after: seq<Audit>, available: nat, left: nat)
    requires i < |rows| && first <= |before|
    requires TurnProposed(before, after, rows[i], available, left, quote, dryRun)
    requires Greedy(rows[..i], balance, quote, dryRun).1 == available
    requires UpToSkips(Greedy(rows[..i], balance, quote, dryRun).0, before[first..])
    ensures Greedy(rows[..i + 1], balance, quote, dryRun).1 == left
    ensures UpToSkips(Greedy(rows[..i + 1], balance, quote, dryRun).0, after[first..])
  {
    assert rows[..i + 1][..i] == rows[..i];
    var inserted, more := Greedy(rows[..i], balance, quote, dryRun).0, Greedy(rows[..i + 1], balance, quote, dryRun).0;
    forall k | 0 <= k < |more| ensures OnlyStatus(more[k], after[first..][k]) {
      if k < |inserted| {
        assert OnlyStatus(inserted[k], before[first..][k]);
        assert OnlyStatus(before[first + k], after[..|before|][first + k]);
      } else {
        assert after[first + k] == after[|before|..][0];
      }
    }
  }

  // What a payout would cost, if its fee is known.
  function Price(row: EligibleRow, quote: Address -> Option<Quote>): nat {
    if quote(row.address).Some? then row.total + quote(row.address).value.fee else 0
  }

  function Prices(rows: seq<EligibleRow>, quote: Address -> Option<Quote>): seq<nat> {
    seq<nat>(|rows|, i requires 0 <= i < |rows| => Price(rows[i], quote))
  }

  // What the rows at these places and before place i cost together.
  function Spent(rows: seq<EligibleRow>, quote: Address -> Option<Quote>, places: seq<nat>, i: nat): nat {
    Sum(Prices(rows, quote), set j | j in places && j < i)
  }

  // First come, first served, said of all rows at once: a row is among `places` if
  // and only if its fee is known, is zero or a tenth of the amount at most (the
  // product in 64 bits), and both fit what the rows served before it leave.
  ghost predicate FirstCome(rows: seq<EligibleRow>, balance: nat, quote: Address -> Option<Quote>, places: seq<nat>) {
    && (forall k :: 0 <= k < |places| ==> places[k] < |rows|)
    && (forall k, m :: 0 <= k < m < |places| ==> places[k] < places[m])
    && forall i :: 0 <= i < |rows| ==> (i in places <==> Served(rows, balance, quote, places, i))
  }

  ghost predicate Served(rows: seq<EligibleRow>, balance: nat, quote: Address -> Option<Quote>, places: seq<nat>, i: nat)
    requires i < |rows|
  {
    && quote(rows[i].address).Some?
    && var amount, fee := rows[i].total, quote(rows[i].address).value.fee;
       && (fee == 0 || amount >= fee * 10 % 0x1_0000_0000_0000_0000)
       && amount + fee < 0x1_0000_0000_0000_0000
       && Spent(rows, quote, places, i) + amount + fee <= balance
  }

  // The audit rows of those served, in order, each as quoted.
  predicate InsertedFor(rows: seq<EligibleRow>, quote: Address -> Option<Quote>, dryRun: bool, places: seq<nat>, audits: seq<Audit>) {
    && |audits| == |places|
    && forall k :: 0 <= k < |places| ==>
         && places[k] < |rows| && quote(rows[places[k]].address).Some?
         && var row, quoted := rows[places[k]], quote(rows[places[k]].address).value;
            OnlyStatus(Audit(row.address, row.total, quoted.fee, quoted.kind, if dryRun then DryRun else Approved, None), audits[k])
  }

  lemma {:induction false} GreedyIsFirstCome(rows: seq<EligibleRow>, balance: nat, quote: Address -> Option<Quote>, dryRun: bool)
    returns (places: seq<nat>)
    ensures FirstCome(rows, balance, quote, places)
    ensures InsertedFor(rows, quote, dryRun, places, Greedy(rows, balance, quote, dryRun).0)
    ensures Greedy(rows, balance, quote, dryRun).1 + Spent(rows, quote, places, |rows|) == balance
  {
    if rows == [] {
      places := [];
    } else {
      var n := |rows| - 1;
      var front := GreedyIsFirstCome(rows[..n], balance, quote, dryRun);
      var left := Greedy(rows[..n], balance, quote, dryRun).1;
      places := if Affordable(rows[n], left, quote) then front + [n] else front;
      NextServed(rows, balance, quote, front, places, left);
      NextInserted(rows, balance, quote, dryRun, front, places);
    }
  }

  // The last row does not change what those before it cost.
  lemma SpentSame(rows: seq<EligibleRow>, quote: Address -> Option<Quote>, places: seq<nat>, more: seq<nat>, i: nat)
    requires rows != [] && i < |rows| && (forall j :: j in places ==> j < |rows| - 1)
    requires forall j :: j in more <==> j in places || (j == |rows| - 1 && j in more)
    ensures Spent(rows, quote, more, i) == Spent(rows[..|rows| - 1], quote, places, i)
  {
    var n := |rows| - 1;
    assert Prices(rows, quote) == Prices(rows[..n], quote) + [Price(rows[n], quote)];
    assert (set j | j in more && j < i) == (set j | j in places && j < i);
    SumAppend(Prices(rows[..n], quote), Price(rows[n], quote), set j | j in places && j < i);
  }

  lemma SpentAll(rows: seq<EligibleRow>, quote: Address -> Option<Quote>, places: seq<nat>, more: seq<nat>)
    requires rows != [] && (forall j :: j in places ==> j < |rows| - 1)
    requires more == places || more == places + [|rows| - 1]
    ensures Spent(rows, quote, more, |rows|)
            == Spent(rows[..|rows| - 1], quote, places, |rows| - 1) + if more == places then 0 else Price(rows[|rows| - 1], quote)
  {
    var n := |rows| - 1;
    var ids, all := set j | j in places && j < n, set j | j in more && j < n + 1;
    assert Prices(rows, quote) == Prices(rows[..n], quote) + [Price(rows[n], quote)];
    SumAppend(Prices(rows[..n], quote), Price(rows[n], quote), all);
    SumSameIds(Prices(rows[..n], quote), all, ids);
  }

  lemma NextServed(rows: seq<EligibleRow>, balance: nat, quote: Address -> Option<Quote>, front: seq<nat>, places: seq<nat>, left: nat)
    requires rows != [] && FirstCome(rows[..|rows| - 1], balance, quote, front)
    requires left + Spent(rows[..|rows| - 1], quote, front, |rows| - 1) == balance
    requires places == if Affordable(rows[|rows| - 1], left, quote) then front + [|rows| - 1] else front
    ensures FirstCome(rows, balance, quote, places)
    ensures Spent(rows, quote, places, |rows|) + left
            == balance + if Affordable(rows[|rows| - 1], left, quote) then Price(rows[|rows| - 1], quote) else 0
  {
    var n := |rows| - 1;
    SpentAll(rows, quote, front, places);
    forall i | 0 <= i < |rows| ensures i in places <==> Served(rows, balance, quote, places, i) {
      SpentSame(rows, quote, front, places, i);
      if i < n { assert Served(rows, balance, quote, places, i) <==> Served(rows[..n], balance, quote, front, i); }
    }
  }

  lemma NextInserted(rows: seq<EligibleRow>, balance: nat, quote: Address -> Option<Quote>, dryRun: bool, front: seq<nat>, places: seq<nat>)
    requires rows != [] && (forall j :: j in front ==> j < |rows| - 1)
    requires InsertedFor(rows[..|rows| - 1], quote, dryRun, front, Greedy(rows[..|rows| - 1], balance, quote, dryRun).0)
    requires places == if Affordable(rows[|rows| - 1], Greedy(rows[..|rows| - 1], balance, quote, dryRun).1, quote)
                       then front + [|rows| - 1] else front
    ensures InsertedFor(rows, quote, dryRun, places, Greedy(rows, balance, quote, dryRun).0)
  {
  }

  lemma SkippedSince(rows: seq<EligibleRow>, quote: Address -> Option<Quote>, dryRun: bool, places: seq<nat>,
                     inserted: seq<Audit>, audits: seq<Audit>)
    requires InsertedFor(rows, quote, dryRun, places, inserted) && UpToSkips(inserted, audits)
    ensures InsertedFor(rows, quote, dryRun, places, audits)
  {
    forall k | 0 <= k < |places| ensures OnlyStatus(inserted[k], audits[k]) {}
  }

  // A turn, or one whose insert failed, takes from the budget what its row costs.
  lemma {:induction false} TurnWithinBudget(before: seq<Audit>, after: seq<Audit>, row: EligibleRow, available: nat, left: nat,
                         min: nat, quote: Address -> Option<Quote>, dryRun: bool, first: nat)
    requires first <= |before| && row.total >= min && AllProposed(before, first, min, quote, dryRun)
    requires || TurnProposed(before, after, row, available, left, quote, dryRun)
             || (UpToSkips(before, after) && left == available)
    ensures |before| <= |after| && AllProposed(after, first, min, quote, dryRun)
    ensures left + Total(Costs(after[first..])) == available + Total(Costs(before[first..]))
  {
    var kept := after[..|before|];
    SkippedRows(before, kept, first, min, quote, dryRun);
    if |after| == |before| {
      assert kept == after;
    } else {
      OneMoreRow(kept, after, first, min, quote, dryRun);
    }
  }

  lemma {:induction false} OneMoreRow(kept: seq<Audit>, after: seq<Audit>, first: nat, min: nat,
                                      quote: Address -> Option<Quote>, dryRun: bool)
    requires first <= |kept| && |after| == |kept| + 1 && after[..|kept|] == kept
    requires AllProposed(kept, first, min, quote, dryRun) && Proposed(after[|kept|], min, quote, dryRun)
    ensures AllProposed(after, first, min, quote, dryRun)
    ensures Total(Costs(after[first..])) == Total(Costs(kept[first..])) + Cost(after[|kept|])
  {
    var n := |kept| - first;
    assert forall id :: 0 <= id < |kept| ==> after[id] == kept[id];
    assert after[first..][n] == after[|kept|];
    assert Costs(after[first..])[..n] == Costs(kept[first..]);
  }

  // Skipping changes neither what was proposed nor what it costs.
  lemma {:induction false} SkippedRows(before: seq<Audit>, after: seq<Audit>, first: nat, min: nat,
                    quote: Address -> Option<Quote>, dryRun: bool)
    requires first <= |before| == |after|
    requires forall id :: 0 <= id < |before| ==> OnlyStatus(before[id], after[id])
    ensures Costs(after[first..]) == Costs(before[first..])
    ensures AllProposed(before, first, min, quote, dryRun) ==> AllProposed(after, first, min, quote, dryRun)
  {
  }

  // What an audit row costs the wallet, from a given row on.
  function Cost(audit: Audit): nat {
    audit.amount + audit.fee
  }

  function Costs(audits: seq<Audit>): seq<nat> {
    seq<nat>(|audits|, i requires 0 <= i < |audits| => Cost(audits[i]))
  }

  // The rows claimed for a hash between two states of the audit table.
  function Claimed(before: seq<Audit>, after: seq<Audit>): set<nat> {
    set id | 0 <= id < |before| && id < |after| && before[id].txHash.None? && after[id].txHash.Some?
  }

  lemma {:induction false} SumSingle(values: seq<nat>, id: nat)
    requires id < |values|
    ensures Sum(values, {id}) == values[id]
  {
    var n := |values| - 1;
    if id == n {
      SumSameIds(values[..n], {id}, {});
      SumEmpty(values[..n]);
    } else {
      SumSingle(values[..n], id);
    }
  }

  class Manager {
    const db: Database

    constructor (db: Database)
      ensures this.db == db
    {
      this.db := db;
    }

    // One turn of the payout loop: hold the address, or insert its audit row and
    // set its cost aside.  An insert that fails holds it too.
    method ProposeNext(row: EligibleRow, available: nat, quote: Address -> Option<Quote>, dryRun: bool, faults: bool)
      returns (left: nat)
      requires db.Valid() && db.pc.Proposing? && db.pc.rows != [] && db.pc.rows[0] == row
      modifies db
      ensures db.Valid() && Extends(old(db.run), db.run) && db.pc == Proposing(old(db.pc.rows)[1..])
      ensures || TurnProposed(old(db.audits), db.audits, row, available, left, quote, dryRun)
              || (faults && UpToSkips(old(db.audits), db.audits) && left == available)
    {
      db.Interfere();
      var quoted := quote(row.address);
      var insertFails: bool := *;
      if quoted.None? || !PayoutWorthSending(row.total, quoted.value.fee)
         || !PayoutFitsBalance(available, row.total, quoted.value.fee) || (faults && insertFails) {
        db.PassOver();
        return available;
      }
      db.InsertAuditLog(row, quoted.value.fee, quoted.value.kind, dryRun);
      left := available - (row.total + quoted.value.fee);
    }

    // One payout pass over every eligible address.  The rows it inserts never
    // cost more together than the balance read at its start; each was quoted, is
    // worth its fee and reaches the minimum.  Without failed inserts they are the
    // rows the eligible addresses get first come, first served.
    method RunPayouts(min: nat, balance: Option<nat>, quote: Address -> Option<Quote>, dryRun: bool, faults: bool)
      returns (ghost rows: seq<EligibleRow>, ghost places: seq<nat>)
      requires db.Valid() && db.pc.Idle?
      modifies db
      ensures db.Valid() && Extends(old(db.run), db.run) && db.pc.Idle?
      ensures |old(db.audits)| <= |db.audits|
      ensures Total(Costs(db.audits[|old(db.audits)|..])) <= if balance.Some? then balance.value else 0
      ensures AllProposed(db.audits, |old(db.audits)|, min, quote, dryRun)
      ensures ListsEligible(old(db.T()), min, rows)
      ensures !faults && balance.Some? ==>
                UpToSkips(Greedy(rows, balance.value, quote, dryRun).0, db.audits[|old(db.audits)|..])
      ensures !faults && balance.Some? ==>
                && FirstCome(rows, balance.value, quote, places)
                && InsertedFor(rows, quote, dryRun, places, db.audits[|old(db.audits)|..])
    {
      var eligible := db.GetEligibleForPayout(min);
      rows, places := eligible, [];
      db.BeginPayouts(min, eligible);
      ghost var first := |db.audits|;
      assert db.audits[first..] == [];
      if balance.None? {
        db.EndPass();
        return;
      }
      var available: nat := balance.value;
      for i := 0 to |eligible|
        invariant db.Valid() && Extends(old(db.run), db.run)
        invariant db.pc == Proposing(rows[i..])
        invariant first <= |db.audits|
        invariant available + Total(Costs(db.audits[first..])) == balance.value
        invariant AllProposed(db.audits, first, min, quote, dryRun)
        invariant !faults ==> Greedy(rows[..i], balance.value, quote, dryRun).1 == available
        invariant !faults ==> UpToSkips(Greedy(rows[..i], balance.value, quote, dryRun).0, db.audits[first..])
      {
        ghost var before, had := db.audits, available;
        assert rows[i..][1..] == rows[i + 1..];
        available := ProposeNext(eligible[i], available, quote, dryRun, faults);
        TurnWithinBudget(before, db.audits, rows[i], had, available, min, quote, dryRun, first);
        if !faults { GreedyTurn(rows, i, balance.value, quote, dryRun, first, before, db.audits, had, available); }
      }
      assert rows[..|rows|] == rows;
      db.EndPass();
      if !faults {
        places := GreedyIsFirstCome(rows, balance.value, quote, dryRun);
        SkippedSince(rows, quote, dryRun, places, Greedy(rows, balance.value, quote, dryRun).0, db.audits[first..]);
      }
    }
 
    // Claim the audit row for the signed transaction, then broadcast it; if the
    // claim is refused nothing is sent.
    method ClaimThenSend(id: nat, hash: Hash, head: nat, faults: bool) returns (claimed: bool)
      requires db.Valid() && db.pc.Submitting? && db.pc.ids != [] && db.pc.ids[0] == id && id < |db.audits|
      modifies db
      ensures db.Valid() && Extends(old(db.run), db.run) && db.pc == Submitting(old(db.pc.ids)[1..])
      ensures if claimed then Persist(old(db.T()), id, hash, head) == Success(db.T())
                              && db.hist.sent == old(db.hist).sent + {hash}
              else db.T() == old(db.T()) && db.hist == old(db.hist)
      ensures !faults ==> (claimed <==> Persist(old(db.T()), id, hash, head).Success?)
    {
      var databaseFails: bool := *;
      if faults && databaseFails {
        db.PassOver();
        return false;
      }
      var persisted := db.PersistPayoutSubmission(id, hash, head);
      claimed := persisted.Success?;
      if claimed {
        db.SendTransaction();
      } else {
        db.PassOver();
      }
    }

    // An approved payout cannot be sent: it does not fit, was not signed, its hash
    // is taken, or it is not approved any more.
    predicate NotPayable(id: nat, available: nat, sign: nat -> Option<Hash>)
      reads db
    {
      id < |db.audits| && db.audits[id].status == Approved ==>
        || db.audits[id].amount + db.audits[id].fee >= 0x1_0000_0000_0000_0000
        || available < db.audits[id].amount + db.audits[id].fee
        || sign(id).None? || sign(id).value in db.transactions
    }

    // No row becomes approved, and a row still approved has not changed.
    twostate predicate OnlyWithdrawn()
      reads db
    {
      && |db.audits| == |old(db.audits)| && old(db.transactions).Keys <= db.transactions.Keys
      && forall id :: 0 <= id < |db.audits| && db.audits[id].status == Approved ==> db.audits[id] == old(db.audits)[id]
    }

    // One turn of the submission loop: hold the approved payout, or claim and send
    // it and set its cost aside.
    method SubmitNext(id: nat, available: nat, head: nat, sign: nat -> Option<Hash>, faults: bool, ghost start: seq<Audit>)
      returns (left: nat)
      requires db.Valid() && db.pc.Submitting? && db.pc.ids != [] && db.pc.ids[0] == id
      requires |start| == |db.audits| && id < |start| && start[id].txHash.None?
      modifies db
      ensures db.Valid() && Extends(old(db.run), db.run) && db.pc == Submitting(old(db.pc.ids)[1..])
      ensures OnlyWithdrawn() && Costs(db.audits) == Costs(old(db.audits))
      ensures left + Sum(Costs(db.audits), Claimed(start, db.audits))
              == available + Sum(Costs(db.audits), Claimed(start, old(db.audits)))
      ensures left <= available && (!faults ==> NotPayable(id, left, sign))
    {
      ghost var before := db.audits;
      db.Interfere();
      SkippedClaims(start, before, db.audits);
      var log := db.audits[id];
      var hash := sign(id);
      if !PayoutFitsBalance(available, log.amount, log.fee) || hash.None? {
        db.PassOver();
        return available;
      }
      left := SubmitSigned(id, available, head, hash.value, faults, start);
    }

    // The second half of the turn, the transaction being signed.
    method SubmitSigned(id: nat, available: nat, head: nat, hash: Hash, faults: bool, ghost start: seq<Audit>)
      returns (left: nat)
      requires db.Valid() && db.pc.Submitting? && db.pc.ids != [] && db.pc.ids[0] == id
      requires |start| == |db.audits| && id < |start| && start[id].txHash.None?
      requires PayoutFitsBalance(available, db.audits[id].amount, db.audits[id].fee)
      modifies db
      ensures db.Valid() && Extends(old(db.run), db.run) && db.pc == Submitting(old(db.pc.ids)[1..])
      ensures OnlyWithdrawn() && Costs(db.audits) == Costs(old(db.audits))
      ensures left + Sum(Costs(db.audits), Claimed(start, db.audits))
              == available + Sum(Costs(db.audits), Claimed(start, old(db.audits)))
      ensures left <= available
      ensures !faults && db.audits[id].status == Approved ==> hash in db.transactions
    {
      ghost var before := db.audits;
      var log := db.audits[id];
      db.ApprovedUnclaimed();
      db.NeverBusy(id, hash, head);
      var claimed := ClaimThenSend(id, hash, head, faults);
      if !claimed { return available; }
      ClaimCost(start, before, db.audits, id);
      left := available - (log.amount + log.fee);
    }

    // One submission pass.  The transactions it claims audit rows for never cost
    // more together than the balance read at its start; and without database
    // errors no payout is left approved that what remains could have paid.
    method ProcessApprovedPayouts(dryRun: bool, head: Option<nat>, balance: Option<nat>, sign: nat -> Option<Hash>, faults: bool)
      returns (left: nat)
      requires db.Valid() && db.pc == Idle
      modifies db
      ensures db.Valid() && Extends(old(db.run), db.run) && db.pc == Idle
      ensures OnlyWithdrawn()
      ensures left + Sum(Costs(db.audits), Claimed(old(db.audits), db.audits)) == if balance.Some? then balance.value else 0
      ensures dryRun ==> db.S() == old(db.S())
      ensures !dryRun && !faults && head.Some? && balance.Some? ==> forall id: nat :: NotPayable(id, left, sign)
    {
      left := balance.GetOr(0);
      assert Claimed(db.audits, db.audits) == {};
      SumEmpty(Costs(db.audits));
      if dryRun { return; }
      var ids := db.ListApprovedAuditLogs();
      db.BeginSubmissions(ids);
      if head.None? || balance.None? {
        db.EndPass();
        return;
      }
      left := SubmitListed(ids, head.value, balance.value, sign, faults);
    }

    method SubmitListed(ids: seq<nat>, head: nat, balance: nat, sign: nat -> Option<Hash>, faults: bool) returns (left: nat)
      requires db.Valid() && db.pc == Submitting(ids)
      requires forall id :: id in ids ==> id < |db.audits| && db.audits[id].status == Approved
      modifies db
      ensures db.Valid() && Extends(old(db.run), db.run) && db.pc == Idle
      ensures OnlyWithdrawn()
      ensures left + Sum(Costs(db.audits), Claimed(old(db.audits), db.audits)) == balance
      ensures !faults ==> forall id :: id in ids ==> NotPayable(id, left, sign)
    {
      ghost var start := db.audits;
      left := balance;
      assert Claimed(start, start) == {};
      SumEmpty(Costs(start));
      db.ApprovedUnclaimed();
      assert forall i :: 0 <= i < |ids| ==> ids[i] in ids;
      for i := 0 to |ids|
        invariant db.Valid() && Extends(old(db.run), db.run)
        invariant db.pc == Submitting(ids[i..])
        invariant OnlyWithdrawn() && Costs(db.audits) == Costs(start)
        invariant left + Sum(Costs(db.audits), Claimed(start, db.audits)) == balance
        invariant !faults ==> forall k :: 0 <= k < i ==> NotPayable(ids[k], left, sign)
      {
        assert ids[i..][1..] == ids[i + 1..];
        left := SubmitNext(ids[i], left, head, sign, faults, start);
      }
      db.EndPass();
    }

    // One turn of the confirmation loop.  The two settlement statements are
    // separate; `faults` lets either fail.
    method ConfirmNext(h: Hash, decided: Option<TxStatus>, stuckPath: bool, faults: bool) returns (proceed: bool)
      requires db.Valid() && db.pc.Confirming? && db.pc.hashes != [] && db.pc.hashes[0] == h
      requires decided.Some? ==> decided.value != TxAwaiting
      modifies db
      ensures db.Valid() && Extends(old(db.run), db.run) && db.epochs == old(db.epochs)
      ensures proceed ==> db.pc == Confirming(old(db.pc.hashes)[1..])
      ensures !proceed ==> db.pc == Idle && faults && !stuckPath
      ensures |db.payslips| == |old(db.payslips)|
      ensures !faults ==> Turned(old(db.T()), db.T(), h, decided)
    {
      db.ConfirmingAwaiting();
      db.Interfere();
      if decided.None? {
        db.PassOver();
        return true;
      }
      proceed := SettleBoth(h, decided.value, faults);
      if proceed { return; }
      // failStuckPayout's error is logged and the loop goes on; the others end the pass.
      proceed := stuckPath;
      if proceed { db.PassOver(); } else { db.EndPass(); }
    }

    // The transaction row, then its payslips.
    method SettleBoth(h: Hash, final: TxStatus, faults: bool) returns (settled: bool)
      requires db.Valid() && db.pc.Confirming? && db.pc.hashes != [] && db.pc.hashes[0] == h
      requires final != TxAwaiting
      modifies db
      ensures db.Valid() && Extends(old(db.run), db.run) && db.epochs == old(db.epochs)
      ensures |db.payslips| == |old(db.payslips)|
      ensures settled ==> db.pc == Confirming(old(db.pc.hashes)[1..]) && Turned(old(db.T()), db.T(), h, Some(final))
      ensures !settled ==> faults && db.pc != AfterPass(db.pc) == Confirming(old(db.pc.hashes)[1..])
    {
      db.ConfirmingAwaiting();
      assert db.pc.hashes[0] in db.pc.hashes;
      var firstFails: bool := *;
      if faults && firstFails { return false; }
      ghost var start := db.T();
      db.UpdateTransaction(h, final);
      db.Interfere();
      var secondFails: bool := *;
      if faults && secondFails { return false; }
      ghost var between := db.T();
      db.UpdatePayslips(h, final);
      settled := true;
      BothStatements(start, between, h, final);
    }

    // The turn of the loop for one hash, with the answers for it.
    method ConfirmTurn(h: Hash, answers: Answers, faults: bool, ghost start: Tables, ghost done: seq<Hash>) returns (proceed: bool)
      requires db.Valid() && db.pc.Confirming? && db.pc.hashes != [] && db.pc.hashes[0] == h
      requires h !in done && h in start.transactions && start.transactions[h].status == TxAwaiting
      requires !faults ==> PassSoFar(db.policy, answers, start, db.T(), done)
      modifies db
      ensures db.Valid() && Extends(old(db.run), db.run) && db.epochs == old(db.epochs)
      ensures proceed ==> db.pc == Confirming(old(db.pc.hashes)[1..])
      // Only a final answer's failed settlement ends the pass.
      ensures !proceed ==> db.pc == Idle && faults && answers.lookup(h).Found? && answers.lookup(h).conf.final
      ensures !faults ==> PassSoFar(db.policy, answers, start, db.T(), done + [h])
      ensures !faults ==> h in db.transactions
                          && EndsAs(db.policy, answers, h, start.transactions[h].submittedHeight, db.transactions[h].status)
    {
      ghost var between := db.T();
      db.ConfirmingAwaiting();
      assert db.pc.hashes[0] in db.pc.hashes;
      var decided := Decision(db.policy, answers, h, db.transactions[h]);
      var lookup := answers.lookup(h);
      proceed := ConfirmNext(h, decided, !(lookup.Found? && lookup.conf.final), faults);
      if !faults {
        TurnExtends(db.policy, answers, start, between, db.T(), done, h);
        DecisionEnds(db.policy, answers, h, start.transactions[h]);
      }
    }

    // One confirmation pass.  Without database errors every awaiting transaction
    // ends up as its answers decide, its payslips with it, and the epochs whose
    // payslips are all settled are completed.
    method RunConfirmations(answers: Answers, faults: bool) returns (ok: bool)
      requires db.Valid() && db.pc == Idle
      modifies db
      ensures db.Valid() && Extends(old(db.run), db.run) && db.pc == Idle
      ensures !faults ==> ok
      ensures !faults ==> PassDone(db.policy, answers, old(db.T()), db.T())
      ensures !faults ==> AllEnd(db.policy, answers, old(db.T()), db.T())
      ensures ok ==> db.epochs == FinalizeCompletedEpochs(db.T().(epochs := old(db.epochs)))
    {
      ghost var start := db.T();
      var hashes := db.GetPendingTransactions();
      db.BeginConfirmations(hashes);
      db.ConfirmingAwaiting();
      for i := 0 to |hashes|
        invariant db.Valid() && Extends(old(db.run), db.run) && db.epochs == start.epochs
        invariant db.pc == Confirming(hashes[i..])
        invariant !faults ==> PassSoFar(db.policy, answers, start, db.T(), hashes[..i])
      {
        assert hashes[i..][1..] == hashes[i + 1..] && hashes[..i + 1] == hashes[..i] + [hashes[i]];
        assert hashes[i] in hashes;
        var proceed := ConfirmTurn(hashes[i], answers, faults, start, hashes[..i]);
        if !proceed { return false; }
      }
      assert hashes[..|hashes|] == hashes;
      if !faults { PassCovers(db.policy, answers, start, db.T(), hashes); }
      ok := CompleteEpochs(answers, faults, start);
      if !faults { PassEnds(db.policy, answers, start, db.T()); }
    }

    // The end of the pass, after whatever the operator did meanwhile.
    method CompleteEpochs(answers: Answers, faults: bool, ghost start: Tables) returns (ok: bool)
      requires db.Valid() && db.pc == Confirming([])
      requires !faults ==> PassDone(db.policy, answers, start, db.T())
      modifies db
      ensures db.Valid() && Extends(old(db.run), db.run) && db.pc == Idle
      ensures !faults ==> ok
      ensures !faults ==> PassDone(db.policy, answers, start, db.T())
      ensures ok ==> db.epochs == FinalizeCompletedEpochs(db.T().(epochs := old(db.epochs)))
    {
      ghost var before := db.T();
      db.Interfere();
      if !faults { StillSettled(db.policy, answers, start, before, db.T()); }
      var finalizeFails: bool := *;
      if faults && finalizeFails {
        db.EndPass();
        return false;
      }
      db.UpdateEpochs();
      ok := true;
    }
  }

  ghost predicate PassSoFar(p: Policy, answers: Answers, t: Tables, t': Tables, done: seq<Hash>) {
    && t'.transactions == Decided(p, answers, t.transactions, done)
    && |t'.payslips| == |t.payslips|
    && forall k :: 0 <= k < |t.payslips| ==>
         AwaitingTogether(t.payslips[k], t.transactions)
         && SlipDecided(p, answers, t.transactions, done, t.payslips[k], t'.payslips[k])
  }

  // After a whole pass: every awaiting transaction is as its answers decide, and
  // every payslip it carried is settled with it (or, if it failed, retried).
  ghost predicate PassDone(p: Policy, answers: Answers, t: Tables, t': Tables) {
    && t'.transactions.Keys == t.transactions.Keys
    && (forall h :: h in t.transactions ==>
          t'.transactions[h] == t.transactions[h].(status :=
            Decision(p, answers, h, t.transactions[h]).GetOr(t.transactions[h].status)))
    && |t'.payslips| == |t.payslips|
    && (forall k :: 0 <= k < |t.payslips| && t.payslips[k].txHash.Some? ==>
          SlipSettled(p, answers, t.transactions, t.payslips[k], t'.payslips[k]))
  }

  predicate SlipSettled(p: Policy, answers: Answers, txs: map<Hash, Transaction>, before: Payslip, after: Payslip)
    requires before.txHash.Some?
  {
    var h := before.txHash.value;
    h in txs && txs[h].status == TxAwaiting ==>
      var decided := Decision(p, answers, h, txs[h]);
      && before.status == Awaiting
      && if decided.None? then after == before
         else
           || after == before.(status := PaidStatus(decided.value))
           || (decided.value == TxFailed && after == before.(status := Pending, txHash := None))
  }

  // Operator requests after the last turn only retry what has failed.
  lemma StillSettled(p: Policy, answers: Answers, t: Tables, between: Tables, t': Tables)
    requires PassDone(p, answers, t, between) && ApiChanged(between, t')
    ensures PassDone(p, answers, t, t')
  {
    forall k | 0 <= k < |t.payslips| && t.payslips[k].txHash.Some?
      ensures SlipSettled(p, answers, t.transactions, t.payslips[k], t'.payslips[k])
    {
      assert SlipSettled(p, answers, t.transactions, t.payslips[k], between.payslips[k]);
      assert OnlyRetried(between.payslips[k], t'.payslips[k]);
    }
  }

  lemma PassCovers(p: Policy, answers: Answers, t: Tables, t': Tables, hashes: seq<Hash>)
    requires PassSoFar(p, answers, t, t', hashes)
    requires forall h :: h in t.transactions && t.transactions[h].status == TxAwaiting ==> h in hashes
    ensures PassDone(p, answers, t, t')
  {
    forall k | 0 <= k < |t.payslips| && t.payslips[k].txHash.Some?
      ensures SlipSettled(p, answers, t.transactions, t.payslips[k], t'.payslips[k])
    {
      assert SlipDecided(p, answers, t.transactions, hashes, t.payslips[k], t'.payslips[k]);
      assert AwaitingTogether(t.payslips[k], t.transactions);
    }
  }

  lemma TurnExtends(p: Policy, answers: Answers, t: Tables, between: Tables, t': Tables, done: seq<Hash>, h: Hash)
    requires PassSoFar(p, answers, t, between, done) && h !in done
    requires h in t.transactions && t.transactions[h].status == TxAwaiting
    requires Turned(between, t', h, Decision(p, answers, h, between.transactions[h]))
    ensures PassSoFar(p, answers, t, t', done + [h])
  {
    assert between.transactions[h] == t.transactions[h];
    forall k | 0 <= k < |t.payslips|
      ensures SlipDecided(p, answers, t.transactions, done + [h], t.payslips[k], t'.payslips[k])
    {
      SlipDecidedStep(p, answers, t.transactions, done, h, t.payslips[k], between.payslips[k], t'.payslips[k]);
    }
  }

  // Skipping claims nothing.
  lemma SkippedClaims(start: seq<Audit>, before: seq<Audit>, after: seq<Audit>)
    requires |before| == |after| && forall id :: 0 <= id < |before| ==> OnlyStatus(before[id], after[id])
    ensures Costs(after) == Costs(before)
    ensures Claimed(start, after) == Claimed(start, before)
  {
  }

  // Claiming one more row adds exactly its cost.
  lemma ClaimCost(start: seq<Audit>, before: seq<Audit>, after: seq<Audit>, id: nat)
    requires |start| == |before| && id < |start| && start[id].txHash.None? && before[id].txHash.None?
    requires |after| == |before| && after == before[id := after[id]] && after[id].txHash.Some? && Cost(after[id]) == Cost(before[id])
    ensures Costs(after) == Costs(before)
    ensures Sum(Costs(after), Claimed(start, after)) == Sum(Costs(after), Claimed(start, before)) + Cost(before[id])
  {
    assert Costs(after) == Costs(before);
    assert Claimed(start, after) == Claimed(start, before) + {id};
    SumUnion(Costs(after), Claimed(start, before), {id});
    SumSingle(Costs(after), id);
  }
}
