// Where a payout's amount comes from: the payslips its audit row counted are
// those pending for the address when the eligible addresses were listed, so a
// transaction pays in full exactly when none arrived between then and its claim.
module LedgerAmounts {
  import opened Sums
  import opened ChainPolicy
  import opened Tables
  import opened Ledger
  import opened LedgerInvariant
  import opened LedgerRuns

  predicate ClaimsFor(s: Sys, step: Step, a: Address) {
    && step.Claim? && s.pc.Submitting? && s.pc.ids != [] && s.pc.ids[0] < |s.t.audits|
    && s.t.audits[s.pc.ids[0]].address == a
  }

  ghost predicate NoClaim(r: Run, m: nat, i: nat, a: Address)
    requires |r.states| == |r.steps| + 1 && i <= |r.steps|
  {
    forall k :: m <= k < i ==> !ClaimsFor(r.states[k], r.steps[k], a)
  }

  // The ids were pending for the address when step m listed the eligible
  // addresses, and nothing was claimed for it from there to state i.
  ghost predicate ListedAt(r: Run, m: nat, i: nat, a: Address, ids: set<nat>)
    requires |r.states| == |r.steps| + 1 && i <= |r.steps|
  {
    m < i && r.steps[m].ListEligible? && ids == PendingIds(r.states[m].t.payslips, a) && NoClaim(r, m, i, a)
  }

  ghost predicate RowsListedAt(r: Run, m: nat, i: nat, rows: seq<EligibleRow>)
    requires |r.states| == |r.steps| + 1 && i <= |r.steps|
  {
    forall n :: 0 <= n < |rows| ==> ListedAt(r, m, i, rows[n].address, rows[n].ids)
  }

  lemma {:induction false} RowsWereListed(p: Policy, r: Run, i: nat) returns (m: nat)
    requires p.Valid() && IsRun(p, r) && i < |r.states| && r.states[i].pc.Proposing?
    ensures RowsListedAt(r, m, i, r.states[i].pc.rows)
  {
    assert i > 0;
    assert IsStep(p, r, i - 1);
    var s, step := r.states[i - 1], r.steps[i - 1];
    if step.ListEligible? {
      m := i - 1;
    } else {
      assert s.pc.Proposing?;
      m := RowsWereListed(p, r, i - 1);
      forall n | 0 <= n < |r.states[i].pc.rows|
        ensures ListedAt(r, m, i, r.states[i].pc.rows[n].address, r.states[i].pc.rows[n].ids)
      {
        var n' := if r.states[i].pc == s.pc then n else n + 1;
        assert r.states[i].pc.rows[n] == s.pc.rows[n'];
        assert ListedAt(r, m, i - 1, s.pc.rows[n'].address, s.pc.rows[n'].ids);
      }
    }
  }

  // What one step does to the recorded history.
  lemma HistoryKept(p: Policy, r: Run, i: nat)
    requires p.Valid() && IsRun(p, r) && i < |r.steps|
    ensures var h, h' := r.states[i].hist, r.states[i + 1].hist;
            && h.basis <= h'.basis
            && forall x :: x in r.states[i].t.transactions && x in h.auditOf ==> x in h'.auditOf && h'.auditOf[x] == h.auditOf[x]
  {
    assert IsStep(p, r, i);
  }

  // The basis of a new audit row is that of the row it was proposed from.
  lemma ProposedFrom(p: Policy, r: Run, i: nat, id: nat)
    requires p.Valid() && IsRun(p, r) && i < |r.steps|
    requires |r.states[i].t.audits| <= id < |r.states[i + 1].t.audits|
    ensures r.steps[i].Propose? && r.states[i].pc.Proposing? && r.states[i].pc.rows != []
    ensures var row := r.states[i].pc.rows[0];
            && id < |r.states[i + 1].hist.basis| && r.states[i + 1].hist.basis[id] == row.ids
            && r.states[i + 1].t.audits[id].address == row.address
  {
    RunInv(p, r, i);
    assert IsStep(p, r, i);
  }

  // After a claim for an address none of its audit rows is approved.
  lemma ClaimSpends(p: Policy, r: Run, i: nat, id: nat)
    requires p.Valid() && IsRun(p, r) && i < |r.steps| && id < |r.states[i + 1].t.audits|
    requires ClaimsFor(r.states[i], r.steps[i], r.states[i + 1].t.audits[id].address)
    ensures r.states[i + 1].t.audits[id].status != Approved
  {
    RunInv(p, r, i);
    assert IsStep(p, r, i);
    var s := r.states[i];
    assert s.t.audits[s.pc.ids[0]].status == Approved;
    if s.t.audits[id].status == Approved { assert BothApproved(s.t.audits[id], s.t.audits[s.pc.ids[0]]); }
  }

  // An approved row counted what was pending for its address when some step m
  // listed it, and nothing was claimed for the address since.
  lemma {:induction false} ApprovedWasListed(p: Policy, r: Run, i: nat, id: nat) returns (m: nat)
    requires p.Valid() && IsRun(p, r) && i < |r.states|
    requires id < |r.states[i].t.audits| && r.states[i].t.audits[id].status == Approved
    ensures id < |r.states[i].hist.basis|
    ensures ListedAt(r, m, i, r.states[i].t.audits[id].address, r.states[i].hist.basis[id])
  {
    RunInv(p, r, i);
    assert i > 0;
    RunStepEvolves(p, r, i - 1);
    HistoryKept(p, r, i - 1);
    if id < |r.states[i - 1].t.audits| {
      assert AuditEvolves(r.states[i - 1].t, r.states[i].t, id);
      m := ApprovedWasListed(p, r, i - 1, id);
      if ClaimsFor(r.states[i - 1], r.steps[i - 1], r.states[i].t.audits[id].address) { ClaimSpends(p, r, i - 1, id); }
    } else {
      ProposedFrom(p, r, i - 1, id);
      m := RowsWereListed(p, r, i - 1);
      assert ListedAt(r, m, i - 1, r.states[i - 1].pc.rows[0].address, r.states[i - 1].pc.rows[0].ids);
    }
  }

  // Every audit row, whatever became of it, counted exactly the payslips pending
  // for its address when it was listed.
  lemma {:induction false} BasisWasPending(p: Policy, r: Run, i: nat, id: nat) returns (m: nat)
    requires p.Valid() && IsRun(p, r) && i < |r.states| && id < |r.states[i].t.audits|
    ensures m < i && r.steps[m].ListEligible?
    ensures id < |r.states[i].hist.basis|
    ensures r.states[i].hist.basis[id] == PendingIds(r.states[m].t.payslips, r.states[i].t.audits[id].address)
  {
    RunInv(p, r, i);
    assert i > 0;
    RunStepEvolves(p, r, i - 1);
    HistoryKept(p, r, i - 1);
    if id < |r.states[i - 1].t.audits| {
      assert AuditEvolves(r.states[i - 1].t, r.states[i].t, id);
      m := BasisWasPending(p, r, i - 1, id);
    } else {
      ProposedFrom(p, r, i - 1, id);
      m := RowsWereListed(p, r, i - 1);
      assert ListedAt(r, m, i - 1, r.states[i - 1].pc.rows[0].address, r.states[i - 1].pc.rows[0].ids);
    }
  }

  // ---- from the listing to the claim -----------------------------------------

  // A payslip of the address becomes pending: issued, or returned by the operator.
  predicate Arrival(s: Sys, step: Step, a: Address) {
    || (step.AddPayslip? && s.pc.Collecting? && s.pc.shares != [] && s.pc.shares[0].address == a)
    || (step.ApiRetry? && exists k :: k in RetryIds(s.t, step.hash) && s.t.payslips[k].address == a)
  }

  lemma PendingIssued(s: Sys, a: Address)
    requires PayoutEnabled(s, AddPayslip)
    ensures var after := PendingIds(PayoutApply(s, AddPayslip).t.payslips, a);
            after == PendingIds(s.t.payslips, a) + if s.pc.shares[0].address == a then {|s.t.payslips|} else {}
  {
  }

  lemma PendingReturned(s: Sys, h: Hash, a: Address)
    requires PayoutEnabled(s, ApiRetry(h))
    ensures var before, after := PendingIds(s.t.payslips, a), PendingIds(PayoutApply(s, ApiRetry(h)).t.payslips, a);
            before <= after && (before == after <==> !Arrival(s, ApiRetry(h), a))
  {
    var before, after := PendingIds(s.t.payslips, a), PendingIds(PayoutApply(s, ApiRetry(h)).t.payslips, a);
    forall k | k in RetryIds(s.t, h) ensures (k in after <==> s.t.payslips[k].address == a) && k !in before {}
    forall k | k in after && k !in before ensures k in RetryIds(s.t, h) {}
  }

  lemma PendingOtherwise(s: Sys, step: Step, a: Address)
    requires !IsHeightStep(step) && PayoutEnabled(s, step) && !step.AddPayslip? && !step.ApiRetry?
    requires PayslipsOk(s.t) && !ClaimsFor(s, step, a)
    ensures PendingIds(PayoutApply(s, step).t.payslips, a) == PendingIds(s.t.payslips, a)
  {
    if step.Claim? { PersistPayslips(s.t, s.pc.ids[0], step.hash, step.head); }
    if step.MarkPayslips? {
      assert forall k :: 0 <= k < |s.t.payslips| ==> PayslipOk(s.t.transactions, s.t.payslips[k]);
    }
  }

  // Between claims the pending payslips of an address only grow, and they grow
  // exactly at an arrival.
  lemma PendingStep(p: Policy, r: Run, i: nat, a: Address)
    requires p.Valid() && IsRun(p, r) && i < |r.steps| && !ClaimsFor(r.states[i], r.steps[i], a)
    ensures var before, after := PendingIds(r.states[i].t.payslips, a), PendingIds(r.states[i + 1].t.payslips, a);
            before <= after && (before == after <==> !Arrival(r.states[i], r.steps[i], a))
  {
    RunInv(p, r, i);
    assert IsStep(p, r, i);
    var s, step := r.states[i], r.steps[i];
    if step.AddPayslip? {
      PendingIssued(s, a);
      assert |s.t.payslips| !in PendingIds(s.t.payslips, a);
    } else if step.ApiRetry? {
      PendingReturned(s, step.hash, a);
    } else if !IsHeightStep(step) {
      PendingOtherwise(s, step, a);
    }
  }

  lemma {:induction false} PendingGrows(p: Policy, r: Run, m: nat, c: nat, a: Address)
    requires p.Valid() && IsRun(p, r) && m <= c < |r.states| && NoClaim(r, m, c, a)
    ensures PendingIds(r.states[m].t.payslips, a) <= PendingIds(r.states[c].t.payslips, a)
    ensures PendingIds(r.states[m].t.payslips, a) == PendingIds(r.states[c].t.payslips, a) <==>
            forall k :: m <= k < c ==> !Arrival(r.states[k], r.steps[k], a)
    decreases c
  {
    if m < c {
      PendingGrows(p, r, m, c - 1, a);
      PendingStep(p, r, c - 1, a);
    }
  }

  // ---- the claimed payslips -----------------------------------------------------

  // The claim attaches what is pending for its address, no more and no less.
  lemma ClaimAttaches(p: Policy, r: Run, c: nat)
    requires p.Valid() && IsRun(p, r) && c < |r.steps| && r.steps[c].Claim?
    ensures var s, h := r.states[c], r.steps[c].hash;
            var s' := r.states[c + 1];
            && s.pc.Submitting? && s.pc.ids != [] && s.pc.ids[0] < |s.t.audits| && s.t.audits[s.pc.ids[0]].status == Approved
            && h !in s.t.transactions && h in s'.t.transactions
            && s'.t.transactions[h].address == s.t.audits[s.pc.ids[0]].address
            && h in s'.hist.auditOf && s'.hist.auditOf[h] == s.pc.ids[0] && s'.hist.basis == s.hist.basis
            && CarryIds(s'.t.payslips, h) == PendingIds(s.t.payslips, s'.t.transactions[h].address)
  {
    RunInv(p, r, c);
    assert IsStep(p, r, c);
    var s, step := r.states[c], r.steps[c];
    PersistPayslips(s.t, s.pc.ids[0], step.hash, step.head);
    assert forall k :: 0 <= k < |s.t.payslips| ==> PayslipOk(s.t.transactions, s.t.payslips[k]);
  }

  // Until its transaction fails nothing is attached to a hash or detached from it.
  lemma CarryStep(p: Policy, r: Run, i: nat, h: Hash)
    requires p.Valid() && IsRun(p, r) && i < |r.steps|
    requires h in r.states[i].t.transactions && Unfailed(r.states[i + 1].t.transactions, h)
    ensures CarryIds(r.states[i + 1].t.payslips, h) == CarryIds(r.states[i].t.payslips, h)
  {
    RunInv(p, r, i);
    RunStepEvolves(p, r, i);
    assert TxEvolves(r.states[i].t, r.states[i + 1].t, h);
    forall k | k in CarryIds(r.states[i].t.payslips, h) ensures k in CarryIds(r.states[i + 1].t.payslips, h) {
      CarriedSlipStep(p, r, i, k, h);
      assert PayslipOk(r.states[i].t.transactions, r.states[i].t.payslips[k]);
      assert SlipEvolves(r.states[i].t, r.states[i + 1].t, k);
    }
    forall k | k in CarryIds(r.states[i + 1].t.payslips, h) ensures k in CarryIds(r.states[i].t.payslips, h) {
      NothingAttached(p, r, i, h, k);
    }
  }

  lemma NothingAttached(p: Policy, r: Run, i: nat, h: Hash, k: nat)
    requires p.Valid() && IsRun(p, r) && i < |r.steps| && h in r.states[i].t.transactions
    requires k in CarryIds(r.states[i + 1].t.payslips, h)
    ensures k in CarryIds(r.states[i].t.payslips, h)
  {
    RunInv(p, r, i);
    assert IsStep(p, r, i);
    var s, step := r.states[i], r.steps[i];
    if step.Claim? { PersistPayslips(s.t, s.pc.ids[0], step.hash, step.head); }
  }

  // The listing m and the claim c a transaction comes from, and what it counted
  // and carries in terms of them.
  ghost predicate ComesFrom(r: Run, i: nat, h: Hash, m: nat, c: nat)
    requires |r.states| == |r.steps| + 1 && i < |r.states| && h in r.states[i].t.transactions
  {
    var a := r.states[i].t.transactions[h].address;
    && m < c < i && r.steps[c].Claim? && r.steps[c].hash == h
    && Counted(r.states[i], h) == PendingIds(r.states[m].t.payslips, a)
    && r.steps[m].ListEligible? && NoClaim(r, m, c, a)
    && (Unfailed(r.states[i].t.transactions, h) ==>
          CarryIds(r.states[i].t.payslips, h) == PendingIds(r.states[c].t.payslips, a))
  }

  lemma {:induction false} ClaimHistory(p: Policy, r: Run, i: nat, h: Hash) returns (m: nat, c: nat)
    requires p.Valid() && IsRun(p, r) && i < |r.states| && h in r.states[i].t.transactions
    ensures ComesFrom(r, i, h, m, c)
  {
    assert i > 0;
    if h in r.states[i - 1].t.transactions {
      m, c := ClaimHistory(p, r, i - 1, h);
      ComesFromKept(p, r, i - 1, h, m, c);
    } else {
      c := i - 1;
      OnlyClaimsRecord(p, r, c, h);
      ClaimAttaches(p, r, c);
      m := ApprovedWasListed(p, r, c, r.states[c].pc.ids[0]);
    }
  }

  lemma OnlyClaimsRecord(p: Policy, r: Run, i: nat, h: Hash)
    requires p.Valid() && IsRun(p, r) && i < |r.steps|
    requires h !in r.states[i].t.transactions && h in r.states[i + 1].t.transactions
    ensures r.steps[i].Claim? && r.steps[i].hash == h
  {
    assert IsStep(p, r, i);
  }

  lemma ComesFromKept(p: Policy, r: Run, i: nat, h: Hash, m: nat, c: nat)
    requires p.Valid() && IsRun(p, r) && i < |r.steps|
    requires h in r.states[i].t.transactions && ComesFrom(r, i, h, m, c)
    ensures h in r.states[i + 1].t.transactions && ComesFrom(r, i + 1, h, m, c)
  {
    RunInv(p, r, i);
    assert ClaimOk(r.states[i].t, r.states[i].hist, h);
    RunStepEvolves(p, r, i);
    assert TxEvolves(r.states[i].t, r.states[i + 1].t, h);
    HistoryKept(p, r, i);
    if Unfailed(r.states[i + 1].t.transactions, h) { CarryStep(p, r, i, h); }
  }

  // Every transaction not failed comes from a step m that listed its address and
  // a later step c that claimed it.  Its amount is the sum of the payslips pending
  // at m, it carries those pending at c, and so it falls short by those that
  // arrived in between: it pays in full if and only if none did.
  lemma PaysInFullExactly(p: Policy, r: Run, i: nat, h: Hash) returns (m: nat, c: nat)
    requires p.Valid() && IsRun(p, r) && i < |r.states| && Unfailed(r.states[i].t.transactions, h)
    ensures m < c < i && r.steps[m].ListEligible? && r.steps[c].Claim? && r.steps[c].hash == h
    ensures var tx, ps := r.states[i].t.transactions[h], r.states[i].t.payslips;
            var listed, claimed := PendingIds(r.states[m].t.payslips, tx.address), PendingIds(r.states[c].t.payslips, tx.address);
            && listed <= claimed && CarryIds(ps, h) == claimed
            && tx.amount == SumOf(ps, listed)
            && SumOf(ps, claimed) == tx.amount + SumOf(ps, claimed - listed)
            && (tx.amount == SumOf(ps, claimed) <==>
                  forall k :: m <= k < c ==> !Arrival(r.states[k], r.steps[k], tx.address))
  {
    m, c := ClaimHistory(p, r, i, h);
    var tx, ps := r.states[i].t.transactions[h], r.states[i].t.payslips;
    PaysExactlyWhatItCounted(p, r, i, h);
    PendingGrows(p, r, m, c, tx.address);
    SumSubset(PayslipAmounts(ps), PendingIds(r.states[m].t.payslips, tx.address), CarryIds(ps, h));
  }
}
