// What holds over every run of the validator-action machine, for every
// interleaving of API requests, daemon passes and daemon stops.
module ValidatorActionRuns {
  import opened Prelude
  import opened ValidatorActions

  // ---- the invariant ----------------------------------------------------------

  // One row, the signatures made for it, whether it was ever cancelled.
  predicate RowOk(r: Row, signatures: nat, cancelled: bool) {
    && signatures <= 1
    && (signatures > 0 ==> Requestable(r.action) && Eff(r) in {Processing, Submitted, Confirmed, Failed})
    && (cancelled ==> signatures == 0 && r.state.Some? && Eff(r) in {Cancelled, Failed})
    && (cancelled && Requestable(r.action) ==> Eff(r) == Cancelled)
    && (r.state == Some(Submitted) ==> signatures == 1)
    && (r.state == Some(Cancelled) ==> cancelled)
    && (r.outcome == Pending ==> Eff(r) in {Submitted, Confirmed, Failed})
  }

  predicate Busy(pc: Daemon, id: nat) {
    (pc.Claimed? || pc.Signed?) && pc.id == id
  }

  ghost predicate WorkOk(s: Sys)
    requires |s.hist.signatures| == |s.rows|
  {
    match s.pc
    case Requests(ids) => ListOk(s.rows, ids)
    case Claimed(id, ids) => ListOk(s.rows, ids) && id !in ids && HeldOk(s.rows, id) && s.hist.signatures[id] == 0
    case Signed(id, ids) => ListOk(s.rows, ids) && id !in ids && HeldOk(s.rows, id) && s.hist.signatures[id] == 1
    case Checking(ids) => Distinct(ids) && forall id :: id in ids ==> id < |s.rows|
    case Reactivating(n) => 1 <= n <= 3 && !HasPending(s.rows, Reactivate)
    case Reactivated(_, _) => !HasPending(s.rows, Reactivate)
    case Resting => true
  }

  predicate HeldOk(rows: seq<Row>, id: nat) {
    id < |rows| && rows[id].state == Some(Processing) && Requestable(rows[id].action)
  }

  // A listed row is still requested unless it was cancelled; the daemon itself
  // works the list one row at a time.
  ghost predicate ListOk(rows: seq<Row>, ids: seq<nat>) {
    && Distinct(ids)
    && forall id :: id in ids ==> id < |rows| && Eff(rows[id]) in {Requested, Cancelled}
  }

  ghost predicate Inv(s: Sys) {
    && |s.hist.signatures| == |s.rows|
    && (forall id :: 0 <= id < |s.rows| ==> RowOk(s.rows[id], s.hist.signatures[id], id in s.hist.cancelled))
    && (forall id :: id in s.hist.cancelled ==> id < |s.rows|)
    && OneOutstanding(s.rows) && OneReactivation(s.rows)
    && WorkOk(s)
  }

  // ---- one step, row by row -----------------------------------------------------

  // No row is dropped or changes its action, and each moves along an edge.
  ghost predicate Moves(rows: seq<Row>, rows': seq<Row>) {
    && |rows| <= |rows'|
    && forall id :: 0 <= id < |rows| ==>
         rows'[id].action == rows[id].action
         && (rows'[id] == rows[id] || Edge(Eff(rows[id]), Eff(rows'[id])))
  }

  lemma StepMovesAlongEdges(s: Sys, step: Step)
    requires Inv(s) && Enabled(s, step)
    ensures Moves(s.rows, Apply(s, step).rows)
  {
    Heads(s);
  }

  // The rows the daemon is at.
  lemma Heads(s: Sys)
    requires Inv(s)
    ensures s.pc.Requests? && s.pc.ids != [] ==>
              s.pc.ids[0] in s.pc.ids && s.pc.ids[0] < |s.rows| && Eff(s.rows[s.pc.ids[0]]) in {Requested, Cancelled}
  {
    if s.pc.Requests? && s.pc.ids != [] { assert s.pc.ids[0] in s.pc.ids; }
  }

  // ---- the invariant is kept ----------------------------------------------------

  // What every update of one row does to the rest of the table.
  predicate Tame(x: Row, y: Row) {
    && y.action == x.action
    && (OutstandingGuard(y) ==> OutstandingGuard(x))
    && (PendingReactivation(y) ==> PendingReactivation(x))
  }

  lemma UpdateKeepsUnique(rows: seq<Row>, id: nat, r: Row)
    requires id < |rows| && Tame(rows[id], r) && OneOutstanding(rows) && OneReactivation(rows)
    ensures OneOutstanding(rows[id := r]) && OneReactivation(rows[id := r])
    ensures !HasPending(rows, Reactivate) ==> !HasPending(rows[id := r], Reactivate)
  {
    var rows' := rows[id := r];
    forall i, j | 0 <= i < |rows| && 0 <= j < |rows| && SameOutstanding(rows'[i], rows'[j]) ensures i == j {
      assert SameOutstanding(rows[i], rows[j]);
    }
  }

  lemma InsertKeepsUnique(rows: seq<Row>, r: Row)
    requires OneOutstanding(rows) && OneReactivation(rows)
    requires Requestable(r.action) ==> !HasOutstanding(rows, r.action)
    requires PendingReactivation(r) ==> !HasPending(rows, Reactivate)
    ensures OneOutstanding(rows + [r]) && OneReactivation(rows + [r])
  {
    assert forall i :: 0 <= i < |rows| ==> (rows + [r])[i] == rows[i];
  }

  lemma DaemonStepKeepsInv(s: Sys, step: Step)
    requires Inv(s) && Enabled(s, step)
    requires step.Refuse? || step.Claim? || step.Unclaim? || step.FailAction? || step.SubmitAction? || step.CompleteAction?
    ensures Inv(Apply(s, step))
  {
    Heads(s);
    TailOf(Head(s.pc));
    var s' := Apply(s, step);
    var id := if step.Refuse? || step.Claim? || step.CompleteAction? then s.pc.ids[0] else s.pc.id;
    UpdateKeepsUnique(s.rows, id, s'.rows[id]);
  }

  lemma OtherStepKeepsInv(s: Sys, step: Step)
    requires Inv(s) && Enabled(s, step)
    requires !(step.Refuse? || step.Claim? || step.Unclaim? || step.FailAction? || step.SubmitAction? || step.CompleteAction?)
    requires !step.ApiQueue? && !step.ApiCancel? && !step.InsertReactivation? && !step.InsertBootstrap?
    ensures Inv(Apply(s, step))
  {
    Heads(s);
    TailOf(Head(s.pc));
  }

  function Head(pc: Daemon): seq<nat> {
    if pc.Requests? || pc.Claimed? || pc.Signed? || pc.Checking? then pc.ids else []
  }

  lemma TailOf(ids: seq<nat>)
    requires Distinct(ids)
    ensures ids != [] ==> ids[0] !in ids[1..] && Distinct(ids[1..]) && forall x :: x in ids[1..] ==> x in ids
  {
  }

  lemma ApiCancelKeepsInv(s: Sys, id: nat)
    requires Inv(s) && Enabled(s, ApiCancel(id))
    ensures Inv(Apply(s, ApiCancel(id)))
  {
    UpdateKeepsUnique(s.rows, id, Cancel(s.rows[id]));
  }

  lemma InsertKeepsInv(s: Sys, step: Step)
    requires Inv(s) && Enabled(s, step)
    requires step.ApiQueue? || step.InsertReactivation? || step.InsertBootstrap?
    ensures Inv(Apply(s, step))
  {
    var r := if step.ApiQueue? then NewRequest(step.action)
             else if step.InsertReactivation? then NewAttempt(Reactivate, s.pc.hash, s.pc.sent)
             else NewAttempt(step.action, step.bootHash, step.bootOk);
    InsertKeepsUnique(s.rows, r);
  }

  lemma StepKeepsInv(s: Sys, step: Step)
    requires Inv(s) && Enabled(s, step)
    ensures Inv(Apply(s, step))
  {
    match step
    case Refuse | Claim | Unclaim | FailAction | SubmitAction(_) | CompleteAction(_) => DaemonStepKeepsInv(s, step);
    case ApiCancel(id) => ApiCancelKeepsInv(s, id);
    case ApiQueue(_) | InsertReactivation | InsertBootstrap(_, _, _) => InsertKeepsInv(s, step);
    case _ => OtherStepKeepsInv(s, step);
  }

  lemma {:induction false} RunInv(r: Run, i: nat)
    requires IsRun(r) && i < |r.states|
    ensures Inv(r.states[i])
  {
    if i > 0 {
      RunInv(r, i - 1);
      assert IsStep(r, i - 1);
      StepKeepsInv(r.states[i - 1], r.steps[i - 1]);
    }
  }

  // ---- at most one signature -----------------------------------------------------

  // A request is signed at most once, never once it is cancelled, and always
  // before it is submitted.
  lemma SignedAtMostOnce(r: Run, i: nat, id: nat)
    requires IsRun(r) && i < |r.states| && id < |r.states[i].rows|
    ensures var s := r.states[i];
            && |s.hist.signatures| == |s.rows| && s.hist.signatures[id] <= 1
            && (id in s.hist.cancelled ==> s.hist.signatures[id] == 0)
            && (s.rows[id].state == Some(Submitted) ==> s.hist.signatures[id] == 1)
            && (s.hist.signatures[id] == 1 ==> Requestable(s.rows[id].action))
            && (s.rows[id].state == Some(Cancelled) ==> id in s.hist.cancelled)
  {
    RunInv(r, i);
  }

  // At most one row per requestable action is unfinished.
  lemma OneUnfinishedRequest(r: Run, i: nat, x: nat, y: nat)
    requires IsRun(r) && i < |r.states| && x < |r.states[i].rows| && y < |r.states[i].rows|
    requires var rows := r.states[i].rows;
             && rows[x].action == rows[y].action && Requestable(rows[x].action)
             && Eff(rows[x]) in {Requested, Processing, Submitted} && Eff(rows[y]) in {Requested, Processing, Submitted}
    ensures x == y
  {
    RunInv(r, i);
    assert SameOutstanding(r.states[i].rows[x], r.states[i].rows[y]);
  }

  // ---- what is final ---------------------------------------------------------------

  lemma {:induction false} RunMoves(r: Run, i: nat, j: nat, id: nat)
    requires IsRun(r) && i <= j < |r.states| && id < |r.states[i].rows|
    ensures id < |r.states[j].rows| && r.states[j].rows[id].action == r.states[i].rows[id].action
    ensures Eff(r.states[i].rows[id]) in {Confirmed, Failed} ==> r.states[j].rows[id] == r.states[i].rows[id]
    ensures id in r.states[i].hist.cancelled ==> id in r.states[j].hist.cancelled
    decreases j
  {
    if i < j {
      RunMoves(r, i, j - 1, id);
      RunInv(r, j - 1);
      assert IsStep(r, j - 1);
      StepMovesAlongEdges(r.states[j - 1], r.steps[j - 1]);
    }
  }

  // A confirmed or failed row never changes again.  A cancelled one does not
  // either if its action is one the API queues; one that it does not queue can
  // only be marked failed, by a daemon that had listed it before.
  lemma FinalForever(r: Run, i: nat, j: nat, id: nat)
    requires IsRun(r) && i <= j < |r.states| && id < |r.states[i].rows|
    ensures id < |r.states[j].rows| == |r.states[j].hist.signatures|
    ensures var x, y := r.states[i].rows[id], r.states[j].rows[id];
            && y.action == x.action
            && (Eff(x) in {Confirmed, Failed} ==> y == x)
            && (x.state == Some(Cancelled) ==>
                  && Eff(y) in {Cancelled, Failed} && r.states[j].hist.signatures[id] == 0
                  && (Requestable(x.action) ==> Eff(y) == Cancelled))
  {
    RunMoves(r, i, j, id);
    RunInv(r, i);
    RunInv(r, j);
  }

  // ---- a stop while a request is held ------------------------------------------------

  // The row is processing and the daemon is not at it.
  predicate Stranded(s: Sys, id: nat) {
    id < |s.rows| && s.rows[id].state == Some(Processing) && Requestable(s.rows[id].action) && !Busy(s.pc, id)
  }

  lemma StepKeepsStranded(s: Sys, step: Step, id: nat)
    requires Inv(s) && Enabled(s, step) && Stranded(s, id)
    ensures Stranded(Apply(s, step), id)
    ensures step.ApiQueue? ==> step.action != s.rows[id].action
  {
    Heads(s);
    if s.pc.Claimed? || s.pc.Signed? { assert HeldOk(s.rows, s.pc.id); }
    assert OutstandingGuard(s.rows[id]);
  }

  // A row is stranded by a stop while the daemon is at it, and by nothing else.
  lemma StrandedByStopping(s: Sys, step: Step, id: nat)
    requires Inv(s) && Enabled(s, step)
    ensures Stranded(Apply(s, step), id) <==> Stranded(s, id) || (step.Stop? && Busy(s.pc, id))
  {
    if Stranded(s, id) { StepKeepsStranded(s, step, id); }
    if s.pc.Claimed? || s.pc.Signed? { assert HeldOk(s.rows, s.pc.id); }
    Heads(s);
  }

  // So over a run: a row is stranded exactly if some earlier step stopped the
  // daemon between claiming it and recording its outcome.
  lemma {:induction false} StrandedExactly(r: Run, j: nat, id: nat)
    requires IsRun(r) && j < |r.states|
    ensures Stranded(r.states[j], id) <==> exists i :: 0 <= i < j && r.steps[i].Stop? && Busy(r.states[i].pc, id)
  {
    if j > 0 {
      StrandedExactly(r, j - 1, id);
      RunInv(r, j - 1);
      assert IsStep(r, j - 1);
      StrandedByStopping(r.states[j - 1], r.steps[j - 1], id);
    }
  }

  // Once the daemon stops between claiming a request and recording its outcome,
  // the row stays processing in every later state, and its action can never be
  // requested again.
  lemma {:induction false} StrandedForever(r: Run, i: nat, j: nat, id: nat)
    requires IsRun(r) && i <= j < |r.states| && Stranded(r.states[i], id)
    ensures Stranded(r.states[j], id)
    ensures !Enabled(r.states[j], ApiQueue(r.states[i].rows[id].action))
    decreases j
  {
    RunMoves(r, i, j, id);
    if i < j {
      StrandedForever(r, i, j - 1, id);
      RunInv(r, j - 1);
      assert IsStep(r, j - 1);
      StepKeepsStranded(r.states[j - 1], r.steps[j - 1], id);
    }
    assert OutstandingGuard(r.states[j].rows[id]);
  }

  // ---- reactivation ----------------------------------------------------------------------

  lemma StepKeepsPending(s: Sys, step: Step)
    requires Inv(s) && Enabled(s, step) && HasPending(s.rows, Reactivate)
    ensures HasPending(Apply(s, step).rows, Reactivate)
    ensures Apply(s, step).hist.reactivations == s.hist.reactivations
  {
    var id :| 0 <= id < |s.rows| && PendingReactivation(s.rows[id]);
    Heads(s);
    var s' := Apply(s, step);
    assert RowOk(s.rows[id], s.hist.signatures[id], id in s.hist.cancelled);
    assert PendingReactivation(s'.rows[id]);
  }

  // After one recorded reactivation no other is ever sent, confirmed or not: the
  // outcome the guard reads is never cleared.  At most one such row exists.
  lemma {:induction false} ReactivationNeverRearms(r: Run, i: nat, j: nat)
    requires IsRun(r) && i <= j < |r.states| && HasPending(r.states[i].rows, Reactivate)
    ensures HasPending(r.states[j].rows, Reactivate)
    ensures r.states[j].hist.reactivations == r.states[i].hist.reactivations
    ensures OneReactivation(r.states[j].rows)
    decreases j
  {
    RunInv(r, j);
    if i < j {
      ReactivationNeverRearms(r, i, j - 1);
      RunInv(r, j - 1);
      assert IsStep(r, j - 1);
      StepKeepsPending(r.states[j - 1], r.steps[j - 1]);
    }
  }

  // The guard is armed only before that, and it is off as soon as the row is in.
  lemma SentReactivationDisarms(s: Sys)
    requires Inv(s) && s.pc.Reactivated? && s.pc.sent
    ensures !HasPending(s.rows, Reactivate)
    ensures HasPending(Apply(s, InsertReactivation).rows, Reactivate)
  {
    var s' := Apply(s, InsertReactivation);
    assert PendingReactivation(s'.rows[|s.rows|]);
  }

  // The reactivation was sent and its row is not in yet.
  predicate Unrecorded(pc: Daemon) {
    pc.Reactivated? && pc.sent
  }

  // How often the daemon stopped at that point.
  function LostRecords(r: Run, i: nat): nat
    requires |r.states| == |r.steps| + 1 && i <= |r.steps|
  {
    if i == 0 then 0
    else LostRecords(r, i - 1) + if r.steps[i - 1].Stop? && Unrecorded(r.states[i - 1].pc) then 1 else 0
  }

  // A reactivation is sent once, and once more for each time the daemon stopped
  // before recording one: never more, and exactly so while none is recorded.
  lemma {:induction false} ReactivationsSent(r: Run, i: nat)
    requires IsRun(r) && i < |r.states|
    ensures var s, lost := r.states[i], LostRecords(r, i);
            && lost <= s.hist.reactivations <= lost + 1
            && (Unrecorded(s.pc) ==> s.hist.reactivations == lost + 1)
            && (!Unrecorded(s.pc) && !HasPending(s.rows, Reactivate) ==> s.hist.reactivations == lost)
  {
    if i > 0 {
      ReactivationsSent(r, i - 1);
      RunInv(r, i - 1);
      assert IsStep(r, i - 1);
      var s, step := r.states[i - 1], r.steps[i - 1];
      if HasPending(s.rows, Reactivate) { StepKeepsPending(s, step); }
      if step.InsertReactivation? && s.pc.sent { SentReactivationDisarms(s); }
    }
  }
}
