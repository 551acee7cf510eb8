// The validator_actions table as an object, and the daemon's lifecycle loop over
// it (lifecycle.go).  Each statement updates the rows in place; a ghost record of
// the run ties every method to the machine of ValidatorActions.
module ActionQueue {
  import opened Prelude
  import opened ValidatorActions
  import opened ValidatorActionRuns
  import opened Permutations

  ghost predicate Extends(r: Run, r': Run) {
    r.states <= r'.states && r.steps <= r'.steps
  }

  // What the API can do to a row: cancel a request.
  predicate ApiMoved(before: Row, after: Row) {
    after == before || (RequestedGuard(before) && after == Cancel(before))
  }

  // Every row but those named has seen only the API; rows added since are
  // requests, cancelled or not.
  ghost predicate Drift(rows: seq<Row>, rows': seq<Row>, worked: set<nat>) {
    && |rows| <= |rows'|
    && (forall id :: 0 <= id < |rows| && id !in worked ==> ApiMoved(rows[id], rows'[id]))
    && forall id :: |rows| <= id < |rows'| ==> Eff(rows'[id]) in {Requested, Cancelled}
  }

  // sql.NullString{hash, hash != ""}
  function HashColumn(hash: string): Option<string> {
    if hash == "" then None else Some(hash)
  }

  // What becomes of an action the daemon has claimed.
  datatype Attempt =
    | ShutDown                    // before it starts
    | Fails(signed: bool)         // it returns an error, before or after signing
    | Interrupted(signed: bool)   // a shutdown on the way, or a failed write of its result
    | Sent(hash: string)

  // The row it leaves, and whether the pass goes on.
  predicate Leaves(attempt: Attempt, claimed: Row, after: Row, goesOn: bool) {
    match attempt
    case ShutDown => after == claimed.(state := Some(Requested)) && !goesOn
    case Fails(_) => after == claimed.(state := Some(Failed)) && goesOn
    case Interrupted(_) => after == claimed && !goesOn
    case Sent(hash) => after == claimed.(state := Some(Submitted), outcome := Pending, txHash := HashColumn(hash)) && goesOn
  }

  // What a request listed by a pass can have become after its turn.
  predicate RequestTurn(attempt: Attempt, listed: Row, after: Row, goesOn: bool) {
    if !Requestable(listed.action) then
      after.state == Some(Failed) && goesOn
    else
      || (after.state == Some(Cancelled) && goesOn)
      || (Eff(listed) == Requested && Leaves(attempt, listed.(state := Some(Processing)), after, goesOn))
  }

  // What the node says about a transaction; None is a failed call, or not found.
  datatype Answer = Answer(final: bool, succeeded: bool)

  // A submitted row after it was checked: confirmed if and only if its transaction
  // is final and succeeded, failed if and only if final and not, else as it was.
  predicate AsAnswered(check: string -> Option<Answer>, before: Row, after: Row) {
    var answer := if before.txHash.Some? && before.txHash.value != "" then check(before.txHash.value) else None;
    && after == before.(state := after.state)
    && (after.state == Some(Confirmed) <==> answer == Some(Answer(true, true)))
    && (after.state == Some(Failed) <==> answer == Some(Answer(true, false)))
    && (after.state != Some(Confirmed) && after.state != Some(Failed) ==> after == before)
  }

  // The newest submitted rows, at most 100 of them.
  ghost predicate Newest(rows: seq<Row>, ids: seq<nat>) {
    && Distinct(ids) && |ids| <= 100
    && (forall id :: id in ids ==> id < |rows| && Eff(rows[id]) == Submitted)
    && (forall id, other :: id in ids && 0 <= other < |rows| && Eff(rows[other]) == Submitted && other !in ids ==>
          |ids| == 100 && other < id)
    && (|ids| < 100 ==> forall id :: 0 <= id < |rows| && Eff(rows[id]) == Submitted ==> id in ids)
  }

  datatype QueueError = Unsupported | Duplicate

  class ActionTable {
    var rows: seq<Row>

    ghost var pc: Daemon
    ghost var hist: History
    ghost var run: Run

    ghost function S(): Sys
      reads this
    {
      Sys(rows, pc, hist)
    }

    ghost predicate Valid()
      reads this
    {
      IsRun(run) && run.states[|run.states| - 1] == S()
    }

    constructor (legacy: seq<Row>)
      requires Legacy(legacy)
      ensures Valid() && rows == legacy && pc == Resting
    {
      rows := legacy;
      pc, hist, run := Resting, Start(legacy).hist, Run([Start(legacy)], []);
    }

    ghost method Record(before: Sys, step: Step)
      requires IsRun(run) && run.states[|run.states| - 1] == before
      requires Enabled(before, step) && S() == Apply(before, step)
      modifies this`run
      ensures Valid() && Extends(old(run), run)
    {
      var r := run;
      run := Run(run.states + [S()], run.steps + [step]);
      forall i | 0 <= i < |run.steps| ensures IsStep(run, i) {
        if i < |r.steps| { assert IsStep(r, i); }
      }
    }

    lemma Known()
      requires Valid()
      ensures Inv(S())
    {
      RunInv(run, |run.states| - 1);
    }

    // The row the daemon is about to work on is there.
    lemma HeadListed()
      requires Valid() && pc.Requests? && pc.ids != []
      ensures pc.ids[0] < |rows| && Eff(rows[pc.ids[0]]) in {Requested, Cancelled}
    {
      Known();
      Heads(S());
    }

    // ---- the API ---------------------------------------------------------------

    // queueValidatorAction: the insert and its guard are one statement.
    method QueueValidatorAction(action: Action) returns (r: Result<nat, QueueError>)
      requires Valid()
      modifies this
      ensures Valid() && Extends(old(run), run) && pc == old(pc)
      ensures if !Requestable(action) then r == Failure(Unsupported) && S() == old(S())
              else if HasOutstanding(old(rows), action) then r == Failure(Duplicate) && S() == old(S())
              else && r == Success(|old(rows)|) && rows == old(rows) + [Row(action, Some(Requested), Requested, None)]
                   && hist == old(hist).(signatures := old(hist).signatures + [0])
      ensures r.Success? <==>
                && (action == Deactivate || action == Retire)
                && forall id :: 0 <= id < |old(rows)| && old(rows)[id].action == action ==>
                     Eff(old(rows)[id]) !in {Requested, Processing, Submitted}
    {
      ghost var before := S();
      if !Requestable(action) { return Failure(Unsupported); }
      if HasOutstanding(rows, action) { return Failure(Duplicate); }
      r := Success(|rows|);
      rows := rows + [NewRequest(action)];
      hist := hist.(signatures := hist.signatures + [0]);
      Record(before, ApiQueue(action));
    }

    // The cancel branch: it fails, and writes nothing, unless the row is requested.
    method CancelRequested(id: nat) returns (ok: bool)
      requires Valid()
      modifies this
      ensures Valid() && Extends(old(run), run) && pc == old(pc)
      ensures ok <==> id < |old(rows)| && Eff(old(rows)[id]) == Requested
      ensures if ok then rows == old(rows)[id := old(rows)[id].(state := Some(Cancelled), outcome := Cancelled)]
                         && hist == old(hist).(cancelled := old(hist).cancelled + {id})
              else S() == old(S())
    {
      ghost var before := S();
      ok := id < |rows| && RequestedGuard(rows[id]);
      if ok {
        rows := rows[id := Cancel(rows[id])];
        hist := hist.(cancelled := hist.cancelled + {id});
        Record(before, ApiCancel(id));
      }
    }

    method Interfere()
      requires Valid()
      modifies this
      ensures Valid() && Extends(old(run), run) && pc == old(pc)
      ensures hist.reactivations == old(hist).reactivations
      ensures Drift(old(rows), rows, {})
    {
      var requests: nat := *;
      while requests > 0
        invariant Valid() && Extends(old(run), run) && pc == old(pc)
        invariant hist.reactivations == old(hist).reactivations
        invariant Drift(old(rows), rows, {})
      {
        var queue: bool, action: Action, id: nat := *, *, *;
        if queue {
          var queued := QueueValidatorAction(action);
        } else {
          var cancelled := CancelRequested(id);
        }
        requests := requests - 1;
      }
    }

    // ---- the daemon's statements ---------------------------------------------------

    method GetRequested() returns (ids: seq<nat>)
      requires Valid() && pc == Resting
      modifies this`pc, this`run
      ensures Valid() && Extends(old(run), run) && hist == old(hist) && pc == Requests(ids)
      ensures Distinct(ids) && forall id :: id in ids <==> 0 <= id < |rows| && Eff(rows[id]) == Requested
    {
      ghost var before := S();
      ids := [];
      for n := 0 to |rows|
        invariant Distinct(ids)
        invariant forall id :: id in ids <==> 0 <= id < n && RequestedGuard(rows[id])
      {
        if RequestedGuard(rows[n]) { ids := ids + [n]; }
      }
      pc := Requests(ids);
      Record(before, ListRequests(ids));
    }

    // UpdateValidatorActionState to failed, for a listed row that may not be signed.
    method RefuseRequest(id: nat)
      requires Valid() && pc.Requests? && pc.ids != [] && pc.ids[0] == id
      requires id < |rows| && !Requestable(rows[id].action)
      modifies this
      ensures Valid() && Extends(old(run), run) && hist == old(hist) && pc == Requests(old(pc.ids)[1..])
      ensures rows == old(rows)[id := old(rows)[id].(state := Some(Failed))]
    {
      ghost var before := S();
      rows := rows[id := Fail(rows[id])];
      pc := Requests(pc.ids[1..]);
      Record(before, Refuse);
    }

    // The claim: lost if the row was cancelled since it was listed.
    method ClaimRequest(id: nat) returns (won: bool)
      requires Valid() && pc.Requests? && pc.ids != [] && pc.ids[0] == id
      requires id < |rows| && Requestable(rows[id].action)
      modifies this
      ensures Valid() && Extends(old(run), run) && hist == old(hist)
      ensures won <==> Eff(old(rows)[id]) == Requested
      ensures pc == if won then Claimed(id, old(pc.ids)[1..]) else Requests(old(pc.ids)[1..])
      ensures rows == if won then old(rows)[id := old(rows)[id].(state := Some(Processing))] else old(rows)
    {
      ghost var before := S();
      won := RequestedGuard(rows[id]);
      if won {
        rows := rows[id := MarkProcessing(rows[id])];
        pc := Claimed(id, pc.ids[1..]);
        Record(before, Claim);
      } else {
        pc := Requests(pc.ids[1..]);
        Record(before, Lose);
      }
    }

    // ReleaseValidatorActionProcessing, and the pass ends.
    method ReleaseClaim(id: nat)
      requires Valid() && pc.Claimed? && pc.id == id && id < |rows| && Eff(rows[id]) == Processing
      modifies this
      ensures Valid() && Extends(old(run), run) && hist == old(hist) && pc == Resting
      ensures rows == old(rows)[id := old(rows)[id].(state := Some(Requested))]
    {
      ghost var before := S();
      rows := rows[id := Release(rows[id])];
      pc := Resting;
      Record(before, Unclaim);
    }

    ghost method CallSigner()
      requires Valid() && pc.Claimed?
      modifies this`pc, this`hist, this`run
      ensures Valid() && Extends(old(run), run) && pc == Signed(old(pc.id), old(pc.ids))
      ensures old(pc.id < |hist.signatures|)
      ensures hist == old(hist).(signatures := old(hist).signatures[old(pc.id) := old(hist).signatures[old(pc.id)] + 1])
    {
      Known();
      var before := S();
      hist := hist.(signatures := hist.signatures[pc.id := hist.signatures[pc.id] + 1]);
      pc := Signed(pc.id, pc.ids);
      Record(before, Sign);
    }

    // UpdateValidatorActionState to failed, for the row being worked on.
    method FailClaimed(id: nat)
      requires Valid() && (pc.Claimed? || pc.Signed?) && pc.id == id && id < |rows|
      modifies this
      ensures Valid() && Extends(old(run), run) && hist == old(hist) && pc == Requests(old(pc.ids))
      ensures rows == old(rows)[id := old(rows)[id].(state := Some(Failed))]
    {
      ghost var before := S();
      rows := rows[id := Fail(rows[id])];
      pc := Requests(pc.ids);
      Record(before, FailAction);
    }

    method SubmitClaimed(id: nat, hash: string)
      requires Valid() && pc.Signed? && pc.id == id && id < |rows| && Eff(rows[id]) == Processing
      modifies this
      ensures Valid() && Extends(old(run), run) && hist == old(hist) && pc == Requests(old(pc.ids))
      ensures rows == old(rows)[id := old(rows)[id].(state := Some(Submitted), outcome := Pending, txHash := HashColumn(hash))]
    {
      ghost var before := S();
      rows := rows[id := ValidatorActions.Submit(rows[id], hash)];
      pc := Requests(pc.ids);
      Record(before, SubmitAction(hash));
    }

    ghost method Rest()
      requires Valid()
      modifies this`pc, this`run
      ensures Valid() && Extends(old(run), run) && hist == old(hist) && pc == Resting
    {
      var before := S();
      pc := Resting;
      Record(before, Stop);
    }

    // The newest submitted rows, 100 at most.
    method ListSubmittedActions() returns (ids: seq<nat>)
      requires Valid() && pc == Requests([])
      modifies this`pc, this`run
      ensures Valid() && Extends(old(run), run) && hist == old(hist) && pc == Checking(ids)
      ensures Newest(rows, ids)
    {
      ghost var before := S();
      ids := [];
      var n: nat := |rows|;
      while n > 0 && |ids| < 100
        invariant n <= |rows| && |ids| <= 100 && Distinct(ids)
        invariant forall id :: id in ids <==> n <= id < |rows| && Eff(rows[id]) == Submitted
      {
        n := n - 1;
        if Eff(rows[n]) == Submitted { ids := ids + [n]; }
      }
      pc := Checking(ids);
      Record(before, ListSubmitted(ids));
    }

    method CompleteSubmitted(id: nat, final: Word)
      requires Valid() && pc.Checking? && pc.ids != [] && pc.ids[0] == id && id < |rows|
      requires rows[id].txHash.Some? && (final == Confirmed || final == Failed)
      modifies this
      ensures Valid() && Extends(old(run), run) && hist == old(hist) && pc == Checking(old(pc.ids)[1..])
      ensures rows == if Eff(old(rows)[id]) == Submitted
                      then old(rows)[id := old(rows)[id].(state := Some(final))] else old(rows)
    {
      ghost var before := S();
      pc := Checking(pc.ids[1..]);
      if SubmittedGuard(rows[id]) {
        rows := rows[id := Complete(rows[id], final)];
        Record(before, CompleteAction(final));
      } else {
        Record(before, SkipCheck);
      }
    }

    ghost method PassOverCheck()
      requires Valid() && pc.Checking? && pc.ids != []
      modifies this`pc, this`run
      ensures Valid() && Extends(old(run), run) && hist == old(hist) && pc == Checking(old(pc.ids)[1..])
    {
      var before := S();
      pc := Checking(pc.ids[1..]);
      Record(before, SkipCheck);
    }

    // ---- reactivation ---------------------------------------------------------------

    // One of runAutoReactivate's three reads; true lets it go on.
    method PassesCheck(n: nat) returns (ok: bool)
      requires Valid() && (pc.Resting? || pc.Reactivating?) && ChecksPassed(pc) == n < 3
      modifies this`pc, this`run
      ensures Valid() && Extends(old(run), run) && hist == old(hist)
      ensures ok <==> ReactivationCheck(rows, n)
      ensures pc == if ok then Reactivating(n + 1) else Resting
    {
      ghost var before := S();
      ok := ReactivationCheck(rows, n);
      if ok {
        pc := Reactivating(n + 1);
        Record(before, CheckReactivation);
      } else {
        Rest();
      }
    }

    ghost method NoteReactivation(hash: string, sent: bool)
      requires Valid() && pc == Reactivating(3)
      modifies this`pc, this`hist, this`run
      ensures Valid() && Extends(old(run), run) && pc == Reactivated(hash, sent)
      ensures hist == old(hist).(reactivations := old(hist).reactivations + if sent then 1 else 0)
    {
      var before := S();
      pc := Reactivated(hash, sent);
      hist := hist.(reactivations := hist.reactivations + if sent then 1 else 0);
      Record(before, SendReactivation(hash, sent));
    }

    method InsertReactivationRow(hash: string, sent: bool)
      requires Valid() && pc == Reactivated(hash, sent)
      modifies this
      ensures Valid() && Extends(old(run), run) && pc == Resting
      ensures rows == old(rows) + [Row(Reactivate, None, if sent then Pending else Failed, HashColumn(hash))]
      ensures hist == old(hist).(signatures := old(hist).signatures + [0])
    {
      ghost var before := S();
      rows := rows + [NewAttempt(Reactivate, hash, sent)];
      pc := Resting;
      hist := hist.(signatures := hist.signatures + [0]);
      Record(before, InsertReactivation);
    }
  }

  lemma DriftOn(a: seq<Row>, b: seq<Row>, c: seq<Row>, worked: set<nat>, more: set<nat>)
    requires Drift(a, b, worked) && Drift(b, c, more)
    requires forall id :: id in more ==> id < |a|
    ensures Drift(a, c, worked + more)
  {
  }

  // ---- a pass over the requests --------------------------------------------------------

  // The first i of the listed requests have had their turn, the others have not.
  ghost predicate Turns(start: seq<Row>, rows: seq<Row>, ids: seq<nat>, attempt: nat -> Attempt, i: nat) {
    && Distinct(ids) && Drift(start, rows, Elements(ids))
    && (forall k :: 0 <= k < |ids| ==> ids[k] < |start|)
    && forall k :: 0 <= k < |ids| ==>
         if k < i then RequestTurn(attempt(ids[k]), start[ids[k]], rows[ids[k]], true) else ApiMoved(start[ids[k]], rows[ids[k]])
  }

  lemma TurnsStart(rows: seq<Row>, ids: seq<nat>, attempt: nat -> Attempt)
    requires Distinct(ids) && forall id :: id in ids ==> id < |rows|
    ensures Turns(rows, rows, ids, attempt, 0)
  {
    assert forall k :: 0 <= k < |ids| ==> ids[k] in ids;
  }

  lemma NextTurn(start: seq<Row>, before: seq<Row>, after: seq<Row>, ids: seq<nat>, attempt: nat -> Attempt, i: nat)
    requires Turns(start, before, ids, attempt, i) && i < |ids|
    requires Drift(before, after, {ids[i]}) && RequestTurn(attempt(ids[i]), before[ids[i]], after[ids[i]], true)
    ensures Turns(start, after, ids, attempt, i + 1)
  {
    DriftOn(start, before, after, Elements(ids), {ids[i]});
    assert Elements(ids) + {ids[i]} == Elements(ids) by { assert ids[i] in ids; }
    forall k | 0 <= k < |ids| && k != i
      ensures if k < i then after[ids[k]] == before[ids[k]] else ApiMoved(start[ids[k]], after[ids[k]])
    {
      assert ids[k] != ids[i];
    }
  }

  // ---- a check of the submitted rows ---------------------------------------------------

  // The check of the listed rows has got to place i.
  ghost predicate CheckedTo(start: seq<Row>, rows: seq<Row>, ids: seq<nat>, check: string -> Option<Answer>, i: nat) {
    && Distinct(ids) && Drift(start, rows, Elements(ids))
    && (forall k :: 0 <= k < |ids| ==> ids[k] < |start| && Eff(start[ids[k]]) == Submitted)
    && forall k :: 0 <= k < |ids| ==>
         if k < i then AsAnswered(check, start[ids[k]], rows[ids[k]]) else rows[ids[k]] == start[ids[k]]
  }

  // Every listed row as the node answered, the others seeing only the API.
  ghost predicate Checked(start: seq<Row>, rows: seq<Row>, ids: seq<nat>, check: string -> Option<Answer>) {
    && Drift(start, rows, Elements(ids))
    && forall id :: id in ids ==> id < |start| && AsAnswered(check, start[id], rows[id])
  }

  lemma CheckStart(rows: seq<Row>, ids: seq<nat>, check: string -> Option<Answer>)
    requires Newest(rows, ids)
    ensures CheckedTo(rows, rows, ids, check, 0)
  {
    assert forall k :: 0 <= k < |ids| ==> ids[k] in ids;
  }

  lemma CheckTurn(start: seq<Row>, before: seq<Row>, after: seq<Row>, ids: seq<nat>, check: string -> Option<Answer>, i: nat)
    requires CheckedTo(start, before, ids, check, i) && i < |ids|
    requires Drift(before, after, {ids[i]}) && AsAnswered(check, before[ids[i]], after[ids[i]])
    ensures CheckedTo(start, after, ids, check, i + 1)
  {
    DriftOn(start, before, after, Elements(ids), {ids[i]});
    assert Elements(ids) + {ids[i]} == Elements(ids) by { assert ids[i] in ids; }
    forall k | 0 <= k < |ids| && k != i ensures after[ids[k]] == before[ids[k]] {
      assert ids[k] != ids[i];
    }
  }

  // Stopped or not, a check confirms or fails submitted rows and leaves the others.
  ghost predicate OnlyCompleted(before: seq<Row>, after: seq<Row>) {
    && |before| <= |after|
    && (forall id :: 0 <= id < |before| ==>
          || ApiMoved(before[id], after[id])
          || (Eff(before[id]) == Submitted && Eff(after[id]) in {Submitted, Confirmed, Failed}))
    && forall id :: |before| <= id < |after| ==> Eff(after[id]) in {Requested, Cancelled}
  }

  lemma CheckedRows(start: seq<Row>, rows: seq<Row>, ids: seq<nat>, check: string -> Option<Answer>, i: nat)
    requires CheckedTo(start, rows, ids, check, i)
    ensures OnlyCompleted(start, rows)
    ensures i >= |ids| ==> Checked(start, rows, ids, check)
  {
    forall id | 0 <= id < |start| && id in ids
      ensures ApiMoved(start[id], rows[id]) || (Eff(start[id]) == Submitted && Eff(rows[id]) in {Submitted, Confirmed, Failed})
      ensures i >= |ids| ==> AsAnswered(check, start[id], rows[id])
    {
      var k :| 0 <= k < |ids| && ids[k] == id;
    }
    forall id | id in ids ensures id < |start| {
      var k :| 0 <= k < |ids| && ids[k] == id;
    }
  }

  lemma CheckStopped(start: seq<Row>, before: seq<Row>, after: seq<Row>, ids: seq<nat>, check: string -> Option<Answer>, i: nat)
    requires CheckedTo(start, before, ids, check, i) && i < |ids|
    requires Drift(before, after, {ids[i]}) && after[ids[i]] == before[ids[i]]
    ensures OnlyCompleted(start, after)
  {
    CheckedRows(start, before, ids, check, i);
    forall id | 0 <= id < |before| ensures ApiMoved(before[id], after[id]) {}
  }

  // ---- a whole pass --------------------------------------------------------------------

  // How a request ends a pass: as its turn left it, or as the check that follows did.
  ghost predicate RequestEnds(attempt: Attempt, check: string -> Option<Answer>, listed: Row, after: Row) {
    exists turned ::
      && RequestTurn(attempt, listed, turned, true)
      && (after == turned || (Eff(turned) == Submitted && AsAnswered(check, turned, after)))
  }

  lemma PassResult(start: seq<Row>, middle: seq<Row>, end: seq<Row>, ids: seq<nat>, listed: seq<nat>,
                   attempt: nat -> Attempt, check: string -> Option<Answer>)
    requires forall id :: id in ids <==> 0 <= id < |start| && Eff(start[id]) == Requested
    requires Turns(start, middle, ids, attempt, |ids|) && Newest(middle, listed) && Checked(middle, end, listed, check)
    ensures |start| <= |end|
    ensures forall id :: 0 <= id < |start| && Eff(start[id]) == Requested ==> RequestEnds(attempt(id), check, start[id], end[id])
    ensures forall id :: 0 <= id < |end| && Eff(end[id]) == Processing ==> id < |start| && start[id] == end[id]
  {
    forall id | 0 <= id < |start| && Eff(start[id]) == Requested ensures RequestEnds(attempt(id), check, start[id], end[id]) {
      assert id in ids;
      var k :| 0 <= k < |ids| && ids[k] == id;
      assert RequestTurn(attempt(id), start[id], middle[id], true);
    }
  }

  // shouldReactivate.
  predicate ShouldReactivate(jailedFrom: Option<nat>, height: nat) {
    jailedFrom.Some? && height >= jailedFrom.value
  }

  // Whether a reactivation can be signed, and what sending it returns.
  datatype Sending = Unsigned | Send(hash: string, accepted: bool)

  class Lifecycle {
    const table: ActionTable

    constructor (table: ActionTable)
      ensures this.table == table
    {
      this.table := table;
    }

    // One listed request.
    method ProcessRequest(id: nat, attempt: Attempt) returns (ok: bool)
      requires table.Valid() && table.pc.Requests? && table.pc.ids != [] && table.pc.ids[0] == id
      modifies table
      ensures table.Valid() && Extends(old(table.run), table.run)
      ensures id < |old(table.rows)| && Drift(old(table.rows), table.rows, {id})
      ensures RequestTurn(attempt, old(table.rows)[id], table.rows[id], ok)
      ensures table.pc == if ok then Requests(old(table.pc.ids)[1..]) else Resting
    {
      table.HeadListed();
      table.Interfere();
      if !Requestable(table.rows[id].action) {
        table.RefuseRequest(id);
        return true;
      }
      var won := table.ClaimRequest(id);
      if !won { return true; }
      ok := WorkOnClaim(id, attempt);
    }

    // A shutdown before the action starts gives the row back; one on the way, or a
    // failed write, leaves it processing.
    method WorkOnClaim(id: nat, attempt: Attempt) returns (ok: bool)
      requires table.Valid() && table.pc.Claimed? && table.pc.id == id && id < |table.rows|
      requires Eff(table.rows[id]) == Processing
      modifies table
      ensures table.Valid() && Extends(old(table.run), table.run)
      ensures Drift(old(table.rows), table.rows, {id})
      ensures Leaves(attempt, old(table.rows)[id], table.rows[id], ok)
      ensures table.pc == if ok then Requests(old(table.pc.ids)) else Resting
    {
      table.Interfere();
      if attempt.ShutDown? {
        table.ReleaseClaim(id);
        return false;
      }
      ok := SignAndSubmit(id, attempt);
    }

    // fn(m, ctx) and the write of its result.
    method SignAndSubmit(id: nat, attempt: Attempt) returns (ok: bool)
      requires table.Valid() && table.pc.Claimed? && table.pc.id == id && id < |table.rows|
      requires Eff(table.rows[id]) == Processing && !attempt.ShutDown?
      modifies table
      ensures table.Valid() && Extends(old(table.run), table.run)
      ensures Drift(old(table.rows), table.rows, {id})
      ensures Leaves(attempt, old(table.rows)[id], table.rows[id], ok)
      ensures table.pc == if ok then Requests(old(table.pc.ids)) else Resting
    {
      if attempt.Sent? || attempt.signed { table.CallSigner(); }
      table.Interfere();
      if attempt.Interrupted? { table.Rest(); return false; }
      if attempt.Fails? {
        table.FailClaimed(id);
      } else {
        table.SubmitClaimed(id, attempt.hash);
      }
      ok := true;
    }

    // A pass that ends without an error has given every request its turn, and
    // checked the submitted rows; no row is left processing that was not before.
    method ProcessRequestedActions(attempt: nat -> Attempt, check: string -> Option<Answer>, faults: bool) returns (ok: bool)
      requires table.Valid() && table.pc == Resting
      modifies table
      ensures table.Valid() && Extends(old(table.run), table.run) && table.pc == Resting
      ensures |old(table.rows)| <= |table.rows|
      ensures ok ==> forall id :: 0 <= id < |old(table.rows)| && Eff(old(table.rows)[id]) == Requested ==>
                RequestEnds(attempt(id), check, old(table.rows)[id], table.rows[id])
      ensures ok ==> forall id :: 0 <= id < |table.rows| && Eff(table.rows[id]) == Processing ==>
                id < |old(table.rows)| && old(table.rows)[id] == table.rows[id]
      // Only a shutdown or a failed write keeps it from getting there.
      ensures !faults && (forall id :: !attempt(id).ShutDown? && !attempt(id).Interrupted?) ==> ok
    {
      var ids := table.GetRequested();
      ghost var start := table.rows;
      TurnsStart(start, ids, attempt);
      for i := 0 to |ids|
        invariant table.Valid() && Extends(old(table.run), table.run)
        invariant table.pc == Requests(ids[i..])
        invariant Turns(start, table.rows, ids, attempt, i)
      {
        ghost var before := table.rows;
        assert ids[i..][1..] == ids[i + 1..];
        var done := ProcessRequest(ids[i], attempt(ids[i]));
        if !done { return false; }
        NextTurn(start, before, table.rows, ids, attempt, i);
      }
      ghost var middle := table.rows;
      ghost var listed: seq<nat>;
      ok, listed := CheckSubmitted(check, faults);
      if ok { PassResult(start, middle, table.rows, ids, listed, attempt, check); }
    }

    method CheckOne(id: nat, check: string -> Option<Answer>, faults: bool) returns (ok: bool)
      requires table.Valid() && table.pc.Checking? && table.pc.ids != [] && table.pc.ids[0] == id
      requires id < |table.rows| && Eff(table.rows[id]) == Submitted
      modifies table
      ensures table.Valid() && Extends(old(table.run), table.run)
      ensures Drift(old(table.rows), table.rows, {id})
      ensures if ok then AsAnswered(check, old(table.rows)[id], table.rows[id]) else table.rows[id] == old(table.rows)[id]
      ensures table.pc == if ok then Checking(old(table.pc.ids)[1..]) else Resting
      ensures !faults ==> ok
    {
      table.Interfere();
      ok := true;
      var hash := table.rows[id].txHash;
      if hash.None? || hash.value == "" || check(hash.value).None? || !check(hash.value).value.final {
        table.PassOverCheck();
        return;
      }
      var writeFails: bool := *;
      if faults && writeFails { table.Rest(); return false; }
      table.CompleteSubmitted(id, if check(hash.value).value.succeeded then Confirmed else Failed);
    }

    // The newest submitted rows, each as the node answers for its transaction.
    method CheckSubmitted(check: string -> Option<Answer>, faults: bool) returns (ok: bool, ghost ids: seq<nat>)
      requires table.Valid() && table.pc == Requests([])
      modifies table
      ensures table.Valid() && Extends(old(table.run), table.run) && table.pc == Resting
      ensures Newest(old(table.rows), ids)
      ensures ok ==> Checked(old(table.rows), table.rows, ids, check)
      ensures OnlyCompleted(old(table.rows), table.rows)
      ensures !faults ==> ok
    {
      var listed := table.ListSubmittedActions();
      ids := listed;
      ghost var start := table.rows;
      CheckStart(start, ids, check);
      for i := 0 to |listed|
        invariant table.Valid() && Extends(old(table.run), table.run)
        invariant table.pc == Checking(ids[i..])
        invariant CheckedTo(start, table.rows, ids, check, i)
      {
        ghost var before := table.rows;
        assert ids[i..][1..] == ids[i + 1..];
        CheckedRows(start, table.rows, ids, check, i);
        ok := CheckOne(listed[i], check, faults);
        if !ok {
          CheckStopped(start, before, table.rows, ids, check, i);
          return;
        }
        CheckTurn(start, before, table.rows, ids, check, i);
      }
      CheckedRows(start, table.rows, ids, check, |ids|);
      table.Rest();
      ok := true;
    }

    // `validator` is the jail of the pool's validator, if it is one.
    // A reactivation is sent if the jail has elapsed, none was recorded before and no
    // deactivation or retirement is outstanding; if none was sent, one of these was
    // not so, or it could not be signed.
    method RunAutoReactivate(validator: Option<Option<nat>>, head: Option<nat>, sending: Sending, faults: bool)
      returns (ok: bool, ghost attempted: bool)
      requires table.Valid() && table.pc == Resting
      modifies table
      ensures table.Valid() && Extends(old(table.run), table.run) && table.pc == Resting
      ensures table.hist.reactivations == old(table.hist).reactivations + if attempted && sending.Send? && sending.accepted then 1 else 0
      ensures attempted ==>
                && validator.Some? && validator.value.Some? && head.Some? && validator.value.value <= head.value && sending.Send?
                && forall id :: 0 <= id < |old(table.rows)| && old(table.rows)[id].action == Reactivate ==>
                     old(table.rows)[id].outcome != Pending
      ensures !attempted ==>
                && Drift(old(table.rows), table.rows, {})
                && (|| validator.None? || validator.value.None? || head.None? || head.value < validator.value.value || sending.Unsigned?
                    || HasPending(table.rows, Reactivate)
                    || HasOutstanding(table.rows, Deactivate) || HasOutstanding(table.rows, Retire))
      // The attempt is recorded with its outcome, whatever it was.
      ensures attempted && ok ==> sending.accepted
      ensures attempted && !faults ==> (ok <==> sending.accepted)
      ensures attempted && (ok || !faults) ==>
                && table.rows != []
                && table.rows[|table.rows| - 1]
                   == Row(Reactivate, None, if sending.accepted then Pending else Failed, HashColumn(sending.hash))
    {
      attempted := false;
      if validator.None? { return true, false; }
      if head.None? { return false, false; }
      if !ShouldReactivate(validator.value, head.value) { return true, false; }
      for n := 0 to 3
        invariant table.Valid() && Extends(old(table.run), table.run)
        invariant ChecksPassed(table.pc) == n && (table.pc.Resting? || table.pc.Reactivating?)
        invariant table.hist.reactivations == old(table.hist).reactivations && Drift(old(table.rows), table.rows, {})
        invariant n == 0 ==> table.rows == old(table.rows)
        invariant n > 0 ==> !HasPending(old(table.rows), Reactivate)
      {
        var passes := table.PassesCheck(n);
        if !passes { return true, false; }
        table.Interfere();
      }
      if sending.Unsigned? {
        table.Rest();
        return false, false;
      }
      attempted := true;
      ok := SendAndRecord(sending.hash, sending.accepted, faults);
    }

    method SendAndRecord(hash: string, accepted: bool, faults: bool) returns (ok: bool)
      requires table.Valid() && table.pc == Reactivating(3)
      modifies table
      ensures table.Valid() && Extends(old(table.run), table.run) && table.pc == Resting
      ensures table.hist.reactivations == old(table.hist).reactivations + if accepted then 1 else 0
      ensures !faults ==> (ok <==> accepted)
      ensures ok ==> accepted
      ensures ok || !faults ==>
                table.rows == old(table.rows) + [Row(Reactivate, None, if accepted then Pending else Failed, HashColumn(hash))]
    {
      table.NoteReactivation(hash, accepted);
      var insertFails: bool := *;
      if faults && insertFails { table.Rest(); return false; }
      table.InsertReactivationRow(hash, accepted);
      ok := accepted;
    }
  }
}
