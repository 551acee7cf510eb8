// The validator_actions table and the two processes that race on it: the API
// queues and cancels requests, the daemon claims, signs, submits and completes
// them.  A row's state is spread over two TEXT columns, the newer of which is
// NULL in rows written without it.
module ValidatorActions {
  import opened Prelude

  datatype Word = Requested | Processing | Submitted | Confirmed | Failed | Cancelled | Pending | Other(text: string)

  datatype Action = Deactivate | Retire | Reactivate | Create | SelfStake | Unknown(name: string)

  datatype Row = Row(action: Action, state: Option<Word>, outcome: Word, txHash: Option<string>)

  // The only actions the API queues and the daemon signs on request.
  predicate Requestable(a: Action) {
    a == Deactivate || a == Retire
  }

  // ---- one state from two columns --------------------------------------------

  // The COALESCE / CASE of ListValidatorActions.
  function Eff(r: Row): Word {
    match r.state
    case Some(s) => s
    case None => match r.outcome
      case Requested => Requested
      case Pending => Submitted
      case _ => Failed
  }

  // The WHERE clauses, column by column as they are written.
  predicate RequestedGuard(r: Row) {
    r.state == Some(Requested) || (r.state.None? && r.outcome == Requested)
  }

  predicate OutstandingGuard(r: Row) {
    || r.state == Some(Requested) || r.state == Some(Processing) || r.state == Some(Submitted)
    || (r.state.None? && (r.outcome == Requested || r.outcome == Pending))
  }

  predicate ProcessingGuard(r: Row) {
    r.state == Some(Processing)
  }

  predicate SubmittedGuard(r: Row) {
    r.state == Some(Submitted) || (r.state.None? && r.outcome == Pending)
  }

  predicate HasPending(rows: seq<Row>, a: Action) {
    exists id :: 0 <= id < |rows| && rows[id].action == a && rows[id].outcome == Pending
  }

  predicate HasOutstanding(rows: seq<Row>, a: Action) {
    exists id :: 0 <= id < |rows| && rows[id].action == a && OutstandingGuard(rows[id])
  }

  // The SET clauses.
  function MarkProcessing(r: Row): Row { r.(state := Some(Processing)) }
  function Release(r: Row): Row { r.(state := Some(Requested)) }
  function Submit(r: Row, hash: string): Row {
    r.(state := Some(Submitted), outcome := Pending, txHash := if hash == "" then None else Some(hash))
  }
  function Complete(r: Row, final: Word): Row { r.(state := Some(final)) }
  function Cancel(r: Row): Row { r.(state := Some(Cancelled), outcome := Cancelled) }
  function Fail(r: Row): Row { r.(state := Some(Failed)) }

  function NewRequest(a: Action): Row { Row(a, Some(Requested), Requested, None) }
  function NewAttempt(a: Action, hash: string, sent: bool): Row {
    Row(a, None, if sent then Pending else Failed, if hash == "" then None else Some(hash))
  }

  // The guards read the two columns as one state.
  lemma GuardsReadOneState(r: Row)
    ensures RequestedGuard(r) <==> Eff(r) == Requested
    ensures ProcessingGuard(r) <==> Eff(r) == Processing
    ensures SubmittedGuard(r) <==> Eff(r) == Submitted
    ensures OutstandingGuard(r) <==> Eff(r) in {Requested, Processing, Submitted}
    ensures r.state.Some? ==> Eff(r) == r.state.value
    ensures r.state.None? ==>
              && (Eff(r) == Requested <==> r.outcome == Requested)
              && (Eff(r) == Submitted <==> r.outcome == Pending)
              && (Eff(r) == Failed <==> r.outcome != Requested && r.outcome != Pending)
  {
  }

  // HasPendingValidatorAction does not: completing a row leaves its outcome.
  lemma PendingIsNotAState(a: Action, hash: string)
    ensures var done := Complete(NewAttempt(a, hash, true), Confirmed);
            Eff(done) == Confirmed && HasPending([done], a)
  {
    var done := Complete(NewAttempt(a, hash, true), Confirmed);
    assert [done][0] == done;
  }

  // The edges of the one-state machine.
  predicate Edge(x: Word, y: Word) {
    match x
    case Requested => y in {Processing, Cancelled, Failed}
    case Processing => y in {Requested, Submitted, Failed}
    case Submitted => y in {Confirmed, Failed}
    case Cancelled => y == Failed
    case _ => false
  }

  // ---- the machine -----------------------------------------------------------

  datatype Daemon =
    | Resting
    | Requests(ids: seq<nat>)              // ProcessRequestedActions, its list
    | Claimed(id: nat, ids: seq<nat>)      // the row is processing, nothing signed
    | Signed(id: nat, ids: seq<nat>)       // the signer was called for the row
    | Checking(ids: seq<nat>)              // checkSubmittedValidatorActions, its list
    | Reactivating(checks: nat)            // runAutoReactivate, checks passed so far
    | Reactivated(hash: string, sent: bool) // signed and sent, row not yet inserted

  // Recorded by the model only.
  datatype History = History(signatures: seq<nat>, cancelled: set<nat>, reactivations: nat)

  datatype Sys = Sys(rows: seq<Row>, pc: Daemon, hist: History)

  datatype Step =
    | ListRequests(ids: seq<nat>)
    | Refuse                       // the head is no requestable action: marked failed, unguarded
    | Claim
    | Lose                         // the head is no longer requested: skipped
    | Unclaim                      // recoverClaimedValidatorAction
    | Sign
    | FailAction                   // the attempt returned an error, before or after signing
    | SubmitAction(hash: string)
    | ListSubmitted(ids: seq<nat>)
    | CompleteAction(final: Word)
    | SkipCheck
    | CheckReactivation
    | SendReactivation(txHash: string, ok: bool)
    | InsertReactivation
    | InsertBootstrap(action: Action, bootHash: string, bootOk: bool)
    | Stop                         // an error return, a shutdown or a crash
    | ApiQueue(action: Action)
    | ApiCancel(id: nat)

  // What runAutoReactivate looks at, in its order.
  predicate ReactivationCheck(rows: seq<Row>, n: nat) {
    if n == 0 then !HasPending(rows, Reactivate)
    else if n == 1 then !HasOutstanding(rows, Deactivate)
    else n == 2 && !HasOutstanding(rows, Retire)
  }

  predicate AtHead(rows: seq<Row>, ids: seq<nat>) {
    ids != [] && ids[0] < |rows|
  }

  ghost predicate Enabled(s: Sys, step: Step) {
    var rows := s.rows;
    match step
    case ListRequests(ids) =>
      && s.pc.Resting? && Distinct(ids)
      && forall id :: id in ids <==> 0 <= id < |rows| && RequestedGuard(rows[id])
    case Refuse => s.pc.Requests? && AtHead(rows, s.pc.ids) && !Requestable(rows[s.pc.ids[0]].action)
    case Claim =>
      && s.pc.Requests? && AtHead(rows, s.pc.ids)
      && Requestable(rows[s.pc.ids[0]].action) && RequestedGuard(rows[s.pc.ids[0]])
    case Lose =>
      && s.pc.Requests? && AtHead(rows, s.pc.ids)
      && Requestable(rows[s.pc.ids[0]].action) && !RequestedGuard(rows[s.pc.ids[0]])
    case Unclaim => s.pc.Claimed? && s.pc.id < |rows| && ProcessingGuard(rows[s.pc.id])
    case Sign => s.pc.Claimed? && s.pc.id < |s.hist.signatures|
    case FailAction => (s.pc.Claimed? || s.pc.Signed?) && s.pc.id < |rows|
    case SubmitAction(hash) => s.pc.Signed? && s.pc.id < |rows| && ProcessingGuard(rows[s.pc.id])
    case ListSubmitted(ids) =>
      && s.pc == Requests([]) && Distinct(ids)
      && forall id :: id in ids ==> id < |rows| && Eff(rows[id]) == Submitted
    case CompleteAction(final) =>
      && s.pc.Checking? && AtHead(rows, s.pc.ids) && rows[s.pc.ids[0]].txHash.Some?
      && SubmittedGuard(rows[s.pc.ids[0]]) && (final == Confirmed || final == Failed)
    case SkipCheck => s.pc.Checking? && s.pc.ids != []
    case CheckReactivation =>
      ReactivationCheck(rows, ChecksPassed(s.pc)) && (s.pc.Resting? || s.pc.Reactivating?)
    case SendReactivation(_, _) => s.pc == Reactivating(3)
    case InsertReactivation => s.pc.Reactivated?
    case InsertBootstrap(a, _, _) => s.pc.Resting? && (a == Create || a == SelfStake)
    case Stop => true
    case ApiQueue(a) => Requestable(a) && !HasOutstanding(rows, a)
    case ApiCancel(id) => id < |rows| && RequestedGuard(rows[id])
  }

  function ChecksPassed(pc: Daemon): nat {
    if pc.Reactivating? then pc.checks else 0
  }

  ghost function Apply(s: Sys, step: Step): Sys
    requires Enabled(s, step)
  {
    var rows := s.rows;
    match step
    case ListRequests(ids) => s.(pc := Requests(ids))
    case Refuse => s.(rows := rows[s.pc.ids[0] := Fail(rows[s.pc.ids[0]])], pc := Requests(s.pc.ids[1..]))
    case Claim =>
      s.(rows := rows[s.pc.ids[0] := MarkProcessing(rows[s.pc.ids[0]])], pc := Claimed(s.pc.ids[0], s.pc.ids[1..]))
    case Lose => s.(pc := Requests(s.pc.ids[1..]))
    case Unclaim => s.(rows := rows[s.pc.id := Release(rows[s.pc.id])], pc := Resting)
    case Sign =>
      var n := s.hist.signatures[s.pc.id];
      s.(pc := Signed(s.pc.id, s.pc.ids), hist := s.hist.(signatures := s.hist.signatures[s.pc.id := n + 1]))
    case FailAction => s.(rows := rows[s.pc.id := Fail(rows[s.pc.id])], pc := Requests(s.pc.ids))
    case SubmitAction(hash) => s.(rows := rows[s.pc.id := Submit(rows[s.pc.id], hash)], pc := Requests(s.pc.ids))
    case ListSubmitted(ids) => s.(pc := Checking(ids))
    case CompleteAction(final) =>
      s.(rows := rows[s.pc.ids[0] := Complete(rows[s.pc.ids[0]], final)], pc := Checking(s.pc.ids[1..]))
    case SkipCheck => s.(pc := Checking(s.pc.ids[1..]))
    case CheckReactivation => s.(pc := Reactivating(ChecksPassed(s.pc) + 1))
    case SendReactivation(hash, sent) =>
      s.(pc := Reactivated(hash, sent),
         hist := s.hist.(reactivations := s.hist.reactivations + if sent then 1 else 0))
    case InsertReactivation => Insert(s, NewAttempt(Reactivate, s.pc.hash, s.pc.sent)).(pc := Resting)
    case InsertBootstrap(a, hash, sent) => Insert(s, NewAttempt(a, hash, sent))
    case Stop => s.(pc := Resting)
    case ApiQueue(a) => Insert(s, NewRequest(a))
    case ApiCancel(id) => s.(rows := rows[id := Cancel(rows[id])], hist := s.hist.(cancelled := s.hist.cancelled + {id}))
  }

  function Insert(s: Sys, r: Row): Sys {
    s.(rows := s.rows + [r], hist := s.hist.(signatures := s.hist.signatures + [0]))
  }

  // ---- runs -------------------------------------------------------------------

  // A table written before the state column existed: at most one unfinished row
  // per action that is guarded against duplicates.
  ghost predicate Legacy(rows: seq<Row>) {
    && (forall id :: 0 <= id < |rows| ==> rows[id].state.None?)
    && OneOutstanding(rows) && OneReactivation(rows)
  }

  predicate SameOutstanding(x: Row, y: Row) {
    x.action == y.action && Requestable(x.action) && OutstandingGuard(x) && OutstandingGuard(y)
  }

  ghost predicate OneOutstanding(rows: seq<Row>) {
    forall i, j :: 0 <= i < |rows| && 0 <= j < |rows| && SameOutstanding(rows[i], rows[j]) ==> i == j
  }

  predicate PendingReactivation(r: Row) {
    r.action == Reactivate && r.outcome == Pending
  }

  ghost predicate OneReactivation(rows: seq<Row>) {
    forall i, j :: 0 <= i < |rows| && 0 <= j < |rows| && PendingReactivation(rows[i]) && PendingReactivation(rows[j])
                   ==> i == j
  }

  function Start(rows: seq<Row>): Sys {
    Sys(rows, Resting, History(seq(|rows|, _ => 0), {}, 0))
  }

  datatype Run = Run(states: seq<Sys>, steps: seq<Step>)

  ghost predicate IsStep(r: Run, i: nat)
    requires |r.states| == |r.steps| + 1
  {
    i < |r.steps| && Enabled(r.states[i], r.steps[i]) && r.states[i + 1] == Apply(r.states[i], r.steps[i])
  }

  ghost predicate IsRun(r: Run) {
    && |r.states| == |r.steps| + 1
    && Legacy(r.states[0].rows) && r.states[0] == Start(r.states[0].rows)
    && forall i :: 0 <= i < |r.steps| ==> IsStep(r, i)
  }
}
