// Concrete runs of the validator-action machine: each reaches a state one might
// not expect.
module ActionWitnesses {
  import opened Prelude
  import opened ValidatorActions
  import opened ValidatorActionRuns

  ghost predicate Running(r: Run, last: Sys) {
    IsRun(r) && r.states[|r.states| - 1] == last
  }

  predicate Continues(r: Run, r': Run) {
    r.states <= r'.states && r.steps <= r'.steps
  }

  lemma Go(r: Run, s: Sys, step: Step) returns (r': Run, s': Sys)
    requires Running(r, s) && Enabled(s, step)
    ensures Running(r', s') && s' == Apply(s, step) && Continues(r, r') && |r'.states| == |r.states| + 1
  {
    s' := Apply(s, step);
    r' := Run(r.states + [s'], r.steps + [step]);
    forall i | 0 <= i < |r'.steps| ensures IsStep(r', i) {
      if i < |r.steps| { assert IsStep(r, i); }
    }
  }

  lemma Begin(rows: seq<Row>) returns (r: Run, s: Sys)
    requires Legacy(rows)
    ensures Running(r, s) && s == Start(rows) && |r.states| == 1
  {
    s := Start(rows);
    r := Run([s], []);
  }

  // ---- reactivation ------------------------------------------------------------

  // The three checks pass and a reactivation is sent.
  lemma SendOne(r: Run, s: Sys, hash: string) returns (r': Run, s': Sys)
    requires Running(r, s) && s.pc.Resting?
    requires !HasPending(s.rows, Reactivate) && !HasOutstanding(s.rows, Deactivate) && !HasOutstanding(s.rows, Retire)
    ensures Running(r', s') && Continues(r, r') && s'.rows == s.rows && s'.pc == Reactivated(hash, true)
    ensures s'.hist.reactivations == s.hist.reactivations + 1
  {
    r', s' := Go(r, s, CheckReactivation);
    r', s' := Go(r', s', CheckReactivation);
    r', s' := Go(r', s', CheckReactivation);
    r', s' := Go(r', s', SendReactivation(hash, true));
  }

  // However a run got to a reactivation sent and not yet recorded: the daemon may
  // stop there, find the guard still armed, and send another.
  lemma UnrecordedIsRepeated(r: Run, s: Sys, hash: string) returns (r': Run, s': Sys)
    requires Running(r, s) && Unrecorded(s.pc)
    requires !HasOutstanding(s.rows, Deactivate) && !HasOutstanding(s.rows, Retire)
    ensures Running(r', s') && Continues(r, r') && s'.rows == s.rows && s'.pc == Reactivated(hash, true)
    ensures s'.hist.reactivations == s.hist.reactivations + 1
  {
    RunInv(r, |r.states| - 1);
    r', s' := Go(r, s, Stop);
    r', s' := SendOne(r', s', hash);
  }

  // So there is no bound on how many are sent.
  lemma {:induction false} ReactivatedTimes(n: nat) returns (r: Run, s: Sys)
    requires n > 0
    ensures Running(r, s) && s.rows == [] && Unrecorded(s.pc) && s.hist.reactivations == n
  {
    if n == 1 {
      r, s := Begin([]);
      r, s := SendOne(r, s, "");
    } else {
      r, s := ReactivatedTimes(n - 1);
      r, s := UnrecordedIsRepeated(r, s, "");
    }
  }

  // ---- requests ----------------------------------------------------------------

  // A legacy row asking for an action nobody may request is listed, cancelled,
  // and then marked failed all the same.
  lemma CancelledRowRefused(name: string) returns (r: Run, s: Sys, cancelled: Sys)
    ensures Running(r, s) && cancelled in r.states
    ensures |cancelled.rows| == 1 && cancelled.rows[0].action == Unknown(name) && Eff(cancelled.rows[0]) == Cancelled
    ensures |s.rows| == 1 && Eff(s.rows[0]) == Failed
  {
    r, s := Begin([Row(Unknown(name), None, Requested, None)]);
    r, s := Go(r, s, ListRequests([0]));
    r, s := Go(r, s, ApiCancel(0));
    cancelled := s;
    var last := |r.states| - 1;
    r, s := Go(r, s, Refuse);
    assert r.states[last] == cancelled;
  }

  // A request is queued and listed,
  lemma RequestListed() returns (r: Run, s: Sys)
    ensures Running(r, s) && s.rows == [NewRequest(Deactivate)] && s.pc == Requests([0])
  {
    r, s := Begin([]);
    r, s := Go(r, s, ApiQueue(Deactivate));
    assert s.rows == [NewRequest(Deactivate)];
    r, s := Go(r, s, ListRequests([0]));
  }

  // the daemon stops with it claimed, and it is stranded.
  lemma RequestStranded() returns (r: Run, s: Sys)
    ensures Running(r, s) && Stranded(s, 0) && s.rows[0].action == Deactivate
  {
    r, s := RequestListed();
    r, s := Go(r, s, Claim);
    r, s := Go(r, s, Stop);
  }
}
