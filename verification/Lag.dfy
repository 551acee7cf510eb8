// Chain-lag alerts (lag.go): a warning when the cursor falls behind, an error
// if it has not recovered two minutes later.
module Lag {

  const WARN_BLOCKS := 30
  const RECOVER_BLOCKS := 2
  const ESCALATE_AFTER_MS := 120_000

  datatype Alert = Quiet | Warning | Error
  datatype AlertState = AlertState(warningSent: bool, errorSent: bool, since: int)

  const RESET := AlertState(false, false, 0)

  function ChainLag(head: int, processed: int): int {
    if head - processed < 0 then 0 else head - processed
  }

  function NextLagAlert(s: AlertState, lag: int, now: int): (AlertState, Alert) {
    if lag <= RECOVER_BLOCKS then (RESET, Quiet)
    else if !s.warningSent then
      if lag < WARN_BLOCKS then (s, Quiet)
      else (s.(warningSent := true, since := now), Warning)
    else if !s.errorSent && now - s.since >= ESCALATE_AFTER_MS then (s.(errorSent := true), Error)
    else (s, Quiet)
  }

  datatype Sample = Sample(head: int, processed: int, now: int) {
    function Lag(): int { ChainLag(head, processed) }
  }

  // The state after the first n samples, and the alert raised by sample n.
  function StateAfter(samples: seq<Sample>, n: nat): AlertState
    requires n <= |samples|
  {
    if n == 0 then RESET
    else NextLagAlert(StateAfter(samples, n - 1), samples[n - 1].Lag(), samples[n - 1].now).0
  }

  function AlertAt(samples: seq<Sample>, n: nat): Alert
    requires n < |samples|
  {
    NextLagAlert(StateAfter(samples, n), samples[n].Lag(), samples[n].now).1
  }

  // Two blocks behind at most.
  predicate Recovered(samples: seq<Sample>, n: nat) {
    n < |samples| && samples[n].head - samples[n].processed <= 2
  }

  // The episode sample n belongs to: everything since the last recovery before it.
  function EpisodeStart(samples: seq<Sample>, n: nat): nat
    requires n <= |samples|
    ensures EpisodeStart(samples, n) <= n
  {
    if n == 0 || Recovered(samples, n - 1) then n else EpisodeStart(samples, n - 1)
  }

  lemma {:induction false} NoRecoveryInEpisode(samples: seq<Sample>, n: nat, m: nat)
    requires n <= |samples| && EpisodeStart(samples, n) <= m < n
    ensures !Recovered(samples, m)
    ensures EpisodeStart(samples, m) == EpisodeStart(samples, n)
  {
    if m < n - 1 {
      NoRecoveryInEpisode(samples, n - 1, m);
    }
  }

  ghost predicate Raised(samples: seq<Sample>, start: nat, n: nat, kind: Alert)
    requires n <= |samples|
  {
    exists m :: start <= m < n && AlertAt(samples, m) == kind
  }

  lemma RaisedStep(samples: seq<Sample>, start: nat, n: nat, kind: Alert)
    requires start < n <= |samples|
    ensures Raised(samples, start, n, kind) <==> Raised(samples, start, n - 1, kind) || AlertAt(samples, n - 1) == kind
  {
    if Raised(samples, start, n - 1, kind) {
      var m :| start <= m < n - 1 && AlertAt(samples, m) == kind;
      assert start <= m < n && AlertAt(samples, m) == kind;
    }
  }

  // The state says exactly what has been raised in the current episode.
  ghost predicate Tracks(samples: seq<Sample>, n: nat, s: AlertState)
    requires n <= |samples|
  {
    var start := EpisodeStart(samples, n);
    && (s.warningSent <==> Raised(samples, start, n, Warning))
    && (s.errorSent <==> Raised(samples, start, n, Error))
    && (forall m :: start <= m < n && AlertAt(samples, m) == Warning ==> s.since == samples[m].now)
    && (s.errorSent ==> s.warningSent)
  }

  lemma {:induction false} StateTracks(samples: seq<Sample>, n: nat)
    requires n <= |samples|
    ensures Tracks(samples, n, StateAfter(samples, n))
  {
    if n > 0 {
      StateTracks(samples, n - 1);
      if !Recovered(samples, n - 1) {
        forall kind
          ensures Raised(samples, EpisodeStart(samples, n), n, kind) <==>
                  Raised(samples, EpisodeStart(samples, n), n - 1, kind) || AlertAt(samples, n - 1) == kind
        {
          RaisedStep(samples, EpisodeStart(samples, n), n, kind);
        }
        TracksStep(samples, n);
      }
    }
  }

  lemma TracksStep(samples: seq<Sample>, n: nat)
    requires 0 < n <= |samples| && !Recovered(samples, n - 1)
    requires Tracks(samples, n - 1, StateAfter(samples, n - 1))
    requires forall kind :: Raised(samples, EpisodeStart(samples, n), n, kind) <==>
               Raised(samples, EpisodeStart(samples, n), n - 1, kind) || AlertAt(samples, n - 1) == kind
    ensures Tracks(samples, n, StateAfter(samples, n))
  {
    var start := EpisodeStart(samples, n);
    var s' := StateAfter(samples, n);
    forall m | start <= m < n && AlertAt(samples, m) == Warning ensures s'.since == samples[m].now {
      if m < n - 1 { assert Raised(samples, start, n - 1, Warning); }
    }
  }

  // Over any sequence of samples: within one episode there is at most one
  // warning and at most one error; a warning needs a lag of at least 30 blocks;
  // an error comes after its episode's warning and at least two minutes later.
  lemma AlertsPerEpisode(samples: seq<Sample>, i: nat, j: nat)
    requires i < j < |samples| && EpisodeStart(samples, j) <= i
    ensures AlertAt(samples, i) == Warning ==> AlertAt(samples, j) != Warning
    ensures AlertAt(samples, i) == Error ==> AlertAt(samples, j) == Quiet
    ensures AlertAt(samples, j) == Warning ==> samples[j].head - samples[j].processed >= 30 && AlertAt(samples, i) == Quiet
    ensures AlertAt(samples, j) == Error && AlertAt(samples, i) == Warning ==>
              samples[j].now - samples[i].now >= 120_000
  {
    StateTracks(samples, j);
  }

  lemma ErrorNeedsWarning(samples: seq<Sample>, j: nat) returns (i: nat)
    requires j < |samples| && AlertAt(samples, j) == Error
    ensures EpisodeStart(samples, j) <= i < j && AlertAt(samples, i) == Warning
    ensures samples[j].now - samples[i].now >= 120_000
  {
    StateTracks(samples, j);
    i :| EpisodeStart(samples, j) <= i < j && AlertAt(samples, i) == Warning;
  }

  // Exactly when they come: a sample warns if it lags 30 blocks and none warned
  // before it in its episode; it escalates if it has not recovered, one did, two
  // minutes have passed since, and none escalated before it; otherwise it is quiet.
  lemma AlertsExactly(samples: seq<Sample>, j: nat)
    requires j < |samples|
    ensures AlertAt(samples, j) == Warning <==>
              && samples[j].head - samples[j].processed >= 30
              && forall m :: EpisodeStart(samples, j) <= m < j ==> AlertAt(samples, m) != Warning
    ensures AlertAt(samples, j) == Error <==>
              && samples[j].head - samples[j].processed > 2
              && (exists i :: EpisodeStart(samples, j) <= i < j && AlertAt(samples, i) == Warning
                              && samples[j].now - samples[i].now >= 120_000)
              && forall m :: EpisodeStart(samples, j) <= m < j ==> AlertAt(samples, m) != Error
  {
    StateTracks(samples, j);
  }

  // The daemon's side: one field, updated by every sample.
  class Monitor {
    var lagAlert: AlertState
    ghost var samples: seq<Sample>

    ghost predicate Valid() reads this { lagAlert == StateAfter(samples, |samples|) }

    constructor ()
      ensures Valid() && samples == []
    {
      lagAlert := RESET;
      samples := [];
    }

    method MaybeAlertChainLag(head: int, processed: int, now: int) returns (kind: Alert)
      requires Valid()
      modifies this
      ensures Valid() && samples == old(samples) + [Sample(head, processed, now)]
      ensures kind == AlertAt(samples, |old(samples)|)
    {
      ghost var before := samples;
      var next := NextLagAlert(lagAlert, ChainLag(head, processed), now);
      lagAlert, kind := next.0, next.1;
      samples := samples + [Sample(head, processed, now)];
      StatePrefix(before, [Sample(head, processed, now)], |before|);
    }
  }

  // Later samples do not change earlier states.
  lemma {:induction false} StatePrefix(samples: seq<Sample>, more: seq<Sample>, n: nat)
    requires n <= |samples|
    ensures StateAfter(samples + more, n) == StateAfter(samples, n)
  {
    if n > 0 {
      StatePrefix(samples, more, n - 1);
      assert (samples + more)[n - 1] == samples[n - 1];
    }
  }
}
