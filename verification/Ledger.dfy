// The payout ledger as a step machine.  One step is one committed statement (or
// one committed database transaction) of the daemon, or of an operator request
// served by the API process; between any two daemon steps any number of API
// steps may happen, and the daemon may stop at any point and start again.
module Ledger {
  import opened Prelude
  import opened ChainPolicy
  import opened Tables
  import Rewards

  // A staker row to insert.
  datatype Entrant = Entrant(epoch: nat, staker: Staker)

  // Where the daemon is, with the work list it read before the current step.
  datatype Daemon =
    | Idle
    | Electing(epochs: seq<nat>, todo: seq<nat>, status: EpochStatus, left: seq<Entrant>) // handleElection, epoch rows and stakers still to insert
    | Collecting(batch: nat, shares: seq<Rewards.Share>)   // handleCheckpoint, payslips still to insert
    | Proposing(rows: seq<EligibleRow>)                    // runPayouts
    | Submitting(ids: seq<nat>)                            // processApprovedPayouts
    | Sending(hash: Hash, ids: seq<nat>)                   // claim committed, not yet broadcast
    | Confirming(hashes: seq<Hash>)                        // runConfirmations
    | Settling(hash: Hash, final: TxStatus, hashes: seq<Hash>) // transaction row written, payslips not yet

  // Recorded by the model only: which payslips each audit row's amount counted,
  // which audit row each hash was claimed for, and what reached the network.
  datatype History = History(basis: seq<set<nat>>, auditOf: map<Hash, nat>, sent: set<Hash>)

  datatype Sys = Sys(t: Tables, pc: Daemon, hist: History)

  const INITIAL := Sys(EMPTY, Idle, History([], map[], {}))

  datatype Step =
    | BeginElection(epochStatus: EpochStatus, stakers: seq<Staker>)
    | AddEpoch
    | AddStaker
    | CollectReward(reward: nat, basisPoints: nat)
    | AddPayslip
    | AdvanceCursor
    | RewindCursor    // the cursor could not be read: genesis is replayed, and its upsert writes it back
    | ListEligible(min: nat, rows: seq<EligibleRow>)
    | Propose(fee: nat, kind: PayoutKind, dryRun: bool)
    | ListApproved(ids: seq<nat>)
    | Claim(hash: Hash, head: nat)
    | Broadcast
    | ListAwaiting(hashes: seq<Hash>)
    | MarkTransaction(final: TxStatus)
    | MarkPayslips
    | FinalizeEpochs
    | Pass            // `continue`: the head of the work list is held, skipped or failed
    | Return          // the pass is over: finished, returned an error, or the process stopped
    | ApiSkip(id: nat)
    | ApiApprove(id: nat)
    | ApiRetry(hash: Hash)

  predicate IsApi(step: Step) {
    step.ApiSkip? || step.ApiApprove? || step.ApiRetry?
  }

  // ---- heights --------------------------------------------------------------

  function NextHeight(p: Policy, t: Tables): nat {
    if t.cursor.Some? then t.cursor.value + 1 else p.genesis
  }

  // The epochs an election at this height snapshots, in insertion order.
  function ElectionEpochs(p: Policy, height: nat): seq<nat>
    requires p.Valid()
  {
    [EpochAt(p, height) + 1] + if height == p.genesis then [EpochAt(p, height)] else []
  }

  // handleElection's early return: one of its epochs has a row already.
  predicate ElectionSeen(p: Policy, t: Tables, height: nat)
    requires p.Valid()
  {
    exists e :: e in ElectionEpochs(p, height) && e in t.epochs
  }

  // What processHeight has established when it returns without an error: an
  // election leaves at least the first of its epoch rows it looks for, a batch
  // boundary leaves the reward row.
  predicate HeightDone(p: Policy, t: Tables, height: nat)
    requires p.Valid() && p.genesis <= height
  {
    && (Classify(p, height) == Election ==> ElectionSeen(p, t, height))
    && (Classify(p, height) != Micro && BatchAt(p, height) > 0 ==> BatchAt(p, height) - 1 in t.rewards)
  }

  // ---- the step relation ----------------------------------------------------

  predicate IsHeightStep(step: Step) {
    step.BeginElection? || step.AddEpoch? || step.AddStaker? || step.CollectReward? || step.AdvanceCursor? || step.RewindCursor?
  }

  // The boundary whose reward is collected while the daemon works on `height`.
  predicate IsBoundary(p: Policy, height: nat)
    requires p.Valid()
  {
    p.genesis <= height && Classify(p, height) != Micro && BatchAt(p, height) > 0
  }

  // The staker rows of an election, epoch by epoch, in insertion order.
  function Roster(epochs: seq<nat>, stakers: seq<Staker>): seq<Entrant> {
    if epochs == [] then [] else Entrants(epochs[0], stakers) + Roster(epochs[1..], stakers)
  }

  function Entrants(epoch: nat, stakers: seq<Staker>): seq<Entrant> {
    seq(|stakers|, i requires 0 <= i < |stakers| => Entrant(epoch, stakers[i]))
  }

  predicate HeightEnabled(p: Policy, t: Tables, pc: Daemon, step: Step)
    requires p.Valid() && IsHeightStep(step)
  {
    var h := NextHeight(p, t);
    match step
    case BeginElection(status, stakers) =>
      pc.Idle? && p.genesis <= h && Classify(p, h) == Election && status != EpochCompleted && !ElectionSeen(p, t, h)
    case AddEpoch => pc.Electing? && pc.todo != [] && pc.todo[0] !in t.epochs
    case AddStaker =>
      && pc.Electing? && pc.todo == [] && pc.left != [] && pc.left[0].epoch in t.epochs
      && pc.left[0].staker.address !in Rewards.Addresses(StakersOf(t, pc.left[0].epoch))
    case CollectReward(reward, bp) =>
      && pc.Idle? && bp <= Rewards.BASIS && IsBoundary(p, h)
      && BatchAt(p, h) - 1 !in t.rewards && RewardEpoch(p, h) in t.epochs
    case AdvanceCursor => pc.Idle? && p.genesis <= h && HeightDone(p, t, h)
    case RewindCursor => pc.Idle? && t.cursor.Some?
  }

  function HeightApply(p: Policy, t: Tables, pc: Daemon, step: Step): Tables
    requires p.Valid() && IsHeightStep(step) && HeightEnabled(p, t, pc, step)
  {
    var h := NextHeight(p, t);
    match step
    case BeginElection(_, _) => t
    case AddEpoch => t.(epochs := t.epochs[pc.todo[0] := pc.status])
    case AddStaker => t.(stakers := t.stakers[pc.left[0].epoch := StakersOf(t, pc.left[0].epoch) + [pc.left[0].staker]])
    case CollectReward(reward, bp) =>
      var split := Rewards.SplitReward(reward, bp);
      var epoch := RewardEpoch(p, h);
      t.(rewards := t.rewards[BatchAt(p, h) - 1 :=
         Reward(epoch, split.afterFee, split.fee, |StakersOf(t, epoch)|)])
    case AdvanceCursor => t.(cursor := Some(h))
    case RewindCursor => t.(cursor := Some(p.genesis))
  }

  // Where the daemon goes on; only a validator that can earn has stakers to insert.
  function HeightGoesOn(p: Policy, t: Tables, pc: Daemon, step: Step): Daemon
    requires p.Valid() && IsHeightStep(step) && HeightEnabled(p, t, pc, step)
  {
    match step
    case BeginElection(status, stakers) =>
      var epochs := ElectionEpochs(p, NextHeight(p, t));
      Electing(epochs, epochs, status, if status == InProgress then Roster(epochs, stakers) else [])
    case AddEpoch => pc.(todo := pc.todo[1..])
    case AddStaker => pc.(left := pc.left[1..])
    case CollectReward(reward, bp) =>
      Collecting(BatchAt(p, NextHeight(p, t)) - 1, PlanFor(p, t, reward, bp))
    case AdvanceCursor => pc
    case RewindCursor => pc
  }

  // The payslips handleCheckpoint goes on to insert after recording the reward.
  function PlanFor(p: Policy, t: Tables, reward: nat, basisPoints: nat): seq<Rewards.Share>
    requires p.Valid() && IsBoundary(p, NextHeight(p, t)) && basisPoints <= Rewards.BASIS
  {
    var stakers := StakersOf(t, RewardEpoch(p, NextHeight(p, t)));
    Rewards.Plan(stakers, reward, Rewards.SplitReward(reward, basisPoints).afterFee)
  }

  ghost predicate Enabled(p: Policy, s: Sys, step: Step)
    requires p.Valid()
  {
    if IsHeightStep(step) then HeightEnabled(p, s.t, s.pc, step)
    else PayoutEnabled(s, step)
  }

  ghost predicate PayoutEnabled(s: Sys, step: Step)
    requires !IsHeightStep(step)
  {
    var t := s.t;
    match step
    case AddPayslip => s.pc.Collecting? && s.pc.shares != []
    case ListEligible(min, rows) => s.pc.Idle? && ListsEligible(t, min, rows)
    case Propose(fee, kind, dryRun) => s.pc.Proposing? && s.pc.rows != []
    case ListApproved(ids) =>
      && s.pc.Idle? && Distinct(ids)
      && forall id :: id in ids <==> 0 <= id < |t.audits| && t.audits[id].status == Approved
    case Claim(hash, head) =>
      s.pc.Submitting? && s.pc.ids != [] && Persist(t, s.pc.ids[0], hash, head).Success?
    case Broadcast => s.pc.Sending?
    case ListAwaiting(hashes) =>
      && s.pc.Idle? && Distinct(hashes)
      && forall x :: x in hashes <==> x in t.transactions && t.transactions[x].status == TxAwaiting
    case MarkTransaction(final) =>
      s.pc.Confirming? && s.pc.hashes != [] && s.pc.hashes[0] in t.transactions && final != TxAwaiting
    case MarkPayslips => s.pc.Settling?
    case FinalizeEpochs => s.pc.Confirming? && s.pc.hashes == []
    case Pass => AfterPass(s.pc) != s.pc
    case Return => true
    case ApiSkip(id) => id < |t.audits|
    case ApiApprove(id) => id < |t.audits| && t.audits[id].status == AuditPending
    case ApiRetry(hash) => RetryIds(t, hash) != {}
  }

  function PaidStatus(final: TxStatus): PayslipStatus {
    if final == TxCompleted then Completed else Failed
  }

  function AfterPass(pc: Daemon): Daemon {
    match pc
    case Proposing(rows) => if rows == [] then pc else Proposing(rows[1..])
    case Submitting(ids) => if ids == [] then pc else Submitting(ids[1..])
    case Confirming(hashes) => if hashes == [] then pc else Confirming(hashes[1..])
    case Settling(_, _, hashes) => Confirming(hashes)
    case _ => pc
  }

  ghost function Apply(p: Policy, s: Sys, step: Step): Sys
    requires p.Valid() && Enabled(p, s, step)
  {
    if IsHeightStep(step) then
      Sys(HeightApply(p, s.t, s.pc, step), HeightGoesOn(p, s.t, s.pc, step), s.hist)
    else PayoutApply(s, step)
  }

  ghost function PayoutApply(s: Sys, step: Step): Sys
    requires !IsHeightStep(step) && PayoutEnabled(s, step)
  {
    var t := s.t;
    match step
    case AddPayslip =>
      s.(t := t.(payslips := t.payslips + [NewPayslip(s.pc.batch, s.pc.shares[0])]),
         pc := Collecting(s.pc.batch, s.pc.shares[1..]))
    case ListEligible(min, rows) => s.(pc := Proposing(rows))
    case Propose(fee, kind, dryRun) =>
      s.(t := t.(audits := t.audits + [NewAudit(s.pc.rows[0], fee, kind, dryRun)]),
         pc := Proposing(s.pc.rows[1..]),
         hist := s.hist.(basis := s.hist.basis + [s.pc.rows[0].ids]))
    case ListApproved(ids) => s.(pc := Submitting(ids))
    case Claim(hash, head) =>
      Sys(Persist(t, s.pc.ids[0], hash, head).value, Sending(hash, s.pc.ids[1..]),
          s.hist.(auditOf := s.hist.auditOf[hash := s.pc.ids[0]]))
    case Broadcast => s.(pc := Submitting(s.pc.ids), hist := s.hist.(sent := s.hist.sent + {s.pc.hash}))
    case ListAwaiting(hashes) => s.(pc := Confirming(hashes))
    case MarkTransaction(final) =>
      s.(t := t.(transactions := SetTransactionStatus(t.transactions, s.pc.hashes[0], final)),
         pc := Settling(s.pc.hashes[0], final, s.pc.hashes[1..]))
    case MarkPayslips =>
      s.(t := t.(payslips := SetPayslipStatus(t.payslips, s.pc.hash, PaidStatus(s.pc.final))),
         pc := Confirming(s.pc.hashes))
    case FinalizeEpochs => s.(t := t.(epochs := FinalizeCompletedEpochs(t)), pc := Idle)
    case Pass => s.(pc := AfterPass(s.pc))
    case Return => s.(pc := Idle)
    case ApiSkip(id) => s.(t := t.(audits := SetAuditStatus(t.audits, id, Skipped)))
    case ApiApprove(id) => s.(t := t.(audits := SetAuditStatus(t.audits, id, Approved)))
    case ApiRetry(hash) => s.(t := t.(payslips := RetryFailedPayoutPayslips(t, hash)))
  }

  // ---- runs -----------------------------------------------------------------

  // A run: the states passed through and the step taken from each to the next.
  datatype Run = Run(states: seq<Sys>, steps: seq<Step>)

  ghost predicate IsRun(p: Policy, r: Run)
    requires p.Valid()
  {
    && |r.states| == |r.steps| + 1
    && r.states[0] == INITIAL
    && forall i :: 0 <= i < |r.steps| ==> IsStep(p, r, i)
  }

  ghost predicate IsStep(p: Policy, r: Run, i: nat)
    requires p.Valid() && |r.states| == |r.steps| + 1
  {
    i < |r.steps| && Enabled(p, r.states[i], r.steps[i]) && r.states[i + 1] == Apply(p, r.states[i], r.steps[i])
  }
}
