// Height replay (pool.go, election.go, checkpoint.go): the cursor loop and its
// two handlers.  What the chain answers at a height is a parameter; `faults`
// lets any insert fail.
module Replay {
  import opened Prelude
  import opened Sums
  import opened Filters
  import opened Arithmetic
  import opened ChainPolicy
  import opened Tables
  import opened Ledger
  import opened LedgerInvariant
  import opened LedgerHeights
  import opened Database
  import Rewards

  datatype Validator = Validator(retired: bool, inactivityFlag: Option<nat>, jailedFrom: Option<nat>, numStakers: nat)
  datatype Inherent = Inherent(isReward: bool, validator: Address, value: nat)

  // What the node says at one height: None is a failed call.
  datatype View = View(validator: Option<Validator>, stakers: Option<seq<Staker>>, inherents: Option<seq<Inherent>>)

  // Why the validator cannot earn in the next epoch, if it cannot.
  function IneligibleStatus(v: Validator, height: nat): Option<EpochStatus> {
    if v.retired then Some(Retired)
    else if v.inactivityFlag.Some? && v.inactivityFlag.value > height then Some(Inactive)
    else if v.jailedFrom.Some? && v.jailedFrom.value > height then Some(Jailed)
    else if v.numStakers == 0 then Some(NoStakers)
    else None
  }

  function ElectionStatus(view: View, height: nat): EpochStatus {
    if view.validator.None? then NotElected
    else IneligibleStatus(view.validator.value, height).GetOr(InProgress)
  }

  // The status of the rows an election leaves, from what the node answered about the
  // validator, the first of these that holds: no answer, retired, inactive beyond the
  // height, jailed beyond it, without stakers; and otherwise in progress.
  predicate StatusFor(validator: Option<Validator>, height: nat, status: EpochStatus) {
    if validator.None? then status == NotElected
    else
      var v := validator.value;
      var inactive := v.inactivityFlag.Some? && height < v.inactivityFlag.value;
      var jailed := v.jailedFrom.Some? && height < v.jailedFrom.value;
      && (status == InProgress <==> !v.retired && !inactive && !jailed && v.numStakers > 0)
      && (status == Retired <==> v.retired)
      && (status == Inactive <==> !v.retired && inactive)
      && (status == Jailed <==> !v.retired && !inactive && jailed)
      && (status == NoStakers <==> !v.retired && !inactive && !jailed && v.numStakers == 0)
  }

  // The stakers an election snapshots: those with a balance.
  function Snapshot(stakers: seq<Staker>): seq<Staker> {
    if stakers == [] then []
    else
      var n := |stakers| - 1;
      Snapshot(stakers[..n]) + if stakers[n].stake == 0 then [] else [stakers[n]]
  }

  // They are the stakers with a balance, each place once, in the node's order.
  ghost predicate Picked(stakers: seq<Staker>, kept: seq<Staker>, places: seq<nat>) {
    && |kept| == |places| && Places(places, |stakers|)
    && (forall k :: 0 <= k < |places| ==> kept[k] == stakers[places[k]])
    && (forall i :: 0 <= i < |stakers| ==> (i in places <==> stakers[i].stake > 0))
  }

  function WithBalance(s: Staker): Option<Staker> {
    if s.stake == 0 then None else Some(s)
  }

  lemma {:induction false} SnapshotKeeps(stakers: seq<Staker>)
    ensures Snapshot(stakers) == Keep(stakers, WithBalance)
  {
    if stakers != [] { SnapshotKeeps(stakers[..|stakers| - 1]); }
  }

  lemma SnapshotPicks(stakers: seq<Staker>) returns (places: seq<nat>)
    ensures Picked(stakers, Snapshot(stakers), places)
  {
    SnapshotKeeps(stakers);
    places := KeepKeeps(stakers, WithBalance);
  }

  // The epoch's row has the status the node's answer asks for; if that is in
  // progress its snapshot holds the stakers picked, and otherwise nobody.
  ghost predicate Elected(t: Tables, height: nat, view: View, epoch: nat) {
    && epoch in t.epochs && StatusFor(view.validator, height, t.epochs[epoch])
    && if t.epochs[epoch] == InProgress then
         view.stakers.Some? && exists places :: Picked(view.stakers.value, StakersOf(t, epoch), places)
       else StakersOf(t, epoch) == []
  }

  // The epochs an election is for: the next one, and at genesis the one it closes.
  predicate For(p: Policy, height: nat, epoch: nat)
    requires p.Valid()
  {
    epoch == EpochAt(p, height) + 1 || (height == p.genesis && epoch == EpochAt(p, height))
  }

  lemma ElectedIs(p: Policy, t: Tables, t': Tables, height: nat, view: View)
    requires p.Valid() && t'.epochs == WithRows(t.epochs, ElectionEpochs(p, height), ElectionStatus(view, height))
    requires !ElectionSeen(p, t, height) && (ElectionStatus(view, height) == InProgress ==> view.stakers.Some?)
    requires forall e :: e in ElectionEpochs(p, height) ==>
               StakersOf(t', e) == if ElectionStatus(view, height) == InProgress then Snapshot(view.stakers.GetOr([])) else []
    ensures forall e :: e in t'.epochs ==> e in t.epochs || For(p, height, e)
    ensures forall e :: For(p, height, e) ==> Elected(t', height, view, e)
  {
    ForIs(p, height);
    StatusIs(view, height);
    var places := SnapshotPicks(view.stakers.GetOr([]));
    forall e | For(p, height, e) ensures Elected(t', height, view, e) {
      assert e in ElectionEpochs(p, height) && e !in t.epochs;
    }
  }

  lemma StatusIs(view: View, height: nat)
    ensures StatusFor(view.validator, height, ElectionStatus(view, height))
  {
  }

  lemma ForIs(p: Policy, height: nat)
    requires p.Valid()
    ensures forall e :: e in ElectionEpochs(p, height) <==> For(p, height, e)
  {
    var next := EpochAt(p, height) + 1;
    assert ElectionEpochs(p, height) == if height == p.genesis then [next] + [EpochAt(p, height)] else [next] + [];
  }

  // The node's answers suffice to finish an election: the validator cannot earn,
  // or the stakers are known, no address twice.
  predicate Answered(view: View, height: nat) {
    ElectionStatus(view, height) == InProgress ==>
      view.stakers.Some? && Distinct(Rewards.Addresses(Snapshot(view.stakers.value)))
  }

  // The epoch table with rows of one status for the listed epochs.
  function WithRows(epochs: map<nat, EpochStatus>, added: seq<nat>, status: EpochStatus): map<nat, EpochStatus> {
    map e | e in epochs.Keys + (set n | n in added) :: if e in epochs then epochs[e] else status
  }

  predicate Complete(p: Policy, height: nat, view: View)
    requires p.Valid() && p.genesis <= height
  {
    (Classify(p, height) == Election ==> Answered(view, height)) && view.inherents.Some?
  }

  // Every height from there on is done already, or the node's answers suffice.
  ghost predicate AllComplete(p: Policy, t: Tables, from: nat, head: nat, views: nat -> View)
    requires p.Valid()
  {
    forall h :: p.genesis <= h && from <= h <= head ==> HeightDone(p, t, h) || Complete(p, h, views(h))
  }

  // A cursor that cannot be read counts as missing.
  function StartHeight(p: Policy, t: Tables, readable: bool): nat {
    if readable then NextHeight(p, t) else p.genesis
  }

  // The genesis election was not cut between its two rows.
  predicate NotCut(t: Tables) {
    1 in t.epochs ==> 0 in t.epochs
  }

  // This validator's reward inherents, added up in 64 bits.
  function OwnReward(inherents: seq<Inherent>, me: Address): nat {
    if inherents == [] then 0
    else
      var n := |inherents| - 1;
      var own := inherents[n].isReward && inherents[n].validator == me;
      if own then (OwnReward(inherents[..n], me) + inherents[n].value) % TWO64
      else OwnReward(inherents[..n], me)
  }

  function PayslipsOf(batch: nat, shares: seq<Rewards.Share>): seq<Payslip> {
    seq(|shares|, i requires 0 <= i < |shares| => NewPayslip(batch, shares[i]))
  }

  // The batch that ends at `height` has been collected: its reward row is added,
  // and the planned payslips follow in order, all of them if `whole`.
  predicate Collected(p: Policy, t: Tables, t': Tables, height: nat, reward: nat, basisPoints: nat, whole: bool)
    requires p.Valid() && IsBoundary(p, height) && basisPoints <= Rewards.BASIS
  {
    var batch, epoch := BatchAt(p, height) - 1, RewardEpoch(p, height);
    var stakers, split := StakersOf(t, epoch), Rewards.SplitReward(reward, basisPoints);
    var plan := PayslipsOf(batch, Rewards.Plan(stakers, reward, split.afterFee));
    && epoch in t.epochs
    && t'.rewards == t.rewards[batch := Reward(epoch, split.afterFee, split.fee, |stakers|)]
    && |t.payslips| <= |t'.payslips|
    && t'.payslips[|t.payslips|..] <= plan
    && (whole ==> t'.payslips[|t.payslips|..] == plan)
  }

  // The node's reward inherents for this validator, added up; stored in 64 bits.
  function OwnSum(inherents: seq<Inherent>, me: Address): nat {
    Sum(Values(inherents), set i | 0 <= i < |inherents| && inherents[i].isReward && inherents[i].validator == me)
  }

  function OwnValue(inherents: seq<Inherent>, me: Address): nat {
    OwnSum(inherents, me) % 0x1_0000_0000_0000_0000
  }

  function Values(inherents: seq<Inherent>): seq<nat> {
    seq<nat>(|inherents|, i requires 0 <= i < |inherents| => inherents[i].value)
  }

  lemma OwnSumGrows(inherents: seq<Inherent>, me: Address)
    requires inherents != []
    ensures var n := |inherents| - 1;
            OwnSum(inherents, me) == OwnSum(inherents[..n], me)
              + if inherents[n].isReward && inherents[n].validator == me then inherents[n].value else 0
  {
    var n := |inherents| - 1;
    var ids := set i | 0 <= i < |inherents| && inherents[i].isReward && inherents[i].validator == me;
    var front := set i | 0 <= i < n && inherents[..n][i].isReward && inherents[..n][i].validator == me;
    assert Values(inherents) == Values(inherents[..n]) + [inherents[n].value];
    SumAppend(Values(inherents[..n]), inherents[n].value, ids);
    SumSameIds(Values(inherents[..n]), ids, front);
  }

  lemma {:induction false} OwnRewardIs(inherents: seq<Inherent>, me: Address)
    ensures OwnReward(inherents, me) == OwnValue(inherents, me)
  {
    if inherents == [] {
      SumEmpty(Values(inherents));
    } else {
      var n := |inherents| - 1;
      OwnRewardIs(inherents[..n], me);
      OwnSumGrows(inherents, me);
      AddedModulo(OwnSum(inherents[..n], me), inherents[n].value, TWO64);
    }
  }

  lemma AddedModulo(sum: nat, more: nat, m: nat)
    requires m > 0
    ensures (sum % m + more) % m == (sum + more) % m
  {
    var q := sum / m;
    assert sum + more == (sum % m + more) + q * m;
    WholeTurns(sum % m + more, q, m);
  }

  lemma WholeTurns(x: nat, q: nat, m: nat)
    requires m > 0
    ensures (x + q * m) % m == x % m
  {
    var r := x / m;
    assert x + q * m == (r + q) * m + x % m;
    DivIs(x + q * m, m, r + q);
  }

  // Payslips of the batch for the shares of a fund, in order, each pending.
  ghost predicate PaidOut(batch: nat, fund: nat, stakers: seq<Staker>, shares: seq<Rewards.Share>, places: seq<nat>, slips: seq<Payslip>) {
    && Rewards.SharedOut(stakers, fund, shares, places)
    && |slips| <= |shares|
    && forall k :: 0 <= k < |slips| ==> slips[k] == Payslip(batch, shares[k].address, shares[k].amount, Pending, None)
  }

  // What collecting a batch must leave: a reward row with this validator's own
  // rewards less the fee, the fee, and the epoch's stakers counted; and payslips
  // for that amount shared out by stake, the first of them or all.
  ghost predicate PaidFor(p: Policy, t: Tables, t': Tables, height: nat, inherents: seq<Inherent>, me: Address, basisPoints: nat, whole: bool)
    requires p.Valid() && IsBoundary(p, height)
  {
    var batch := BatchAt(p, height) - 1;
    var reward, stakers := OwnValue(inherents, me), StakersOf(t, EpochOfBatch(p, batch));
    && batch in t'.rewards && |t.payslips| <= |t'.payslips|
    && var row, slips := t'.rewards[batch], t'.payslips[|t.payslips|..];
       && row.epoch == EpochOfBatch(p, batch) && row.numStakers == |stakers|
       && row.amount + row.poolFee == reward
       && row.poolFee == reward * basisPoints % 0x1_0000_0000_0000_0000 / 10000
       && exists shares, places ::
            PaidOut(batch, row.amount, stakers, shares, places, slips) && (whole ==> |slips| == |shares|)
  }

  lemma CollectedPays(p: Policy, t: Tables, t': Tables, height: nat, inherents: seq<Inherent>, me: Address, basisPoints: nat, whole: bool)
    requires p.Valid() && IsBoundary(p, height) && basisPoints <= Rewards.BASIS
    requires Collected(p, t, t', height, OwnReward(inherents, me), basisPoints, whole)
    ensures PaidFor(p, t, t', height, inherents, me, basisPoints, whole)
  {
    var batch, reward := BatchAt(p, height) - 1, OwnReward(inherents, me);
    var split := Rewards.SplitReward(reward, basisPoints);
    var stakers := StakersOf(t, RewardEpoch(p, height));
    RewardEpochIs(p, height);
    OwnRewardIs(inherents, me);
    Rewards.SplitConserves(reward, basisPoints);
    var shares := Rewards.Plan(stakers, reward, split.afterFee);
    var places := Rewards.PlanIsSharedOut(stakers, reward, split.afterFee);
    var slips := t'.payslips[|t.payslips|..];
    assert forall k :: 0 <= k < |slips| ==> slips[k] == PayslipsOf(batch, shares)[k];
    assert PaidOut(batch, split.afterFee, stakers, shares, places, slips);
  }

  method SumInherents(inherents: seq<Inherent>, me: Address) returns (reward: nat)
    ensures reward == OwnReward(inherents, me)
  {
    reward := 0;
    for i := 0 to |inherents|
      invariant reward == OwnReward(inherents[..i], me)
    {
      assert inherents[..i + 1][..i] == inherents[..i];
      if inherents[i].isReward && inherents[i].validator == me {
        reward := (reward + inherents[i].value) % TWO64;
      }
    }
    assert inherents[..|inherents|] == inherents;
  }

  method SumStakes(stakers: seq<Staker>) returns (total: nat)
    ensures total == Total(Rewards.Stakes(stakers))
  {
    total := 0;
    for i := 0 to |stakers|
      invariant total == Total(Rewards.Stakes(stakers[..i]))
    {
      assert stakers[..i + 1][..i] == stakers[..i];
      Rewards.TotalStakeSplit(stakers[..i + 1]);
      total := total + stakers[i].stake;
    }
    assert stakers[..|stakers|] == stakers;
  }

  class Replayer {
    const db: Database
    const me: Address          // the pool wallet
    const basisPoints: nat     // the pool fee

    constructor (db: Database, me: Address, basisPoints: nat)
      ensures this.db == db && this.me == me && this.basisPoints == basisPoints
    {
      this.db, this.me, this.basisPoints := db, me, basisPoints;
    }

    // Everything replay does not write at a batch boundary.
    twostate predicate OnlyCheckpointTables()
      reads db
    {
      && db.cursor == old(db.cursor) && db.epochs == old(db.epochs) && db.stakers == old(db.stakers)
      && db.transactions == old(db.transactions)
    }

    // The first payslips of the plan are in the table, from row `first` on, and
    // the rest of it is still to insert.
    ghost predicate Partway(batch: nat, first: nat, plan: seq<Rewards.Share>)
      reads db
    {
      && db.pc.Collecting? && db.pc.batch == batch
      && |db.pc.shares| <= |plan| && db.pc.shares == plan[|plan| - |db.pc.shares|..]
      && |db.payslips| == first + |plan| - |db.pc.shares|
      && forall k :: first <= k < |db.payslips| ==> db.payslips[k] == NewPayslip(batch, plan[k - first])
    }

    // One payslip insert, after whatever the operator did meanwhile.
    method InsertNext(batch: nat, share: Rewards.Share, ghost first: nat, ghost plan: seq<Rewards.Share>, faults: bool)
      returns (ok: bool)
      requires db.Valid() && Partway(batch, first, plan)
      requires db.pc.shares != [] && db.pc.shares[0] == share
      modifies db
      ensures !ok ==> faults
      ensures db.Valid() && Extends(old(db.run), db.run) && Partway(batch, first, plan)
      ensures OnlyCheckpointTables() && db.rewards == old(db.rewards)
      ensures ok ==> |db.pc.shares| == |old(db.pc.shares)| - 1
    {
      db.Interfere();
      var insertFails: bool := *;
      if faults && insertFails { return false; }
      db.InsertPayslip(batch, share);
      ok := true;
    }

    // One payslip per staker with a non-zero share, in the stakers' order; the
    // insert that fails, if one does, ends the batch for good.
    method InsertPayslips(batch: nat, stakers: seq<Staker>, afterFee: nat, totalStake: nat, faults: bool) returns (ok: bool)
      requires db.Valid() && totalStake > 0
      requires db.pc == Collecting(batch, Rewards.Shares(stakers, afterFee, totalStake))
      modifies db
      ensures db.Valid() && Extends(old(db.run), db.run)
      ensures OnlyCheckpointTables() && db.rewards == old(db.rewards)
      ensures Partway(batch, |old(db.payslips)|, Rewards.Shares(stakers, afterFee, totalStake))
      ensures !faults ==> ok
      ensures ok ==> db.pc.shares == []
    {
      ghost var plan, first := db.pc.shares, |db.payslips|;
      for i := 0 to |stakers|
        invariant db.Valid() && Extends(old(db.run), db.run)
        invariant OnlyCheckpointTables() && db.rewards == old(db.rewards)
        invariant Partway(batch, first, plan)
        invariant |Rewards.Shares(stakers[..i], afterFee, totalStake)| == |plan| - |db.pc.shares|
      {
        SharesGrow(stakers, afterFee, totalStake, i);
        var share := Rewards.ShareOf(afterFee, stakers[i].stake, totalStake);
        if share != 0 {
          var inserted := InsertNext(batch, Rewards.Share(stakers[i].address, share), first, plan, faults);
          if !inserted { return false; }
        }
      }
      assert stakers[..|stakers|] == stakers;
      ok := true;
    }

    // Everything replay does not write at an election.
    twostate predicate OnlyElectionTables()
      reads db
    {
      && db.cursor == old(db.cursor) && db.rewards == old(db.rewards) && db.transactions == old(db.transactions)
      && |db.payslips| == |old(db.payslips)|
    }

    // ---- elections ----------------------------------------------------------

    // One epoch row, after whatever the operator did meanwhile.
    method InsertRow(epoch: nat, status: EpochStatus, faults: bool) returns (ok: bool)
      requires db.Valid() && db.pc.Electing? && db.pc.todo != [] && db.pc.todo[0] == epoch && db.pc.status == status
      modifies db
      ensures db.Valid() && Extends(old(db.run), db.run)
      ensures OnlyElectionTables() && db.stakers == old(db.stakers)
      ensures !ok ==> faults
      ensures db.pc == if ok then old(db.pc).(todo := old(db.pc.todo)[1..]) else old(db.pc)
      ensures if ok then epoch !in old(db.epochs) && db.epochs == old(db.epochs)[epoch := status]
              else db.epochs == old(db.epochs)
    {
      db.Interfere();
      var insertFails: bool := *;
      if faults && insertFails { return false; }
      db.InsertEpoch(epoch, status);
      ok := true;
    }

    // One row per epoch; an insert that fails leaves the rows written before it.
    method InsertEpochs(es: seq<nat>, status: EpochStatus, faults: bool) returns (written: nat)
      requires db.Valid() && db.pc.Electing? && db.pc.todo == es && db.pc.status == status
      modifies db
      ensures db.Valid() && Extends(old(db.run), db.run)
      ensures OnlyElectionTables() && db.stakers == old(db.stakers)
      ensures written <= |es| && (written < |es| ==> faults)
      ensures db.pc == old(db.pc).(todo := es[written..])
      ensures db.epochs == WithRows(old(db.epochs), es[..written], status)
    {
      written := 0;
      var failed := false;
      while written < |es| && !failed
        invariant written <= |es| && (failed ==> faults)
        invariant db.Valid() && Extends(old(db.run), db.run)
        invariant db.pc == old(db.pc).(todo := es[written..])
        invariant OnlyElectionTables() && db.stakers == old(db.stakers)
        invariant db.epochs == WithRows(old(db.epochs), es[..written], status)
        decreases |es| - written, !failed
      {
        assert es[written..][1..] == es[written + 1..];
        var ok := InsertRow(es[written], status, faults);
        if ok {
          RowAdded(old(db.epochs), es, written, status);
          written := written + 1;
        } else {
          failed := true;
        }
      }
    }

    // One staker row; an address inserted before is refused by the primary key.
    method InsertEntrant(epoch: nat, staker: Staker, faults: bool,
                         ghost taken: seq<Staker>, ghost all: seq<Staker>, ghost rest: seq<Entrant>) returns (ok: bool)
      requires db.Valid() && db.pc.Electing? && db.pc.todo == []
      requires taken + [staker] <= all && StakersOf(db.T(), epoch) == taken
      requires db.pc.left == Entrants(epoch, all[|taken|..]) + rest
      modifies db
      ensures db.Valid() && Extends(old(db.run), db.run)
      ensures db.pc == if ok then old(db.pc).(left := Entrants(epoch, all[|taken| + 1..]) + rest) else old(db.pc)
      ensures OnlyElectionTables() && db.epochs == old(db.epochs)
      ensures forall e :: e != epoch ==> StakersOf(db.T(), e) == StakersOf(old(db.T()), e)
      ensures StakersOf(db.T(), epoch) == if ok then taken + [staker] else taken
      ensures !ok ==> faults || !Distinct(Rewards.Addresses(all))
    {
      db.Interfere();
      var insertFails: bool := *;
      if faults && insertFails { return false; }
      if staker.address in Rewards.Addresses(StakersOf(db.T(), epoch)) {
        TakenTwice(taken, staker, all);
        return false;
      }
      NextEntrant(epoch, taken, staker, all, rest);
      db.InsertStaker(epoch, staker);
      ok := true;
    }

    // The stakers of one epoch, those with a balance, in the node's order.
    method InsertStakers(epoch: nat, stakers: seq<Staker>, faults: bool, ghost rest: seq<Entrant>) returns (ok: bool)
      requires db.Valid() && db.pc.Electing? && db.pc.todo == []
      requires db.pc.left == Entrants(epoch, Snapshot(stakers)) + rest && StakersOf(db.T(), epoch) == []
      modifies db
      ensures db.Valid() && Extends(old(db.run), db.run)
      ensures db.pc.Electing? && (ok ==> db.pc == old(db.pc).(left := rest))
      ensures OnlyElectionTables() && db.epochs == old(db.epochs)
      ensures forall e :: e != epoch ==> StakersOf(db.T(), e) == StakersOf(old(db.T()), e)
      ensures StakersOf(db.T(), epoch) <= Snapshot(stakers)
      ensures ok ==> StakersOf(db.T(), epoch) == Snapshot(stakers)
      ensures !ok ==> faults || !Distinct(Rewards.Addresses(Snapshot(stakers)))
    {
      ghost var all := Snapshot(stakers);
      for i := 0 to |stakers|
        invariant db.Valid() && Extends(old(db.run), db.run)
        invariant Snapshot(stakers[..i]) <= all
        invariant db.pc == old(db.pc).(left := Entrants(epoch, all[|Snapshot(stakers[..i])|..]) + rest)
        invariant OnlyElectionTables() && db.epochs == old(db.epochs)
        invariant forall e :: e != epoch ==> StakersOf(db.T(), e) == StakersOf(old(db.T()), e)
        invariant StakersOf(db.T(), epoch) == Snapshot(stakers[..i])
      {
        SnapshotGrows(stakers, i);
        if stakers[i].stake != 0 {
          var inserted := InsertEntrant(epoch, stakers[i], faults, Snapshot(stakers[..i]), all, rest);
          if !inserted { return false; }
        }
      }
      assert stakers[..|stakers|] == stakers;
      ok := true;
    }

    method SnapshotEpochs(es: seq<nat>, stakers: seq<Staker>, faults: bool) returns (ok: bool)
      requires db.Valid() && db.pc.Electing? && db.pc.todo == [] && Distinct(es)
      requires db.pc.left == Roster(es, Snapshot(stakers))
      requires forall e :: e in es ==> StakersOf(db.T(), e) == []
      modifies db
      ensures db.Valid() && Extends(old(db.run), db.run) && db.pc.Electing?
      ensures OnlyElectionTables() && db.epochs == old(db.epochs)
      ensures forall e :: e !in es ==> StakersOf(db.T(), e) == StakersOf(old(db.T()), e)
      ensures ok ==> forall e :: e in es ==> StakersOf(db.T(), e) == Snapshot(stakers)
      ensures !ok ==> faults || !Distinct(Rewards.Addresses(Snapshot(stakers)))
    {
      for i := 0 to |es|
        invariant db.Valid() && Extends(old(db.run), db.run)
        invariant db.pc == old(db.pc).(left := Roster(es[i..], Snapshot(stakers)))
        invariant OnlyElectionTables() && db.epochs == old(db.epochs)
        invariant forall e :: e !in es[..i] ==> StakersOf(db.T(), e) == StakersOf(old(db.T()), e)
        invariant forall e :: e in es[..i] ==> StakersOf(db.T(), e) == Snapshot(stakers)
      {
        assert es[i] in es && es[i] !in es[..i];
        assert es[..i + 1] == es[..i] + [es[i]] && es[i..][1..] == es[i + 1..];
        var inserted := InsertStakers(es[i], stakers, faults, Roster(es[i + 1..], Snapshot(stakers)));
        if !inserted { return false; }
      }
      assert es[..|es|] == es;
      ok := true;
    }

    method HandleElection(height: nat, view: View, faults: bool) returns (ok: bool)
      requires db.Valid() && db.pc == Idle && db.policy.genesis <= height <= NextHeight(db.policy, db.T())
      requires Classify(db.policy, height) == Election
      modifies db
      ensures db.Valid() && Extends(old(db.run), db.run) && db.pc == Idle
      ensures OnlyElectionTables()
      // An election already seen is left alone.
      ensures ElectionSeen(db.policy, old(db.T()), height) ==> ok && db.S() == old(db.S())
      ensures ok ==> ElectionSeen(db.policy, db.T(), height)
      ensures !faults && Answered(view, height) ==> ok
      // A first one, finished, adds its rows and, if the validator earns, its stakers.
      ensures ok && !ElectionSeen(db.policy, old(db.T()), height) ==>
                && db.epochs == WithRows(old(db.epochs), ElectionEpochs(db.policy, height), ElectionStatus(view, height))
                && forall e :: e in ElectionEpochs(db.policy, height) ==>
                     StakersOf(db.T(), e) == if ElectionStatus(view, height) == InProgress
                                             then Snapshot(view.stakers.GetOr([])) else []
      // Said of the node's answer alone: unless one of the epochs it is for was there,
      // each of them is elected as answered, and no other is added.
      ensures (exists e :: e in old(db.epochs) && For(db.policy, height, e)) ==> ok && db.S() == old(db.S())
      ensures ok && (forall e :: e in old(db.epochs) ==> !For(db.policy, height, e)) ==>
                && (forall e :: For(db.policy, height, e) ==> Elected(db.T(), height, view, e))
                && (forall e :: e in db.epochs ==> e in old(db.epochs) || For(db.policy, height, e))
      // Epochs seen before keep their row and their stakers, finished or not.
      ensures forall e :: e in old(db.epochs) ==>
                e in db.epochs && db.epochs[e] == old(db.epochs)[e]
                && StakersOf(db.T(), e) == StakersOf(old(db.T()), e)
    {
      ForIs(db.policy, height);
      if ElectionSeen(db.policy, db.T(), height) { return true; }
      ghost var before := db.T();
      db.Known();
      if height < NextHeight(db.policy, db.T()) { PassedIsDone(db.policy, db.T(), height); }
      ok := FirstElection(height, ElectionEpochs(db.policy, height), view, faults);
      assert ElectionEpochs(db.policy, height)[0] in ElectionEpochs(db.policy, height);
      if ok { ElectedIs(db.policy, before, db.T(), height, view); }
    }

    // These are the epochs of the height's election, and it is still to be held.
    ghost predicate ElectionDue(height: nat, es: seq<nat>)
      reads db
    {
      && db.policy.Valid() && db.policy.genesis <= height == NextHeight(db.policy, db.T())
      && Classify(db.policy, height) == Election && !ElectionSeen(db.policy, db.T(), height)
      && es == ElectionEpochs(db.policy, height)
    }

    ghost method Begin(height: nat, es: seq<nat>, status: EpochStatus, stakers: seq<Staker>)
      requires db.Valid() && db.pc == Idle && ElectionDue(height, es) && status != EpochCompleted
      modifies db`pc, db`run
      ensures db.Valid() && Extends(old(db.run), db.run)
      ensures db.pc == Electing(es, es, status, if status == InProgress then Roster(es, stakers) else [])
      ensures Distinct(es) && forall e :: e in es ==> e !in db.epochs
    {
      ElectionShape(db.policy, height);
      db.BeginElection(status, stakers);
    }

    // An election not seen before.
    method FirstElection(height: nat, es: seq<nat>, view: View, faults: bool) returns (ok: bool)
      requires db.Valid() && db.pc == Idle && ElectionDue(height, es)
      requires forall e :: e !in db.epochs ==> StakersOf(db.T(), e) == []
      modifies db
      ensures db.Valid() && Extends(old(db.run), db.run) && db.pc == Idle
      ensures OnlyElectionTables()
      ensures !faults && Answered(view, height) ==> ok
      ensures ok && ElectionStatus(view, height) == InProgress ==> view.stakers.Some?
      ensures ok ==>
                && db.epochs == WithRows(old(db.epochs), es, ElectionStatus(view, height))
                && forall e :: e in es ==>
                     StakersOf(db.T(), e) == if ElectionStatus(view, height) == InProgress
                                             then Snapshot(view.stakers.GetOr([])) else []
      ensures forall e :: e in old(db.epochs) ==>
                e in db.epochs && db.epochs[e] == old(db.epochs)[e]
                && StakersOf(db.T(), e) == StakersOf(old(db.T()), e)
    {
      var status := ElectionStatus(view, height);
      if status == InProgress && view.stakers.None? { return false; }
      Begin(height, es, status, Snapshot(view.stakers.GetOr([])));
      ok := RunElection(es, status, view.stakers.GetOr([]), faults);
    }

    // The rows of an election, then the stakers of each if the validator earns.
    method RunElection(es: seq<nat>, status: EpochStatus, stakers: seq<Staker>, faults: bool) returns (ok: bool)
      requires db.Valid() && Distinct(es) && forall e :: e in es ==> e !in db.epochs && StakersOf(db.T(), e) == []
      requires db.pc == Electing(es, es, status, if status == InProgress then Roster(es, Snapshot(stakers)) else [])
      modifies db
      ensures db.Valid() && Extends(old(db.run), db.run) && db.pc == Idle
      ensures OnlyElectionTables()
      ensures !ok ==> faults || (status == InProgress && !Distinct(Rewards.Addresses(Snapshot(stakers))))
      ensures ok ==> db.epochs == WithRows(old(db.epochs), es, status)
      ensures ok ==> forall e :: e in es ==> StakersOf(db.T(), e) == if status == InProgress then Snapshot(stakers) else []
      ensures forall e :: e !in es ==> StakersOf(db.T(), e) == StakersOf(old(db.T()), e)
      ensures forall e :: e in old(db.epochs) ==> e in db.epochs && db.epochs[e] == old(db.epochs)[e]
    {
      var written := InsertEpochs(es, status, faults);
      assert es[..|es|] == es;
      ok := written == |es|;
      if ok && status == InProgress { ok := SnapshotEpochs(es, stakers, faults); }
      db.EndPass();
    }

    // ---- batch boundaries ---------------------------------------------------

    method HandleCheckpoint(height: nat, inherents: Option<seq<Inherent>>, faults: bool) returns (ok: bool)
      requires db.Valid() && db.pc == Idle && db.policy.genesis <= height <= NextHeight(db.policy, db.T())
      requires Classify(db.policy, height) != Micro && basisPoints <= Rewards.BASIS
      modifies db
      ensures db.Valid() && Extends(old(db.run), db.run) && db.pc == Idle
      ensures OnlyCheckpointTables()
      // Batch 0 has no reward to collect, and a recorded batch is left alone.
      ensures !IsBoundary(db.policy, height) || BatchAt(db.policy, height) - 1 in old(db.rewards) ==>
                ok && db.S() == old(db.S())
      ensures IsBoundary(db.policy, height) && BatchAt(db.policy, height) - 1 !in old(db.rewards) ==>
                Attempted(old(db.T()), height, inherents, faults, ok)
      ensures IsBoundary(db.policy, height) && BatchAt(db.policy, height) - 1 in db.rewards
              && BatchAt(db.policy, height) - 1 !in old(db.rewards) ==>
                && inherents.Some?
                && PaidFor(db.policy, old(db.T()), db.T(), height, inherents.value, me, basisPoints, ok)
    {
      var currentBatch := BatchAt(db.policy, height);
      if currentBatch == 0 || currentBatch - 1 in db.rewards { return true; }
      db.Known();
      if height < NextHeight(db.policy, db.T()) { PassedIsDone(db.policy, db.T(), height); }
      ok := CollectBatch(height, inherents, faults);
    }

    // What an attempt to collect a batch not yet recorded leaves behind.  With
    // the node answering and no failed insert, only the epoch row can be missing.
    ghost predicate Attempted(before: Tables, height: nat, inherents: Option<seq<Inherent>>, faults: bool, ok: bool)
      requires db.policy.Valid() && IsBoundary(db.policy, height) && basisPoints <= Rewards.BASIS
      reads db
    {
      && (ok ==> BatchAt(db.policy, height) - 1 in db.rewards)
      && (if BatchAt(db.policy, height) - 1 in db.rewards
          then inherents.Some?
               && Collected(db.policy, before, db.T(), height, OwnReward(inherents.value, me), basisPoints, ok)
          else db.rewards == before.rewards && |db.payslips| == |before.payslips|)
      && (!faults && inherents.Some? ==> (ok <==> RewardEpoch(db.policy, height) in db.epochs))
    }

    method CollectBatch(height: nat, inherents: Option<seq<Inherent>>, faults: bool) returns (ok: bool)
      requires db.Valid() && db.pc == Idle && height == NextHeight(db.policy, db.T())
      requires IsBoundary(db.policy, height) && basisPoints <= Rewards.BASIS
      requires BatchAt(db.policy, height) - 1 !in db.rewards
      modifies db
      ensures db.Valid() && Extends(old(db.run), db.run) && db.pc == Idle
      ensures OnlyCheckpointTables()
      ensures Attempted(old(db.T()), height, inherents, faults, ok)
      ensures BatchAt(db.policy, height) - 1 in db.rewards ==>
                && inherents.Some?
                && PaidFor(db.policy, old(db.T()), db.T(), height, inherents.value, me, basisPoints, ok)
    {
      ghost var before := db.T();
      ok := RecordBatch(height, inherents, faults);
      if BatchAt(db.policy, height) - 1 in db.rewards {
        CollectedPays(db.policy, before, db.T(), height, inherents.value, me, basisPoints, ok);
      }
    }

    method RecordBatch(height: nat, inherents: Option<seq<Inherent>>, faults: bool) returns (ok: bool)
      requires db.Valid() && db.pc == Idle && height == NextHeight(db.policy, db.T())
      requires IsBoundary(db.policy, height) && basisPoints <= Rewards.BASIS
      requires BatchAt(db.policy, height) - 1 !in db.rewards
      modifies db
      ensures db.Valid() && Extends(old(db.run), db.run) && db.pc == Idle
      ensures OnlyCheckpointTables()
      ensures Attempted(old(db.T()), height, inherents, faults, ok)
    {
      db.Interfere();
      if inherents.None? { return false; }
      var batch, epoch := BatchAt(db.policy, height) - 1, RewardEpoch(db.policy, height);
      var reward := SumInherents(inherents.value, me);
      var stakers := StakersOf(db.T(), epoch);
      var split := Rewards.SplitReward(reward, basisPoints);
      var insertFails: bool := *;
      if (faults && insertFails) || epoch !in db.epochs { return false; }
      db.InsertReward(batch, Reward(epoch, split.afterFee, split.fee, |stakers|), reward, basisPoints);
      ok := FanOut(batch, stakers, reward, split.afterFee, faults);
    }

    // The payslips of a reward just recorded.
    method FanOut(batch: nat, stakers: seq<Staker>, reward: nat, afterFee: nat, faults: bool) returns (ok: bool)
      requires db.Valid() && db.pc == Collecting(batch, Rewards.Plan(stakers, reward, afterFee))
      modifies db
      ensures db.Valid() && Extends(old(db.run), db.run)
      ensures OnlyCheckpointTables() && db.rewards == old(db.rewards)
      ensures db.pc == Idle && |old(db.payslips)| <= |db.payslips|
      ensures db.payslips[|old(db.payslips)|..] <= PayslipsOf(batch, Rewards.Plan(stakers, reward, afterFee))
      ensures ok ==> db.payslips[|old(db.payslips)|..] == PayslipsOf(batch, Rewards.Plan(stakers, reward, afterFee))
      ensures !faults ==> ok
    {
      ok := true;
      if reward != 0 && |stakers| != 0 {
        var totalStake := SumStakes(stakers);
        if totalStake != 0 { ok := InsertPayslips(batch, stakers, afterFee, totalStake, faults); }
      }
      db.EndPass();
    }

    // ---- the cursor loop ----------------------------------------------------

    // Once the genesis election is whole, no reward lacks its epoch row.
    lemma KnownRows(height: nat)
      requires db.Valid() && height == NextHeight(db.policy, db.T())
      ensures IsBoundary(db.policy, height) && NotCut(db.T()) ==> RewardEpoch(db.policy, height) in db.epochs
      ensures IsBoundary(db.policy, height) ==> CollectHeight(db.policy, BatchAt(db.policy, height) - 1) == height
    {
      db.Known();
      if IsBoundary(db.policy, height) {
        RewardRowThere(db.policy, db.T());
        RewardEpochIs(db.policy, height);
      }
    }

    // Whether the cursor was read or not, the height to start at is one replay may work on.
    lemma KnownStart(readable: bool)
      requires db.Valid()
      ensures db.policy.genesis <= StartHeight(db.policy, db.T(), readable) <= NextHeight(db.policy, db.T())
    {
      db.Known();
      var top: nat :| UpTo(db.policy, db.T(), top);
    }

    lemma KnownPassed(height: nat)
      requires db.Valid() && db.policy.genesis <= height
      ensures height < NextHeight(db.policy, db.T()) ==> HeightDone(db.policy, db.T(), height)
    {
      db.Known();
      if height < NextHeight(db.policy, db.T()) { PassedIsDone(db.policy, db.T(), height); }
    }

    // The batches closed by the head are recorded, and those that were before.
    lemma KnownRewards(before: set<nat>, head: nat)
      requires db.Valid() && db.cursor == Some(head) && before <= db.rewards.Keys
      requires forall b :: b in db.rewards ==> b in before || CollectHeight(db.policy, b) <= head
      ensures forall b: nat :: b in db.rewards <==> b in before || b < (head - db.policy.genesis) / db.policy.blocksPerBatch
    {
      db.Known();
      var top: nat :| UpTo(db.policy, db.T(), top);
      forall b: nat ensures b in db.rewards <==> b in before || b < (head - db.policy.genesis) / db.policy.blocksPerBatch {
        CollectedBy(db.policy, head, b);
      }
    }

    // The first half of a macro height: its election, if it has one.
    method HoldElection(height: nat, view: View, faults: bool) returns (ok: bool)
      requires db.Valid() && db.pc == Idle && db.policy.genesis <= height <= NextHeight(db.policy, db.T())
      modifies db
      ensures db.Valid() && Extends(old(db.run), db.run) && db.pc == Idle
      ensures db.cursor == old(db.cursor) && db.rewards == old(db.rewards) && old(db.epochs).Keys <= db.epochs.Keys
      ensures Classify(db.policy, height) == Election ==>
                && (ElectionSeen(db.policy, old(db.T()), height) ==> ok && db.S() == old(db.S()))
                && (ok ==> ElectionSeen(db.policy, db.T(), height))
                && (!faults && Answered(view, height) ==> ok)
      ensures Classify(db.policy, height) != Election ==> ok && db.S() == old(db.S())
      ensures NotCut(old(db.T())) && ok ==> NotCut(db.T())
    {
      ok := true;
      if Classify(db.policy, height) == Election {
        ElectionKeepsNotCut(db.policy, db.T(), height, ElectionStatus(view, height));
        ok := HandleElection(height, view, faults);
      }
    }

    method ProcessHeight(height: nat, view: View, faults: bool) returns (ok: bool)
      requires db.Valid() && db.pc == Idle && db.policy.genesis <= height <= NextHeight(db.policy, db.T())
      requires basisPoints <= Rewards.BASIS
      modifies db
      ensures db.Valid() && Extends(old(db.run), db.run) && db.pc == Idle
      ensures db.cursor == old(db.cursor) && old(db.epochs).Keys <= db.epochs.Keys
      ensures ok ==> HeightDone(db.policy, db.T(), height)
      // A height done before, and so any the cursor has passed, changes nothing.
      ensures HeightDone(db.policy, old(db.T()), height) ==> ok && db.S() == old(db.S())
      ensures height < NextHeight(db.policy, old(db.T())) ==> HeightDone(db.policy, old(db.T()), height)
      ensures old(db.rewards).Keys <= db.rewards.Keys
      ensures forall b :: b in db.rewards ==> b in old(db.rewards) || CollectHeight(db.policy, b) == height
      ensures !faults && Complete(db.policy, height, view) && (NotCut(old(db.T())) || !IsBoundary(db.policy, height)) ==> ok
      ensures NotCut(old(db.T())) && ok ==> NotCut(db.T())
    {
      KnownPassed(height);
      if Classify(db.policy, height) == Micro { return true; }
      ok := HoldElection(height, view, faults);
      if !ok { return; }
      if height == NextHeight(db.policy, db.T()) { KnownRows(height); }
      ok := HandleCheckpoint(height, view.inherents, faults);
    }

    predicate BeforeFirstBoundary(height: nat) {
      height < db.policy.genesis + db.policy.blocksPerBatch
    }

    // One turn of the loop: the height, then the cursor.
    method Advance(height: nat, view: View, faults: bool) returns (ok: bool)
      requires db.Valid() && db.pc == Idle && basisPoints <= Rewards.BASIS
      requires height == NextHeight(db.policy, db.T()) || height == db.policy.genesis
      modifies db
      ensures db.Valid() && Extends(old(db.run), db.run) && db.pc == Idle
      ensures old(db.epochs).Keys <= db.epochs.Keys && old(db.rewards).Keys <= db.rewards.Keys
      ensures db.cursor == if ok then Some(height) else old(db.cursor)
      ensures forall b :: b in db.rewards ==> b in old(db.rewards) || CollectHeight(db.policy, b) == height
      ensures db.policy.genesis <= height
      ensures !faults ==> (NotCut(old(db.T())) || BeforeFirstBoundary(height)) ==>
                HeightDone(db.policy, old(db.T()), height) || Complete(db.policy, height, view) ==> ok
      ensures NotCut(old(db.T())) && ok ==> NotCut(db.T())
    {
      KnownStart(true);
      if BeforeFirstBoundary(height) { NoBoundaryBefore(db.policy, height); }
      ok := ProcessHeight(height, view, faults);
      if !ok { return; }
      var writeFails: bool := *;
      if faults && writeFails { return false; }
      db.UpsertCursor(height);
    }

    // The tick of the daemon's loop that catches up with the chain, to the head:
    // from the height after the cursor, or from genesis if there is none or it
    // could not be read.
    method ReplayTo(head: nat, views: nat -> View, readable: bool, faults: bool)
      requires db.Valid() && db.pc == Idle && basisPoints <= Rewards.BASIS
      modifies db
      ensures db.Valid() && Extends(old(db.run), db.run) && db.pc == Idle
      ensures db.cursor == old(db.cursor)
              || (db.cursor.Some? && StartHeight(db.policy, old(db.T()), readable) <= db.cursor.value <= head)
      ensures old(db.epochs).Keys <= db.epochs.Keys && old(db.rewards).Keys <= db.rewards.Keys
      // With no failed insert, and the node answering for the heights not done yet,
      // it gets to the head if and only if the genesis election is whole or the head
      // is before the first boundary.
      ensures !faults && StartHeight(db.policy, old(db.T()), readable) <= head
              && AllComplete(db.policy, old(db.T()), StartHeight(db.policy, old(db.T()), readable), head, views) ==>
                (db.cursor == Some(head) <==> NotCut(old(db.T())) || BeforeFirstBoundary(head))
      // At the head the reward rows are those of the batches closed, and any there before.
      ensures db.cursor == Some(head) ==>
                forall b: nat :: b in db.rewards <==>
                  b in old(db.rewards) || b < (head - db.policy.genesis) / db.policy.blocksPerBatch
    {
      KnownStart(readable);
      ghost var whole := NotCut(db.T());
      var start := db.policy.genesis;
      if readable && db.cursor.Some? { start := db.cursor.value + 1; }
      var reached := AdvanceTo(start, head, views, faults);
      if !whole { StaysCut(old(db.run), old(db.S())); }
      if db.cursor == Some(head) { KnownRewards(old(db.rewards).Keys, head); }
    }

    // The loop has come from `start` up to h, on tables that were `before`.
    ghost predicate ComeTo(before: Tables, start: nat, h: nat, head: nat)
      reads db
    {
      && db.policy.genesis <= start <= h
      && (h == NextHeight(db.policy, db.T()) || h == db.policy.genesis)
      && (if h == start then db.cursor == before.cursor else h <= head + 1 && db.cursor == Some(h - 1))
      && before.epochs.Keys <= db.epochs.Keys && before.rewards.Keys <= db.rewards.Keys
      && forall b :: b in db.rewards ==> b in before.rewards || CollectHeight(db.policy, b) <= head
    }

    method Turn(h: nat, view: View, faults: bool, ghost before: Tables, ghost start: nat, ghost head: nat) returns (ok: bool)
      requires db.Valid() && db.pc == Idle && basisPoints <= Rewards.BASIS
      requires ComeTo(before, start, h, head) && h <= head
      modifies db
      ensures db.Valid() && Extends(old(db.run), db.run) && db.pc == Idle
      ensures ComeTo(before, start, if ok then h + 1 else h, head)
      ensures !faults && (NotCut(old(db.T())) || BeforeFirstBoundary(h)) ==>
                HeightDone(db.policy, before, h) || Complete(db.policy, h, view) ==> ok
      ensures NotCut(old(db.T())) && ok ==> NotCut(db.T())
    {
      StillDone(db.policy, before, db.T(), h);
      ok := Advance(h, view, faults);
    }

    method AdvanceTo(start: nat, head: nat, views: nat -> View, faults: bool) returns (reached: bool)
      requires db.Valid() && db.pc == Idle && basisPoints <= Rewards.BASIS
      requires start == NextHeight(db.policy, db.T()) || start == db.policy.genesis
      modifies db
      ensures db.Valid() && Extends(old(db.run), db.run) && db.pc == Idle
      ensures db.cursor == old(db.cursor) || (db.cursor.Some? && start <= db.cursor.value <= head)
      ensures old(db.epochs).Keys <= db.epochs.Keys && old(db.rewards).Keys <= db.rewards.Keys
      ensures forall b :: b in db.rewards ==> b in old(db.rewards) || CollectHeight(db.policy, b) <= head
      ensures reached && start <= head ==> db.cursor == Some(head)
      ensures !faults && AllComplete(db.policy, old(db.T()), start, head, views) ==>
                (NotCut(old(db.T())) || BeforeFirstBoundary(head) ==> reached)
    {
      KnownStart(true);
      var h := start;
      ghost var before := db.T();
      while h <= head
        invariant db.Valid() && Extends(old(db.run), db.run) && db.pc == Idle
        invariant ComeTo(before, start, h, head)
        invariant NotCut(before) ==> NotCut(db.T())
      {
        var done := Turn(h, views(h), faults, before, start, head);
        if !done { return false; }
        h := h + 1;
      }
      reached := true;
    }

    // If the genesis election was cut then, the cursor is not past the first boundary now.
    lemma StaysCut(before: Run, s: Sys)
      requires db.Valid() && IsRun(db.policy, before) && before.states[|before.states| - 1] == s && Extends(before, db.run)
      requires s.pc == Idle && !NotCut(s.t)
      ensures NextHeight(db.policy, db.T()) <= db.policy.genesis + db.policy.blocksPerBatch
    {
      var i := |before.states| - 1;
      assert db.run.states[i] == s;
      CutGenesisElectionStallsForever(db.policy, db.run, i, |db.run.states| - 1);
    }
  }

  lemma ElectionKeepsNotCut(p: Policy, t: Tables, height: nat, status: EpochStatus)
    requires p.Valid() && p.genesis <= height && Classify(p, height) == Election
    ensures NotCut(t) ==> NotCut(t.(epochs := WithRows(t.epochs, ElectionEpochs(p, height), status)))
  {
    ElectionHeight(p, height);
    var es := ElectionEpochs(p, height);
    assert height == p.genesis ==> es[1] == 0 && es[1] in es;
  }

  lemma StillDone(p: Policy, t: Tables, t': Tables, h: nat)
    requires p.Valid() && p.genesis <= h && t.epochs.Keys <= t'.epochs.Keys && t.rewards.Keys <= t'.rewards.Keys
    ensures HeightDone(p, t, h) ==> HeightDone(p, t', h)
  {
  }

  // What is left to insert after the next staker with a balance.
  lemma NextEntrant(epoch: nat, taken: seq<Staker>, next: Staker, all: seq<Staker>, rest: seq<Entrant>)
    requires taken + [next] <= all
    ensures var left := Entrants(epoch, all[|taken|..]) + rest;
            left != [] && left[0] == Entrant(epoch, next) && left[1..] == Entrants(epoch, all[|taken| + 1..]) + rest
  {
    assert all[|taken|] == (taken + [next])[|taken|];
    assert Entrants(epoch, all[|taken|..])[1..] == Entrants(epoch, all[|taken| + 1..]);
  }

  lemma RowAdded(epochs: map<nat, EpochStatus>, added: seq<nat>, i: nat, status: EpochStatus)
    requires i < |added| && added[i] !in WithRows(epochs, added[..i], status)
    ensures WithRows(epochs, added[..i], status)[added[i] := status] == WithRows(epochs, added[..i + 1], status)
  {
    assert added[..i + 1] == added[..i] + [added[i]];
  }

  // The shares of one more staker extend the plan so far.
  lemma SharesGrow(stakers: seq<Staker>, afterFee: nat, total: nat, i: nat)
    requires total > 0 && i < |stakers|
    ensures var share := Rewards.ShareOf(afterFee, stakers[i].stake, total);
            Rewards.Shares(stakers[..i + 1], afterFee, total)
            == Rewards.Shares(stakers[..i], afterFee, total)
               + if share == 0 then [] else [Rewards.Share(stakers[i].address, share)]
    ensures Rewards.Shares(stakers[..i + 1], afterFee, total) <= Rewards.Shares(stakers, afterFee, total)
    ensures var share := Rewards.ShareOf(afterFee, stakers[i].stake, total);
            var n, plan := |Rewards.Shares(stakers[..i], afterFee, total)|, Rewards.Shares(stakers, afterFee, total);
            share != 0 ==> n < |plan| && plan[n] == Rewards.Share(stakers[i].address, share)
  {
    assert stakers[..i + 1][..i] == stakers[..i];
    SharesPrefix(stakers, afterFee, total, i + 1);
  }

  lemma {:induction false} SharesPrefix(stakers: seq<Staker>, afterFee: nat, total: nat, i: nat)
    requires total > 0 && i <= |stakers|
    ensures Rewards.Shares(stakers[..i], afterFee, total) <= Rewards.Shares(stakers, afterFee, total)
  {
    if i == |stakers| {
      assert stakers[..i] == stakers;
    } else {
      var n := |stakers| - 1;
      SharesPrefix(stakers[..n], afterFee, total, i);
      assert stakers[..n][..i] == stakers[..i];
    }
  }

  lemma {:induction false} SnapshotPrefix(stakers: seq<Staker>, i: nat)
    requires i <= |stakers|
    ensures Snapshot(stakers[..i]) <= Snapshot(stakers)
  {
    if i == |stakers| {
      assert stakers[..i] == stakers;
    } else {
      var n := |stakers| - 1;
      SnapshotPrefix(stakers[..n], i);
      assert stakers[..n][..i] == stakers[..i];
    }
  }

  lemma SnapshotGrows(stakers: seq<Staker>, i: nat)
    requires i < |stakers|
    ensures Snapshot(stakers[..i + 1])
            == Snapshot(stakers[..i]) + if stakers[i].stake == 0 then [] else [stakers[i]]
    ensures Snapshot(stakers[..i]) <= Snapshot(stakers) && Snapshot(stakers[..i + 1]) <= Snapshot(stakers)
  {
    assert stakers[..i + 1][..i] == stakers[..i];
    SnapshotPrefix(stakers, i);
    SnapshotPrefix(stakers, i + 1);
  }

  lemma TakenTwice(taken: seq<Staker>, next: Staker, all: seq<Staker>)
    requires next.address in Rewards.Addresses(taken) && taken + [next] <= all
    ensures !Distinct(Rewards.Addresses(all))
  {
    var i :| 0 <= i < |taken| && Rewards.Addresses(taken)[i] == next.address;
    assert all[i] == (taken + [next])[i] && all[|taken|] == (taken + [next])[|taken|];
    assert Rewards.Addresses(all)[i] == Rewards.Addresses(all)[|taken|];
  }
}
