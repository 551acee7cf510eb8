// Replayed heights over runs: which rewards are recorded, when a reward's epoch
// row is there to refer to, and the one way the replay can stop for ever.
module LedgerHeights {
  import opened Prelude
  import opened Arithmetic
  import opened ChainPolicy
  import opened Tables
  import opened Ledger
  import opened LedgerInvariant
  import Rewards

  // Top is the highest height the daemon has come to in the run so far.
  lemma {:induction false} TopIsHighest(p: Policy, r: Run, i: nat) returns (k: nat)
    requires p.Valid() && IsRun(p, r) && i < |r.states|
    ensures forall m :: 0 <= m <= i ==> NextHeight(p, r.states[m].t) <= Top(p, r, i)
    ensures k <= i && NextHeight(p, r.states[k].t) == Top(p, r, i)
  {
    k := i;
    if i > 0 {
      var before := TopIsHighest(p, r, i - 1);
      if NextHeight(p, r.states[i].t) < Top(p, r, i - 1) { k := before; }
    }
  }

  // However often the cursor was set back, the recorded rewards are the batches
  // that end below the highest height, plus at most the one that ends there,
  // each under the epoch of its last height; and a batch has at most one payslip
  // per address, which together stay within the reward.
  lemma RewardsArePrefix(p: Policy, r: Run, i: nat, b: nat)
    requires p.Valid() && IsRun(p, r) && i < |r.states|
    ensures var t, top := r.states[i].t, Top(p, r, i);
            && p.genesis <= NextHeight(p, t) <= top
            && (top > p.genesis && b < (top - 1 - p.genesis) / p.blocksPerBatch ==> b in t.rewards)
            && (b in t.rewards ==>
                  && top > p.genesis
                  && (b < (top - 1 - p.genesis) / p.blocksPerBatch || CollectHeight(p, b) == top)
                  && t.rewards[b].epoch == EpochOfBatch(p, b)
                  && t.rewards[b].epoch in t.epochs
                  && SumOf(t.payslips, BatchIds(t.payslips, b)) <= t.rewards[b].amount)
            && (forall j, k | j in BatchIds(t.payslips, b) && k in BatchIds(t.payslips, b) && j != k ::
                  t.payslips[j].address != t.payslips[k].address)
  {
    RunInv(p, r, i);
    RunUpTo(p, r, i);
    var t, top := r.states[i].t, Top(p, r, i);
    CollectHeightIsMacro(p, b);
    if top > p.genesis { CollectedBy(p, top - 1, b); }
    if b in t.rewards { assert RewardOk(p, t, b); }
  }

  lemma CollectedBy(p: Policy, height: nat, b: nat)
    requires p.Valid() && p.genesis <= height
    ensures CollectHeight(p, b) <= height <==> b < (height - p.genesis) / p.blocksPerBatch
  {
    var n, d := height - p.genesis, p.blocksPerBatch;
    var q := n / d;
    assert n == d * q + n % d;
    MulStep(q, d);
    if b < q { MulMono(b + 1, q, d); } else { MulMono(q + 1, b + 1, d); }
  }

  // The election that snapshots a batch's epoch comes before the height at
  // which the batch is collected.
  lemma SnapshotComesFirst(p: Policy, batch: nat)
    requires p.Valid() && batch > 0
    ensures var e := EpochOfBatch(p, batch);
            e > 0 && EpochEndHeight(p, e - 1) < CollectHeight(p, batch)
  {
    var e, n, b := EpochOfBatch(p, batch), p.batchesPerEpoch, p.blocksPerBatch;
    BatchInEpoch(p, batch, e);
    Regroup(e - 1, n, b);
    MulOrder((e - 1) * n, batch, b);
    MulStep(batch, b);
    MulMono(0, batch, b);
  }

  // The foreign key of InsertReward is satisfied at every batch boundary the
  // replay reaches, except possibly at the first one: there it is satisfied if
  // and only if the genesis election wrote its epoch-0 row.
  lemma RewardEpochExists(p: Policy, r: Run, i: nat)
    requires p.Valid() && IsRun(p, r) && i < |r.states| && IsBoundary(p, NextHeight(p, r.states[i].t))
    ensures var t := r.states[i].t;
            var h := NextHeight(p, t);
            RewardEpoch(p, h) in t.epochs <==> h > p.genesis + p.blocksPerBatch || 0 in t.epochs
  {
    RunInv(p, r, i);
    RewardRowThere(p, r.states[i].t);
  }

  lemma RewardRowThere(p: Policy, t: Tables)
    requires p.Valid() && HeightsOk(p, t) && IsBoundary(p, NextHeight(p, t))
    ensures var h := NextHeight(p, t);
            && (RewardEpoch(p, h) in t.epochs <==> h > p.genesis + p.blocksPerBatch || 0 in t.epochs)
            && 1 in t.epochs
  {
    var h := NextHeight(p, t);
    var top: nat :| UpTo(p, t, top);
    RewardEpochIs(p, h);
    CollectHeightIsMacro(p, BatchAt(p, h) - 1);
    assert EpochEndHeight(p, 0) < h;
    var batch := BatchAt(p, h) - 1;
    if batch > 0 {
      SnapshotComesFirst(p, batch);
      MulMono(2, batch + 1, p.blocksPerBatch);
    }
  }

  // Collecting is possible exactly when the reward is not recorded yet and its
  // epoch row is there; the latter fails only in the case above.
  lemma CollectPossible(p: Policy, r: Run, i: nat, reward: nat, basisPoints: nat)
    requires p.Valid() && IsRun(p, r) && i < |r.states|
    requires r.states[i].pc.Idle? && basisPoints <= Rewards.BASIS && IsBoundary(p, NextHeight(p, r.states[i].t))
    ensures var t := r.states[i].t;
            var h := NextHeight(p, t);
            Enabled(p, r.states[i], CollectReward(reward, basisPoints)) <==>
              && BatchAt(p, h) - 1 !in t.rewards
              && (h > p.genesis + p.blocksPerBatch || 0 in t.epochs)
  {
    RewardEpochExists(p, r, i);
  }

  // Every height below the highest one is done: its epoch row and its reward row
  // are there, so both handlers return before they write anything.
  lemma BelowTopIsDone(p: Policy, t: Tables, top: nat, h: nat)
    requires p.Valid() && UpTo(p, t, top) && p.genesis <= h < top
    ensures HeightDone(p, t, h)
  {
    if Classify(p, h) == Election {
      ElectionHeight(p, h);
      assert ElectionEpochs(p, h)[0] in ElectionEpochs(p, h);
    }
    if Classify(p, h) != Micro && BatchAt(p, h) > 0 { RewardEpochIs(p, h); }
  }

  lemma PassedIsDone(p: Policy, t: Tables, h: nat)
    requires p.Valid() && HeightsOk(p, t) && p.genesis <= h < NextHeight(p, t)
    ensures HeightDone(p, t, h)
  {
    var top: nat :| UpTo(p, t, top);
    BelowTopIsDone(p, t, top, h);
  }

  // A height replayed after the cursor was set back changes nothing but the
  // cursor, and nothing keeps the cursor from passing it.
  lemma ReplayedChangesNothing(p: Policy, r: Run, i: nat)
    requires p.Valid() && IsRun(p, r) && i < |r.states|
    requires r.states[i].pc.Idle? && NextHeight(p, r.states[i].t) < Top(p, r, i)
    ensures Enabled(p, r.states[i], AdvanceCursor)
    ensures i < |r.steps| && IsHeightStep(r.steps[i]) ==>
              r.states[i + 1] == r.states[i].(t := r.states[i].t.(cursor := r.states[i + 1].t.cursor))
  {
    RunUpTo(p, r, i);
    BelowTopIsDone(p, r.states[i].t, Top(p, r, i), NextHeight(p, r.states[i].t));
    if i < |r.steps| { assert IsStep(p, r, i); }
  }

  lemma ElectionHeight(p: Policy, h: nat)
    requires p.Valid() && p.genesis <= h && Classify(p, h) == Election
    ensures EpochEndHeight(p, EpochAt(p, h)) == h
    ensures EpochAt(p, h) == 0 <==> h == p.genesis
  {
    BlocksPerEpochPositive(p);
    var n, d := h - p.genesis, p.BlocksPerEpoch();
    assert n == (n / d) * d;
    DivCeilExact(n / d, d);
    if h > p.genesis { assert n / d > 0; }
  }

  // ---- the genesis election, cut ---------------------------------------------

  // The genesis election has written epoch 1 and will not write epoch 0.
  predicate Cut(s: Sys) {
    CutWith(s.t.epochs, if s.pc.Electing? then s.pc.todo else [])
  }

  predicate CutWith(epochs: map<nat, EpochStatus>, todo: seq<nat>) {
    1 in epochs && 0 !in epochs && 0 !in todo
  }

  // The daemon is about to insert epoch 0, having inserted epoch 1.
  predicate HalfDone(pc: Daemon) {
    pc.Electing? && pc.todo == [0]
  }

  // An election is cut by nothing but a stop, or a failed insert, in between.
  lemma CutByStopping(p: Policy, s: Sys, step: Step)
    requires p.Valid() && Inv(p, s) && Enabled(p, s, step)
    ensures Cut(Apply(p, s, step)) <==> Cut(s) || (step.Return? && HalfDone(s.pc))
  {
    if s.pc.Electing? { TodoOfGenesis(s.t, s.pc); }
    if IsHeightStep(step) { HeightStepCuts(p, s, step); } else { PayoutStepCuts(s, step); }
  }

  lemma HeightStepCuts(p: Policy, s: Sys, step: Step)
    requires p.Valid() && HeightsOk(p, s.t) && ElectionOk(s.t, s.pc) && IsHeightStep(step) && Enabled(p, s, step)
    ensures Cut(Apply(p, s, step)) <==> Cut(s)
  {
    match step
    case BeginElection(_, _) => GenesisNotBegunTwice(p, s.t);
    case AddEpoch =>
      TodoOfGenesis(s.t, s.pc);
      RowCuts(s.t.epochs, s.pc.todo, s.pc.status);
    case _ =>
  }

  // An election that would write epoch 0 is not begun once epoch 1 is written.
  lemma GenesisNotBegunTwice(p: Policy, t: Tables)
    requires p.Valid() && p.genesis <= NextHeight(p, t) && !ElectionSeen(p, t, NextHeight(p, t))
    ensures 0 in ElectionEpochs(p, NextHeight(p, t)) ==> 1 !in t.epochs
  {
    ElectionShape(p, NextHeight(p, t));
  }

  lemma RowCuts(epochs: map<nat, EpochStatus>, todo: seq<nat>, status: EpochStatus)
    requires todo != [] && (0 in todo ==> todo == [1, 0] || todo == [0]) && (1 in todo ==> todo == [1, 0])
    ensures CutWith(epochs[todo[0] := status], todo[1..]) <==> CutWith(epochs, todo)
  {
    assert todo[0] in todo;
    if todo == [1, 0] { assert todo[1..] == [0]; }
    assert forall e :: e in todo[1..] ==> e in todo;
  }

  lemma PayoutStepCuts(s: Sys, step: Step)
    requires ElectionOk(s.t, s.pc) && !IsHeightStep(step) && PayoutEnabled(s, step)
    ensures Cut(PayoutApply(s, step)) <==> Cut(s) || (step.Return? && HalfDone(s.pc))
  {
    if s.pc.Electing? { TodoOfGenesis(s.t, s.pc); }
  }

  lemma TodoOfGenesis(t: Tables, pc: Daemon)
    requires pc.Electing? && ElectionOk(t, pc)
    ensures 0 in pc.todo ==> pc.todo == [1, 0] || pc.todo == [0]
    ensures 1 in pc.todo ==> pc.todo == [1, 0]
    ensures HalfDone(pc) ==> 1 in t.epochs && 0 !in t.epochs
    ensures pc.todo == [1, 0] ==> 1 !in t.epochs
    ensures pc.todo != [] ==> forall e :: e in pc.todo[1..] ==> e in pc.todo && e != pc.todo[0]
  {
    Suffix(pc.epochs, pc.todo);
    if 0 in pc.todo || 1 in pc.todo {
      assert pc.epochs == [1, 0];
      if |pc.todo| == 1 { assert pc.todo == pc.epochs[1..] == [0]; }
      if |pc.todo| == 2 { assert pc.todo == pc.epochs[0..] == [1, 0]; }
    }
  }

  lemma Suffix(all: seq<nat>, rest: seq<nat>)
    requires Distinct(all) && |rest| <= |all| && rest == all[|all| - |rest|..]
    ensures forall e :: e in rest ==> e in all
    ensures rest != [] ==> forall e :: e in rest[1..] ==> e in rest && e != rest[0]
  {
    var n := |all| - |rest|;
    assert forall k :: 0 <= k < |rest| ==> rest[k] == all[n + k];
  }

  // So it is cut exactly when the run contains such a stop, and it stays so: the
  // election is not begun again, and epoch 0 is never written.
  lemma {:induction false} CutExactly(p: Policy, r: Run, j: nat)
    requires p.Valid() && IsRun(p, r) && j < |r.states|
    ensures Cut(r.states[j]) <==> exists i :: 0 <= i < j && r.steps[i].Return? && HalfDone(r.states[i].pc)
  {
    if j > 0 {
      CutExactly(p, r, j - 1);
      RunStepCuts(p, r, j - 1);
    }
  }

  lemma RunStepCuts(p: Policy, r: Run, i: nat)
    requires p.Valid() && IsRun(p, r) && i < |r.steps|
    ensures Cut(r.states[i + 1]) <==> Cut(r.states[i]) || (r.steps[i].Return? && HalfDone(r.states[i].pc))
  {
    RunInv(p, r, i);
    assert IsStep(p, r, i);
    CutByStopping(p, r.states[i], r.steps[i]);
  }

  // Without its epoch-0 row the replay never gets past the first batch boundary:
  // its reward is never recorded, at whatever point it was cut and whatever is
  // retried later.
  lemma CutGenesisElectionStallsForever(p: Policy, r: Run, i: nat, j: nat)
    requires p.Valid() && IsRun(p, r) && i <= j < |r.states| && Cut(r.states[i])
    ensures Cut(r.states[j]) && 0 !in r.states[j].t.rewards
    ensures NextHeight(p, r.states[j].t) <= p.genesis + p.blocksPerBatch
  {
    CutExactly(p, r, i);
    CutExactly(p, r, j);
    RunInv(p, r, j);
    NeedsEpochZero(p, r.states[j].t);
  }

  lemma NeedsEpochZero(p: Policy, t: Tables)
    requires p.Valid() && HeightsOk(p, t) && 0 !in t.epochs
    ensures 0 !in t.rewards && NextHeight(p, t) <= p.genesis + p.blocksPerBatch
  {
    var top: nat :| UpTo(p, t, top);
    EpochAtIs(p, p.genesis, 0);
    assert 0 !in t.rewards;
    assert CollectHeight(p, 0) == p.genesis + p.blocksPerBatch;
  }

  // Between genesis and the first boundary there is no other batch to collect.
  lemma NoBoundaryBefore(p: Policy, h: nat)
    requires p.Valid() && p.genesis <= h < p.genesis + p.blocksPerBatch
    ensures !IsBoundary(p, h)
  {
    if h > p.genesis {
      BatchAtIs(p, h, 1);
      MacroHeight(p, h);
    }
  }
}
