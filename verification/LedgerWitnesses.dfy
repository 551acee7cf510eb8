// Concrete runs: each shows that a property one might expect of the ledger does
// not hold of every run.
module LedgerWitnesses {
  import opened Prelude
  import opened Sums
  import opened Arithmetic
  import opened ChainPolicy
  import opened Tables
  import opened Ledger
  import opened LedgerInvariant
  import opened LedgerRuns
  import opened LedgerHeights
  import opened LedgerSnapshots
  import opened LedgerSettlement
  import opened LedgerFanOut
  import Rewards

  // A chain with one height per batch and two batches per epoch.
  const TINY := Policy(0, 1, 2, 1000)

  // What the steps below need to know about its heights.
  ghost predicate TinyChain(p: Policy) {
    p.Valid() && p.genesis == 0 && forall h: nat :: TinyHeight(p, h)
  }

  predicate TinyHeight(p: Policy, h: nat)
    requires p.Valid() && p.genesis == 0
  {
    && (h == 0 ==> Classify(p, 0) == Election && ElectionEpochs(p, 0) == [1, 0] && BatchAt(p, 0) == 0)
    && (h == 1 ==> Classify(p, 1) == Checkpoint && BatchAt(p, 1) == 1 && RewardEpoch(p, 1) == 0)
    && (h == 2 ==> Classify(p, 2) == Election && BatchAt(p, 2) == 2 && RewardEpoch(p, 2) == 1 && EpochOfBatch(p, 2) == 1)
  }

  lemma TinyGenesis()
    ensures TinyHeight(TINY, 0)
  {
    assert ElectionEpochs(TINY, 0) == [1] + [0];
  }

  lemma TinyFirst()
    ensures TinyHeight(TINY, 1)
  {
    assert TINY.BlocksPerEpoch() == 2;
  }

  lemma TinySecond()
    ensures TinyHeight(TINY, 2)
  {
    assert TINY.BlocksPerEpoch() == 2;
    assert Classify(TINY, 2) == Election;
    assert BatchAt(TINY, 2) == 2;
  }

  lemma TinyIsTiny()
    ensures TinyChain(TINY)
  {
    forall h: nat ensures TinyHeight(TINY, h) {
      if h == 0 { TinyGenesis(); }
      if h == 1 { TinyFirst(); }
      if h == 2 { TinySecond(); }
    }
  }

  const NONE := History([], map[], {})
  const SOLE := [Rewards.Staker("A", 1)]

  const BOTH := map[0 := SOLE, 1 := SOLE]
  const TWO_EPOCHS := map[0 := InProgress, 1 := InProgress]

  const REWARD0 := Reward(0, 10, 0, 1)
  const REWARD1 := Reward(1, 5, 0, 1)
  const SLIP0 := Payslip(0, "A", 10, Pending, None)
  const SLIP1 := Payslip(1, "A", 5, Pending, None)
  const ROW := EligibleRow("A", 10, {0})
  const AUDIT := Audit("A", 10, 0, Transfer, Approved, None)
  const BASED := History([{0}], map[], {})

  function Start(stakers: map<nat, seq<Staker>>): Tables {
    Tables(None, TWO_EPOCHS, stakers, map[], [], [], map[])
  }

  const ENTRANTS := [Entrant(1, SOLE[0]), Entrant(0, SOLE[0])]
  const ONE_EPOCH := map[1 := InProgress]

  // The genesis election begins with one staker, and writes its first row.
  lemma FirstRow(p: Policy) returns (r: Run)
    requires TinyChain(p)
    ensures Running(p, r, Sys(EMPTY.(epochs := ONE_EPOCH), Electing([1, 0], [0], InProgress, ENTRANTS), NONE))
  {
    r := Run([INITIAL], []);
    assert TinyHeight(p, 0);
    assert Roster([1, 0], SOLE) == ENTRANTS by {
      assert [1, 0][1..] == [0] && [0][1..] == [];
      assert Entrants(1, SOLE) == [ENTRANTS[0]] && Entrants(0, SOLE) == [ENTRANTS[1]];
    }
    var s1 := Sys(EMPTY, Electing([1, 0], [1, 0], InProgress, ENTRANTS), NONE);
    r := Extend(p, r, INITIAL, BeginElection(InProgress, SOLE), s1);
    assert [1, 0][1..] == [0] && EMPTY.epochs[1 := InProgress] == ONE_EPOCH;
    r := Extend(p, r, s1, AddEpoch, Sys(EMPTY.(epochs := ONE_EPOCH), Electing([1, 0], [0], InProgress, ENTRANTS), NONE));
  }

  // It fails there: the replay is stalled for ever.
  lemma GenesisElectionCanBeCut() returns (p: Policy, r: Run, s: Sys)
    ensures Running(p, r, s) && Cut(s)
  {
    p := TinyExists();
    r := FirstRow(p);
    var t := EMPTY.(epochs := ONE_EPOCH);
    s := Sys(t, Idle, NONE);
    r := Extend(p, r, Sys(t, Electing([1, 0], [0], InProgress, ENTRANTS), NONE), Return, s);
  }

  lemma BothRows(p: Policy) returns (r: Run)
    requires TinyChain(p)
    ensures Running(p, r, Sys(Start(map[]), Electing([1, 0], [], InProgress, ENTRANTS), NONE))
  {
    r := FirstRow(p);
    assert TWO_EPOCHS == ONE_EPOCH[0 := InProgress] && [0][1..] == [];
    r := Extend(p, r, Sys(EMPTY.(epochs := ONE_EPOCH), Electing([1, 0], [0], InProgress, ENTRANTS), NONE), AddEpoch,
      Sys(Start(map[]), Electing([1, 0], [], InProgress, ENTRANTS), NONE));
  }

  // It fails before its first staker, who was to be in both snapshots: both epochs
  // are in progress with nobody in them, and stay so.
  lemma SnapshotCanBeCut() returns (p: Policy, r: Run, before: Sys, s: Sys)
    ensures Running(p, r, s) && LastTaken(r, before, Return)
    ensures before.pc.Electing? && Entrant(1, SOLE[0]) in before.pc.left && Entrant(0, SOLE[0]) in before.pc.left
    ensures Closed(s, 1) && s.t.epochs[1] == InProgress && StakersOf(s.t, 1) == []
  {
    p := TinyExists();
    var r0 := BothRows(p);
    before := Sys(Start(map[]), Electing([1, 0], [], InProgress, ENTRANTS), NONE);
    s := Sys(Start(map[]), Idle, NONE);
    r := Extend(p, r0, before, Return, s);
    assert ENTRANTS[0] in ENTRANTS && ENTRANTS[1] in ENTRANTS;
  }

  // Epochs 0 and 1 are snapshotted with one staker,
  lemma BothStakers(p: Policy) returns (r: Run)
    requires TinyChain(p)
    ensures Running(p, r, Sys(Start(BOTH), Idle, NONE))
  {
    r := BothRows(p);
    var pc := Electing([1, 0], [], InProgress, ENTRANTS);
    assert [] + SOLE == SOLE && ENTRANTS[1..] == [Entrant(0, SOLE[0])];
    r := Extend(p, r, Sys(Start(map[]), pc, NONE), AddStaker,
      Sys(Start(map[1 := SOLE]), pc.(left := [Entrant(0, SOLE[0])]), NONE));
    assert BOTH == map[1 := SOLE][0 := SOLE] && [Entrant(0, SOLE[0])][1..] == [];
    r := Extend(p, r, Sys(Start(map[1 := SOLE]), pc.(left := [Entrant(0, SOLE[0])]), NONE), AddStaker,
      Sys(Start(BOTH), pc.(left := []), NONE));
    r := Extend(p, r, Sys(Start(BOTH), pc.(left := []), NONE), Return, Sys(Start(BOTH), Idle, NONE));
  }

  // and genesis is behind.
  lemma SetUp(p: Policy) returns (r: Run)
    requires TinyChain(p)
    ensures Running(p, r, Sys(Start(BOTH).(cursor := Some(0)), Idle, NONE))
  {
    r := BothStakers(p);
    assert TinyHeight(p, 0);
    assert 1 in ElectionEpochs(p, 0);
    r := Extend(p, r, Sys(Start(BOTH), Idle, NONE), AdvanceCursor, Sys(Start(BOTH).(cursor := Some(0)), Idle, NONE));
  }

  lemma SoleShare(reward: nat)
    requires 0 < reward < TWO64
    ensures Rewards.SplitReward(reward, 0) == Rewards.Split(reward, 0)
    ensures Rewards.Plan(SOLE, reward, reward) == [Rewards.Share("A", reward)]
  {
    assert Rewards.Stakes(SOLE) == [1];
    assert Total([1]) == 1;
    assert SOLE[..0] == [];
    assert Rewards.Shares(SOLE, reward, 1) == [] + [Rewards.Share("A", reward)];
  }

  const T0 := Start(BOTH).(cursor := Some(0), rewards := map[0 := REWARD0])
  const T1 := Start(BOTH).(cursor := Some(0), rewards := map[0 := REWARD0], payslips := [SLIP0])
  const T2 := T1.(cursor := Some(1), audits := [AUDIT])
  const T3 := T2.(rewards := map[0 := REWARD0, 1 := REWARD1], payslips := [SLIP0, SLIP1])

  // Inserting the one payslip of a collected reward.
  lemma InsertOnly(p: Policy, r: Run, t: Tables, batch: nat, amount: nat, hist: History) returns (r': Run)
    requires Running(p, r, Sys(t, Collecting(batch, [Rewards.Share("A", amount)]), hist))
    ensures Running(p, r', Sys(t.(payslips := t.payslips + [Payslip(batch, "A", amount, Pending, None)]), Idle, hist))
  {
    var t' := t.(payslips := t.payslips + [Payslip(batch, "A", amount, Pending, None)]);
    var s := Sys(t, Collecting(batch, [Rewards.Share("A", amount)]), hist);
    assert [Rewards.Share("A", amount)][1..] == [];
    r' := Extend(p, r, s, AddPayslip, Sys(t', Collecting(batch, []), hist));
    r' := Extend(p, r', Sys(t', Collecting(batch, []), hist), Return, Sys(t', Idle, hist));
  }

  // Height 1 pays 10 Luna:
  lemma CollectBegins(p: Policy) returns (r: Run)
    requires TinyChain(p)
    ensures Running(p, r, Sys(T0, Collecting(0, [Rewards.Share("A", 10)]), NONE))
  {
    r := SetUp(p);
    assert TinyHeight(p, 1);
    SoleShare(10);
    r := Extend(p, r, Sys(Start(BOTH).(cursor := Some(0)), Idle, NONE), CollectReward(10, 0),
      Sys(T0, Collecting(0, [Rewards.Share("A", 10)]), NONE));
  }

  // if the payslip's insert fails, the reward is recorded and its only staker has
  // no payslip of it, and never will.
  lemma FanOutCanBeCut() returns (p: Policy, r: Run, before: Sys, s: Sys)
    ensures Running(p, r, s) && LastTaken(r, before, Return) && Abandons(before, Return, 0)
    ensures before.pc == Collecting(0, [Rewards.Share("A", 10)])
    ensures 0 in s.t.rewards && s.t.rewards[0].amount == 10 && s.t.payslips == []
  {
    p := TinyExists();
    var r0 := CollectBegins(p);
    before := Sys(T0, Collecting(0, [Rewards.Share("A", 10)]), NONE);
    s := Sys(T0, Idle, NONE);
    r := Extend(p, r0, before, Return, s);
  }

  lemma CollectFirst(p: Policy) returns (r: Run)
    requires TinyChain(p)
    ensures Running(p, r, Sys(T1, Idle, NONE))
  {
    r := CollectBegins(p);
    r := InsertOnly(p, r, T0, 0, 10, NONE);
    assert [] + [SLIP0] == [SLIP0];
  }

  lemma FirstIsEligible()
    ensures ListsEligible(T1, 0, [ROW])
  {
    assert PayslipAmounts([SLIP0]) == [] + [10];
    SumAppend([], 10, {0});
    assert PendingIds([SLIP0], "A") == {0};
    forall a | IsEligible(T1, 0, a) ensures a == "A" {
      var k :| k in PendingIds(T1.payslips, a);
    }
    assert [ROW][0].address == "A";
  }

  // the payout of those 10 is approved, and then held for want of funds.
  lemma Approve(p: Policy) returns (r: Run)
    requires TinyChain(p)
    ensures Running(p, r, Sys(T1.(audits := [AUDIT]), Idle, BASED))
  {
    r := CollectFirst(p);
    FirstIsEligible();
    r := Extend(p, r, Sys(T1, Idle, NONE), ListEligible(0, [ROW]), Sys(T1, Proposing([ROW]), NONE));
    var t := T1.(audits := [AUDIT]);
    assert [] + [AUDIT] == [AUDIT] && [ROW][1..] == [] && [] + [{0}] == [{0}];
    r := Extend(p, r, Sys(T1, Proposing([ROW]), NONE), Propose(0, Transfer, false), Sys(t, Proposing([]), BASED));
    r := Extend(p, r, Sys(t, Proposing([]), BASED), Return, Sys(t, Idle, BASED));
  }

  lemma FinishHeightOne(p: Policy) returns (r: Run)
    requires TinyChain(p)
    ensures Running(p, r, Sys(T2, Idle, BASED))
  {
    r := Approve(p);
    assert TinyHeight(p, 1);
    var t := T1.(audits := [AUDIT]);
    assert HeightDone(p, t, 1);
    r := Extend(p, r, Sys(t, Idle, BASED), AdvanceCursor, Sys(T2, Idle, BASED));
  }

  // Height 2 adds a payslip of 5 Luna before the claim,
  lemma CollectSecond(p: Policy) returns (r: Run)
    requires TinyChain(p)
    ensures Running(p, r, Sys(T3, Idle, BASED))
  {
    r := FinishHeightOne(p);
    assert TinyHeight(p, 2);
    SoleShare(5);
    var t := T2.(rewards := map[0 := REWARD0, 1 := REWARD1]);
    assert t.rewards == T2.rewards[1 := REWARD1];
    r := Extend(p, r, Sys(T2, Idle, BASED), CollectReward(5, 0),
      Sys(t, Collecting(1, [Rewards.Share("A", 5)]), BASED));
    r := InsertOnly(p, r, t, 1, 5, BASED);
    assert [SLIP0] + [SLIP1] == [SLIP0, SLIP1];
  }

  lemma Submit(p: Policy) returns (r: Run)
    requires TinyChain(p)
    ensures Running(p, r, Sys(T3, Submitting([0]), BASED))
  {
    r := CollectSecond(p);
    r := Extend(p, r, Sys(T3, Idle, BASED), ListApproved([0]), Sys(T3, Submitting([0]), BASED));
  }

  lemma FifteenCarried(ps: seq<Payslip>)
    requires |ps| == 2 && ps[0] == SLIP0.(status := Awaiting, txHash := Some("tx"))
    requires ps[1] == SLIP1.(status := Awaiting, txHash := Some("tx"))
    ensures SumOf(ps, CarryIds(ps, "tx")) == 15
  {
    assert PayslipAmounts(ps) == ([] + [10]) + [5];
    assert CarryIds(ps, "tx") == {0, 1};
    SumAppend([10], 5, {0, 1});
    SumAppend([], 10, {0, 1});
  }

  const CARRIED := [SLIP0.(status := Awaiting, txHash := Some("tx")), SLIP1.(status := Awaiting, txHash := Some("tx"))]
  const PAID := [SLIP0.(status := Completed, txHash := Some("tx")), SLIP1.(status := Completed, txHash := Some("tx"))]

  // so the transaction pays 10 Luna and settles payslips worth 15.
  lemma LateArrival(p: Policy) returns (r: Run, s: Sys)
    requires TinyChain(p)
    ensures Running(p, r, s)
    ensures s.t.transactions == map["tx" := Transaction("A", 10, TxAwaiting, 2)]
    ensures SumOf(s.t.payslips, CarryIds(s.t.payslips, "tx")) == 15
    ensures s.t.payslips == CARRIED && s.t.epochs == T3.epochs && s.t.rewards == T3.rewards && s.pc == Sending("tx", [])
  {
    r := Submit(p);
    s := PayoutApply(Sys(T3, Submitting([0]), BASED), Claim("tx", 2));
    r := Extend(p, r, Sys(T3, Submitting([0]), BASED), Claim("tx", 2), s);
    FifteenCarried(s.t.payslips);
  }

  lemma TinyExists() returns (p: Policy)
    ensures TinyChain(p)
  {
    p := TINY;
    TinyIsTiny();
  }

  // Sent, its transaction is completed first,
  lemma TransactionFirst(p: Policy) returns (r: Run, s: Sys)
    requires TinyChain(p)
    ensures Running(p, r, s) && s.pc == Settling("tx", TxCompleted, [])
    ensures s.t.payslips == CARRIED && s.t.epochs == T3.epochs && s.t.rewards == T3.rewards
    ensures s.t.transactions == map["tx" := Transaction("A", 10, TxCompleted, 2)]
  {
    var sent: Sys;
    r, sent := LateArrival(p);
    r, s := Steps(p, r, sent, Broadcast);
    r, s := Steps(p, r, s, Return);
    r, s := Steps(p, r, s, ListAwaiting(["tx"]));
    assert ["tx"][1..] == [];
    r, s := Steps(p, r, s, MarkTransaction(TxCompleted));
  }

  // and if the second statement does not follow, both payslips are orphaned,
  lemma PayslipsOrphaned() returns (p: Policy, r: Run, s: Sys)
    ensures Running(p, r, s) && Orphaned(s, 0, "tx") && Orphaned(s, 1, "tx")
  {
    p := TinyExists();
    r, s := TransactionFirst(p);
    r, s := Steps(p, r, s, Return);
  }

  // or else both are completed, before height 3 is replayed.
  lemma PaidEarly(p: Policy) returns (r: Run, s: Sys)
    requires TinyChain(p)
    ensures Running(p, r, s) && s.pc == Confirming([])
    ensures s.t.payslips == PAID && s.t.epochs == T3.epochs && s.t.rewards == T3.rewards
    ensures s.t.transactions == map["tx" := Transaction("A", 10, TxCompleted, 2)]
  {
    r, s := TransactionFirst(p);
    r, s := Steps(p, r, s, MarkPayslips);
    assert s.t.payslips == PAID;
  }

  lemma Steps(p: Policy, r: Run, s: Sys, step: Step) returns (r': Run, s': Sys)
    requires Running(p, r, s) && !IsHeightStep(step) && PayoutEnabled(s, step)
    ensures Running(p, r', s') && s' == PayoutApply(s, step)
  {
    s' := PayoutApply(s, step);
    r' := Extend(p, r, s, step, s');
  }

  // So a transaction may settle more than it pays: here 10 Luna complete payslips
  // worth 15, because one became pending while the approved payout was held.
  lemma LateArrivalIsSettledUnpaid() returns (p: Policy, r: Run, s: Sys)
    ensures Running(p, r, s) && "tx" in s.t.transactions && s.t.transactions["tx"].status == TxCompleted
    ensures forall k :: 0 <= k < |s.t.payslips| ==> s.t.payslips[k].txHash == Some("tx") && s.t.payslips[k].status == Completed
    ensures s.t.transactions["tx"].amount == 10 && SumOf(s.t.payslips, CarryIds(s.t.payslips, "tx")) == 15
  {
    p := TinyExists();
    r, s := PaidEarly(p);
    assert PayslipAmounts(PAID) == PayslipAmounts(CARRIED) && CarryIds(PAID, "tx") == CarryIds(CARRIED, "tx");
    FifteenCarried(CARRIED);
  }

  // After the same run epoch 1 is marked completed although its last batch is still to come.
  lemma EpochCompletedTooEarly() returns (p: Policy, r: Run, s: Sys)
    ensures Running(p, r, s) && 1 in s.t.epochs && s.t.epochs[1] == EpochCompleted
    ensures EpochOfBatch(p, 2) == 1 && 2 !in s.t.rewards
  {
    p := TinyExists();
    assert TinyHeight(p, 2);
    var before: Sys;
    r, before := PaidEarly(p);
    BothSelected(before.t);
    r, s := Steps(p, r, before, FinalizeEpochs);
  }

  lemma BothSelected(t: Tables)
    requires t.payslips == PAID && t.epochs == T3.epochs && t.rewards == T3.rewards
    ensures FinalizeSelects(t, 1)
  {
    FinalizeSelectsExactly(t, 1);
    assert InEpoch(t, 1, 1);
  }

  // If the cursor cannot be read after height 2 is collected, height 1 is replayed.
  lemma CursorSetBack() returns (p: Policy, r: Run, before: Sys, s: Sys)
    ensures Running(p, r, s) && LastTaken(r, before, RewindCursor) && s.pc.Idle?
    ensures NextHeight(p, s.t) < NextHeight(p, before.t) <= Top(p, r, |r.states| - 1)
  {
    p := TinyExists();
    var r0 := CollectSecond(p);
    before := Sys(T3, Idle, BASED);
    s := Sys(T3.(cursor := Some(0)), Idle, BASED);
    r := Extend(p, r0, before, RewindCursor, s);
    var _ := TopIsHighest(p, r, |r.states| - 1);
  }
}
