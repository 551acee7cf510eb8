# Verified model of GoPool

GoPool is a Nimiq staking pool: a daemon replays the chain, records each batch's
reward as one payslip per staker, pays pending payslips out in transactions, and
runs the validator's own actions; an API process serves operators and stakers on
the same database. This project models those parts in Dafny and proves what they
promise, for every input, every interleaving of daemon and operator steps, and
every point at which the daemon can stop.

## How it is organised

| files | what they hold |
|---|---|
| `ChainPolicy.dfy` | heights, batches and epochs: rounding-up division, classification, reward attribution |
| `Rewards.dfy` | the pool fee and the integer distribution of a reward, with its 64-bit products |
| `Tables.dfy` | the tables, and one function per SQL statement |
| `Ledger.dfy` | the payout ledger as a step machine: one step is one committed statement or database transaction of the daemon, or of an operator request |
| `LedgerInvariant.dfy` | the inductive invariant |
| `LedgerRuns.dfy`, `LedgerAmounts.dfy`, `LedgerSettlement.dfy`, `LedgerCompletion.dfy`, `LedgerHeights.dfy`, `LedgerSnapshots.dfy`, `LedgerFanOut.dfy` | theorems over all runs: conservation and attachment, where amounts come from, settlement, completed epochs, replayed heights, staker snapshots, a batch's payslips |
| `LedgerWitnesses.dfy` | concrete runs of what is not guaranteed |
| `Database.dfy`, `Manager.dfy`, `Replay.dfy` | the imperative side: tables as fields updated in place, and the daemon's loops over them. A ghost record ties every statement to a step of the machine, so each theorem about runs holds of every state these methods reach |
| `Slots.dfy`, `Apportionment.dfy`, `Permutations.dfy` | largest-remainder slot apportionment, in place with wrap-around, and what it guarantees |
| `ValidatorActions.dfy`, `ValidatorActionRuns.dfy`, `ActionWitnesses.dfy`, `ActionQueue.dfy` | the validator-action machine, its invariants over runs, concrete runs, and its table and loops as classes |
| `StakeCodec.dfy` | the unsigned staking transaction, its decoding, and the check of the signed one |
| `Stuck.dfy`, `Lag.dfy` | stuck payouts and chain-lag alerts |
| `Prelude.dfy`, `Arithmetic.dfy`, `Sums.dfy`, `Filters.dfy` | optional values, machine widths, sums over selected rows, lists with entries left out |

The main results:

- **Conservation.** In every reachable state the awaiting and completed
  transactions of an address never add up to more than its payslips, and all of
  them never to more than the rewards collected. A transaction pays in full if and
  only if no payslip of its address was issued or retried between the step that
  listed the address and the step that claimed it (`PaysInFullExactly`); in a
  concrete run one was, and 10 Luna complete payslips worth 15.
- **No double settlement, one attempt at a time.** A payslip lets go of a hash
  only if that transaction failed, and only through an operator retry of it. Two
  approved audits, or an approved one beside an awaiting transaction, never
  coexist for an address, so the partial unique index never rejects a claim.
- **As the network answers.** Without database errors a confirmation pass completes
  an awaiting payout if and only if it is reported final and succeeded, and fails it
  if and only if it is reported final and not succeeded, or is overdue without a
  final answer (`RunConfirmations`). Elections, batches, requests of the operator and
  the validator's own actions are likewise stated in terms of what was answered and
  what the tables held.
- **Settling is two statements.** Payslips follow their transaction if and only
  if the second statement is the daemon's next step; otherwise they are orphaned
  for the rest of the run, as in a concrete one (`PayslipsOrphaned`).
- **Completed epochs.** A completed epoch is fully paid from then on, however the
  run continues, if and only if the reward of its last batch was recorded when it
  was completed (`CompletedStaysPaidExactly`).
- **Fan-outs are many statements.** Once the daemon is done with a batch, every
  share planned for it is issued, and for good, if and only if it was not stopped
  with shares still to insert (`FanOutExactly`). An epoch's snapshot is what its
  election was to insert if and only if the election was not stopped with a staker
  of the epoch left (`SnapshotExactly`); whole or not, it is frozen then. Concrete
  runs leave a batch without a payslip and an epoch without a staker.
- **Replay.** The rewards recorded are always a prefix of the batches, up to the
  highest height come to; replaying heights below it changes nothing but the
  cursor. With the node answering and no failed insert the cursor reaches the head
  if and only if the genesis election was not cut between its two rows or the head
  is before the first boundary. It is cut exactly by a stop in between, and then
  for ever.
- **Slots.** The counts add up, keep the quota rule and are monotone in stake
  whenever no product of a stake and the slots reaches 2^64, which is exactly when
  every quota is the exact floor.
- **Rewards.** A reward is split and shared out without loss up to rounding. More
  stake never earns less, up to a largest stake, if and only if the product of the
  staker share with that stake fits in 64 bits (`ShareMonotoneExactly`).
- **Actions, codec, alerts.** See the table.

Where the code and its documentation disagree, the model follows the code:

- `internal/pool/lifecycle.go:30-34` says a pending reactivation is cleared once
  the validator is no longer jailed. Nothing clears it: `ReactivationNeverRearms`.
- `internal/api/operator_handlers.go:113-131` approves pending audit rows. No
  statement writes one, so the request always answers "conflict".
- `internal/api/stake_handlers.go:238-242` says everything but the inner proof
  must match byte for byte. Sender data is not compared: `SenderDataIsNotCompared`.
- `internal/pool/checkpoint.go:29-30` speaks of stored percentages; the amounts
  come from integer stakes.
- `internal/api/operator_handlers.go:141-144` skips an audit row whatever its
  status, executed ones included.

Assumptions: an epoch is a whole number of batches; heights stay one epoch below
the end of the 32-bit range (`RoundingUpDoesNotWrap` says that no sum then wraps);
one daemon on a database; sums of stakes and stored amounts stay below 2^63. The
query of an epoch's stakers has no ORDER BY (`sql/queries.sql:51-52`): the model
takes the rows in insertion order, so the order of a batch's payslips, though not
which there are, rests on that.

## Model

| member | source | states |
|---|---|---|
| LedgerRuns.AddressConservation | internal/pool/payout.go:98-360 | in every state of every run, the awaiting and completed transactions to an address add up to at most the payslips issued to it |
| LedgerRuns.TotalConservation | internal/pool/checkpoint.go:67-101 | all awaiting and completed transactions add up to at most all payslips, and all payslips to at most the sum of the recorded rewards |
| LedgerRuns.PaysExactlyWhatItCounted | sql/queries.sql:64-87 | a transaction not failed carries every payslip its audit row counted, and falls short by exactly the others it carries |
| LedgerAmounts.BasisWasPending | sql/queries.sql:64-80 | what an audit row counted is exactly what was pending for its address at the step that listed it |
| LedgerAmounts.ApprovedWasListed | internal/pool/payout.go:192-200 | for an approved row, moreover, nothing was claimed for the address since that step |
| LedgerAmounts.ClaimAttaches | sql/queries.sql:82-87 | a claim attaches exactly what is pending for its address, and spends an approved row |
| LedgerAmounts.PendingGrows | sql/queries.sql:61-62 | between claims the pending payslips of an address only grow, and stay the same iff none is issued or retried |
| LedgerAmounts.PaysInFullExactly | internal/pool/payout.go:98-360 | a transaction not failed pays what was pending when its address was listed and carries what was pending when it was claimed; it pays in full iff no payslip of the address was issued or retried in between |
| LedgerRuns.OneActiveAttempt | sql/queries.sql:64-80 | never two approved payout audits, two awaiting transactions, or one of each, for an address |
| LedgerRuns.IndexNeverRejects | schema/scheme.sql:68-70 | the partial unique index never rejects a claim; a claim succeeds iff the audit row is approved and the hash is new |
| LedgerRuns.TransactionsAreAudited | internal/pool/payout.go:341-360 | each transaction has exactly one audit row, with its hash, address and amount; unless failed it has a payslip, and all its payslips are its address's |
| LedgerRuns.RecordedBeforeBroadcast | internal/pool/payout.go:276-285 | a hash is in the transactions table before it reaches the network, and is broadcast once |
| LedgerRuns.ApproveNeverSucceeds | internal/api/operator_handlers.go:113-131 | no audit row is ever pending, so an approval never takes effect |
| LedgerRuns.SkippedForGood | internal/api/operator_handlers.go:133-149 | a row the operator skips, whatever its status was, is as the skip left it in every later state, and no later claim takes it |
| LedgerRuns.RunEvolves | sql/queries.sql:82-105 | over any stretch of a run: rows are never deleted, completed payslips and final transactions never change, an audit not approved never becomes approved, and a payslip drops a hash only after its transaction failed |
| LedgerRuns.NeverSettledTwice | internal/pool/confirmation.go:47-180 | every hash a payslip carried earlier belongs to a failed transaction; a completed payslip stays so, and so does its completed transaction |
| LedgerRuns.SecondAttachmentNeedsRetry | sql/queries.sql:384-402 | between carrying a hash and not carrying it lies an operator retry of that hash |
| LedgerRuns.CarriedSlipStep | sql/queries.sql:89-90 | a step changes a payslip that carries a hash only by retrying that hash or by the second settlement statement for it |
| LedgerInvariant.StepKeepsInv | sql/queries.sql:61-105 | every step keeps the books: approved amounts within pending payslips, transaction amounts within carried payslips, rewards within issued amounts, work lists valid |
| LedgerInvariant.RunInv | internal/db/transactions.go:11-25 | the invariant holds in every reachable state |
| LedgerInvariant.ClaimKeepsBooks | internal/pool/payout.go:341-360 | the claim moves the pending payslips an approved amount counted under the new hash, keeping all books |
| LedgerInvariant.RetryKeepsBooks | internal/api/operator_operations_handlers.go:422-433 | a retry keeps the books: no approved or unfailed amount loses a payslip it counted |
| LedgerInvariant.AddPayslipFunded | internal/pool/checkpoint.go:89-101 | each payslip inserted keeps the batch within its reward and at most one per address, however many are still to come |
| LedgerSettlement.SettledIffSecondStatementRuns | internal/pool/confirmation.go:86-91 | after the transaction row is final its payslips are settled with the same outcome iff the daemon's next step is the second statement; otherwise they stay awaiting for good |
| LedgerSettlement.OrphanForever | internal/pool/confirmation.go:108-113 | a payslip awaiting under a final transaction, with the daemon elsewhere, never changes again |
| LedgerSettlement.SealedForever | internal/pool/checkpoint.go:38-44 | an epoch with all its batches recorded and paid stays so in every later state |
| LedgerSettlement.AllBatchesIn | internal/pool/checkpoint.go:61 | all batches of an epoch are recorded iff its last one is |
| LedgerSettlement.CursorSaysLastBatch | internal/pool/pool.go:466-476 | a cursor at g + e*BlocksPerEpoch + BlocksPerBatch or later says that it is |
| LedgerSettlement.SelectedIsSealedExactly | sql/queries.sql:33-46 | at a completion step, a selected epoch has everything recorded and paid iff its last batch is recorded |
| LedgerSettlement.FinalizedStaysPaid | sql/queries.sql:33-46 | an epoch completed with its last batch recorded is fully paid in every later state |
| LedgerCompletion.CompletedButOwing | sql/queries.sql:33-46 | completed without it, some continuation of the run has an unpaid payslip under the completed row |
| LedgerCompletion.CompletedStaysPaidExactly | internal/pool/confirmation.go:132-138 | a completed epoch is fully paid from then on in every continuation iff its last batch's reward was recorded |
| LedgerCompletion.AdvanceOnce | internal/pool/pool.go:522-536 | from every idle state with epoch 0 written some continuation takes the cursor one height further |
| LedgerHeights.TopIsHighest | internal/pool/pool.go:455-463 | the top of a run is the highest height come to: no state is beyond it and one is at it |
| LedgerHeights.RewardsArePrefix | internal/pool/pool.go:455-476 | with top h the rewards are batches 0..(h-1-g)/B-1, plus at most the one that ends at h, each under its epoch, one payslip per address, within the amount, wherever the cursor is |
| LedgerHeights.ReplayedChangesNothing | internal/pool/pool.go:455-476 | below the top, where an unreadable cursor may set the replay back to, a height step changes only the cursor, and advancing it is possible |
| LedgerWitnesses.CursorSetBack | internal/pool/pool.go:459-463 | a run whose cursor cannot be read and goes back below the top |
| LedgerSnapshots.SnapshotBeforeReward | internal/pool/election.go:33-52 | in every run a recorded batch's epoch was elected at a height below the top, and its snapshot never changes again |
| LedgerSnapshots.SnapshotFrozen | internal/pool/election.go:44-52 | an epoch's stakers never change once its election is over, finished or not |
| LedgerSnapshots.OmittedIsNeverPaid | internal/pool/checkpoint.go:61-65 | an address a closed snapshot lacks gets no payslip of the epoch in any later state |
| LedgerSnapshots.CutSnapshotStaysCut | internal/pool/election.go:137-151 | a staker still to be inserted when the election stops is in no later snapshot of the epoch and gets none of its payslips |
| LedgerSnapshots.SnapshotProgress | internal/pool/election.go:137-151 | while the election lasts, the stakers in and those left add up to what they were; once it is over the epoch has them all iff nothing cut it |
| LedgerSnapshots.SnapshotExactly | internal/pool/election.go:137-151 | from any state of an election with the epoch's row written, the closed snapshot is the stakers in it and left then, in order, iff no step between stopped the election with one of the epoch left |
| LedgerSnapshots.WholeSnapshotExactly | internal/pool/election.go:44-151 | an epoch whose row was written ends up with exactly the stakers its election began with iff it was not so stopped |
| LedgerFanOut.FanOutProgress | internal/pool/checkpoint.go:89-101 | at every later state a first part of the plan is issued and nobody else of it has a payslip; the rest is still to insert, or the fan-out is over and is whole iff it was not stopped |
| LedgerFanOut.FanOutExactly | internal/pool/checkpoint.go:38-44 | once the daemon is not collecting the batch any more, every planned share is issued in full, and every planned address has its payslip, iff no step between stopped it with shares still to insert |
| LedgerFanOut.CutFanOutStaysCut | internal/pool/checkpoint.go:38-44 | a share not inserted when the fan-out stops is inserted in no later state |
| LedgerWitnesses.FanOutCanBeCut | internal/pool/checkpoint.go:67-101 | a run that ends with a reward recorded and its only staker without a payslip |
| LedgerHeights.RewardEpochExists | internal/pool/election.go:35-42 | at a boundary the reward's epoch row exists iff it is not the first boundary or the genesis election wrote epoch 0 |
| LedgerHeights.CollectPossible | internal/pool/checkpoint.go:61-73 | collecting is possible iff the reward is missing and that row exists |
| LedgerHeights.BelowTopIsDone | internal/pool/pool.go:522-536 | at every height below the top, and so at every one the cursor has passed, both handlers find their row and return before writing |
| LedgerHeights.CutExactly | internal/pool/election.go:44-64 | epoch 1 is written and epoch 0 will not be iff the daemon stopped, or its insert failed, between the two rows |
| LedgerHeights.CutGenesisElectionStallsForever | internal/pool/election.go:44-64 | from then on the cursor never passes the first boundary and batch 0 is never recorded, whatever is retried |
| LedgerWitnesses.GenesisElectionCanBeCut | internal/pool/election.go:129-135 | a run that gets there |
| LedgerWitnesses.SnapshotCanBeCut | internal/pool/election.go:129-151 | a run whose election stops with a staker of epoch 1 still to insert, and leaves the epoch in progress with nobody in its snapshot |
| LedgerWitnesses.PayslipsOrphaned | internal/pool/confirmation.go:86-91 | a run that ends with two payslips orphaned under a completed transaction |
| LedgerWitnesses.LateArrivalIsSettledUnpaid | internal/pool/payout.go:243-259 | a run in which a completed transaction of 10 Luna has completed payslips worth 15 |
| LedgerWitnesses.EpochCompletedTooEarly | sql/queries.sql:33-46 | a run in which an epoch is completed before its last batch is collected |
| Tables.FinalizeSelectsExactly | sql/queries.sql:33-46 | the two-level grouped count selects exactly the in-progress epochs with a payslip whose recorded payslips are all completed |
| Tables.GroupKeysExactly | sql/queries.sql:37-41 | GROUP BY yields each key once |
| Database.Database.PersistPayoutSubmission | internal/pool/payout.go:341-360 | succeeds iff the row is approved and the hash new; then the row is executed, the transaction awaits with its amount and height, and exactly the address's pending payslips carry it; otherwise an error is returned and nothing changed |
| Database.Database.HandlePayoutRetry | internal/api/operator_operations_handlers.go:422-441 | exactly the failed payslips of a failed transaction, with no other one awaiting to their address, return to pending, and none means no write |
| Database.Database.HandleAuditSkip | internal/api/operator_handlers.go:133-149 | the row, if there is one, becomes skipped whatever its status, and nothing else changes |
| Database.Database.HandleAuditApprove | internal/api/operator_handlers.go:113-131 | the pending row would be approved, but there is none: always a conflict, with no effect |
| Database.Database.Interfere | internal/api/operator_operations_handlers.go:401-448 | any number of operator requests only skips audits and returns failed payslips to pending |
| Database.Database.GetEligibleForPayout | sql/queries.sql:64-80 | exactly the addresses with a pending payslip, no approved audit, no awaiting transaction and a pending sum that reaches the minimum, each once with that sum |
| Database.Database.ListApprovedAuditLogs | sql/queries.sql:201-205 | exactly the approved rows, each once |
| Database.Database.GetPendingTransactions | sql/queries.sql:101-102 | exactly the awaiting hashes, each once |
| Database.Database.UpdateTransaction | sql/queries.sql:104-105 | that transaction alone changes, in its status alone |
| Database.Database.UpdatePayslips | sql/queries.sql:89-90 | exactly the payslips carrying the hash get the final status, the others keep theirs |
| Database.Database.UpdateEpochs | internal/pool/confirmation.go:132-138 | an in-progress epoch is completed iff it has a payslip and all its recorded payslips are completed; no other row changes |
| Database.Database.InsertReward | sql/queries.sql:57-59 | adds the batch's reward row, split and attributed as computed |
| Database.Database.InsertPayslip | sql/queries.sql:61-62 | appends the next planned payslip as pending |
| Database.Database.InsertAuditLog | sql/queries.sql:190-193 | appends the audit row of the next eligible address, approved or dry-run, and remembers what its amount counted |
| Database.Database.InsertEpoch | sql/queries.sql:24-25 | adds the next row of the election under way, which was not there before, and nothing else |
| Database.Database.InsertStaker | sql/queries.sql:48-49 | appends the next staker of the election under way |
| Database.Database.UpsertCursor | sql/queries.sql:4-6 | moves the cursor to the next height, or back to genesis; the height must be done |
| Manager.Manager.RunPayouts | internal/pool/payout.go:98-218 | audits inserted in a pass cost at most the balance read at its start; without failed inserts a row is inserted iff its fee is quoted, is zero or a tenth of the amount at most, and both fit what the rows inserted before it leave |
| Manager.GreedyIsFirstCome | internal/pool/payout.go:166-206 | the loop serves exactly those rows, each as quoted |
| Manager.Manager.ProposeNext | internal/pool/payout.go:149-207 | inserts the row and sets its cost aside iff the payout was quoted, is worth its fee and fits what is left, or an insert failed and nothing is set aside |
| Manager.TurnWithinBudget | internal/pool/payout.go:205-206 | what is left plus what the inserted rows cost never changes over a turn |
| Manager.GreedyTurn | internal/pool/payout.go:166-206 | one turn of the loop extends the first-come-first-served result by one row |
| Manager.Manager.ClaimThenSend | internal/pool/payout.go:276-285 | what is sent was claimed first, and a refused claim sends nothing and changes nothing |
| Manager.Manager.ProcessApprovedPayouts | internal/pool/payout.go:221-333 | what is left plus what the claimed rows cost is the balance read at the start; without database errors no payout stays approved that the rest could have paid |
| Manager.Manager.SubmitNext | internal/pool/payout.go:249-283 | one turn keeps what is left plus what the claimed rows cost; without database errors the payout is not approved any more or could not be sent |
| Manager.Manager.ConfirmTurn | internal/pool/confirmation.go:60-129 | one more transaction ends as its answer asks, the others untouched but for retries; only a failed settlement of a final answer ends the pass |
| Manager.Manager.RunConfirmations | internal/pool/confirmation.go:47-140 | without database errors every awaiting transaction ends completed iff reported final and succeeded, failed iff final and not, or not final and overdue by the configured epochs in heights or time; its payslips end with it, a failed one perhaps retried; no other transaction changes, and the settled epochs are completed, whatever the operator does between any two statements |
| Manager.DecisionEnds | internal/pool/confirmation.go:33-41 | the same for the decision on one transaction |
| Manager.Manager.SettleBoth | internal/pool/confirmation.go:145-151 | with no failed statement the transaction and every payslip carrying its hash end with the same outcome; a failure leaves the rest of the list to be worked |
| Replay.Replayer.HandleElection | internal/pool/election.go:32-171 | with a row for one of its epochs nothing changes; otherwise, finished, each of them is in progress iff the node answered with a validator not retired, not inactive or jailed beyond the height, and with stakers, or else has the first of those reasons as its status; in progress it holds exactly the stakers with a balance, in order; no other epoch is added |
| Replay.SnapshotPicks | internal/pool/election.go:137-142 | a snapshot is the stakers with a balance, each place once, in the node's order |
| Replay.Replayer.HandleCheckpoint | internal/pool/checkpoint.go:31-124 | a recorded batch changes nothing; a new one's amount and fee add up to this validator's reward inherents, and its payslips share the amount out by stake, in order, all of them or a first part if an insert fails |
| Replay.OwnRewardIs | internal/pool/checkpoint.go:52-58 | the reward is the sum of the reward inherents of this validator alone, in 64 bits |
| Replay.Replayer.ProcessHeight | internal/pool/pool.go:522-536 | a height done before changes nothing, and so any the cursor has passed; with complete answers a new one succeeds |
| Replay.Replayer.ReplayTo | internal/pool/pool.go:455-476 | with the heights not done before answered for and no failed insert, the cursor reaches the head iff the genesis election is not cut or the head is before the first boundary; at the head the rewards are the closed batches and those there before. An unreadable cursor counts as missing |
| Replay.Replayer.InsertPayslips | internal/pool/checkpoint.go:89-101 | the payslips in the table are always the first of the plan, and all of them on success |
| Replay.Replayer.InsertEpochs | internal/pool/election.go:129-135 | the rows are inserted in order, all of them unless an insert fails |
| Replay.Replayer.InsertStakers | internal/pool/election.go:137-151 | the snapshot in the node's order, a prefix of it if an insert fails |
| Replay.Replayer.CollectBatch | internal/pool/checkpoint.go:48-101 | a new batch is collected iff its epoch row exists, given the node's answer and no failed insert; epoch, amount, fee, number of stakers and payslips are then as that says |
| Replay.Replayer.Advance | internal/pool/pool.go:466-476 | the cursor is written exactly when the height is done, and no reward is added but that of the batch ending there |
| ChainPolicy.EpochClockConsistent | internal/pool/pool.go:144-167 | at every height the epoch changes right after the blocks left, with the time to match; after genesis blocks gone and left make an epoch and none is left exactly at an election |
| ChainPolicy.RoundingUpDoesNotWrap | internal/pool/pool.go:122-124 | no sum formed while rounding up leaves 32 bits |
| ChainPolicy.ElectionNumbers | internal/pool/pool.go:93-113 | epoch e ends at an election block, the last height numbered e |
| ChainPolicy.MacroHeight | internal/pool/checkpoint.go:32-36 | the macro heights after genesis are exactly the collect heights, one per batch |
| ChainPolicy.RewardAttribution | internal/pool/checkpoint.go:61 | batch 0 goes to epoch 0, every other batch to the epoch of all its heights, and epoch e >= 1 gets exactly n consecutive batches |
| Rewards.SplitConserves | internal/pool/checkpoint.go:20-24 | what the stakers and the pool get is the reward, for every fee up to 10000 basis points; the fee is the wrapped product over 10000, and the exact floor iff the product fits |
| Rewards.PlanConserves | internal/pool/checkpoint.go:81-101 | the payslips add up to at most the staker share, short by less than the number of stakers when no product wraps |
| Rewards.PlanShape | internal/pool/checkpoint.go:89-98 | at most one payslip per address, each for a positive amount |
| Rewards.PlanIsSharedOut | internal/pool/checkpoint.go:81-98 | the payslips are those of the stakers whose share of the fund in proportion to stake is not zero, in order, each for that share |
| Rewards.ShareExact | internal/pool/checkpoint.go:92 | a share never exceeds the exact floor and equals it iff the product fits in 64 bits |
| Rewards.ShareMonotoneExactly | internal/pool/checkpoint.go:92 | with staker share and total stake adding up to at most 2^64, shares are monotone over all stakes up to the largest iff its product fits in 64 bits |
| Rewards.ShareNotMonotoneWhenWrapped | internal/pool/checkpoint.go:92 | two stakes for which it does, when it does not |
| Slots.SlotShare | internal/pool/slots.go:17-77 | not elected outside the set, with no stake, slot or address; otherwise the count of the first entry with the address, or an index out of range iff more slots are left over than there are entries |
| Slots.Apportion | internal/pool/slots.go:48-69 | the array ends up holding, for each entry, its wrapped quota and one more iff fewer entries rank before it than slots are left over |
| Slots.ComputeQuotas | internal/pool/slots.go:48-54 | the two arrays end up holding every entry's quota and remainder, and the used slots are their wrapped sum |
| Slots.GiveLeftover | internal/pool/slots.go:67-69 | the first entries in sorted order get one slot more, or the index runs out of range iff there are fewer of them |
| Slots.BuildEntries | internal/pool/slots.go:29-43 | the entries with a normalised address in order, their wrapped total, and whether the address is among them |
| Slots.StableOrder | internal/pool/slots.go:56-66 | a permutation of the indexes in which every entry beats those after it |
| Slots.CountsByPlace | internal/pool/slots.go:67-69 | handing out by sorted place is handing out by rank |
| Slots.RankIsPlace | internal/pool/slots.go:56-66 | the entry the stable sort puts at place k is the one exactly k entries beat |
| Slots.BeforeTotal | internal/pool/slots.go:65 | the address comparison is a strict total order |
| Slots.BeforeExactly | internal/pool/slots.go:65 | and lexicographic |
| Slots.NormalizeExactly | internal/pool/slots.go:10-12 | an address without its spaces, in capitals, its other characters in order |
| Slots.EntriesExactly | internal/pool/slots.go:29-43 | the entries are exactly the validators with an address that is not blank, in order |
| Apportionment.CountsAddUp | internal/pool/slots.go:48-69 | the counts add up to exactly the slots |
| Apportionment.LeftoverInBounds | internal/pool/slots.go:55-69 | slots minus used never underflows, and what is left over is less than the number of entries and at most the number of positive remainders |
| Apportionment.QuotaRule | internal/pool/slots.go:48-69 | each count is the floor of stake*slots/total or one more, one more iff its rank is below the leftover, and then only with a positive remainder |
| Apportionment.ExtraByRemainder | internal/pool/slots.go:60-69 | whoever has the larger remainder, or the same and the smaller address, gets one of the slots left over if the other does |
| Apportionment.MoreStakeNeverFewer | internal/pool/slots.go:60-66 | more stake never gets fewer slots; with equal stake the smaller address is served first |
| Apportionment.OrderDoesNotMatter | internal/pool/slots.go:55-76 | with distinct addresses any permutation of the validators gives every address the same count |
| Apportionment.ExactQuota | internal/pool/slots.go:50-53 | when no stake*slots reaches 2^64 quota and remainder are the exact ones |
| Apportionment.QuotasExactIff | internal/pool/slots.go:50-53 | with a total that fits, every quota is the exact floor iff no stake*slots reaches 2^64 |
| Apportionment.OverflowLeavesTooMany | internal/pool/slots.go:50-69 | a validator with 2^55 Luna and 512 slots, where the product wraps and the leftover loop would run off its list |
| ValidatorActions.GuardsReadOneState | sql/queries.sql:113-131 | the requested, outstanding, processing and submitted guards hold iff the COALESCE view of the two columns is in the matching set, and what that view is |
| ValidatorActions.PendingIsNotAState | sql/queries.sql:110-111 | the pending guard is no function of that view: a confirmed row can still be pending |
| ValidatorActionRuns.StepMovesAlongEdges | sql/queries.sql:263-300 | every step leaves each row alone or moves its one state along an allowed edge |
| ValidatorActionRuns.SignedAtMostOnce | internal/pool/lifecycle.go:188-223 | over every run a request is signed at most once, never if it was ever cancelled, and always before it is submitted; only deactivate and retire are |
| ValidatorActionRuns.OneUnfinishedRequest | sql/queries.sql:348-360 | at most one unfinished row per requestable action in every reachable state |
| ValidatorActionRuns.FinalForever | sql/queries.sql:285-300 | confirmed and failed rows never change; cancelled ones neither if their action is requestable, and otherwise can only be marked failed |
| ActionWitnesses.CancelledRowRefused | internal/pool/lifecycle.go:177-186 | a run in which that exception happens to a legacy row cancelled after it was listed |
| ValidatorActionRuns.StrandedForever | internal/pool/lifecycle.go:204-207 | a row left processing by a stop after its claim stays so, and its action can never be requested again |
| ValidatorActionRuns.ReactivationNeverRearms | internal/pool/lifecycle.go:52-58 | once a reactivation is recorded no other is ever sent, and no second pending one exists |
| ValidatorActionRuns.SentReactivationDisarms | internal/pool/lifecycle.go:79-90 | a reactivation is sent only with none pending, and recording it makes one pending |
| ValidatorActionRuns.StrandedExactly | internal/pool/lifecycle.go:188-207 | over every run a row is stranded iff the daemon stopped between claiming it and recording its outcome |
| ActionWitnesses.RequestStranded | internal/pool/lifecycle.go:204-207 | a run in which that happens |
| ValidatorActionRuns.ReactivationsSent | internal/pool/lifecycle.go:52-90 | over every run, reactivations sent are the stops before recording one, or one more; exactly those while none is recorded or in between |
| ActionWitnesses.UnrecordedIsRepeated | internal/pool/lifecycle.go:79-90 | every run that has sent a reactivation and not recorded it, with no deactivation or retirement unfinished, has a continuation that sends another |
| ActionWitnesses.ReactivatedTimes | internal/pool/lifecycle.go:79-90 | for every n, a run that sends n of them |
| ValidatorActionRuns.RunInv | internal/pool/lifecycle.go:170-257 | the invariant behind these holds in every reachable state |
| ActionQueue.ActionTable.QueueValidatorAction | internal/api/operator_operations_handlers.go:143-159 | a request is queued iff its action is deactivate or retire and no row of it is requested, processing or submitted; otherwise nothing changes |
| ActionQueue.ActionTable.CancelRequested | internal/api/operator_operations_handlers.go:270-292 | cancels iff the row is requested, and changes nothing otherwise |
| ActionQueue.ActionTable.ClaimRequest | internal/pool/lifecycle.go:188-195 | the claim is won iff the row is still requested |
| ActionQueue.ActionTable.GetRequested | sql/queries.sql:113-117 | exactly the requested rows, each once |
| ActionQueue.ActionTable.ReleaseClaim | sql/queries.sql:273-277 | gives a processing row back to requested |
| ActionQueue.ActionTable.SubmitClaimed | sql/queries.sql:279-283 | a signed row becomes submitted and pending, with its hash |
| ActionQueue.ActionTable.CompleteSubmitted | sql/queries.sql:285-290 | moves a submitted row to its final state and leaves any other alone |
| ActionQueue.ActionTable.InsertReactivationRow | sql/queries.sql:107-108 | appends the attempt, pending if it was sent and failed otherwise |
| ActionQueue.ActionTable.ListSubmittedActions | sql/queries.sql:302-328 | the newest submitted rows, each once, at most 100 |
| ActionQueue.Lifecycle.ProcessRequestedActions | internal/pool/lifecycle.go:170-245 | a pass that ends without an error has left every request it found failed, cancelled or submitted as its attempt went, or as the check then found it, and no new row processing; only a shutdown or a failed write keeps it from ending so |
| ActionQueue.Lifecycle.ProcessRequest | internal/pool/lifecycle.go:175-239 | a listed request ends failed if it may not be made, cancelled if the API was first, and otherwise as its attempt leaves it; no other row sees anything but the API |
| ActionQueue.Lifecycle.WorkOnClaim | internal/pool/lifecycle.go:197-257 | the claimed row is requested again after a shutdown before signing, failed after an error, submitted with its hash once sent, and still processing if interrupted |
| ActionQueue.Lifecycle.CheckSubmitted | internal/pool/lifecycle.go:281-316 | each of the newest 100 submitted rows ends confirmed iff its transaction is final and succeeded, failed iff final and not, and as it was otherwise; the others see only the API |
| ActionQueue.Lifecycle.RunAutoReactivate | internal/pool/lifecycle.go:22-109 | a reactivation is sent only with the jail elapsed and none recorded before; if none is, one was recorded, a deactivation or retirement is outstanding, the jail has not elapsed, or it could not be signed; what is sent is recorded with its outcome |
| StakeCodec.AppendUvarint | internal/api/stake_handlers.go:286-292 | appends the unsigned LEB128 encoding |
| StakeCodec.UvarintRoundTrip | internal/api/stake_handlers.go:286-292 | decoding undoes it whatever follows |
| StakeCodec.UvarintIsMinimal | internal/api/stake_handlers.go:286-292 | no encoding of the same value is shorter |
| StakeCodec.UvarintAt | internal/api/stake_handlers.go:286-292 | byte k holds bits 7k to 7k+6, with the top bit set on all but the last |
| StakeCodec.BigEndianIs | internal/api/stake_handlers.go:275-279 | amounts and heights have their most significant byte first |
| StakeCodec.UvarintLength | internal/api/stake_handlers.go:286-292 | it takes at most n bytes iff the value is below 128^n |
| StakeCodec.UvarintFitsTenBytes | internal/api/stake_handlers.go:286-292 | ten bytes are enough for 64 bits |
| StakeCodec.UnsignedStakingBytes | internal/api/stake_handlers.go:262-283 | the buffer grown step by step is the encoding of the transaction |
| StakeCodec.RoundTrip | internal/api/stake_handlers.go:262-283 | decoding it gives back every field, whatever follows |
| StakeCodec.Injective | internal/api/stake_handlers.go:262-283 | no two transactions share their bytes, nor does one begin another |
| StakeCodec.CreateStakerLayout | internal/api/stake_handlers_test.go:123-133 | the offsets of the fields with no sender data and a payload of 120 bytes |
| StakeCodec.MatchesExactly | internal/api/stake_handlers.go:243-254 | a transaction is accepted iff, given the quoted sender data, its encoding agrees with the quoted one outside the 98-byte inner proof |
| StakeCodec.SenderDataIsNotCompared | internal/api/stake_handlers.go:243-254 | any sender data may be put in an accepted transaction, and its encoding then no longer agrees |
| Stuck.StuckMeansEpochsPassed | internal/pool/stuck.go:14-28 | a payout with a height is stuck only when the head's epoch is at least the configured number past its own |
| Manager.StuckDecision | internal/pool/confirmation.go:60-84 | a payout with a height that a pass fails without a final answer is the configured number of epochs old |
| Stuck.StuckMonotone | internal/pool/stuck.go:18-21 | stuckness is monotone in head and time, and a failed head read never marks a payout with a height |
| Lag.AlertsPerEpisode | internal/pool/lag.go:42-59 | between recoveries at most one warning, at 30 blocks or more, then at most one error, two minutes or more later |
| Lag.ErrorNeedsWarning | internal/pool/lag.go:54-57 | every error has its episode's warning at least two minutes before it |
| Lag.AlertsExactly | internal/pool/lag.go:33-59 | a sample warns iff it lags 30 blocks and none warned before it in its episode; it escalates iff it lags more than two, one warned two minutes before, and none escalated |
| Lag.Monitor.MaybeAlertChainLag | internal/pool/lag.go:61-68 | the one field kept by the daemon is the state after all samples so far |

## Left out

- The node, HTTP, signing, fees, confirmations and clocks: their answers are parameters of the methods.
- Several daemons on one database.
- Alerts other than chain lag, metrics, operator events, logging, and the notes of which holds were already reported.
- `stakers.percentage`, wallet runway and other displayed ratios.
- `configstore`, `config`, migrations, sessions, setup, the faucet and the bootstrap decision table: the rows bootstrap inserts are steps of the action machine.
- The command-line deactivate, retire and delete: they touch no table.
- Statements no code calls: `ResetPayslipsToPending`, `ResetPayslipsOutForPayment`, `SetEpochStatus`, `SetValidatorActionOutcome`.
- What the chain did with a transaction the ledger marked failed as stuck.
- Audit rows of other kinds than payouts.
- Rewards.PlanConserves: the amounts and the total stake are unbounded, where the source stores them in 64 signed bits; only the products wrap.
- Replay.Replayer.HandleElection: the number of stakers and the balance stored in an epoch row are not modelled, since nothing reads them back.
- Slots.NormalizeAddr: upper-casing is that of ASCII, which addresses are written in.
- StakeCodec.MatchesExactly: the quoted payload ends with a whole inner proof, as the SDK builds it; a shorter one makes the source's slice expression panic.
- StakeCodec.UnsignedStakingBytes: the extended format is taken as given; the panic on another format is not modelled.
- Stuck.StuckMeansEpochsPassed: thresholds are exact where the source forms them in 64 bits.
- ChainPolicy.EpochClockConsistent: an unknown policy, for which the source returns an empty clock, is not modelled.
