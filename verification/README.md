# Smirk backend: a verified model

A Dafny model of the parts of the wallet backend where several actors or several versions of a fact
have to agree. `dafny verify dfyconfig.toml` checks everything.

**Public tips** (`TipRows`, `Chain`, `Funding`, `Sweep`, `Answers`, `Receipts`, `Lifecycle`,
`LifecycleTheorems`, `LifecycleEvidence`, `LifecycleOutcomes`, `LifecycleSettling`, `LifecycleWitnesses`,
`LifecycleCredit`, `LifecycleColumns`, `TipWorkers`, `PassOutcomes`, `WorkerRuns`). A tip row is moved by
user calls, the funding verifier, the sweep settler, the reorg reverter, garbage collection and the clock.
`Lifecycle` is a state machine over the whole row table in which every worker's read, probe and guarded
write are separate steps that interleave freely with everything else, and in which the chain may answer any
probe with anything. The guards are the `WHERE` clauses of the SQL layer. `Answers` and `Receipts` say, on
the fields of a server's answer alone, which spends and receipts it shows, and prove that probes and
verdicts report exactly those; the laws about settled, reverted and claimable tips are stated on the answer.
`TipWorkers` is the imperative side: a table object, the user calls that need two statements, and the loops
over a batch. `WorkerRuns` shows that what those loops leave is what a run of the state machine leaves, and
`PassOutcomes` what that is for one row.

**Operator settings** (`Overlay`, `AdminConfig`, `SettingsTable`). A sparse overlay over a boot
configuration, the recursive JSON merge, and the PUT handler that stores a change and then swaps it in or
leaves it for the next restart. The editable fields and the validation rule are parameters, so the laws
hold for any of them; `SettingsTable` gives the real table.

**Smaller cores.** Legacy user import (`LegacyImport`, `LegacyImportTheorems`, `LegacyFaults`,
`LegacyReports`), Electrum failover and sums (`Electrum`, `BalanceOrder`), the spend-once proof-of-work
store (`PowGate`), the restore gate and its price (`Restore`), the restore hashcash (`Hashcash`), premium
plans and prices (`Plans`). `Machine`, `Text` and `Permutations` hold the fixed-width integer operations,
the string operations and the sums they share.

## Where the code and its descriptions part

The model follows the code. These are the places where a description says more than the code does, each
with a proof of exactly how far it goes.

- The depth gate compares an `i64` count as `u64`: besides true depth it passes whenever the reported tip
  is two or more blocks below the winner (`Sweep.DepthGateExactly`; a run that settles that way:
  `LifecycleWitnesses.LaggingTipSettles`). A settled height is stored as `i32`
  and is the real one exactly in that range (`Sweep.StoredHeightExactly`).
- Three statuses are called terminal; only `clawed_back` is final (`LifecycleOutcomes.OnlyClawedBackIsFinal`,
  `LifecycleTheorems.TerminalMoves`).
- A claiming tip that is both grin and addressed to one user can never settle, because only a recorded
  excess dates a grin spend and recording is refused on a tip that is not public
  (`LifecycleOutcomes.CanSettleExactly`). Every other claiming tip can. Create accepts such a tip and its
  recipient can claim it (`LifecycleWitnesses.TargetedGrinIsReached`).
- Attribution is decided on the snapshot: a sweep recorded after the cycle read the row does not keep its
  claimer, even if it is the winner (`LifecycleOutcomes.AttributionExactly`; a run in which the recorded
  claimer is dropped: `LifecycleWitnesses.RecordedClaimerIsDropped`).
- A settle that finds the winner recorded keeps the claimer on the ground that the claimer recorded it. The
  ground is missing when another user claimed over the recorder, or when a settle put that sweep on the row
  and a reorg let it be claimed again. `LifecycleCredit.CreditExactly` says exactly when it holds;
  `LifecycleCredit.AnotherClaimerIsCredited` and `LifecycleCredit.StrangersSweepIsCredited` are runs where it
  does not.
- A live settings edit can be stored and still answer with an internal error
  (`AdminConfig.HotSwapFailsExactly`; with the erasure clause of the real validation:
  `AdminConfig.HotSwapCanFailAfterStoring`). A restart-required edit is reported as pending even when it
  changes nothing, and it changes nothing exactly when every field already runs with the value stored or
  patched for it (`AdminConfig.ReportedPending`, `AdminConfig.NoOpIsReportedPending`).
- The import prints "skipped(already present)", but a skipped user need not be present
  (`LegacyImportTheorems.SkippedButAbsent`; exactly who is: `LegacyImportTheorems.PresentExactly`). A dry
  run predicts created and skipped rows exactly but can under-count dropped handles and npubs
  (`LegacyImportTheorems.DropsExactly`, `LegacyImportTheorems.DryRunUnderCounts`).
- The checked balance sum refuses by running sums, so its refusal can depend on the order of the addresses:
  exactly when the total fits but the positive or the negative deltas alone do not
  (`BalanceOrder.OrderDecidesExactly`).
- The price of an unlimited restore is cast to `u32`; the exact tip range in which deeper never costs less
  is `Restore.DeeperNeverCheaperExactly`.
- Spend-once rests on the challenge library refusing from the expiry second on; if it accepted in that
  second, a challenge could be spent twice (`PowGate.SpendOnceExactly`).

## Model

| member | source | states |
|---|---|---|
| Chain.SumPaidTo | src/infra/electrum.rs:315-326 | the accumulation loop, with its early refusals, computes the recursive checked total, which `Chain.ReceivedExactly` proves to be the sum |
| Chain.RefusalIsFinal | src/infra/electrum.rs:342-357 | once a prefix was rejected or overflowed, no continuation is accepted |
| Chain.PaidIsSum | src/infra/electrum.rs:315-326 | the total is the sum over the outputs that pay the address, by its single address or else the first listed one; there is none iff one of their amounts is rejected |
| Chain.ReceivedExactly | src/infra/electrum.rs:296-326 | a receipt is that sum, refused iff a matching amount is rejected or the sum exceeds 64 bits |
| Chain.SentExactlyWhen | src/infra/electrum.rs:342-357 | what an address sent is unknown iff some input is unresolved, and otherwise the sum over the spent outputs that paid it, under the same refusals |
| Chain.SpendExactly | src/tips/sweep_reconciler.rs:102-114 | a transaction is a spend iff every output to the address is zero, and undecided iff its receipt is refused |
| Funding.VerdictIgnoresOrder | src/tips/confirmation.rs:208-242 | the verdict is the same for every order in which the server lists the transactions |
| Funding.VerdictExactly | src/tips/confirmation.rs:208-242 | `Verified` iff the net is positive and covers the amount, `Short` iff nothing was sent and the receipt is positive but low, `Drained` iff something was sent and the net falls short |
| Funding.SpendNeverVerifies | src/tips/confirmation.rs:208-242 | inserting a transaction that sends at least what it receives never makes an unverified list verified |
| Funding.NetNeverOverReports | src/tips/confirmation.rs:200-242 | for every list, net is at most the real holding, which is at most the per-transaction saturating sum |
| Funding.NetIsHoldingExactly | src/tips/confirmation.rs:200-242 | the net is the real holding iff every prefix is solvent or nothing is held |
| Funding.VerifyElectrum | src/tips/confirmation.rs:319-373 | the Electrum loop with its early returns computes the verdict of the recursive totals |
| Funding.ElectrumRefinesClassifier | src/tips/confirmation.rs:319-373 | when no send is hidden, the Electrum verdict equals the light-wallet verdict on the true ledger |
| Funding.ElectrumNeverLosesVerified | src/tips/confirmation.rs:319-373 | on any history whose sums fit, the reported net is at least the true one, exactly equal iff no send is hidden or nothing is left, and a true `Verified` is never lost |
| Receipts.JudgeExactly | src/tips/confirmation.rs:208-242 | each verdict on a total received and a total sent, as arithmetic on the two and the amount |
| Receipts.SendReadExactly | src/infra/electrum.rs:315-357 | what one transaction tells the verifier: receipt, whether it is a spend, and what it sent |
| Receipts.ElectrumTotalsExactly | src/tips/confirmation.rs:319-373 | the totals are the sums over the confirmed entries capped at 64 bits, and there are none iff a confirmed lookup failed or an amount it needs cannot be told |
| Receipts.FundingVerdictExactly | src/tips/confirmation.rs:251-410 | the verdict on every answer, read off the answer: for grin `Verified` with the declared amount iff the commitment is an output and otherwise `Unfunded`; for the others the judgement on the confirmed receipts and sends; none iff a light-wallet sum leaves 64 bits |
| Receipts.FundingDecidedExactly | src/tips/confirmation.rs:425-504 | pending iff verified and mismatch iff short, each with the amount seen capped at 63 bits; every other verdict only stamps the check |
| Sweep.WinnerIsLeast | src/tips/sweep_reconciler.rs:93-99 | no listed spend is earlier in block and txid order than the winner |
| Sweep.WinnerIgnoresOrder | src/tips/sweep_reconciler.rs:93-99 | two responses that list the same spends in any order and multiplicity have the same winner |
| Answers.WinnerLeads | src/tips/sweep_reconciler.rs:93-99 | the winner is the entry that precedes every other: lower block, then smaller txid, then listed first |
| Sweep.ThresholdAgrees | src/tips/sweep_reconciler.rs:80-88 | the settle depth is the asset's funding confirmations, at least one, and every unknown asset gets the largest |
| Answers.ThresholdsExactly | src/tips/sweep_reconciler.rs:80-88 | one confirmation for Bitcoin and Litecoin, four for Wownero, ten for Monero, Grin and anything unknown |
| Sweep.DepthGateExactly | src/tips/sweep_reconciler.rs:236-247 | the gate passes iff the winner is at depth or the tip is two or more blocks below it |
| Sweep.StoredHeightExactly | src/tips/sweep_reconciler.rs:258-284 | the stored `i32` height is the block height iff that fits `i32` |
| Machine.TruncateExactly | src/tips/sweep_reconciler.rs:258-284 | the 32-bit cast lands in range and moves the value by whole turns of 2^32 |
| Sweep.CollectElectrumSpends | src/tips/sweep_reconciler.rs:406-438 | the probe loop pushes exactly the spends of the recursive definition and fails on any failed lookup |
| Sweep.ElectrumSpendsExactly | src/tips/sweep_reconciler.rs:406-438 | a spend is collected iff it is a confirmed history entry whose transaction pays the address nothing |
| Sweep.LwsSpendsExactly | src/tips/sweep_reconciler.rs:444-485 | a light-wallet transaction is a spend iff it is confirmed, sends, and receives nothing |
| Sweep.GrinSpendExactly | src/tips/sweep_reconciler.rs:354-403 | a grin spend is reported iff the output is gone and the recorded excess has a kernel, with that excess and height |
| Sweep.FundingSendsAreSweepSpends | src/tips/sweep_reconciler.rs:109-114 | if the funding verifier counts any send, the sweep probe of the same response finds a spend |
| Sweep.ProbeAlwaysFits | src/tips/sweep_reconciler.rs:317-334 | a successful probe implies the needed columns are present, and a grin probe reports only the recorded excess |
| Answers.GrinCommitmentExactly | src/tips/mod.rs:32-39 | the commitment is the column, or else the address, with the white space around it cut off, and absent iff nothing is left |
| Answers.ProbeExactly | src/tips/sweep_reconciler.rs:317-485 | a probe succeeds iff the answer is usable for the row, and then reports exactly the answer's own height (the server's tip, the light wallet's height or else its node's) and exactly the spends the answer shows |
| Answers.SettleDecidedExactly | src/tips/sweep_reconciler.rs:206-285 | the settle decision on any probe with any leading spend: settle on it iff it is deep enough, keeping the claimer iff the row records that spend |
| Answers.DueWinnerExactly | src/tips/sweep_reconciler.rs:206-247 | the cycle settles on a spend iff the answer shows it, shows none before it, and reports a tip that lets it settle |
| Sweep.RevertDecidedExactly | src/tips/sweep_reconciler.rs:536-580 | the reorg worker reverts iff the row records a sweep, the probe succeeded and no spend it shows is that sweep; otherwise it only stamps the check |
| Answers.LostSweepExactly | src/tips/sweep_reconciler.rs:536-580 | a successful probe lists no such sweep iff the answer is usable and shows that sweep at no height |
| Lifecycle.ApplyKeepsRowInv | src/infra/db/social_tips.rs:252-785 | every guarded update keeps the row invariant: settled iff stamped and dated, clawed back iff stamped, claimable only when verified for at least the amount |
| Lifecycle.IssuedUpdatesAreSound | src/tips/sweep_reconciler.rs:206-307 | in a reachable state every update a worker issues is backed by what it observed on its snapshot |
| Lifecycle.ConfirmStaysCurrent | src/tips/sweep_reconciler.rs:171-202 | while a confirm cycle is under way no queued row has its recorded sweep replaced by any other step |
| Lifecycle.ReorgStaysSettled | src/tips/sweep_reconciler.rs:502-531 | while a reorg cycle is under way every queued row is still settled with the sweep the cycle read |
| Lifecycle.RunKeepsInv | src/tips/sweep_reconciler.rs:1-40 | every run of every interleaving keeps the invariant; no row is both settled and clawed back |
| LifecycleTheorems.EveryMoveIsDocumented | migrations/20260710000001_social_tips.sql:76-80 | in every run each status change is a documented edge taken by its documented actor |
| LifecycleTheorems.TerminalMoves | src/models/tip_status.rs:74-82 | terminal rows are skipped by verifier and settler, and exactly the reorg revert and the sender's clawback of a cancelled tip move one |
| LifecycleTheorems.RowsAreCreated | src/api/tips.rs:324-445 | rows appear only through create, for a supported asset, a positive amount and its confirmations, public or for one recipient; every column of the new row is as stated |
| LifecycleTheorems.CreateSucceeds | src/api/tips.rs:324-445 | and create succeeds on every such request whose id is new |
| LifecycleEvidence.ClaimedHasEvidence | src/tips/sweep_reconciler.rs:171-307 | in every run a claimed row was settled by one confirm cycle that read it as awaiting its sweep, probed that very snapshot successfully, and wrote the canonical winner past the gate, which is the recorded sweep; it has been claimed since |
| LifecycleEvidence.SettledAtDepth | src/tips/sweep_reconciler.rs:206-285 | the answer it was probed with shows the recorded sweep at that height, shows no earlier spend, and reports a tip at the asset's depth or two or more blocks below the sweep |
| LifecycleEvidence.ClaimableWasVerified | src/tips/confirmation.rs:425-504 | in every run a row that is pending, claiming or claimed was verified by one worker that read it with its required confirmations and unverified and probed that very snapshot; the answer covers the amount, by the commitment among the outputs for grin and by confirmed receipts less sends otherwise, and the row records what it covers |
| LifecycleEvidence.RevertHasEvidence | src/tips/sweep_reconciler.rs:502-580 | in every run a settled row leaves `claimed` only by one reorg cycle that read it settled by its present sweep and probed it with a usable answer that shows that sweep at no height |
| LifecycleTheorems.RevertIsJustified | src/tips/sweep_reconciler.rs:536-580 | a settled row goes back only on a successful probe in which no spend has the txid it records at that moment |
| LifecycleTheorems.SettledStaysExactly | src/tips/sweep_reconciler.rs:536-580 | a settlement is kept through a whole run iff no reorg write acts on a successful probe of it in which no spend has its txid |
| LifecycleOutcomes.CallsSucceedAsAdvertised | src/api/tips.rs:572-787 | in every reachable state claim, clawback and cancel succeed exactly when the row is shown as such to that caller |
| LifecycleColumns.ClaimTakesEffect | src/infra/db/social_tips.rs:539-563 | in every reachable state a claim makes the caller the claimer from now on iff the row is shown as claimable to them, and else writes nothing |
| LifecycleColumns.RecordTakesEffect | src/infra/db/social_tips.rs:582-622 | a tidy sweep id is recorded iff the tip is public and claiming with no other sweep recorded, filling in a missing claimer and time, and else nothing is written |
| LifecycleColumns.AttachTakesEffect | src/infra/db/social_tips.rs:296-330 | only the sender's draft takes a tidy funding id and then awaits confirmation; no other row changes |
| LifecycleColumns.ReturnTakesEffect | src/infra/db/social_tips.rs:637-664 | the sender's draft is cancelled, and their tip that is neither draft, claimed nor clawed back is clawed back with its time |
| LifecycleColumns.MovesAreStamped | src/infra/db/social_tips.rs:539-746 | in every run each clawback, settlement and first claim carries the time of the event that made it, and a funded draft its transaction |
| LifecycleColumns.CountsAreStored | src/infra/db/social_tips.rs:391-412 | in every run a row holds the last count reported for it and the time of the first that was deep enough |
| LifecycleColumns.CollectedExactly | src/infra/db/social_tips.rs:894-930 | a collection cancels a row iff it is in the collected status and older than seven days |
| LifecycleColumns.YoungRowsAreNotCollected | src/tips/gc.rs:18-24 | in every run a tip cancelled within seven days of its creation was cancelled by its sender |
| LifecycleColumns.SelectionsExactly | src/infra/db/social_tips.rs:433-835 | in every reachable state verifier, settler and reorg worker select exactly the rows of their status not checked for thirty seconds |
| LifecycleColumns.CyclesAreBounded | src/tips/sweep_reconciler.rs:184-190 | in every run no cycle holds more than fifty rows |
| LifecycleOutcomes.RecordedSweepIsKept | src/infra/db/social_tips.rs:566-622 | first recorder wins: no user call replaces a recorded sweep |
| LifecycleOutcomes.GrinExcessIsImmutable | src/tips/sweep_reconciler.rs:354-403 | nothing in any run replaces the recorded kernel excess of a grin tip |
| LifecycleOutcomes.AttributionExactly | src/tips/sweep_reconciler.rs:249-285 | a settle keeps the claimer the row names iff the sweep on the snapshot is the winner, and only on a row that records the winner |
| LifecycleCredit.SweepHasOrigin | src/infra/db/social_tips.rs:582-746 | in every run the recorded sweep of a row was put there by one event, a first record or a settle, and has been there since |
| LifecycleCredit.CreditExactly | src/tips/sweep_reconciler.rs:249-253 | in every run the claimer named by a row with a sweep is the user who recorded it iff a call, not a settle, put it there, and the last call from that record on that named a claimer named the recorder |
| LifecycleCredit.SoleRecorderIsCredited | src/tips/sweep_reconciler.rs:249-253 | a recorder whom no other claimer preceded or followed is the one credited |
| LifecycleCredit.AnotherClaimerIsCredited | src/infra/db/social_tips.rs:539-563 | a run in which user 1 alone records, that sweep settles, and user 2 is credited |
| LifecycleCredit.StrangersSweepIsCredited | src/infra/db/social_tips.rs:764-785 | a run in which user 2 records only another sweep and is credited with the one that settles |
| LifecycleOutcomes.ClaimerHasClaimed | src/infra/db/social_tips.rs:539-622 | in every run a recorded claimer made that call on that row, and a targeted tip is never recorded as claimed by anyone but its recipient |
| LifecycleSettling.ReachedRowSettles | src/tips/sweep_reconciler.rs:206-307 | a row waiting in a cycle settles to the winner at the cycle's write for it, whatever anyone else did in between, short of the sender's clawback |
| LifecycleSettling.SettleConverges | src/tips/sweep_reconciler.rs:171-307 | for any batch, any row of it and any steps of others between read, probe and write: once the spends are fixed with the winner at depth the row settles to that winner, and nothing later changes it, whatever the order in later responses |
| LifecycleSettling.ClawbackIntervenes | src/api/tips.rs:756-787 | a clawback at any moment of the pass ends the row for good |
| LifecycleWitnesses.EveryTipCanBeClaimed | src/api/tips.rs:324-706 | every tip the create call accepts, with its asset's columns, has a run that funds, verifies and claims it |
| LifecycleWitnesses.TargetedGrinIsReached | src/infra/db/social_tips.rs:582-622 | a run to a claimed tip that no run settles |
| LifecycleWitnesses.RecordedClaimerIsDropped | src/tips/sweep_reconciler.rs:249-285 | a run whose row is settled by the sweep its claimer recorded and ends without a claimer |
| LifecycleWitnesses.LaggingTipSettles | src/tips/sweep_reconciler.rs:236-247 | a run that settles a row at height 5 on a reported tip of 3 |
| LifecycleOutcomes.ClawedBackIsFinal | src/infra/db/social_tips.rs:637-664 | a clawed-back tip stays so, unsettled and unattributed anew, in every continuation |
| LifecycleOutcomes.OnlyClawedBackIsFinal | src/models/tip_status.rs:16-41 | a reachable row's status is permanent iff it is clawed back |
| LifecycleOutcomes.CanSettleExactly | src/infra/db/social_tips.rs:582-622 | a claiming row has a continuation that settles it iff it is not a targeted grin tip |
| LifecycleOutcomes.ChangesAreBounded | src/models/tip_status.rs:15-41 | a run with `r` reorg reverts of a row changes its status at most `4 + 2r` times |
| TipWorkers.TipTable.Execute | src/infra/db/social_tips.rs:385-425 | a guarded update changes at most its row, by the update's effect, and returns it iff the guard held |
| TipWorkers.TipTable.AttachFunding | src/infra/db/social_tips.rs:296-355 | each outcome of attach exactly: attached, not found, different transaction, not a draft; repeating the same transaction changes nothing |
| TipWorkers.TipTable.ExplainAttachMiss | src/infra/db/social_tips.rs:328-355 | the follow-up read, on whatever the table holds by then, with the arm that finds the same transaction |
| TipWorkers.MissIsExplained | src/infra/db/social_tips.rs:328-355 | whatever happened since the miss, "attached" is answered iff the caller's row carries the transaction, and repeating the call then hits and changes nothing |
| TipWorkers.TipTable.ConfirmTipSweep | src/infra/db/social_tips.rs:582-622 | returns a row iff it is claiming or settled, never replacing a recorded sweep |
| TipWorkers.TipTable.ProcessAwaitingTip | src/tips/sweep_reconciler.rs:206-307 | rewrites only the tip's row, as the settle decision and the once-only stamp say; on the answer alone: `PassOutcomes.SettledRowExactly`, `PassOutcomes.UnsettledRowExactly` |
| TipWorkers.TipTable.ProcessSettledTip | src/tips/sweep_reconciler.rs:536-580 | rewrites only the tip's row, as the reorg decision and the once-only stamp say; on the answer alone: `PassOutcomes.RevertedRowExactly` |
| TipWorkers.TipTable.ConfirmCycle | src/tips/sweep_reconciler.rs:184-202 | batch isolation: each row becomes what its own snapshot and response make of it, no other row changes |
| TipWorkers.TipTable.ReorgCycle | src/tips/sweep_reconciler.rs:514-531 | batch isolation of the reorg pass |
| TipWorkers.TipTable.VerificationPass | src/tips/confirmation.rs:425-504 | batch isolation of the verification pass up to the row, if any, whose sums trap; on the answer alone: `PassOutcomes.JudgedRowExactly` |
| PassOutcomes.SettledRowExactly | src/tips/sweep_reconciler.rs:206-307 | on an answer that backs a sweep, every column the settle pass writes |
| PassOutcomes.UnsettledRowExactly | src/tips/sweep_reconciler.rs:206-247 | on an answer that backs none, only the check is stamped |
| PassOutcomes.RevertedRowExactly | src/tips/sweep_reconciler.rs:536-580 | a settled row is reverted iff the answer no longer shows the sweep it was read with, and every column the pass writes either way |
| PassOutcomes.JudgedRowExactly | src/tips/confirmation.rs:425-504 | every column the verification pass writes, by the verdict the answer calls for |
| PassOutcomes.OneVerdict | src/tips/confirmation.rs:268-410 | every answer calls for exactly one verdict, or traps, and then the row is left alone |
| TipWorkers.TipTable.CancelWhere | src/tips/gc.rs:38-120 | cancels exactly the rows past their age in the one status, and reports exactly those |
| TipWorkers.FailedProbesOnlyStamp | src/tips/sweep_reconciler.rs:209-221 | a failed probe changes nothing but the check stamp, in every pass |
| TipWorkers.ConfirmPassIsIdempotent | src/tips/sweep_reconciler.rs:206-307 | repeating a confirm pass on the same response changes at most the check stamp, and a settled row is not selected again |
| TipWorkers.ReorgPassIsIdempotent | src/tips/sweep_reconciler.rs:536-580 | likewise for the reorg pass |
| TipWorkers.VerificationPassIsIdempotent | src/tips/confirmation.rs:421-504 | likewise for the verification pass |
| WorkerRuns.ConfirmCycleIsARun | src/tips/sweep_reconciler.rs:171-307 | the table a confirm pass leaves is the table of a run of the state machine that begins the cycle, probes, writes and stamps each row, and ends it |
| WorkerRuns.ReorgCycleIsARun | src/tips/sweep_reconciler.rs:502-580 | likewise for the reorg pass |
| WorkerRuns.VerificationPassIsARun | src/tips/confirmation.rs:425-504 | likewise for the verification pass, which reads all its rows first, up to the row, if any, whose sums trap |
| Overlay.MergeInPlace | src/api/admin.rs:965-977 | the in-place recursive merge computes the recursive definition, in whatever order the entries are visited |
| Overlay.MergeIsOverride | src/api/admin.rs:963-977 | on overlay documents the merge is field-wise "patch wins if set" |
| Overlay.MergeAssociates | src/api/admin.rs:965-977 | the merge of overlays is associative up to nulls |
| Overlay.MergeUnits | src/api/admin.rs:965-977 | it is idempotent, and a patch that sets nothing is an identity on both sides |
| Overlay.AssignFields | src/config_overlay.rs:205-422 | assigning field by field in any order, stopping at a refused token and validating at the end, computes the overlay application that `Overlay.AppliedExactly` characterises |
| Overlay.NormalisedExactly | src/config_overlay.rs:205-422 | what each kind of field stores: a token that matches up to case where the field folds and exactly elsewhere, the same letters in the other case, nothing for an empty title, the value itself |
| Overlay.AppliedExactly | src/config_overlay.rs:200-424 | the overlay is applied iff some valid configuration has every named field as stored by its value and all else unchanged, and that is the result |
| Overlay.BadTokenExactly | src/config_overlay.rs:262-316 | the token error iff some named token field is given a value that is none of its tokens |
| Overlay.NormalisedIsNormal | src/config_overlay.rs:205-422 | an accepted value is stored in normal form |
| Overlay.ApplyIsNormal | src/config_overlay.rs:205-422 | an accepted overlay leaves a normal, valid configuration with everything it does not name unchanged |
| Overlay.ApplyIsAction | src/config_overlay.rs:205-422 | applying two overlays in turn is applying their merge, results and errors alike, once the first is accepted |
| Overlay.EditableRoundTrip | src/config_overlay.rs:482-560 | applying the populated overlay of a configuration restores it, non-editable part included, iff it is normal and valid |
| Overlay.ShownAlike | src/config_overlay.rs:482-560 | normal configurations that show alike agree on every editable field |
| SettingsTable.SystemRulesAreGood | src/config_overlay.rs:426-480 | the real table of editable fields meets the hypotheses of the overlay laws |
| SettingsTable.LiveFieldsExactly | src/config_overlay.rs:170-198 | an editable field is hot-swappable iff it is outside the two named switches and the three boot-bound groups |
| SettingsTable.TableExactly | src/config_overlay.rs:20-156 | field by field: the type and width of every editable setting, and what an edit of it stores |
| SettingsTable.ClassifyExactly | src/config_overlay.rs:170-198 | the class of every pair, editable or not |
| AdminConfig.ClassifyPatch | src/api/admin.rs:862-884 | the walk finds exactly the sections with a set field, and whether any set field needs a restart |
| AdminConfig.WritingChangedSectionsSuffices | src/api/admin.rs:890-917 | writing only the changed sections leaves rows that decode to the whole merged overlay |
| AdminConfig.ConfigServer.Put | src/api/admin.rs:837-961 | the handler over JSON rows is the protocol step over overlays, reply and state |
| AdminConfig.PutRefusedExactly | src/api/admin.rs:837-861 | a PUT is refused iff no valid configuration carries the stored settings with the patch, and for a token iff some stored or patched value is none of its field's |
| AdminConfig.PutStoresExactly | src/api/admin.rs:862-918 | a refused or empty PUT changes nothing and every other is stored |
| AdminConfig.DeferredPutExactly | src/api/admin.rs:919-938 | a stored PUT of a restart-required field leaves the running configuration, is pending, and restarts by itself iff the running mode is "auto" |
| AdminConfig.LivePutExactly | src/api/admin.rs:939-961 | every other stored PUT is carried alone onto the running configuration, or fails iff nothing valid carries it |
| AdminConfig.FirstBootIsGood | src/main.rs:51-63 | a first boot from a valid base satisfies the invariant and runs the base |
| AdminConfig.BootNeverFallsBack | src/main.rs:51-63 | over every run of PUTs and restarts the stored overlay validates on the base, so boot never takes the environment-only fallback |
| AdminConfig.RestartFieldsAreFrozen | src/api/admin.rs:939-956 | between boots no restart-required field of the running configuration changes |
| AdminConfig.PendingExactly | src/api/admin.rs:769-781 | the signal is raised iff a restart would change some editable field |
| AdminConfig.ReportedPending | src/api/admin.rs:919-961 | "not pending" leaves nothing for a restart to change; "pending" is untrue iff the PUT was deferred and every field already runs with the value stored or patched for it |
| AdminConfig.RunningTracksStored | src/api/admin.rs:937-961 | while no restart-required change has been stored since boot, running is the base with the stored overlay and no hot-swap fails |
| AdminConfig.NextBootIsReplay | src/api/admin.rs:837-961 | whatever interleaves, the next boot builds what applying the stored patches one by one builds |
| AdminConfig.HotSwapFailsExactly | src/api/admin.rs:946-949 | an accepted live edit cannot be swapped in iff running with the patch is invalid; it is stored all the same and the next restart applies it |
| AdminConfig.HotSwapCanFailAfterStoring | src/config.rs:1278-1298 | from any base with erasure on: switching it off is deferred, and a grace period over ten years is then stored but cannot be swapped in |
| AdminConfig.NoOpIsReportedPending | src/api/admin.rs:922-938 | a PUT of the erasure switch that already runs is reported as pending and a restart changes nothing |
| AdminConfig.ConfigServer.RestartNow | src/main.rs:51-63 | boot rebuilds the running configuration from the base and the stored rows, as the protocol's restart |
| LegacyImport.TargetDb.CreateUser | src/infra/db/users.rs:52-79 | the insert is refused iff a UNIQUE column would repeat |
| LegacyImport.TargetDb.InsertOrReconcile | src/bin/smirk-admin.rs:735-764 | on whatever the table holds and whatever the database does: inserted, skipped if the identity is there by now, inserted without handle and npub, or an error; unless it is an error the identity is on the table afterwards |
| LegacyImport.TargetDb.ImportOne | src/bin/smirk-admin.rs:653-765 | one row's outcome, the target and the `seen` set exactly, under each kind of database error |
| LegacyImport.TargetDb.MigrateLegacy | src/bin/smirk-admin.rs:495-595 | the loop leaves the folded table and prints the folded tally whatever errors the rows meet, and without errors the plain ones |
| LegacyImport.FaultFree | src/bin/smirk-admin.rs:549-585 | without database errors the import is the plain fold, and the reconciliation is never entered |
| LegacyReports.LimitedExactly | src/bin/smirk-admin.rs:525-539 | a limit reads that many rows from the front, or all |
| LegacyReports.CleanedExactly | src/bin/smirk-admin.rs:673-700 | a handle or npub is kept without the white space around it and without capitals, and dropped when nothing is left |
| LegacyReports.DuplicateExactly | src/bin/smirk-admin.rs:659-671 | a row is a duplicate iff an earlier one has its pubkey, or has its fingerprint and was the first of its own pubkey |
| LegacyReports.CreatedPlainly | src/bin/smirk-admin.rs:653-721 | without errors a row is created iff it is no duplicate and nobody has its pubkey or fingerprint, and its handle and npub are dropped exactly when unusable or taken |
| LegacyReports.OutcomeIsTruthful | src/bin/smirk-admin.rs:723-764 | what each outcome says about the table under every kind of error: who was added, what they lack, that nothing was |
| LegacyReports.FaultEndsExactly | src/bin/smirk-admin.rs:735-764 | how each kind of error ends for a new identity, table and outcome |
| LegacyReports.RefusedExactly | migrations/20260622000001_initial_schema.sql:22-34 | an insert is refused iff some user already has its handle, pubkey, npub or fingerprint |
| LegacyReports.RaceEndsExactly | src/bin/smirk-admin.rs:735-764 | on a table another writer may have changed: skipped, added as prepared, or added without handle and npub, exactly when |
| LegacyReports.ReportCounts | src/bin/smirk-admin.rs:541-595 | each counter of the summary is the number of rows that ended that way |
| LegacyFaults.RerunCompletes | src/bin/smirk-admin.rs:549-552 | a row a clean commit creates is inserted by the faulty run or created by the re-run, and no other |
| LegacyFaults.CleanRerunRecovers | src/bin/smirk-admin.rs:492-494 | whatever errors a commit met, one clean re-run leaves exactly the identities a clean commit alone leaves |
| LegacyImport.InsertIsAccepted | src/bin/smirk-admin.rs:739-764 | the checks before the insert leave it nothing to violate |
| LegacyImport.TargetStaysUnique | migrations/20260622000001_initial_schema.sql:22-34 | the table keeps its UNIQUE columns |
| LegacyImport.EveryUserHasASource | src/bin/smirk-admin.rs:723-731 | every target row was there before or carries the identity and fields of a created legacy row |
| LegacyImport.KeysNeverAlias | src/bin/smirk-admin.rs:659-668 | pubkey and fingerprint keys of the `seen` set never alias |
| LegacyImportTheorems.DryRunPredicts | src/bin/smirk-admin.rs:524-585 | a dry run names exactly the rows a commit creates |
| LegacyImportTheorems.DropsExactly | src/bin/smirk-admin.rs:673-721 | a commit drops what the dry run drops, and besides exactly what an earlier created row of the batch already asked for |
| LegacyImportTheorems.SummariesAgree | src/bin/smirk-admin.rs:541-595 | the two summaries agree on created and skipped; the dry run may only under-count drops |
| LegacyImportTheorems.SecondCommitCreatesNothing | src/bin/smirk-admin.rs:483-494 | committing again creates nothing, row by row |
| LegacyImportTheorems.StagedLimits | src/bin/smirk-admin.rs:525-539 | `--limit n` and then a larger or no limit leaves the table of the larger limit alone |
| LegacyImportTheorems.PresentExactly | src/bin/smirk-admin.rs:624-644 | an identity is on the target afterwards iff it was before or shares a key with a created row |
| LegacyImportTheorems.EveryRowIsLinked | src/bin/smirk-admin.rs:653-671 | every row of the batch is linked through shared keys to an identity on the target |
| LegacyImportTheorems.SkippedButAbsent | src/bin/smirk-admin.rs:659-671 | a batch whose third row is skipped, is absent, and is never imported by a re-run |
| LegacyImportTheorems.DryRunUnderCounts | src/bin/smirk-admin.rs:673-694 | a batch whose dry run misses a dropped handle |
| Electrum.ElectrumClient.Call | src/infra/electrum.rs:627-680 | some server is dialled whenever one is configured; answered iff a dialled server answered, with the first answer and nothing dialled after it; all fallbacks tried before giving up |
| Electrum.ElectrumClient.RecordPrimaryFailure | src/infra/electrum.rs:688-695 | counts the failure, starts the cooldown at the threshold, and traps exactly when the counter wraps |
| Electrum.CooldownExactly | src/infra/electrum.rs:682-702 | after a failure the primary is passed over iff it was at least the second in a row, a fallback is configured and less than 30 seconds have gone by; a success clears the count |
| Electrum.PrimaryDialBound | src/infra/electrum.rs:48-53 | a dead primary is dialled at most `2 + elapsed/30000` times, plus two per 2^32 failures and once per call in the last millisecond a `u64` clock can show |
| Electrum.EveryCallAtEndDials | src/infra/electrum.rs:688-695 | in that last millisecond every call does dial it, since the cooldown saturates |
| Electrum.CallInTurn | src/infra/electrum.rs:627-702 | sequential calls of the client dial a dead primary exactly as often as the bound counts |
| Electrum.DialBoundIsTight | src/infra/electrum.rs:682-702 | a run that reaches the bound |
| Electrum.SumBalances | src/infra/electrum.rs:391-409 | the sum is exact or refused, accepted iff every running sum fits |
| Electrum.TotalIsSum | src/infra/electrum.rs:391-409 | the total is the sum of the confirmed and of the unconfirmed amounts |
| BalanceOrder.SomeOrderExactly | src/infra/electrum.rs:391-409 | some order of the balances is accepted iff the total itself fits |
| BalanceOrder.EveryOrderExactly | src/infra/electrum.rs:391-409 | every order is accepted iff the confirmed total, the positive deltas and the negative deltas each fit on their own |
| BalanceOrder.OrderDecidesExactly | src/infra/electrum.rs:391-409 | the order decides iff the total fits and the positive or the negative deltas alone do not |
| BalanceOrder.SumIgnoresOrder | src/infra/electrum.rs:391-409 | two accepted orders agree on the amount, and without negative deltas the order never decides |
| BalanceOrder.SignedSumDependsOnOrder | src/infra/electrum.rs:391-409 | three balances whose order decides |
| Electrum.TagResults | src/infra/electrum.rs:533-575 | the nested loop flattens the per-address results in input order |
| Electrum.TaggedAt | src/infra/electrum.rs:533-575 | each result stands behind all results of the earlier addresses, tagged with its own, and nothing else is there |
| Electrum.TagsRecoverOwners | src/infra/electrum.rs:533-575 | the tags give each of several distinct addresses exactly its own results, in order |
| PowGate.PowStore.SpendSolution | src/core/pow.rs:67-80 | first use iff no unexpired entry; the map holds only entries of the last window |
| PowGate.PowStore.VerifyPayload | src/core/pow.rs:89-122 | accepted iff the library accepts and the signature was not spent |
| PowGate.ChallengeWindow | src/core/pow.rs:20-46 | a challenge is good for 600 whole seconds with the expiry that was signed and a solution; a signature never issued is not |
| PowGate.SpentWindow | src/core/pow.rs:67-75 | a spend is remembered for exactly ten minutes |
| PowGate.SpendOnceExactly | src/core/pow.rs:50-80 | no challenge is accepted twice in any run, iff the library refuses from the expiry second on |
| PowGate.AcceptedExactlyTheFirstTime | src/core/pow.rs:63-122 | after any run a genuine, solved, unexpired challenge is accepted iff no earlier presentation was |
| Hashcash.ChallengeInput | src/core/restore_pow.rs:20-30 | the appended buffer is the preimage, 31 bytes longer than asset and address |
| Hashcash.DomainIsTag | src/core/restore_pow.rs:17-18 | the domain bytes are the characters of the tag |
| Hashcash.PreimageLayout | src/core/restore_pow.rs:20-30 | where the tag, the separators, asset and address stand, and that the last eight bytes are the height, low byte first |
| Hashcash.HashedLayout | src/core/restore_pow.rs:60-62 | what is hashed is the preimage and then the nonce in eight bytes, low byte first |
| Hashcash.PreimageInjective | src/core/restore_pow.rs:20-30 | injective in asset, address and height when the assets are free of the separator |
| Hashcash.HashedInjective | src/core/restore_pow.rs:50-64 | nor can a nonce be moved to another restore |
| Hashcash.SeparatorInAssetCollides | src/core/restore_pow.rs:20-30 | every asset containing the separator shares its preimage with another |
| Hashcash.LeadingZeroBits | src/core/restore_pow.rs:34-45 | the early-exit loop counts the leading zero bits |
| Hashcash.DifficultyExactly | src/core/restore_pow.rs:32-45 | at least `k` leading zero bits iff the big-endian value is below `2^(8 len - k)` |
| Hashcash.WorkExactly | src/core/restore_pow.rs:50-64 | the work is done iff the digest is below the target, and no digest meets more than 256 bits |
| Restore.EnforceExactly | src/config.rs:521-553 | a start passes iff the policy is unlimited or the depth is within the allowed days |
| Restore.BlocksPerDayExactly | src/config.rs:505-516 | a day of blocks at each chain's block target takes 86400 seconds |
| Restore.RequiredExactly | src/config.rs:559-566 | at least `k` bits are asked iff `k` is within the cap and the depth is at least the free days and `k` steps in blocks, wherever the cast loses nothing |
| Restore.CastKeepsLowBits | src/config.rs:565 | the cast keeps the low 32 bits of the price |
| Restore.PoliciesNest | src/config.rs:535-553 | bounded within unlimited, and create-only within bounded iff the bound is at least a day |
| Restore.AcceptedPrice | src/config.rs:559-566 | a start accepted under a bound costs at most the cap and the price of the bound, and the cast loses nothing |
| Restore.ShallowerIsCheaper | src/config.rs:535-566 | every shallower start is accepted too and costs no more |
| Restore.CastExactly | src/config.rs:559-566 | under the unlimited policy the cast is exact from anywhere iff the whole chain prices below 2^32 |
| Restore.DeeperNeverCheaperExactly | src/config.rs:559-566 | deeper starts never cost less iff the tip is in that range or the cap is zero |
| Restore.EnforceRestorePow | src/config.rs:572-597 | paid iff the price is zero or a nonce does the work; a missing nonce is named exactly when priced |
| Restore.PayableExactly | src/config.rs:572-597 | a nonce pays iff the digest is below the price's target, which exists only up to 256 bits |
| Plans.ParseAppend | src/config.rs:790-804 | two lists joined by a comma parse to the two results, for all strings |
| Plans.ParseEntryExactly | src/config.rs:790-804 | an entry gives a plan iff it is an id, a number and an amount separated by the first two colons, each read without the white space around it, the number positive and the others not empty |
| Plans.OneEntry | src/config.rs:790-804 | an entry without comma parses to its plan or to nothing |
| Plans.ParseI32Exactly | src/config.rs:790-804 | the number is an optional sign and decimal digits within 32 bits |
| Plans.ParsePrinted | src/config.rs:790-804 | printing any well-formed list and parsing it returns the list |
| Plans.ReturnedExactly | src/config.rs:787-804 | the lists the parser can return are exactly the well-formed ones |
| Plans.ParseIsStable | src/config.rs:790-804 | re-parsing the printed result changes nothing |
| Plans.IsPositiveDecimal | src/config.rs:57-75 | the three-flag scan accepts exactly digit strings with at most one dot whose value is positive |

## Left out

- SQL execution, row locks and the loss of an advisory lock while a cycle is still writing; a cycle holds its lock until it ends.
- Deletion of rows by account erasure, `updated_at`, audit tables, and the version numbers of a settings section.
- Concurrent PUTs and version conflicts in the middle of one; the handler stores its sections as one step.
- Notifications, logging, HTTP extraction, JWTs, address validation, rate limits: no state that the properties need.
- Which due rows a batch picks and in which order: a cycle may pick any distinct due rows up to the batch size.
- The funding confirmation counters as computed from the chain: a count may be written at any time with any value.
- Lower- and upper-casing beyond ASCII; white space is the Unicode property.
- The conversion of `f64` coin amounts: an amount is an exact number or rejected.
- String lengths are counted in characters, not bytes.
- Hashes, HMACs and peppering: the hash is a parameter, signatures are issued names, peppering is taken as injective.
- The separate clocks behind challenge expiry and pruning: one clock drives both, and it does not go back.
- LegacyImport.TargetDb.ImportOne: does not model a writer that slips in between its checks and its insert; `LegacyImport.TargetDb.InsertOrReconcile`, which holds on any table, is what runs after such a writer.
- LegacyImport.TargetDb.MigrateLegacy: does not model `u32` counters that overflow past 2^32 rows.
- Electrum.ElectrumClient.Call: does not model calls that overlap on one breaker, timeouts, or the wire protocol.
- Documents that are not overlays: there the merge need not associate (`Overlay.MergeNotAssociativeInGeneral`), but a typed patch never is one.
- Overlay.MergeInPlace: returns the merged document instead of writing through a reference.
- Classification of field names the overlay does not declare: a patch is typed, so none reach the handler.
- The self-restart of the automatic mode is a flag on the reply; the restart itself is a separate step.
- Field-by-field contents of configuration validation, the auth gate table, price feeds, the landing page and the relay.
