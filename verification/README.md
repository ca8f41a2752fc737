# ZeroNode change pipeline: a verified model

ZeroNode takes a denied flow and a proposed access-list rule through a governed pipeline. The rule is simulated against a first-match policy, checked for least privilege, recorded in a hash-chained ledger, leased to a worker, sent to a device, read back, and undone when the read-back disagrees. This project models that pipeline in Dafny and proves what it is for.

`dafny verify dfyconfig.toml` checks the whole project.

## How the source is modelled

- An IPv4 address is a number below 2^32 and a network is a prefix of one (RFC 4632, section 3.1). `Wildcard.WildcardConversionIsExact` ties that arithmetic to the bits of the mask. A rule endpoint is `any`, a network, or text that does not parse.
- Rules are values. Where the source asks whether a hit *is* the proposed rule, the model compares positions in the evaluated list.
- Message strings are structured findings, remedies and lines. The clock, the devices' behaviour, the hash, the signature scheme and the rule parser are parameters, and a theorem that needs something of one of them (an injective hash, a trusted signer) says so as a precondition.
- Code that updates things step by step is imperative here too: classes with fields (`DevicePolicy.Policy`, `Execution.DeviceExecutor`, `Execution.IdempotentDeviceExecutor`, `LedgerStore.ApprovalStore`, `LedgerStore.FileAnchorSink`, `Dispatcher.InMemoryDispatcher`, `RateLimit.SlidingWindow`, `PathTrace.InMemoryTopology`, `ObjectGroup.Seen`) and methods with loops. Each method is proved equal to a specification function of the old state, or states its result outright, and the theorems are about those functions.
- The devices are an adversary driven by two scripts. A send may be refused a session, take effect, be ignored, be stored twice or leave any state at all, and may raise in every case; a script of sends that runs out is the process dying at that point. A read of a policy may raise or find the process dead.

## Where the code does less than one might expect

Each of these is a theorem with its exact condition. A concrete input on the failing side is named beside it where one helps.

- A permit is safe against the unmodelled rules exactly when none is tried before it (`Ignorance.PermitSurvivesExactlyWhen`); a pass by an existing rule below one is accepted all the same (`Ignorance.ExistingPassIsNotProtected`).
- Simulation and device disagree in two situations only (`Refinement.SimulationRefinesDevice`). At an occupied line the simulator lets the existing rule go first and the device lets the new one go first, so they differ on the contested flows (`Refinement.ContestedFlowsCanDiffer`). And the device silently ignores a body it already has, so they differ on the flows the proposal would have decided (`Refinement.HeldPermitCanDiffer`).
- An accepted change on obeying devices is `APPLIED` exactly when on each device some action takes effect or the evidence was permitted already (`EndToEnd.AcceptedChangeIsAppliedExactlyWhen`). A permit held below a deny is accepted again, rolled back, and lost (`EndToEnd.AcceptedYetRolledBack`).
- Reversing a change whose body was already on the device removes the earlier rule. Reversal restores the devices exactly when no change names a rule that was there before (`Rollback.RollbackRestoresExactlyWhen`, and for the executor `ExecutedRollback.FailedChangeLeavesNoTraceExactlyWhen`). Otherwise `ROLLED_BACK` can still be reported of a device that has changed (`ExecutedRollback.RolledBackYetChanged`).
- A read of the policy that raises is not handled. A call takes readings in turn and an exception escapes exactly when the last one it takes fails (`TerminalStates.EscapeIsAFailedRead`); before the reversal, the change then stays on the devices (`TerminalStates.FailedReadLeavesTheChange`).
- A reversal that adds a rule back can leave a second copy. The bound of one copy holds over every run exactly when no reversal does so (`AtMostOnce.AtMostOneCopyExactlyWhen`, `AtMostOnce.AReversalCanDouble`).
- Following the suggested positions passes exactly when there is room above every deny in the way (`Remediation.RemediationConverges`); a deny on line 1 is never passed (`Remediation.FrontDenyIsNeverPassed`).
- `next_open` skips the tail of an overnight window that began on a frozen day, and can report no opening where there is one (`Schedule.NextOpenIsEarliestExactlyWhen`, `Schedule.NextOpenCanBeMissed`).
- Ports given for the source are read as destination ports when none are given there (`AclExpansion.RulesMeanTheEntryExactlyWhen`, `AclExpansion.SourcePortsAreReadAsDestination`).
- An entry whose words leave no address in an endpoint is still modelled, and matches nothing: `deny tcp any gt 1023 any` denies no flow and is not marked unparsed (`AclExpansion.SilentExactlyWhen`, `AclTokens.DenyGreaterThanIsSilent`).
- Words after an entry's last readable clause are dropped, so that `permit tcp any any gt 1023` becomes a permit for every port (`AclTokens.TailIsUnreadExactlyWhen`, `AclTokens.GreaterThanIsNotRead`).
- Who signed a record is not covered by the hash, so a record re-signed with any trusted key is accepted (`Ledger.ResigningIsNotDetected`).
- The last anchor in the file need not be the highest, and a ledger cut short is accepted exactly when it keeps as many rows as that one covers (`LedgerStore.CutIsAcceptedExactlyWhen`, `LedgerStore.ReorderedAnchorsHideACut`).
- Start-up writes a due rotation marker and its anchor before it verifies, so a start with a new key accepts any non-empty cut unless an unfinished line spoils the fresh anchor (`LedgerStore.StartAfterCutExactlyWhen`).
- A `complete` or `fail` is taken from anybody. It keeps the workers' leases exclusive exactly when nobody else holds an unexpired one (`QueueRuns.ReportKeepsBeliefsExactlyWhen`, `QueueRuns.MeddlingSharesAJob`).
- A failure reported for a job that is already finished puts it back in the queue, whatever the capacity (`QueueRuns.FailDeepensExactlyWhen`, `QueueRuns.LateFailureOverfills`).
- Evidence without a source or without a destination switches the scope check off (`LeastPrivilege.AcceptedRuleIsNarrow`, `LeastPrivilege.EmptySourceIsUnchecked`).
- The day reported during a freeze is the first unfrozen one exactly when no other freeze covers it (`Schedule.FreezeReportIsExact`), and it has an opening exactly when some window reaches it (`Schedule.DayOpensExactlyWhen`, `Schedule.ReportedDayCanBeClosed`).
- A rate limit of 0 raises on every attempt instead of refusing it (`RateLimit.RefusedExactlyWhenFull`).

## Model

| member | source | states |
|---|---|---|
| AclPolicy.EvaluateIsFirstMatch | apps/api/app/firewall/policy.py:142-149 | the deciding rule is the least matching one by line and then by position, and the implicit deny is reported exactly when nothing matches |
| AclPolicy.SplicingOneRule | apps/api/app/verify.py:313-318 | a rule spliced in decides exactly the flows no rule at or above its line takes, and every other flow keeps its verdict and deciding rule |
| AclPolicy.SortingFirstChangesNothing | infra/fakeasa/server.py:105-107 | reading a policy sorted by line leaves verdict and deciding rule of every flow alone |
| AclPolicy.GroupedEvaluation | apps/api/app/firewall/policy.py:142-149 | first match over lists laid end to end, located by list and position |
| Simulator.VerifyChange | apps/api/app/verify.py:245-348 | the whole report equals the specification, proposal by proposal |
| Simulator.JudgeOne | apps/api/app/verify.py:261-346 | one proposal's findings, remedy and verdict, from parsing to the scope check |
| Simulator.Prepare | apps/api/app/verify.py:275-305 | translation, the line the rule is given and the unmodelled rules above it |
| Simulator.JudgeFlows | apps/api/app/verify.py:307-337 | each flow's finding in turn, the last denied flow naming the remedy, and whether the proposal carried any |
| Simulator.UnmodelledAbove | apps/api/app/verify.py:241-242 | exactly the unmodelled rules at or above the line, so nothing is reported exactly when all lie strictly below it |
| Simulator.AcceptedExactlyWhenSound | apps/api/app/verify.py:245-348 | a report is ok exactly when every proposal parses, meets no translation, has no unmodelled rule at or above it, permits all the evidence and is narrow enough if it carries some |
| Simulator.ReportSaysEach | apps/api/app/verify.py:261-346 | the findings say of each proposal in turn what is wrong before any flow, then the verdict of every flow, then of the scope |
| Simulator.ReportAdvisesLast | apps/api/app/verify.py:263-346 | the remedy is that of the last proposal that has one: its gravest trouble, and of several denied flows the last |
| Simulator.CarriesMeansFirst | apps/api/app/verify.py:313-317 | a pass is credited to the proposal exactly when it is a permit that no rule at or above its line pre-empts |
| Ignorance.PermitSurvivesExactlyWhen | apps/api/app/verify.py:241-305 | a permit survives every way the unmodelled rules could turn out exactly when none is tried before its rule |
| Ignorance.AcceptedCarriedFlowIsSafe | apps/api/app/verify.py:292-317 | after an accepted change, a flow the proposal carries is permitted whatever the unmodelled rules are |
| Ignorance.ExistingPassIsNotProtected | apps/api/app/verify.py:318-322 | a flow passing by an existing rule can be accepted and yet denied by an unmodelled rule |
| Addresses.NetworkSize | apps/api/app/firewall/policy.py:49-75 | a network of prefix p covers exactly 2^(32-p) addresses |
| LeastPrivilege.CoveredAtMostTwiceBreadth | apps/api/app/firewall/policy.py:65-75 | the usable-host count is at least 1, is 1 exactly for host networks, and undercounts by at most a factor of two |
| LeastPrivilege.AcceptedRuleIsNarrow | apps/api/app/verify.py:28-60 | an accepted rule that carries evidence names a port and matches at most four times as many address pairs as were evidenced, when the evidence names some source and some destination |
| LeastPrivilege.EmptySourceIsUnchecked | apps/api/app/verify.py:36-37 | `permit ip any any` is accepted for a flow without a source |
| LeastPrivilege.FourTimesIsReached | apps/api/app/verify.py:28-60 | an accepted change whose rule matches sixteen address pairs for the four evidenced |
| LeastPrivilege.AcceptedSingleFlowIsExact | apps/api/app/verify.py:339-346 | with one flow as evidence an accepted rule matches exactly its source, destination and port, and no other flow changes verdict or deciding rule |
| Remediation.RoundAt | apps/api/app/verify.py:323-337 | a round passes exactly when no shadowing deny is at or above its line, and otherwise suggests the line above one that is |
| Remediation.RoundAdvances | apps/api/app/verify.py:331-337 | past line 1, a failed round moves strictly up and past one more deny |
| Remediation.StuckAtLineOne | apps/api/app/verify.py:335 | a shadowing deny on line 1 or above fails every round |
| Remediation.RemediationConverges | apps/api/app/verify.py:307-337 | the suggestions pass within as many re-proposals as there are deny lines in the way, strictly upward, exactly when each such deny is on line 2 or later; a proposal that states its own line passes at once or never, exactly when each is below that line |
| Remediation.FrontDenyIsNeverPassed | apps/api/app/verify.py:335 | a concrete policy with a deny on line 1 that no round gets past |
| Refinement.ReadAfterAdd | infra/fakeasa/server.py:69-84 | what is read back after an addition: the old rules, pushed down from the line on, and the new rule at its line or at max+10 |
| Refinement.DeviceVerdict | infra/fakeasa/server.py:75-83 | on the device an addition that takes effect decides whatever no rule on a strictly higher line takes, and a body the list already has changes no verdict |
| Refinement.SimulationRefinesDevice | apps/api/app/verify.py:282-330 | simulation and device agree on verdict and rule exactly when the addition takes effect and the flow is not contested, or the body is held and the proposal would not have decided; exact conditions for the verdict alone and for a pass by the proposal |
| Refinement.ContestedFlowsCanDiffer | apps/api/app/firewall/policy.py:146 | a permit proposed at the line of a deny fails in simulation and passes on the device |
| Refinement.HeldPermitCanDiffer | infra/fakeasa/server.py:71-74 | a permit held below a deny, proposed again above it, passes in simulation and not on the device |
| Refinement.FreeLineIsExact | apps/api/app/execute/render.py:34-43 | at a free line, and when appending, a flow tells simulation from device exactly when the body is held and the proposal would have decided it |
| DevicePolicy.Policy.Add | infra/fakeasa/server.py:69-84 | the rule list after an insertion, with the duplicate test and the shift of every line at or below |
| DevicePolicy.Policy.PushDown | infra/fakeasa/server.py:78-82 | the lines at or below the insertion point move down by one, in that list only |
| DevicePolicy.Policy.PullUp | infra/fakeasa/server.py:100-102 | the lines below the deleted one move up by one, in that list only |
| DevicePolicy.Policy.Remove | infra/fakeasa/server.py:86-103 | the rule list after a deletion, gaps closed one by one, and the complaint when there was nothing to delete |
| DevicePolicy.RemoveUndoesAdd | infra/fakeasa/server.py:69-103 | removing what was just added restores every rule and every line number |
| DevicePolicy.RemovalClosesTheGap | infra/fakeasa/server.py:86-103 | a removal leaves every other rule in its place, one line up exactly when it was below the rule removed |
| Text.FoldsAlikeExactlyWhen | infra/fakeasa/server.py:72 | two bodies are the same to the device exactly when they differ in the case of letters alone |
| DevicePolicy.RemovalsCommute | infra/fakeasa/server.py:86-103 | two removals leave the same list in either order |
| Rollback.EarlyRemovalIsAbsorbed | apps/api/app/execute/device.py:147-155 | a removal the reversal will make anyway may come first without changing the result |
| Rollback.RollbackRestores | apps/api/app/execute/device.py:84-155 | whichever additions took effect, and even with repeated bodies, reversal in reverse order restores every device |
| Rollback.UndoneIsGone | apps/api/app/execute/device.py:147-155 | after the reversal no change's rule is left |
| Rollback.RollbackRestoresExactlyWhen | apps/api/app/execute/device.py:84-155 | the devices come back exactly when no change names a rule that was there before |
| Live.ReadBack | apps/api/app/execute/live.py:50-140 | the findings in order and the verdict, with the line the rule is on and the note when another was asked for, for the check after a change and the one after a reversal |
| Live.ReadBackIsExact | apps/api/app/execute/live.py:50-140 | the read-back is clean exactly when every proposed rule stands on its device in meaning and the evidence is permitted, and after a reversal exactly when none stands and none is permitted |
| Live.ReadBackSaysEach | apps/api/app/execute/live.py:59-140 | the read-back says of each action in turn where its rule is or that it is not, and the verdict of every flow |
| Live.SameRuleIsEquivalence | apps/api/app/execute/live.py:25-39 | being the same rule is an equivalence |
| Live.SameRuleExactlyWhen | apps/api/app/execute/live.py:25-39 | rules count as the same exactly when action, protocol and port agree and both endpoints stand for the same hosts, or are the same unreadable text |
| Live.SameRuleMatchesAlike | apps/api/app/execute/live.py:25-39 | rules counted as the same have the same action and match the same flows |
| Live.Check | apps/api/app/execute/guard.py:37-71 | the reasons to refuse, in order |
| Live.GuardIsExact | apps/api/app/execute/guard.py:37-71 | there is no reason to refuse exactly when every precondition holds for every action |
| Live.ReasonGivenExactlyWhen | apps/api/app/execute/guard.py:40-71 | each reason to refuse is given exactly when there is that trouble |
| Execution.DeviceExecutor.SendConfig | apps/api/app/execute/device.py:75-79 | one session per device, opened on first use, and the command's effect under the device's reaction |
| Execution.DeviceExecutor.Push | apps/api/app/execute/idempotent.py:94-124 | the reads and sends in order, the skipped ones, and the stop at the first failure of either |
| Execution.DeviceExecutor.Revert | apps/api/app/execute/device.py:123-192 | the reversal in reverse order, its terminal state and findings, or the exception of a failed read |
| Execution.DeviceExecutor.ApplyBody | apps/api/app/execute/idempotent.py:80-145 | push, read back, and reverse when a send or the check goes wrong |
| Execution.DeviceExecutor.Apply | apps/api/app/execute/device.py:54-73 | the guard first, the body next, every session closed last, also when an exception escapes |
| Execution.IdempotentDeviceExecutor.ApplyOnce | apps/api/app/execute/idempotent.py:46-78 | a stored result is replayed, and otherwise the change is applied and its result stored as the specification says |
| TerminalStates.TerminalStatesTellTheTruth | apps/api/app/execute/device.py:54-192 | for any device behaviour: REFUSED exactly when the guard objects and then nothing happened, APPLIED only with rules in force, ROLLED_BACK only with rules withdrawn |
| TerminalStates.AppliedExactlyWhen | apps/api/app/execute/device.py:84-113 | APPLIED exactly when the guard passes, every send and read went through and the rules are in force |
| TerminalStates.AppliedRulesActAlike | apps/api/app/execute/device.py:105-113 | after APPLIED each device holds a rule with the proposed action that matches just the proposed flows |
| TerminalStates.EscapeIsAFailedRead | apps/api/app/execute/idempotent.py:80-145 | a call takes readings in turn up to the first that shows no policy; an exception reaches the caller exactly when that one fails, and the call dies only when it finds the process dead or the devices answer no more |
| TerminalStates.NoFailedReadNoEscape | apps/api/app/execute/device.py:65-73 | without a failing reading ahead no exception reaches the caller |
| TerminalStates.FailedReadLeavesTheChange | apps/api/app/execute/live.py:42-47 | when the first failing reading comes before the reversal, only commands of the change were sent, all of them unless a lookup failed, and none is reversed |
| TerminalStates.SessionsAreClosed | apps/api/app/execute/device.py:65-79 | at most one session per device, and every opened session is closed, also when an exception escapes |
| ExecutionRecords.StepTellsTheReaction | apps/api/app/execute/device.py:91-103 | a send leaves one step with the device's words as output or as error, and goes out exactly when the device is reached |
| ExecutionRecords.ResultIsOnRecord | apps/api/app/execute/device.py:84-192 | a result lists the actions' commands in order and then the reversals, last first, as far as each got, with the words of its ending and the findings of every check made |
| ExecutionRecords.RefusalIsOnRecord | apps/api/app/execute/device.py:57-63 | a refusal lists every reason, no step and no finding |
| ExecutedRollback.PulledAll | apps/api/app/execute/device.py:147-155 | the reversal loop carries out the removals of all changes, last first |
| ExecutedRollback.FailedChangeLeavesNoTraceExactlyWhen | apps/api/app/execute/device.py:84-192 | a change that is not applied, reversed by cooperating devices, leaves every rule and line as before exactly when no action names a rule that was there, and ROLLED_BACK is reported exactly when the rules are gone and the evidence is denied |
| ExecutedRollback.RolledBackYetChanged | apps/api/app/execute/device.py:171-180 | a permit held below a deny is proposed again and reversed: ROLLED_BACK is reported and the earlier permit is gone |
| AtMostOnce.DropTakesOneAway | infra/fakeasa/server.py:96-102 | dropping a rule lowers the count of its copies by exactly one |
| AtMostOnce.PushKeepsBound | apps/api/app/execute/idempotent.py:94-115 | sending only what has not landed keeps every rule at one copy, even on a device that keeps duplicates |
| AtMostOnce.ReaddingBreaksTheBound | apps/api/app/execute/device.py:147-155 | for additions that pass the guard, a run in which a reversal that adds the rule back leaves a second copy |
| AtMostOnce.AReversalCanDouble | apps/api/app/execute/guard.py:37-71 | a permit whose rollback is the permit itself passes the guard and doubles |
| AtMostOnce.AtMostOneCopy | apps/api/app/execute/idempotent.py:46-168 | over any calls under a key, each dying anywhere, no rule gets more than one copy on a device unless it started with more or a reversal there adds it back |
| AtMostOnce.AtMostOneCopyExactlyWhen | apps/api/app/execute/idempotent.py:46-168 | for additions that pass the guard and are reversed automatically, that bound holds over every run exactly when no reversal on the device adds the rule back |
| AtMostOnce.StoredResultRoundTrips | apps/api/app/execute/base.py:53-69 | a result stored and read back is the same field by field |
| AtMostOnce.StoredExactlyWhen | apps/api/app/execute/idempotent.py:54-78 | a new key is stored exactly when it is not empty, a result is returned and the change passed the guard, and then it replays to that result; the empty key stores and replays nothing |
| AtMostOnce.RefusalIsForgotten | apps/api/app/execute/idempotent.py:76-77 | a refused call leaves store and devices as they were, and the next call under the key is refused exactly when its own guard objects |
| AtMostOnce.FirstResultIsFinal | apps/api/app/execute/idempotent.py:54-78 | once a result other than REFUSED was returned, every later call under the key returns it, sends nothing and leaves the devices alone, whatever change it is given |
| EndToEnd.PermittedOnTheDevice | apps/api/app/verify.py:307-322 | a flow the simulation permits is permitted after the addition exactly when the addition takes effect or the flow was permitted before |
| EndToEnd.PermitKeepsPermitted | infra/fakeasa/server.py:69-84 | adding a permit never turns a permitted flow into a denied one, wherever it lands |
| EndToEnd.AcceptedChangeIsAppliedExactlyWhen | apps/api/app/execute/device.py:84-113 | accepted permits, any number of them and several to a device, sent to obeying devices are reported APPLIED exactly when on each device some action takes effect or the evidence was permitted already |
| EndToEnd.AcceptedYetRolledBack | apps/api/app/execute/device.py:171-180 | an accepted permit the device already holds below a deny is rolled back, and the earlier permit is gone |
| Ledger.VerifyChain | apps/api/app/audit/ledger.py:151-199 | accepts exactly the chains whose every row is linked, intact and signed by a trusted key, and otherwise names the first record that is not and the first thing wrong with it |
| Ledger.ChainValidExactlyWhen | apps/api/app/audit/ledger.py:157-197 | a chain is valid exactly when every row names the hash before it, carries the hash of its contents, and bears a signature of that hash by a key that is known |
| Ledger.FaultIsTheFirst | apps/api/app/audit/ledger.py:166-195 | each of the four faults is reported exactly when it is the first the row has |
| Ledger.HashFixesHistory | apps/api/app/audit/ledger.py:157-197 | with an injective hash, one matching hash fixes every record before it |
| Ledger.AnchorCheckIsExact | apps/api/app/audit/anchor.py:123-173 | a valid chain passes the anchor check exactly when its anchored prefix is the honest one |
| Ledger.AnchorCheckExactlyWhen | apps/api/app/audit/anchor.py:123-173 | each report of the anchor check is given exactly when the anchor is not genuine, covers more rows than there are, disagrees with the row it covers, or none of these |
| Ledger.AlteredAnchorIsRejected | apps/api/app/audit/anchor.py:28-57 | with signatures bound to what was signed, an anchor altered in head, count or time does not verify |
| Ledger.AcceptedLedgerIsHonest | apps/api/app/audit/startup.py:11-40 | what startup accepts agrees with the anchored history on every hashed field and hash |
| Ledger.ResigningIsNotDetected | apps/api/app/audit/ledger.py:66-86 | a record re-signed with another trusted key is accepted all the same |
| Ledger.TruncationNeedsTheAnchor | apps/api/app/audit/anchor.py:143-153 | a truncated ledger verifies without an anchor and is caught by one at its head |
| LedgerStore.FileAnchorSink.Write | apps/api/app/audit/anchor.py:88-90 | appends one line, which is lost when the line before it is unfinished |
| LedgerStore.FileAnchorSink.Latest | apps/api/app/audit/anchor.py:95-108 | the last line that parses, malformed and empty lines skipped |
| LedgerStore.LatestIsWritten | apps/api/app/audit/anchor.py:95-108 | the latest anchor is one that was written, and is absent exactly when none was |
| LedgerStore.ApprovalStore.AppendApproval | apps/api/app/audit/store.py:104-133 | one row attesting to just this approval, after the head, hashed and signed, with one anchor to be written; no change exactly when that hash is taken |
| LedgerStore.ApprovalStore.EnsureRotationRecord | apps/api/app/audit/store.py:136-163 | a marker naming both keys when the last key differs, nothing on an empty ledger or the same key |
| LedgerStore.ApprovalStore.WriteAnchor | apps/api/app/audit/store.py:131-132 | the pending anchor, sealed, becomes the last line of the file |
| LedgerStore.CommitKeepsInv | apps/api/app/audit/store.py:116-129 | a serialised commit keeps the chain valid and every anchor true |
| LedgerStore.EveryInterleavingVerifies | apps/api/app/audit/store.py:55-163 | however appends, markers and late, lost, torn or reordered anchor writes interleave, the ledger verifies against whichever anchor is last |
| LedgerStore.CutIsAcceptedExactlyWhen | apps/api/app/audit/startup.py:11-40 | in every reachable state a ledger cut to k rows is accepted exactly when the last anchor in the file covers no more |
| LedgerStore.ReorderedAnchorsHideACut | apps/api/app/audit/store.py:131-133 | two approvals whose anchors land in the other order: the second can be cut off |
| LedgerStore.StartAfterCutExactlyWhen | apps/api/app/main.py:388-397 | start-up after a cut accepts exactly when it rotates onto a finished line, or the last anchor still counting covers no more than the rows it finds |
| LedgerStore.EveryKeyChangeIsMarked | apps/api/app/audit/store.py:136-159 | when a marker is ensured after each change of active key, every key change in the ledger sits at a rotation record naming both keys |
| Dispatcher.InMemoryDispatcher.CountLive | apps/api/app/jobs/dispatcher.py:292-296 | the number of waiting and running jobs |
| Dispatcher.InMemoryDispatcher.Enqueue | apps/api/app/jobs/dispatcher.py:281-311 | the known job for a known key, refusal at capacity, or a new job under the next number |
| Dispatcher.InMemoryDispatcher.Sweep | apps/api/app/jobs/dispatcher.py:387-401 | every job with a lapsed lease is freed, every other is left alone, and the lapsed ones are counted |
| Dispatcher.InMemoryDispatcher.Claim | apps/api/app/jobs/dispatcher.py:313-349 | the sweep, then the lowest ready job leased and handed out |
| Dispatcher.InMemoryDispatcher.Heartbeat | apps/api/app/jobs/dispatcher.py:351-364 | extends the lease for its holder and for nobody else |
| Dispatcher.InMemoryDispatcher.Complete | apps/api/app/jobs/dispatcher.py:366-371 | the job succeeds and loses its lease, whoever asks |
| Dispatcher.InMemoryDispatcher.Fail | apps/api/app/jobs/dispatcher.py:372-386 | the job waits again after the delay, or is dead once its attempts are used up |
| QueueRuns.ClaimTakesLowestReady | apps/api/app/jobs/dispatcher.py:328-349 | the lowest-numbered claimable job goes to the caller, shown as it is, nothing exactly when none is claimable, and the other lapsed jobs are freed |
| QueueRuns.HeartbeatExactlyWhen | apps/api/app/jobs/dispatcher.py:351-364 | on every run a heartbeat is heard exactly from the worker on record, and moves the end of its lease alone |
| QueueRuns.BookkeepingHolds | apps/api/app/jobs/dispatcher.py:281-401 | on every run keys and jobs are in bijection, a job runs exactly while leased, and attempts count the claims |
| QueueRuns.LeasesAreExclusive | apps/api/app/jobs/dispatcher.py:313-364 | with time not going backwards and no report while another worker holds an unexpired lease, no two workers hold one on the same job |
| QueueRuns.ReportKeepsBeliefsExactlyWhen | apps/api/app/jobs/dispatcher.py:366-386 | a report keeps every unexpired lease on record exactly when nobody else holds one on that job |
| QueueRuns.MeddlingSharesAJob | apps/api/app/jobs/dispatcher.py:372-386 | a run in which a failure reported by somebody else hands one job to two workers |
| QueueRuns.CapacityHolds | apps/api/app/jobs/dispatcher.py:292-300 | under the same discipline the live jobs never outnumber the capacity |
| QueueRuns.FailDeepensExactlyWhen | apps/api/app/jobs/dispatcher.py:372-386 | reporting a failure deepens the queue exactly when the job was finished and has attempts left |
| QueueRuns.FailureIsFinalExactlyWhen | apps/api/app/jobs/dispatcher.py:372-386 | on every run a failure leaves the job dead exactly when it was handed out as often as it may be, and otherwise waiting for the delay |
| QueueRuns.RetryWaitsOutItsDelay | apps/api/app/jobs/dispatcher.py:328-335 | until the delay has passed a job that is to be retried is handed to nobody |
| QueueRuns.LateFailureOverfills | apps/api/app/jobs/dispatcher.py:372-386 | a run with capacity 1 that ends with two waiting jobs |
| Schedule.Evaluate | apps/api/app/schedule.py:163-189 | frozen, open or closed exactly as the schedule says, with the first listed freeze that covers the day or the next opening |
| Schedule.NextOpen | apps/api/app/schedule.py:191-204 | the least window start after now on an unfrozen day of the horizon, or nothing when there is none |
| Schedule.ContainsIsCovering | apps/api/app/schedule.py:41-49 | the clock test of a window is membership in the interval opened that day or the day before |
| Schedule.NextOpenIsOpen | apps/api/app/schedule.py:191-204 | the schedule is open at the reported moment |
| Schedule.NextOpenIsEarliestExactlyWhen | apps/api/app/schedule.py:191-204 | nothing opens before the reported moment, or within the horizon when none is reported, exactly when no overnight window begun on a frozen day has its tail on an unfrozen day of the horizon ahead of every unfrozen start |
| Schedule.NextOpenCanBeMissed | apps/api/app/schedule.py:191-204 | frozen Tuesdays hide the Wednesday tail of a Tuesday-night window: no opening is reported and there is one |
| Schedule.WithoutFreezesEarliestIsFound | apps/api/app/schedule.py:182-204 | without freezes an opening is found within a week and is the earliest |
| Schedule.FreezeReportIsExact | apps/api/app/schedule.py:167-174 | the day reported during a freeze is the first unfrozen one exactly when no other freeze covers it |
| Schedule.DayOpensExactlyWhen | apps/api/app/schedule.py:163-189 | a day has an opening exactly when it is not frozen and a window starts on it or runs over into it |
| Schedule.ReportedDayCanBeClosed | apps/api/app/schedule.py:167-174 | after a frozen Monday with Fridays only, the day reported has no opening |
| ObjectGroup.Expand | apps/api/app/firewall/objectgroup.py:195-230 | the recursion over the shared set terminates on every graph and equals the specification |
| ObjectGroup.ExpandEach | apps/api/app/firewall/objectgroup.py:218-229 | one loop over nested names, appended in order |
| ObjectGroup.TreeIsExpanded | apps/api/app/firewall/objectgroup.py:212-230 | over a tree of new, distinct, complete entries the expansion lists their contents in pre-order |
| ObjectGroup.CompleteExactlyWhen | apps/api/app/firewall/objectgroup.py:195-230 | complete exactly when the references unfold into a tree whose keys are all defined, complete and met once, and then it is the pre-order concatenation |
| ObjectGroup.TreeIsReachableSet | apps/api/app/firewall/objectgroup.py:218-229 | the keys of that tree are exactly those reachable from the root by the names in the entries |
| ObjectGroup.ExpansionIsUnderstanding | apps/api/app/firewall/objectgroup.py:195-240 | an expansion is complete exactly for understood names, and lists the networks, ports and protocols of their members in order |
| ObjectGroup.RefsAreNames | apps/api/app/firewall/objectgroup.py:218-229 | the references of an entry are the groups and objects it names, in any case, groups first |
| AclExpansion.ExpandRange | apps/api/app/firewall/objectgroup.py:44-50 | a range is laid out exactly when it is upward and at most 64 ports wide, and then as its ports in rising order |
| AclExpansion.CrossProductIsEveryChoice | apps/api/app/firewall/asa.py:195-216 | the rules of an entry are exactly one for every choice of members |
| AclExpansion.RulesMeanTheEntryExactlyWhen | apps/api/app/firewall/asa.py:140-216 | some rule of an entry matches a flow just when the entry applies to it from some source port, exactly when its ports are read right; from every source port, exactly when it names none |
| AclExpansion.ModelledIsResolved | apps/api/app/firewall/asa.py:160-199 | an entry is laid out exactly when every part is understood and it makes at most 2048 rules, and then from just the members its parts name |
| AclExpansion.PortsAreNamed | apps/api/app/firewall/asa.py:103-137 | a port part resolves exactly when it is understood, to just the ports it names: the one, the range, or those of the members of a service group |
| AclExpansion.GroupEntries | apps/api/app/firewall/asa.py:255-257 | the entries of each list and line, in order of first appearance |
| AclExpansion.ChosenExactlyWhen | apps/api/app/firewall/asa.py:255-262 | of each list and line the device's own expansion counts when there is one and all entries otherwise, in their order |
| AclExpansion.UniqueInOrder | apps/api/app/firewall/asa.py:174 | duplicates are dropped so that first occurrences keep their order |
| AclExpansion.ParseAccessList | apps/api/app/firewall/asa.py:241-290 | the device's own expansion preferred, the rules of each entry or one unparsed rule, sorted by line |
| AclExpansion.ExpansionPreservesMeaning | apps/api/app/firewall/asa.py:178-290 | when ports are read right, first match over the rules gives every flow the action of the first entry that applies to it |
| AclExpansion.NoLineVanishes | apps/api/app/firewall/asa.py:259-287 | every line of every list leaves at least one rule, modelled or unparsed |
| AclExpansion.SourcePortsAreReadAsDestination | apps/api/app/firewall/asa.py:195-197 | an any-to-any entry with a source port only matches from that port and its rules match to it |
| AclExpansion.SilentExactlyWhen | apps/api/app/firewall/asa.py:195-216 | a modelled entry matches no flow exactly when all its sources or all its destinations are no addresses |
| AclTokens.ReadingIsSpelling | apps/api/app/firewall/asa.py:79-191 | the reader accepts exactly the words that spell a sentence no clause of which is carried on by what follows, and undoes the spelling |
| AclTokens.LineSaysItsParts | apps/api/app/firewall/asa.py:79-216 | the parts of a line are what its words spell, in the order action, protocol, source, destination |
| AclTokens.TailIsUnreadExactlyWhen | apps/api/app/firewall/asa.py:191-193 | words after a complete sentence stay unread exactly when they carry none of its clauses on |
| AclTokens.UnreadWordsDoNotCount | apps/api/app/firewall/asa.py:191-216 | a line yields the rules it would yield without its unread words |
| AclTokens.GreaterThanIsNotRead | apps/api/app/firewall/asa.py:103-137 | `permit tcp any any gt 1023` yields one permit for every port |
| AclTokens.DenyGreaterThanIsSilent | apps/api/app/firewall/asa.py:79-100 | `deny tcp any gt 1023 any` yields one deny that no flow matches |
| PathTrace.InMemoryTopology.PathTrace | apps/api/app/store/memory.py:44-65 | a found path has the fewest hops and no unknown name is closer; an unknown device is reached by a shortest path no longer than any to the target; no path is reported exactly when an endpoint is bad or neither the target nor an unknown name is reachable |
| PathTrace.InMemoryTopology.AllKnownNeverUnknown | apps/api/app/store/memory.py:60 | when every neighbour listed is a device, no unknown name is reachable |
| PathTrace.InMemoryTopology.Discover | apps/api/app/store/memory.py:60-64 | the unseen on-site neighbours are queued with shortest paths |
| PathTrace.InMemoryTopology.NextLevel | apps/api/app/store/memory.py:56-64 | when the front of the queue passes a level, the seen nodes cover one level more |
| Wildcard.BitOfAnd | apps/api/app/firewall/ios.py:51-53 | the modelled AND is bit by bit |
| Wildcard.ClearingMeansLowRun | apps/api/app/firewall/ios.py:52-54 | passing the test means the bits are a run of low ones |
| Wildcard.WildcardConversionIsExact | apps/api/app/firewall/ios.py:36-55 | conversion succeeds exactly for runs of low ones, and then the network accepts exactly the addresses agreeing with the base outside the wildcard bits |
| RateLimit.SlidingWindow.Check | apps/api/app/auth/ratelimit.py:21-32 | the key's window, the admission and the wait, every other key untouched |
| RateLimit.Stale | apps/api/app/auth/ratelimit.py:25-26 | exactly the attempts at the front that have left the window are dropped |
| RateLimit.AtMostLimitPerWindow | apps/api/app/auth/ratelimit.py:21-32 | over any run no interval of the window's length holds more than the limit of admissions, whatever the limit |
| RateLimit.RefusedExactlyWhenFull | apps/api/app/auth/ratelimit.py:28-32 | an attempt is refused exactly when the limit of admissions lies within the preceding window, and raises exactly when the limit is 0 or less |
| RateLimit.WaitIsHonest | apps/api/app/auth/ratelimit.py:28-29 | the wait is at least a second, an attempt before it is over is refused again unless it was rounded up, and a second after it the slot is free |

## Left out

- Text: regular expressions over CLI output, JSON, and the wording of messages. Access-list entries start from their lower-cased words; commands and findings are structured values. What an address, a mask or a port name means is a parameter, and one parser parameter stands for both the command parser and the reader of shown rules, so their agreement is assumed.
- IPv6 addresses and networks, and addresses that `ip_network` would normalise from other spellings.
- Rendering for IOS, EOS and SR Linux; only the ASA form is modelled, since the modelled device is an ASA.
- `verify_rollback` and `derive_rollback`: the removal branch compares the policy with itself, so reversal is proved on the device instead.
- Rule ids and hit counters, which decide nothing.
- A device that shows a policy it does not enforce: a read that succeeds shows the rules as they are.
- Which translations apply to a flow: the simulator is told the devices on which they do.
- The service pairing of protocol and port inside a service group: as in the source, protocols and ports are crossed.
- SHA-256, Ed25519 and canonical JSON, which are parameters; the anchor's record count is a natural number.
- Daylight saving and time zones: moments are integer local time.
- The Postgres queue, SSH transport, Neo4j, HTTP, webhooks, metrics, the language-model graph and the web front end.
- `touch_worker`, `health`, `latest_error` and the execution table of the dispatcher, which only record and read back.
