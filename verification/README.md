# GuardianMesh: a verified model of its stateful cores

GuardianMesh is a parental-control platform whose control plane keeps state in memory and in
SQLite tables. This project models the components whose guarantees hold over whole runs and
proves those guarantees.

Each larger component has three layers:

- a *model* file: the state as a datatype, the operations as steps, and runs of steps;
- *law* files: lemmas about every run of that model, and in the `Answers` files what each operation
  answers and leaves behind, told without the model's own definitions;
- an *object* file: a class with the source's fields, whose methods take the source's steps and
  are proved to move the class's `View()` exactly as the model does. Since a method's effect is
  one step, or a run of steps, every law applies to any sequence of method calls.

| component | files |
|---|---|
| Orion event bus | `BusModel`, `BusLaws`, `BusOrder`, `BusOvertaking`, `BusQueue`, `BusTermination`, `BusDrain`, `EventBus` |
| Orion action queue and executor | `ActionModel`, `ActionLaws`, `ActionExpiry`, `ActionTermination`, `ActionOnce`, `ActionAnswers`, `ActionQueue` |
| Pairing and trust | `PairingModel`, `PairingLaws`, `PairingProgress`, `PairingAnswers`, `PairingManager` |
| Sentinel alerts | `AlertModel`, `AlertLaws`, `AlertOperations`, `AlertAnswers`, `AlertManager`, `PolicyEngine` |
| Aegis consent and capture | `ConsentModel`, `ConsentLaws`, `ConsentExpiry`, `CaptureIndicator`, `ConsentAnswers`, `CaptureController` |
| Aegis frame limiter | `FrameLimiter` |
| Atlas backup, restore, recovery | `Restore`, `RestoreAnswers`, `Recovery` |
| Console tables | `TableLayout` |
| shared | `Common` (an option type and a stable sort) |

Conventions. Timestamps are integers (real numbers in the frame limiter) and each operation takes
its clock reading as an argument, so laws hold for any clock. Verdicts of event handlers, results
of action handlers, delivery of codes, generated codes, nonces and session ids are arguments too,
so laws hold for all of them. Event ids, device ids, action ids and alert ids are integers: only
their equality matters, and for device ids the order in which the drain sorts them. A table is a
sequence of rows in insertion order, or a map from its primary key. A one-time code stands for its
salted SHA-256 verifier, and a signature is the key and the payload it was made with.

## Where the code departs from its documentation

The model follows the code. Each documented guarantee below fails in some runs; the lemma named with
it gives the exact condition under which it holds.

- The bus documents "an event id is delivered at most once" and increasing order per device. Both
  hold of all runs exactly when the bus is asynchronous and `max_retries` is 0
  (`AtMostOnceExactly`, `OrderHoldsExactly`); the exact bound otherwise is
  `DeliveryBoundIsExact`. A deterministic bus both queues and delivers what it publishes. Repeats
  aside, no event is delivered after a later one of its device exactly when the bus is asynchronous
  and allows no retry or holds one event at most (`NoneOvertakenExactly`).
- The action queue documents retry with backoff. The drain never reads `next_attempt_at`, so a
  retry is listed by the next drain although it is not due (`RetryIsListedEarly`, a run); the
  backoff holds of all runs exactly when no action may be retried (`BackoffHoldsExactly`), and
  what a drain lists is given exactly (`ListedExactly`).
- A logical action is documented as executed at most once. It never succeeds twice, however often it
  is submitted (`LogicalActionSucceedsOnce`), but its handler may run again on a retry: never twice
  in all runs exactly when no action may be retried (`ExecutedOnceExactly`).
- At its failure cap the executor is documented to stop processing. The cap only withholds retries:
  a drain dispatches all it listed (`DrainIgnoresCap`). Whatever its handlers do, what is left of a
  drain dispatches nothing at the cap exactly when nothing is left, or the failure count and the
  number left together stay within the cap (`StopsAtCapExactly`; `CapIsPassed` is a run for every
  configuration).
- A terminal action status is meant to be final. A sweep by another caller that hits a batch in
  progress lets an EXPIRED action be dispatched and become PENDING again (`SweptActionRevives`, a
  run); a sweep is safe exactly when it hits no row still to be executed (`SweepIsSafeExactly`).
  The documented promise that expired actions never run does hold, even then, whenever the clock
  does not go back: the dispatch is refused without running the handler (`ExpiredNeverRuns`).
- `revoke_trust` means to leave finished sessions alone, but its WHERE clause has an OR beside an
  AND without parentheses, so it rewrites them exactly when the caller is their parent
  (`RevokeRewritesFinished`; `RevokeRewritesCancelled` is a run).
- A one-time code is documented as cleared on success and on exhaustion of the attempts. Exhaustion
  leaves it, so the promise holds of a run exactly when no verification runs out of attempts
  (`CodeIsClearedExactly`; `ExhaustedCodeStays` is a run). A session holds no code exactly if one
  was accepted (`CodeIsSingleUse`).
- The consent gate documents that consent must be unexpired before capture and that an expired one
  needs a fresh dialog. Neither holds. The gate never compares a lifetime with the clock when it is
  asked, and only a call of its own expiry pass marks tokens. It lets no start pass under a consent
  past its lifetime exactly when every start past the lifetime of its token has, after each grant of
  that token, a refusal of it or an expiry pass later than that lifetime
  (`CaptureIsUnexpiredExactly`; an expiry pass right before each start is enough,
  `SweptStartIsUnexpired`; `UnsweptConsentCaptures` is a run). And a token already marked EXPIRED can
  be granted again; that never happens in a run exactly when no call grants a token while it is
  marked (`ExpiryIsFinalExactly`; `ExpiredConsentRevives` is a run that captures so).
- The indicator is documented as active while a session is capturing. A start marks the session
  CAPTURING and may then fail, because the projection does not start or the indicator is busy; and
  `stop_capture` clears the indicator whichever session it shows. Every capturing session is shown
  throughout a run exactly when no start of a session not shown fails so and no stop falls beside
  another capturing session (`CapturingIsShownExactly`); every running pipeline is, exactly when no
  stop falls beside one (`CaptureIsVisibleExactly`). `FailedStartHidesCapture`,
  `BusyStartHidesCapture` and `StopHidesCapture` are failing runs.
- Revoking a system consent is documented to tear down the active session. The gate's calls leave
  pipelines running: every running pipeline has a granted consent throughout a run exactly when no
  call refuses, sweeps or replaces the token of a session with a pipeline
  (`CaptureIsCoveredExactly`; `RevokedCaptureContinues` is a run).
- A table is documented to fit the terminal. A table that is too wide does after levelling exactly
  if it would with every column cut to 8 (`LevellingFitsExactly`).
- A restore skips tables that were empty in the backup, but emptying `policies` cascades to
  `policy_rules` (`BackupRestores`); and it can remove the manifest of the backup it restores
  (`ManifestSurvives`; `BackupForgetsItself` shows it for the second of two backups).
- Recovery of Aegis sessions looks for a state name that no session has; it leaves none overdue
  exactly when the query names the state of every overdue one (`AegisRecoveryCompletesExactly`), which
  is so of sessions never asked for consent and of capturing ones only (`AegisRecoveryReaches`); and
  recovery skips rows with a malformed timestamp, which the lifecycle check then reports
  (`RecoveryMeetsCheck`).

## Model

| member | source | states |
|---|---|---|
| StableSort.SortIsStable | guardianmesh/orion/bus.py:256-257 | The drain's sort orders by key and keeps entries with equal keys in their old order |
| BusLaws.RetryLedger | guardianmesh/orion/bus.py:148-262 | In every reachable state, for every event id, queued + in-flight + delivered + unhandled + evicted + refused copies number 1 (2 if deterministic) plus the retries granted, which never exceed `max_retries`; an id never accepted has no copies |
| BusLaws.WorstRunDelivers | guardianmesh/orion/bus.py:148-234 | A concrete run delivers one event as often as the ledger allows |
| BusLaws.DeliveryBoundIsExact | guardianmesh/orion/bus.py:18-21 | No event is delivered more than n times in any run if and only if n is at least 1 (2 if deterministic) plus `max_retries` |
| BusLaws.AtMostOnceExactly | guardianmesh/orion/bus.py:20-21 | "Delivered at most once" holds of every run if and only if the bus is asynchronous with no retries |
| BusOrder.SortKeepsOrder | guardianmesh/orion/bus.py:256-257 | Sorting the snapshot never breaks the per-device order |
| BusOrder.DeliveredInOrder | guardianmesh/orion/bus.py:158-189 | Asynchronous, one drainer, no retry granted: each device's whole delivery trace has strictly increasing sequence numbers and no id twice, under any interleaving of publishes, evictions and drains |
| BusOrder.OrderHoldsExactly | guardianmesh/orion/bus.py:22-23 | The documented per-device order, strict and without repeats, holds of every run with one drainer if and only if the bus is asynchronous with no retries |
| BusOvertaking.NoneOvertakenExactly | guardianmesh/orion/bus.py:148-262 | In every run with one drainer no event is delivered after a later one of its device if and only if the bus is asynchronous and has no retries or `max_queue_size` 1 |
| BusOvertaking.RetryOvertakes | guardianmesh/orion/bus.py:203-234 | A run of an asynchronous bus with a retry and room for two that delivers the first event again after the second |
| BusOvertaking.NestedOvertakes | guardianmesh/orion/bus.py:158-189 | A run of a deterministic bus in which a publish during a delivery overtakes it |
| BusQueue.QueueIsWindow | guardianmesh/orion/bus.py:167-234 | Between drains the queue is the last (DROP_OLDEST) or first (DROP_NEWEST, REJECT) `max_queue_size` entries offered by publishes and retries, so it never exceeds that size |
| BusQueue.MetricsAreExact | guardianmesh/orion/bus.py:195-234 | Processed, failed and dropped counts are the lengths of the delivery, failure and loss histories; an id's retry count is its handler failures capped at `max_retries` and the rest were abandoned |
| BusTermination.DeliveriesAreBounded | guardianmesh/orion/bus.py:195-234 | Without publishes, deliveries ended plus the measure (queued + in flight + retries left over all ids) never grows, whatever the handlers do |
| BusTermination.DrainDeliversAll | guardianmesh/orion/bus.py:251-262 | A drain of an idle bus ends exactly as many deliveries as it found queued and lowers the measure by at least that |
| BusTermination.DrainsEmptyTheQueue | guardianmesh/orion/bus.py:251-262 | From any reachable idle state `max_retries` + 1 drains, or as many as the measure, empty the queue, however long it is, with total deliveries bounded by the measure |
| BusTermination.DrainsNeededExactly | guardianmesh/orion/bus.py:203-262 | So many drains empty the queue of every reachable idle bus, whatever the handlers do, if and only if they outnumber `max_retries` |
| BusDrain.SnapshotIsOrdered | guardianmesh/orion/bus.py:251-257 | A drain takes into flight a permutation of the queue, by device id and within a device by sequence number, and touches nothing else |
| BusDrain.DrainIsOrdered | guardianmesh/orion/bus.py:195-262 | A whole drain of an idle bus appends what it took, in that order, to the delivered events or, where no handler was found, to the unhandled ones |
| BusDrain.PublishesAreKnown | guardianmesh/orion/bus.py:158-166 | Over every run the bus remembers exactly the ids published, and a device's number is that of its first publishes |
| BusDrain.PublishAnswers | guardianmesh/orion/bus.py:148-189 | After any run a known id changes nothing; a new one gets its device's next number and joins the queue's end, evicting if it must and may, or is turned away |
| BusDrain.RaiseAnswers | guardianmesh/orion/bus.py:203-234 | A handler failure requeues that very event while it has retries left and the queue takes it, and otherwise gives the copy up |
| BusDrain.DeliveryFailures | guardianmesh/orion/bus.py:195-234 | One delivery counts a failure of its event for each handler that raises, in whatever place among the handlers |
| EventBus.OrionEventBus.constructor | guardianmesh/orion/bus.py:79-115 | A new bus is in the initial state |
| EventBus.OrionEventBus.Publish | guardianmesh/orion/bus.py:148-189 | Returns whether the event was taken in and takes the publish step, followed by a direct delivery when deterministic: that event, with its number, is then delivered (or unhandled) and no other |
| EventBus.OrionEventBus.TakeIn | guardianmesh/orion/bus.py:158-184 | Duplicate check, sequence number, bounding and append are one publish step |
| EventBus.OrionEventBus.MakeRoom | guardianmesh/orion/bus.py:167-180 | The bounding loop evicts just enough of the oldest events or reports that there is no room |
| EventBus.OrionEventBus.DeliverOne | guardianmesh/orion/bus.py:195-223 | One failure step per raising handler, then the delivery ends; with no handler it ends uncounted |
| EventBus.OrionEventBus.HandleFailure | guardianmesh/orion/bus.py:203-222 | A handler failure is counted and retried within the budget |
| EventBus.OrionEventBus.Requeue | guardianmesh/orion/bus.py:225-234 | A retry joins the bounded queue, evicting the oldest or being refused when it is full |
| EventBus.OrionEventBus.DeliverPending | guardianmesh/orion/bus.py:251-262 | Takes the snapshot, then one delivery per snapshot event; returns their number; on an idle bus with a handler for each event it appends all that was queued to the delivered ones, by device and sequence |
| StableSort.SortPlaces | guardianmesh/orion/queue.py:147-153 | An entry stands in the sorted list at the place given by how many entries sort before it |
| ActionLaws.RunnableIsOldest | guardianmesh/orion/queue.py:142-166 | The batch is pending rows with distinct ids, the oldest of them, oldest first, all of them or 64 |
| ActionLaws.ListedExactly | guardianmesh/orion/queue.py:142-166 | A row is listed by a drain if and only if it is PENDING, not stale, and fewer than 64 such rows sort before it; its next_attempt_at plays no part |
| ActionExpiry.RetryIsListedEarly | guardianmesh/orion/queue.py:195-215 | A concrete run in which a drain lists a retry before its next_attempt_at |
| ActionExpiry.BackoffHoldsExactly | guardianmesh/orion/queue.py:142-219 | Every drain of every run of new actions with at most m retries, with a clock that does not go back, lists only due actions if and only if m is 0 |
| ActionLaws.ExecuteTouchesOne | guardianmesh/orion/executor.py:111-135 | An execution changes only the listed row: SUCCEEDED, PENDING with one more retry, or FAILED when the budget is spent or the breaker is open |
| ActionLaws.AttemptAccounting | guardianmesh/orion/executor.py:95-135 | Over every run of new actions, with sweeps anywhere, an action's dispatches equal retry_count, plus one once SUCCEEDED or FAILED, so at most 1 + max_retries; nothing is RUNNING at rest; FAILED short of the budget only after the breaker tripped; ids and idempotency keys are unique and the table bounded; the counters match the log of dispatches |
| ActionExpiry.TerminalStepExactly | guardianmesh/orion/queue.py:175-284 | From any state reached with new actions a step changes a row in a terminal status if and only if it executes a row that was swept after it was listed |
| ActionExpiry.TerminalForGood | guardianmesh/orion/queue.py:175-284 | A row in a terminal status never changes again in a run whose sweeps spare the batch in progress |
| ActionExpiry.SweepIsSafeExactly | guardianmesh/orion/queue.py:269-284 | After a sweep in the middle of a drain, the rest of the drain leaves every row in a terminal status as it is, for all handler verdicts and clock readings, if and only if the sweep hit no row still to be executed |
| ActionExpiry.ExpiredNeverRuns | guardianmesh/orion/handlers.py:66-72 | With a clock that does not go back, the handler of an action that was ever EXPIRED never runs again, in any run, mid-batch sweeps included |
| ActionExpiry.SweptActionRevives | guardianmesh/orion/executor.py:104-128 | A concrete run in which an action swept mid-batch is dispatched, refused without running, and leaves EXPIRED for PENDING |
| ActionTermination.ExecutionUsesWork | guardianmesh/orion/executor.py:111-135 | Every execution lowers the work: the sum, over rows pending or listed, of max_retries - retry_count + 1 |
| ActionTermination.DispatchesAreBounded | guardianmesh/orion/executor.py:95-135 | In any run without enqueues, mid-batch sweeps included, dispatches made plus work left never grows |
| ActionTermination.DrainUsesWork | guardianmesh/orion/executor.py:95-109 | A drain dispatches each listed row once and lowers that sum by at least their number |
| ActionTermination.NoStarvation | guardianmesh/orion/executor.py:95-135 | From any state reached with an idle executor, after as many drains as that sum nothing is pending, despite the batch limit and handlers that always fail |
| ActionOnce.LogicalActionSucceedsOnce | guardianmesh/orion/queue.py:59-127 | In every run, sweeps anywhere, no two dispatches of one logical action (the same row, or rows with the same idempotency key) return |
| ActionOnce.ExecutedOnceExactly | guardianmesh/orion/executor.py:111-135 | In every run of new actions with at most m retries each action is dispatched, and its handler run, at most once if and only if m is 0 |
| ActionOnce.RetriesAreUsed | guardianmesh/orion/executor.py:111-135 | For any retry allowance up to the failure cap, a run in which one action's handler runs once more than that |
| ActionOnce.StopsAtCapExactly | guardianmesh/orion/executor.py:95-135 | Whatever the handlers do, the rest of a drain dispatches nothing with the failure count at the cap if and only if nothing is left or the count plus what is left is at most the cap |
| ActionOnce.DrainIgnoresCap | guardianmesh/orion/executor.py:95-135 | In every run a drain dispatches all it listed, whatever the failure count |
| ActionOnce.CapIsPassed | guardianmesh/orion/executor.py:95-135 | For every configuration, a run whose next drain dispatches with the failure count at the cap |
| ActionAnswers.EnqueueAnswers | guardianmesh/orion/queue.py:59-127 | Below capacity an action is created if and only if neither its id nor its key is known; a known key that is not empty makes a duplicate, anything else a conflict |
| ActionAnswers.SweepAnswers | guardianmesh/orion/queue.py:269-284 | A sweep expires exactly the rows that wait or run past their lifetime |
| ActionAnswers.ExecutionIsLogged | guardianmesh/orion/executor.py:111-135 | The handler runs if and only if the lifetime is not over; the log and the four counters say how that went |
| ActionAnswers.ExecutionAnswers | guardianmesh/orion/queue.py:175-219 | After an execution the row is SUCCEEDED, or PENDING with one more retry after a delay of 2 to the retries used, or FAILED when the retries are used up or the cap is reached; no other row changes |
| ActionAnswers.DrainInOrder | guardianmesh/orion/executor.py:95-109 | A whole drain of an idle executor executes what it listed, in order and all of it, and the log says of each whether its handler ran and returned |
| ActionQueue.OrionActionQueue.Enqueue | guardianmesh/orion/queue.py:59-127 | Appends the row, or reports capacity, duplicate key or a constraint conflict and changes nothing |
| ActionQueue.OrionActionQueue.MarkFailed | guardianmesh/orion/queue.py:187-219 | Requeues the row with one more retry or fails it |
| ActionQueue.OrionActionQueue.ListPending | guardianmesh/orion/queue.py:142-166 | Pending rows with distinct ids, oldest first, no row left out older than one listed, all of them or 64 |
| ActionQueue.OrionActionQueue.SweepExpired | guardianmesh/orion/queue.py:269-284 | Expires exactly the stale PENDING and RUNNING rows and returns their ids in table order |
| ActionQueue.OrionExecutor.ExecuteAction | guardianmesh/orion/executor.py:111-135 | One execution step: mark running, dispatch, record the outcome and the counters |
| ActionQueue.OrionExecutor.DrainOnce | guardianmesh/orion/executor.py:95-109 | One whole drain: sweep, list, execute the batch in order; returns the number executed |
| PairingLaws.DeadStatesAreClosed | guardianmesh/pairing/manager.py:208-501 | No operation leaves DENIED, EXPIRED, CANCELLED, REVOKED, nor that set with PAIRED, including direct assignments and revocation |
| PairingLaws.OneVerdict | guardianmesh/pairing/manager.py:407-479 | A session reaches PAIRED or DENIED at most once, and not both |
| PairingLaws.NonceConsumedOnce | guardianmesh/pairing/authorization.py:134-180 | A nonce is consumed at most once, by a submission for its own session before it expires |
| PairingLaws.WaitingHadCode | guardianmesh/pairing/manager.py:255-354 | A session waiting for its child had its current code entered in time and within its attempts |
| PairingLaws.NonceWasIssued | guardianmesh/pairing/manager.py:356-405 | Every nonce row was issued to a live session waiting for its child and keeps its expiry |
| PairingLaws.PairingSafety | guardianmesh/pairing/manager.py:407-479 | A trust record becomes or is renewed ACTIVE only by a submission with an approving, validly signed decision of the remote identity that consumes an unused, timely nonce, issued earlier for the same session, whose code was entered still earlier |
| PairingLaws.VersionCountsPairings | guardianmesh/pairing/trust.py:69-102 | trust_version is the number of times a session of that parent was paired with that child; a malformed child identity can reach PAIRED but never gets a record |
| PairingLaws.ComparisonBudget | guardianmesh/pairing/manager.py:255-354 | However many codes are resent, a session sees at most max_otp_attempts comparisons, and attempt_count never exceeds it |
| PairingLaws.NoneAfterSuccess | guardianmesh/pairing/manager.py:299-345 | No comparison follows a successful one |
| PairingLaws.CodeIsSingleUse | guardianmesh/pairing/manager.py:208-345 | At any point of any run a session, whatever its state, holds no code if and only if a code of it was accepted before |
| PairingLaws.ExhaustionKeepsCode | guardianmesh/pairing/manager.py:275-318 | A session that ran out of attempts is over and holds its code for the rest of any run |
| PairingLaws.CodeIsClearedExactly | guardianmesh/pairing/manager.py:275-345 | In a run the code is gone whenever its check ends, by a match or by exhaustion, if and only if no verification runs out of attempts |
| PairingProgress.ExhaustedCodeStays | guardianmesh/pairing/manager.py:301-318 | A concrete run whose one attempt is wrong and whose session keeps its code |
| PairingLaws.ResendRate | guardianmesh/pairing/manager.py:208-243 | resend_count times the cooldown is at most last_resend_at - created_at, which stays inside the session lifetime, for any clock |
| PairingAnswers.ResendAnswers | guardianmesh/pairing/manager.py:208-253 | A resend is done if and only if the session is live, awaits a code, is past its cooldown and the mail goes out; it then counts, restarts the cooldown and renews the code |
| PairingAnswers.ResendsAreCounted | guardianmesh/pairing/manager.py:228-243 | Over every run a session's counter is the number of its resends done, and its last_resend_at the clock of the last code sent |
| PairingAnswers.CodesAreApart | guardianmesh/pairing/manager.py:222-226 | Two codes sent to one session are at least a cooldown apart, for any clock |
| PairingAnswers.ResendsAreFew | guardianmesh/pairing/manager.py:208-243 | The number of resends done times the cooldown is less than the session lifetime |
| PairingAnswers.CreateAnswers | guardianmesh/pairing/manager.py:77-206 | A session is created if and only if the parent, the child if any and the id are fit; undelivered, it is CANCELLED |
| PairingAnswers.SessionKeepsOrigin | guardianmesh/pairing/manager.py:77-206 | Over every run a session keeps the parent, the start, the end and the attempt limit of its creation |
| PairingAnswers.VerifyAnswers | guardianmesh/pairing/manager.py:255-354 | The exact condition of every answer to an entered code |
| PairingAnswers.VerifyLeaves | guardianmesh/pairing/manager.py:255-354 | A miss costs an attempt, a match the code; nothing else changes but the state |
| PairingAnswers.AttemptsAreMisses | guardianmesh/pairing/manager.py:284-318 | Over every run a session's attempts are its misses, however often its code is resent |
| PairingAnswers.ChallengeAnswers | guardianmesh/pairing/manager.py:356-405 | A challenge is issued if and only if the live session awaits its child, the child is well formed and the nonce new |
| PairingAnswers.SubmitAnswers | guardianmesh/pairing/manager.py:407-479 | The exact condition of every answer to a submission |
| PairingAnswers.SubmitLeaves | guardianmesh/pairing/manager.py:426-479 | A timely nonce of the session is used up; a signed decision ends the session DENIED or PAIRED with the child that decided |
| PairingAnswers.CancelAnswers | guardianmesh/pairing/manager.py:481-501 | A session is cancelled if and only if it is in none of the four states that end one |
| PairingAnswers.IdentityFormat | guardianmesh/identity/models.py:13-63 | A parent is GM-P- and a child GM-C- with eight upper-case hexadecimal digits |
| PairingAnswers.TransitionsAre | guardianmesh/pairing/models.py:36-91 | The table allows staying, the next stage, cancelling and expiring up to the approval, the child's denial and revoking what was trusted, and nothing else |
| PairingAnswers.ApprovalWords | guardianmesh/pairing/authorization.py:56-58 | A decision approves if and only if it is the word APPROVE in any mixture of cases |
| PairingLaws.RevokeRewritesFinished | guardianmesh/pairing/trust.py:215-224 | Revoking rewrites a finished session if and only if the caller is its parent and the remote its child |
| PairingAnswers.RevokeRevokes | guardianmesh/pairing/trust.py:187-213 | Revoking leaves exactly the named record REVOKED, with key, version and session kept, and no other record changed |
| PairingAnswers.RevokeEndsSessions | guardianmesh/pairing/trust.py:215-224 | What a revocation makes of every session |
| PairingAnswers.ActiveIsHistory | guardianmesh/pairing/trust.py:29-236 | Over every run a pair is ACTIVE if and only if some operation paired it with a well-formed child and no later revocation named it |
| PairingAnswers.TrustIsLastPairing | guardianmesh/pairing/trust.py:69-134 | Over every run a record holds the key and the session of the last pairing of its pair |
| PairingProgress.RevokeRewritesCancelled | guardianmesh/pairing/trust.py:187-236 | A concrete run: pair, cancel a second session for the same child, revoke; the cancelled session becomes REVOKED |
| PairingLaws.PayloadBinds | guardianmesh/pairing/authorization.py:32-40 | For fields without a colon, equal signed payloads have equal fields |
| PairingProgress.HonestPairing | guardianmesh/pairing/manager.py:77-479 | From any state, an honest exchange in time (create, verify, challenge, signed approval) ends PAIRED with an ACTIVE record of the child's key at the next version and no other record changed |
| PairingProgress.ResendReplacesCode | guardianmesh/pairing/manager.py:228-243 | After a resend, verification in time succeeds if and only if the new code is entered |
| PairingManager.Manager.CreateSession | guardianmesh/pairing/manager.py:77-206 | The create operation: validation, insertion, dispatch, pending or cancelled |
| PairingManager.Manager.ResendOtp | guardianmesh/pairing/manager.py:208-253 | The resend operation with expiry, state and cooldown checks; a failed delivery persists nothing |
| PairingManager.Manager.VerifyOtp | guardianmesh/pairing/manager.py:255-354 | The verify operation with every rejection in order |
| PairingManager.Manager.CreateAuthorizationChallenge | guardianmesh/pairing/manager.py:356-405 | The challenge operation: nonce row and child recorded together |
| PairingManager.Manager.ValidateAndConsumeNonce | guardianmesh/pairing/authorization.py:134-180 | Succeeds if and only if the nonce is known for the session, unused and in time; then exactly that row becomes used |
| PairingManager.Manager.SubmitChildAuthorization | guardianmesh/pairing/manager.py:407-479 | The submit operation: consume, check signature, deny or pair and establish trust |
| PairingManager.Manager.EstablishTrust | guardianmesh/pairing/trust.py:29-134 | Inserts version 1 or renews with the next version; refuses a malformed identity |
| PairingManager.Manager.CancelSession | guardianmesh/pairing/manager.py:481-501 | The cancel operation, which also cancels a paired session |
| PairingManager.Manager.RevokeTrust | guardianmesh/pairing/trust.py:187-236 | The revoke operation on the record and the sessions its WHERE clause hits |
| PairingManager.Manager.VerifyDeviceTrust | guardianmesh/pairing/trust.py:176-185 | Accepts a device if and only if its record is ACTIVE |
| AlertModel.LatestOpen | guardianmesh/policy/alerts.py:53-60 | Finds an open alert of the key with the latest creation time, or none if there is none |
| AlertLaws.WorseStaysTriggered | guardianmesh/policy/evaluator.py:13-96 | A triggered rule stays triggered when no reading gets better |
| AlertAnswers.RuleReads | guardianmesh/policy/evaluator.py:21-96 | What each enabled rule reads, with the thresholds 20 percent, 10 percent and 60 seconds of rules that give none; a disabled one never triggers |
| AlertAnswers.ReportAnswers | guardianmesh/policy/alerts.py:53-135 | A report refreshes the severity and time of the key's open alert and nothing else, or appends an active alert |
| AlertAnswers.ClearAnswers | guardianmesh/policy/alerts.py:137-169 | A clear resolves the key's open alert and touches no other row |
| AlertAnswers.StatusAnswers | guardianmesh/policy/alerts.py:171-229 | What acknowledging, dismissing and resolving make of every row |
| AlertAnswers.EvaluationStamps | guardianmesh/policy/engine.py:278-301 | With one rule a type, each triggered rule leaves its alert open with its severity, seen now |
| AlertLaws.CreateOpens | guardianmesh/policy/alerts.py:39-135 | Reporting opens the key, touches no other alert, keeps one open alert per key, and adds a row if and only if the key was closed |
| AlertLaws.AutoResolveCloses | guardianmesh/policy/alerts.py:137-169 | Clearing closes the key and no other |
| AlertLaws.EvaluationReconciles | guardianmesh/policy/engine.py:278-301 | After an evaluation a key of the policy is open if and only if the last rule of its type triggers; other devices, policies and closed alerts are untouched |
| AlertLaws.OpenExactlyWhenTriggered | guardianmesh/policy/engine.py:278-301 | With one rule a type, exactly the triggered rules have an open alert |
| AlertLaws.SecondEvaluationAddsNothing | guardianmesh/policy/engine.py:278-301 | Evaluating the same summary again adds no row if and only if rules of one type agree on it, as distinct types always do |
| AlertOperations.KeptRun | guardianmesh/policy/alerts.py:39-313 | Every history of alert operations keeps unique ids and at most one open alert per key |
| AlertOperations.RetainedRows | guardianmesh/policy/alerts.py:293-304 | Clean-up removes exactly the closed alerts created before the cutoff |
| AlertOperations.EvaluationAfterAnyHistory | guardianmesh/policy/engine.py:255-301 | After any history an evaluation leaves open exactly the triggered rules among the policy's keys |
| AlertManager.Manager.CreateOrUpdateAlert | guardianmesh/policy/alerts.py:39-135 | The report operation; returns the open alert of the key |
| AlertManager.Manager.AutoResolveAlert | guardianmesh/policy/alerts.py:137-169 | The clear operation |
| AlertManager.Manager.AcknowledgeAlert | guardianmesh/policy/alerts.py:171-189 | Acknowledges an active alert; tells it from one that is not active and from an unknown id |
| AlertManager.Manager.DismissAlert | guardianmesh/policy/alerts.py:191-209 | Dismisses an open alert; tells it from a closed one and from an unknown id |
| AlertManager.Manager.ResolveAlert | guardianmesh/policy/alerts.py:211-229 | Resolves any unresolved alert; tells it from a resolved one and from an unknown id |
| AlertManager.Manager.CleanupRetention | guardianmesh/policy/alerts.py:293-313 | Deletes what the retention rule does not keep and counts it |
| PolicyEngine.LatestPolicy | guardianmesh/policy/engine.py:172-180 | Finds a policy of the device with the latest creation time, or none if there is none |
| PolicyEngine.EnsuredOnce | guardianmesh/policy/engine.py:182-187 | Fetching a device's policy again finds the same one and creates nothing |
| PolicyEngine.FirstEvaluation | guardianmesh/policy/engine.py:255-301 | A trusted device without a policy: after its first evaluation, in any history, exactly the default rules that trigger are open, and nothing else is touched |
| PolicyEngine.FirstEvaluationOpens | guardianmesh/policy/engine.py:53-80 | After the first evaluation of a trusted device each key of its new policy is open if and only if the readings cross the configured threshold, are offline or are degraded; an offline device critically, all else as a warning |
| PolicyEngine.DisabledRuleCloses | guardianmesh/policy/evaluator.py:21-22 | After any evaluation a key whose one rule is disabled is closed |
| PolicyEngine.EvaluationIsGated | guardianmesh/policy/engine.py:267-274 | No alert changes for an untrusted device, a disabled policy, or with evaluation off |
| PolicyEngine.EnsureAnswers | guardianmesh/policy/engine.py:82-187 | A default policy is created, enabled, if and only if the device is well formed and has none and the id is free |
| PolicyEngine.PolicyEngine.EnsureDefaultPolicy | guardianmesh/policy/engine.py:182-187 | Fetches the device's latest policy or creates the default one; an invalid device or a taken id creates nothing |
| PolicyEngine.EvaluateRules | guardianmesh/policy/engine.py:278-301 | One report or clear per rule, in order; returns the open alerts of the triggered rules in rule order, each a row of the table, unchanged there when no two rules share a type |
| PolicyEngine.PolicyEngine.EvaluateDeviceHealth | guardianmesh/policy/engine.py:255-301 | Changes nothing for an untrusted device; otherwise fetches or creates its policy and, if that and evaluation are enabled, evaluates its rules |
| TableLayout.LevellingFits | guardianmesh/console/formatters.py:123-131 | Levelling a table that is too wide makes it exactly as wide as the terminal or every column at most 8; no column falls below the smaller of its start and 8, and every cut column is within 1 of the widest |
| TableLayout.LevellingFitsExactly | guardianmesh/console/formatters.py:92-131 | A table that is too wide fits after levelling if and only if the sum of min(start, 8) over its columns plus 2 for each gap is at most the width; if not, it ends exactly that wide |
| TableLayout.FairIsNarrowest | guardianmesh/console/formatters.py:127-131 | No other choice of widths with the same total and no column above its start has a narrower widest column |
| TableLayout.ScaleDown | guardianmesh/console/formatters.py:123-131 | The scaling loop in place computes the levelled widths |
| TableLayout.ShrinkWidest | guardianmesh/console/formatters.py:128-131 | One round takes one from the first widest column if it is above 8 |
| TableLayout.CellWidths | guardianmesh/console/formatters.py:137-155 | A header cell is exactly as wide as its column; a data cell is if and only if its text fits or the column has at least 4 |
| TableLayout.PadPlaces | guardianmesh/console/formatters.py:137-155 | The text stands left, right or in the middle of its column and all else is blank |
| TableLayout.CellTexts | guardianmesh/console/formatters.py:137-155 | A header cell shows as much of its text as fits, a data cell its text or its beginning and an ellipsis |
| TableLayout.ColumnsAreTheirOwn | guardianmesh/console/formatters.py:133-155 | Each column renders its own text, empty where the row is short, with its own alignment, left by default |
| TableLayout.JoinPlaces | guardianmesh/console/formatters.py:144-156 | A row shows every cell at its place and two blanks behind each but the last |
| TableLayout.RowsSpanTheTable | guardianmesh/console/formatters.py:133-156 | The header line spans the table; a data row does if and only if no cell overflows a column narrower than 4 |
| TableLayout.LevelledRowsFit | guardianmesh/console/formatters.py:123-156 | With columns at least 4 wide every row of a levelled table has exactly the total width |
| Restore.BackupRestores | guardianmesh/atlas/restore.py:96-115 | Restoring a backup of D over any later state succeeds: tables with rows in D get exactly D's rows without forbidden columns, the policy rules are emptied by cascade if D had policies and no rules, all else is unchanged |
| RestoreAnswers.BackupHolds | guardianmesh/atlas/backup.py:89-115 | A backup holds exactly the listed tables that exist, each with all its rows and all their columns but private_key_pem of identities |
| RestoreAnswers.RoundTripRows | guardianmesh/atlas/restore.py:96-115 | After backup and restore every row is back with its values in all columns but that one, which it has not |
| RestoreAnswers.AnyPayloadRestores | guardianmesh/atlas/restore.py:96-118 | A restore of any payload over any database is refused if and only if a table with rows to restore is missing or a rule has none of the policies then in force; otherwise what every table holds |
| RestoreAnswers.BlockedRows | guardianmesh/atlas/restore.py:96-118 | What blocks a restore, told from the rows |
| Restore.RestoreOverItself | guardianmesh/atlas/restore.py:96-115 | Restoring the backup of a state over that state changes only forbidden columns |
| Restore.ManifestSurvives | guardianmesh/atlas/backup.py:143-164 | A backup's own manifest survives its restore if and only if no manifest was there before it |
| Restore.SecondManifestIsLost | guardianmesh/atlas/backup.py:117-165 | Of two backups in a row on a database without manifests, restoring the first keeps both manifests and restoring the second loses its own |
| Restore.BackupForgetsItself | guardianmesh/atlas/restore.py:96-115 | The same in a concrete, otherwise empty database |
| Restore.Atlas.ReadTable | guardianmesh/atlas/backup.py:89-98 | The rows of a table without its forbidden columns |
| Restore.Atlas.BuildPayload | guardianmesh/atlas/backup.py:100-115 | The payload holds every allowed table that exists |
| Restore.Atlas.CreateBackup | guardianmesh/atlas/backup.py:117-165 | Stores the payload of the state before it and then records the manifest |
| Restore.Atlas.Restore | guardianmesh/atlas/restore.py:61-118 | A dry run and an unknown backup change nothing; an applied restore is the whole transaction or, if refused, nothing |
| Recovery.RecoveryMeetsCheck | guardianmesh/atlas/recovery.py:65-108 | After recovery the check on actions passes at any time up to then if and only if every timestamp parses; recovery is idempotent |
| Recovery.AuthorizationRecoveryMeetsCheck | guardianmesh/atlas/recovery.py:110-144 | The same for screen authorizations, of which only approved ones change |
| Recovery.RecoveryIsSweep | guardianmesh/atlas/recovery.py:65-108 | On rows the queue wrote, recovery and the queue's sweep expire the same actions |
| Recovery.RecoveryAnswers | guardianmesh/atlas/recovery.py:65-144 | Recovery expires exactly the rows past their lifetime that wait, run or stand approved |
| Recovery.AegisRecoveryCompletesExactly | guardianmesh/atlas/recovery.py:146-172 | After recovery no session that has not ended is past its lifetime if and only if the query names the state of every such session before; ended sessions are untouched and a second pass changes nothing |
| Recovery.AegisRecoveryReaches | guardianmesh/atlas/recovery.py:146-172 | Of the sessions the controller's own expiry pass would end, recovery ends exactly those INITIALIZED or CAPTURING |
| Recovery.Store.RecoverActions | guardianmesh/atlas/recovery.py:65-108 | Expires exactly the due PENDING and RUNNING rows and counts them |
| Recovery.Store.RecoverAuthorizations | guardianmesh/atlas/recovery.py:110-144 | Expires exactly the due approved authorizations and counts them |
| Recovery.Store.CheckActions | guardianmesh/atlas/lifecycle.py:154-181 | Reports exactly the rows that are malformed or expired and PENDING |
| Recovery.Store.CheckAuthorizations | guardianmesh/atlas/lifecycle.py:120-152 | Reports exactly the rows that are malformed or expired and approved |
| ConsentLaws.LookupNamesLatest | guardianmesh/aegis/consent.py:125-157 | A screen session's lookup names its own most recent token, whose record exists |
| ConsentAnswers.RequestAnswers | guardianmesh/aegis/controller.py:250-284 | A pending request keeps its token; otherwise the next token is issued, pending, with the session's lifetime, and becomes current |
| ConsentAnswers.GateAnswers | guardianmesh/aegis/consent.py:159-219 | The state each gate call gives a token, from each state |
| ConsentAnswers.SweepAnswers | guardianmesh/aegis/consent.py:221-240 | The gate's expiry pass marks exactly the tokens past their lifetime that were asked for or granted |
| ConsentAnswers.DecisionAnswers | guardianmesh/aegis/controller.py:286-347 | The controller's grant and denial treat the token as the gate's do and mark the session when done |
| ConsentAnswers.CreateAnswers | guardianmesh/aegis/controller.py:169-236 | A trusted request creates the next session with the configured lifetime |
| ConsentAnswers.StartAnswers | guardianmesh/aegis/controller.py:353-411 | The exact condition of every answer to a start, and what it leaves behind |
| ConsentAnswers.StopAnswers | guardianmesh/aegis/controller.py:413-480 | Ending a session takes its pipeline and the indicator, revokes a granted token and marks the session STOPPED or EXPIRED |
| CaptureController.DueSessionsAre | guardianmesh/aegis/controller.py:460-472 | The expiry pass finds exactly the sessions past their lifetime that have not ended, oldest first |
| CaptureController.ExpireAllEnds | guardianmesh/aegis/controller.py:472-479 | It makes those EXPIRED, takes their pipelines, and leaves every other session alone |
| ConsentLaws.RefusedForGood | guardianmesh/aegis/consent.py:159-219 | A token once DENIED or REVOKED is never GRANTED again |
| ConsentExpiry.ExpiryIsFinalExactly | guardianmesh/aegis/consent.py:159-184 | In a run no token marked EXPIRED is ever GRANTED again if and only if no call grants a token while it is so marked |
| ConsentExpiry.ExpiredConsentRevives | guardianmesh/aegis/consent.py:159-184 | A concrete run captures under a token that was marked EXPIRED and granted again |
| ConsentExpiry.ConsentIsHistory | guardianmesh/aegis/consent.py:159-240 | At any point of any run a token is GRANTED if and only if some earlier grant of it was followed by no refusal of it and no gate sweep after its lifetime |
| ConsentExpiry.CaptureIsUnexpiredExactly | guardianmesh/aegis/consent.py:246-275 | For any clock: in a run the gate lets no start pass under a consent past its lifetime if and only if, before every start past its token's lifetime, each grant of the token was followed by a refusal of it or a gate sweep after the lifetime |
| ConsentExpiry.SweptStartIsUnexpired | guardianmesh/aegis/consent.py:221-275 | A gate sweep directly before a start, at the same time, rules that out |
| ConsentExpiry.UnsweptConsentCaptures | guardianmesh/aegis/controller.py:353-411 | A concrete run that captures long after the lifetime of its consent, although no token is ever marked EXPIRED |
| ConsentLaws.CaptureNeedsFreshGrant | guardianmesh/aegis/controller.py:353-480 | Between a stop or expiry and any later successful start for the same screen session, that session's current token was granted |
| CaptureIndicator.StopKeepsVisibleExactly | guardianmesh/aegis/controller.py:413-451 | A call hides a running pipeline if and only if it stops or expires a session while another one has a pipeline |
| CaptureIndicator.CaptureIsVisibleExactly | guardianmesh/aegis/controller.py:353-480 | Every running pipeline is shown throughout a run if and only if no call of the run stops a session beside one |
| CaptureIndicator.IndicatorIsTruthful | guardianmesh/aegis/controller.py:353-480 | In every reachable state the indicator shows only a session with a running pipeline |
| CaptureIndicator.StaysShownExactly | guardianmesh/aegis/controller.py:353-451 | A call leaves a CAPTURING session unshown if and only if it is a start of a session not shown that finds the indicator busy or whose projection fails, or stops a session beside another CAPTURING one |
| CaptureIndicator.CapturingIsShownExactly | guardianmesh/aegis/controller.py:353-480 | The documented "indicator active while capturing": every CAPTURING session is shown throughout a run if and only if no start of a session not shown finds the indicator busy or fails to start the projection, and no stop falls beside another CAPTURING session |
| CaptureIndicator.StopHidesCapture | guardianmesh/aegis/controller.py:413-451 | A concrete run whose stop of a session that never captured hides the pipeline of another |
| CaptureIndicator.BusyStartHidesCapture | guardianmesh/aegis/controller.py:353-451 | A concrete run without a stop beside a pipeline that ends with a CAPTURING session unshown |
| CaptureIndicator.FailedStartHidesCapture | guardianmesh/aegis/controller.py:376-392 | A concrete run without a stop or a busy indicator whose projection fails to start, leaving a CAPTURING session unshown |
| CaptureIndicator.StaysCoveredExactly | guardianmesh/aegis/consent.py:125-240 | A call leaves a running pipeline without a granted consent if and only if it refuses, sweeps late or replaces the token of a session with a pipeline, other than by ending that session |
| CaptureIndicator.CaptureIsCoveredExactly | guardianmesh/aegis/controller.py:286-480 | Every running pipeline has a granted consent throughout a run if and only if the run has no such call |
| CaptureIndicator.RevokedCaptureContinues | guardianmesh/aegis/consent.py:202-219 | A concrete run in which the gate revokes the token in use and the pipeline goes on |
| CaptureController.SystemConsentGate.Request | guardianmesh/aegis/consent.py:125-157 | Reuses a pending request or issues a fresh token |
| CaptureController.SystemConsentGate.Grant | guardianmesh/aegis/consent.py:159-184 | The grant operation of the gate |
| CaptureController.SystemConsentGate.Deny | guardianmesh/aegis/consent.py:186-200 | The deny operation of the gate |
| CaptureController.SystemConsentGate.Revoke | guardianmesh/aegis/consent.py:202-219 | The revoke operation of the gate |
| CaptureController.SystemConsentGate.ExpireDue | guardianmesh/aegis/consent.py:221-240 | Expires exactly the due granted and requested records and lists them |
| CaptureController.AegisController.CreateSession | guardianmesh/aegis/controller.py:169-236 | A trusted request gets a fresh session |
| CaptureController.AegisController.RequestSystemConsent | guardianmesh/aegis/controller.py:250-284 | Requests consent for the session's screen session |
| CaptureController.AegisController.GrantSystemConsent | guardianmesh/aegis/controller.py:286-317 | Grants the given token and marks the session |
| CaptureController.AegisController.DenySystemConsent | guardianmesh/aegis/controller.py:319-347 | Denies the given token and marks the session |
| CaptureController.AegisController.StartCapture | guardianmesh/aegis/controller.py:353-411 | Starts only under a granted consent and with an available provider; a projection that fails to start and a busy indicator fail it after the session is marked CAPTURING |
| CaptureController.AegisController.StopCapture | guardianmesh/aegis/controller.py:413-451 | Removes the pipeline, clears the indicator and revokes a granted consent |
| CaptureController.AegisController.ExpireDue | guardianmesh/aegis/controller.py:453-480 | Stops every due session, in order of creation |
| FrameLimiter.FramesAreSpaced | guardianmesh/aegis/pipeline.py:142-152 | Accepted frames i and j are at least (j - i) times (1/max_fps - 1e-9) apart, for any clock |
| FrameLimiter.WindowHoldsFew | guardianmesh/aegis/pipeline.py:119-152 | A window of length w holds at most 1 + w / (1/max_fps - 1e-9) accepted frames |
| FrameLimiter.RefusedCameTooSoon | guardianmesh/aegis/pipeline.py:142-152 | A frame is refused if and only if it comes sooner than that after the last accepted one |
| FrameLimiter.Limiter.Allow | guardianmesh/aegis/pipeline.py:142-152 | Extends the accepted stream by the frame if and only if it returns true |
| FrameLimiter.Limiter.Reset | guardianmesh/aegis/pipeline.py:154-156 | Starts a new stream |

## Left out

- SQL text, JSON, files, SMTP and audit logging: tables are sequences and maps and a transaction is one step; of the table constraints, the primary keys, the unique idempotency key and the one foreign key are modelled.
- Timestamps: those the queue and the pairing tables hold are taken to be well formed and in one format, so comparing texts is comparing times; one operation reads the clock once.
- Cryptography: verifiers, digests and signatures are treated as injective; a backup file is taken to be unchanged since its manifest was written, so digest, format and schema mismatches do not occur.
- Threads, locks and worker start and stop: steps are atomic with one drainer or executor. Publishes may fall between any two steps of a drain, and a handler may publish or drain from inside a delivery, except in the order laws, which assume one drain at a time. The object files let a method run to its end.
- Handler registration and the bounded list of recent failures of the bus: a delivery takes the verdicts of the handlers registered when it begins.
- BusOrder.DeliveredInOrder: device ids are integers, standing for text in its sort order; event objects are values, so the sequence number a caller would see on its own event after a publish is not modelled.
- ActionLaws.AttemptAccounting: assumes actions are submitted PENDING with no retries used, as every caller in the repository does, and does not cover direct calls of the queue's mark methods by others.
- ActionModel: creation-time ties in a batch are taken in insertion order, which the query leaves open; a row left RUNNING by a crash is not modelled.
- PairingManager.Manager.CreateSession: delivery method and destination, metadata and the timestamps that no operation reads are not modelled.
- PairingManager.Manager.EstablishTrust: label, role, fingerprint and creation time of a record are not modelled.
- IsApproved: upper-cases ASCII letters only.
- AlertModel: messages and trigger values are not modelled; the key is a triple where the source joins its parts with colons.
- PolicyEngine.PolicyEngine.EvaluateDeviceHealth: policies are only created here; naming, enabling, disabling and deleting them is left out, and a freshly generated policy id is an argument.
- TableLayout: computing the initial widths from the cells, explicit caps, the divider line and the clamping of the terminal width; column widths are any naturals and the terminal width is any natural.
- CaptureController.AegisController.StartCapture: the pipeline object and the one projection that all pipelines share are not modelled, only whether building and starting a pipeline fails; gate and indicator are those the constructor builds for the provider's own platform.
- CaptureController.AegisController.CreateSession: the other two keys of the three-key gate are not modelled; the code consults trust here alone and the screen authorization nowhere.
- FrameLimiter: exact real arithmetic instead of floating point.
- The consent gate's `clear`, the frame pipeline's tick and drain, encoders, registries, transport, telemetry, console screens, CLI and configuration.
- `orion/reconciliation.py`, `orion/consent.py` and `screen/authorization.py`: easier relatives of what is modelled.
