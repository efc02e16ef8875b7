/**
 The persistent action queue and its executor as a state machine.

 The table is a sequence of rows in insertion order. One executor works on one batch at a
 time; enqueues and sweeps by others may fall between its executions.
 */
module ActionModel {
  import opened Common
  import StableSort

  datatype Status = Pending | Running | Succeeded | Failed | Expired | Cancelled

  datatype Action = Action(
    id: int,
    createdAt: int,
    expiresAt: int,
    status: Status,
    idempotencyKey: Option<string>,
    retryCount: nat,
    maxRetries: nat,
    nextAttemptAt: Option<int>)
  {
    predicate CanRetry() {
      retryCount < maxRetries
    }

    predicate IsExpired(now: int) {
      now > expiresAt
    }

    /** Statuses that nothing but an outside caller leaves. */
    predicate IsTerminal() {
      status.Succeeded? || status.Failed? || status.Expired? || status.Cancelled?
    }

    /** Not yet finished, with its lifetime over. */
    predicate IsStale(now: int) {
      (status.Pending? || status.Running?) && expiresAt < now
    }
  }

  datatype Config = Config(maxSize: nat, maxConsecutiveFailures: nat)

  predicate ValidConfig(c: Config) {
    c.maxSize > 0 && c.maxConsecutiveFailures > 0
  }

  const BATCH_LIMIT := 64

  // ---------------------------------------------------------------------------------------
  // The table

  datatype Patch = SetStatus(status: Status) | Requeue(retryCount: nat, nextAttemptAt: int)

  function Patched(p: Patch, a: Action): Action {
    match p
    case SetStatus(status) => a.(status := status)
    case Requeue(n, at) => a.(status := Pending, retryCount := n, nextAttemptAt := Some(at))
  }

  /** UPDATE ... WHERE action_id = id */
  function Update(rows: seq<Action>, id: int, p: Patch): (r: seq<Action>)
    ensures |r| == |rows|
  {
    seq(|rows|, i requires 0 <= i < |rows| => if rows[i].id == id then Patched(p, rows[i]) else rows[i])
  }

  function Get(rows: seq<Action>, id: int): Option<Action> {
    if rows == [] then None
    else if rows[0].id == id then Some(rows[0])
    else Get(rows[1..], id)
  }

  predicate HasId(rows: seq<Action>, id: int) {
    exists i | 0 <= i < |rows| :: rows[i].id == id
  }

  predicate HasKey(rows: seq<Action>, key: string) {
    exists i | 0 <= i < |rows| :: rows[i].idempotencyKey == Some(key)
  }

  datatype EnqueueResult = Created | Duplicate | AtCapacity | Conflict

  /** The empty key passes the duplicate check but not the table's unique index. */
  function EnqueueOutcome(c: Config, rows: seq<Action>, a: Action): EnqueueResult {
    if |rows| >= c.maxSize then AtCapacity
    else if a.idempotencyKey.Some? && a.idempotencyKey.value != "" && HasKey(rows, a.idempotencyKey.value) then Duplicate
    else if HasId(rows, a.id) || (a.idempotencyKey.Some? && HasKey(rows, a.idempotencyKey.value)) then Conflict
    else Created
  }

  function Swept(rows: seq<Action>, now: int): (r: seq<Action>)
    ensures |r| == |rows|
  {
    seq(|rows|, i requires 0 <= i < |rows| =>
      if rows[i].IsStale(now) then rows[i].(status := Expired) else rows[i])
  }

  function PendingRows(rows: seq<Action>): seq<Action> {
    if rows == [] then []
    else (if rows[0].status.Pending? then [rows[0]] else []) + PendingRows(rows[1..])
  }

  function CreatedKey(a: Action): (int, int) {
    (a.createdAt, 0)
  }

  /** SELECT ... WHERE status = 'PENDING' ORDER BY created_at ASC LIMIT 64 */
  function Runnable(rows: seq<Action>): seq<Action> {
    var sorted := StableSort.Sort(CreatedKey, PendingRows(rows));
    if |sorted| <= BATCH_LIMIT then sorted else sorted[..BATCH_LIMIT]
  }

  function Pow2(n: nat): nat {
    if n == 0 then 1 else 2 * Pow2(n - 1)
  }

  function MarkFailed(rows: seq<Action>, id: int, retry: bool, now: int): seq<Action> {
    match Get(rows, id)
    case None => rows
    case Some(current) =>
      if retry && current.CanRetry() then
        Update(rows, id, Requeue(current.retryCount + 1, now + Pow2(current.retryCount)))
      else Update(rows, id, SetStatus(Failed))
  }

  // ---------------------------------------------------------------------------------------
  // The executor

  /** A dispatch: whether the handler ran, and whether it returned. An expired action is refused without running. */
  datatype Attempt = Attempt(id: int, ran: bool, ok: bool)

  datatype State = State(
    rows: seq<Action>,
    batch: seq<Action>,        // listed by the drain in progress and not yet executed
    consecutiveFailures: nat,
    processed: nat,
    succeeded: nat,
    failed: nat,
    log: seq<Attempt>)         // every dispatch to a handler, in order

  function Init(): State {
    State([], [], 0, 0, 0, 0, [])
  }

  datatype Step =
    | Enqueue(action: Action)
    | BeginDrain(now: int)
    | Execute(succeeds: bool, now: int)
    | StopDrain
    | Sweep(now: int)

  function ApplyEnqueue(c: Config, s: State, a: Action): State {
    if EnqueueOutcome(c, s.rows, a).Created? then s.(rows := s.rows + [a]) else s
  }

  function ApplyBeginDrain(s: State, now: int): State {
    if s.batch != [] then s
    else s.(rows := Swept(s.rows, now), batch := Runnable(Swept(s.rows, now)))
  }

  /** Execute the next listed action: its handler returns or raises, and refuses it once expired. */
  function ApplyExecute(c: Config, s: State, succeeds: bool, now: int): State {
    if s.batch == [] then s
    else
      var a := s.batch[0];
      var rows := Update(s.rows, a.id, SetStatus(Running));
      var t := s.(batch := s.batch[1..], processed := s.processed + 1);
      if succeeds && !a.IsExpired(now) then
        t.(rows := Update(rows, a.id, SetStatus(Succeeded)),
           consecutiveFailures := 0, succeeded := s.succeeded + 1, log := s.log + [Attempt(a.id, true, true)])
      else
        var retry := a.CanRetry() && s.consecutiveFailures < c.maxConsecutiveFailures;
        t.(rows := MarkFailed(rows, a.id, retry, now),
           consecutiveFailures := s.consecutiveFailures + 1, failed := s.failed + 1,
           log := s.log + [Attempt(a.id, !a.IsExpired(now), false)])
  }

  function Apply(c: Config, s: State, step: Step): State {
    match step
    case Enqueue(a) => ApplyEnqueue(c, s, a)
    case BeginDrain(now) => ApplyBeginDrain(s, now)
    case Execute(succeeds, now) => ApplyExecute(c, s, succeeds, now)
    case StopDrain => s.(batch := [])
    case Sweep(now) => s.(rows := Swept(s.rows, now))
  }

  function Run(c: Config, s: State, steps: seq<Step>): State {
    if steps == [] then s
    else Apply(c, Run(c, s, steps[..|steps| - 1]), steps[|steps| - 1])
  }

  lemma RunOne(c: Config, s: State, steps: seq<Step>, step: Step)
    ensures Run(c, s, steps + [step]) == Apply(c, Run(c, s, steps), step)
  {
    assert (steps + [step])[..|steps|] == steps;
  }

  /** What the handler does with one execution, and when. */
  datatype Verdict = Verdict(succeeds: bool, at: int)

  function Executions(verdicts: nat -> Verdict, n: nat): seq<Step> {
    if n == 0 then [] else Executions(verdicts, n - 1) + [Execute(verdicts(n - 1).succeeds, verdicts(n - 1).at)]
  }

  /** One whole drain: sweep and list at `now`, then execute the batch. */
  function Drain(c: Config, s: State, now: int, verdicts: nat -> Verdict): State {
    var t := ApplyBeginDrain(s, now);
    Run(c, t, Executions(verdicts, |t.batch|))
  }

  function TimeOf(step: Step): Option<int> {
    match step
    case BeginDrain(now) => Some(now)
    case Execute(_, now) => Some(now)
    case Sweep(now) => Some(now)
    case _ => None
  }
}
