/** How often an action is executed, and what the failure cap does and does not stop. */
module ActionOnce {
  import opened Common
  import opened ActionModel
  import opened ActionLaws
  import opened ActionExpiry
  import opened ActionTermination

  // ---------------------------------------------------------------------------------------
  // At most one success

  /** How many dispatches of the action returned. */
  function Returned(log: seq<Attempt>, id: int): nat {
    if log == [] then 0
    else Returned(log[..|log| - 1], id) + if log[|log| - 1].id == id && log[|log| - 1].ok then 1 else 0
  }

  lemma ReturnedAppend(log: seq<Attempt>, a: Attempt, id: int)
    ensures Returned(log + [a], id) == Returned(log, id) + if a.id == id && a.ok then 1 else 0
  {
    assert (log + [a])[..|log|] == log;
  }

  lemma {:induction false} ReturnedInRange(log: seq<Attempt>, p: nat)
    requires p < |log| && log[p].ok
    ensures Returned(log, log[p].id) >= 1
  {
    if p < |log| - 1 {
      ReturnedInRange(log[..|log| - 1], p);
    }
  }

  lemma {:induction false} ReturnedTwice(log: seq<Attempt>, p: nat, q: nat)
    requires p < q < |log| && log[p].ok && log[q].ok && log[p].id == log[q].id
    ensures Returned(log, log[p].id) >= 2
  {
    if q < |log| - 1 {
      ReturnedTwice(log[..|log| - 1], p, q);
    } else {
      ReturnedInRange(log[..|log| - 1], p);
    }
  }

  /** An action has one returned dispatch if it SUCCEEDED, and none otherwise. */
  ghost predicate SuccessKept(s: State) {
    && (forall i | 0 <= i < |s.rows| :: Returned(s.log, s.rows[i].id) == if s.rows[i].status.Succeeded? then 1 else 0)
    && (forall id | !HasId(s.rows, id) :: Returned(s.log, id) == 0)
  }

  lemma SuccessKeptSweep(s: State, now: int)
    requires SuccessKept(s)
    ensures SuccessKept(s.(rows := Swept(s.rows, now)))
  {
    KeptIds(s.rows, Swept(s.rows, now));
  }

  lemma SuccessKeptEnqueue(c: Config, s: State, a: Action)
    requires SuccessKept(s) && FreshSubmission(a)
    ensures SuccessKept(ApplyEnqueue(c, s, a))
  {
    if EnqueueOutcome(c, s.rows, a).Created? {
      var t := ApplyEnqueue(c, s, a);
      forall id | !HasId(t.rows, id)
        ensures Returned(s.log, id) == 0
      {
        forall i | 0 <= i < |s.rows|
          ensures s.rows[i].id != id
        {
          assert t.rows[i].id != id;
        }
      }
    }
  }

  lemma {:induction false} SuccessKeptExecute(c: Config, s: State, succeeds: bool, now: int)
    requires Kept(c, s) && SuccessKept(s)
    requires s.batch != []
    ensures SuccessKept(ApplyExecute(c, s, succeeds, now))
  {
    var i := ExecuteTouchesOne(c, s, succeeds, now);
    ExecuteLogs(c, s, succeeds, now);
    var t := ApplyExecute(c, s, succeeds, now);
    KeptIds(s.rows, t.rows);
    assert s.batch[0] in s.batch;
    forall id
      ensures Returned(t.log, id)
           == Returned(s.log, id) + if s.batch[0].id == id && succeeds && !s.batch[0].IsExpired(now) then 1 else 0
    {
      ReturnedAppend(s.log, AttemptOf(s, succeeds, now), id);
    }
    assert HasId(s.rows, s.rows[i].id);
  }

  lemma {:induction false} SuccessKeptRun(c: Config, steps: seq<Step>)
    requires Orderly(steps)
    ensures SuccessKept(Run(c, Init(), steps))
  {
    if steps != [] {
      var before, last := steps[..|steps| - 1], steps[|steps| - 1];
      var s := Run(c, Init(), before);
      SuccessKeptRun(c, before);
      KeptRun(c, before);
      match last
      case Enqueue(a) => SuccessKeptEnqueue(c, s, a);
      case BeginDrain(now) => SuccessKeptSweep(s, now);
      case Sweep(now) => SuccessKeptSweep(s, now);
      case StopDrain =>
      case Execute(succeeds, now) =>
        if s.batch != [] {
          SuccessKeptExecute(c, s, succeeds, now);
        }
    }
  }

  /**
   Two rows of one logical action: the same row, or two with the same idempotency key. In
   every run no two dispatches of a logical action return, however often it is submitted and
   whatever sweeps fall into the drains.
   */
  lemma LogicalActionSucceedsOnce(c: Config, steps: seq<Step>, s: State, p: nat, q: nat, i: nat, j: nat)
    requires Orderly(steps) && s == Run(c, Init(), steps)
    requires p < q < |s.log| && i < |s.rows| && j < |s.rows|
    requires s.log[p].id == s.rows[i].id && s.log[q].id == s.rows[j].id
    requires i == j || (s.rows[i].idempotencyKey.Some? && s.rows[i].idempotencyKey == s.rows[j].idempotencyKey)
    ensures !(s.log[p].ok && s.log[q].ok)
  {
    KeptRun(c, steps);
    SuccessKeptRun(c, steps);
    assert i == j;
    if s.log[p].ok && s.log[q].ok {
      ReturnedTwice(s.log, p, q);
    }
  }

  // ---------------------------------------------------------------------------------------
  // At most one execution

  /** How often the action's handler ran. */
  function Handled(log: seq<Attempt>, id: int): nat {
    if log == [] then 0
    else Handled(log[..|log| - 1], id) + if log[|log| - 1].id == id && log[|log| - 1].ran then 1 else 0
  }

  lemma HandledAppend(log: seq<Attempt>, a: Attempt, id: int)
    ensures Handled(log + [a], id) == Handled(log, id) + if a.id == id && a.ran then 1 else 0
  {
    assert (log + [a])[..|log|] == log;
  }

  lemma {:induction false} HandledIsDispatched(log: seq<Attempt>, id: int)
    ensures Handled(log, id) <= Dispatches(log, id)
  {
    if log != [] {
      HandledIsDispatched(log[..|log| - 1], id);
    }
  }

  /** New actions, none with more than m retries. */
  ghost predicate Retries(steps: seq<Step>, m: nat) {
    forall k | 0 <= k < |steps| && steps[k].Enqueue? ::
      FreshSubmission(steps[k].action) && steps[k].action.maxRetries <= m
  }

  ghost predicate RowsRetry(rows: seq<Action>, m: nat) {
    forall i | 0 <= i < |rows| :: rows[i].maxRetries <= m
  }

  lemma {:induction false} RowsRetryRun(c: Config, steps: seq<Step>, m: nat)
    requires Retries(steps, m)
    ensures RowsRetry(Run(c, Init(), steps).rows, m)
  {
    if steps != [] {
      var before, last := steps[..|steps| - 1], steps[|steps| - 1];
      RowsRetryRun(c, before, m);
      var s := Run(c, Init(), before);
      var t := Apply(c, s, last);
      forall i | 0 <= i < |t.rows|
        ensures t.rows[i].maxRetries <= m
      {
        if i < |s.rows| {
          RowIsFixed(c, s, last, i);
        }
      }
    }
  }

  lemma DispatchesAreFew(c: Config, steps: seq<Step>, m: nat, id: int)
    requires Retries(steps, m)
    ensures Dispatches(Run(c, Init(), steps).log, id) <= 1 + m
  {
    var s := Run(c, Init(), steps);
    RowsRetryRun(c, steps, m);
    KeptRun(c, steps);
    if HasId(s.rows, id) {
      var i :| 0 <= i < |s.rows| && s.rows[i].id == id;
      AttemptAccounting(c, steps, i);
    }
  }

  function Persistent(r: nat): Action {
    Action(1, 0, 5, Pending, None, 0, r, None)
  }

  function Rounds(k: nat): seq<Step> {
    if k == 0 then [] else Rounds(k - 1) + [BeginDrain(0), Execute(false, 0)]
  }

  /** One action with r retries whose handler raises in each of k drains. */
  function FailingRun(r: nat, k: nat): seq<Step> {
    [Enqueue(Persistent(r))] + Rounds(k)
  }

  /** The action alone, with k of its r retries used up by k failures. */
  ghost predicate Retrying(s: State, r: nat, k: nat) {
    && s.batch == [] && |s.rows| == 1
    && s.rows[0] == Persistent(r).(retryCount := k, nextAttemptAt := s.rows[0].nextAttemptAt)
    && s.consecutiveFailures == k
    && Dispatches(s.log, 1) == Handled(s.log, 1) == k
  }

  lemma RoundLists(c: Config, s: State, r: nat, k: nat)
    requires Retrying(s, r, k)
    ensures Apply(c, s, BeginDrain(0)) == s.(batch := s.rows)
  {
    assert s.rows == [s.rows[0]];
    OneDrainBegins(c, s, s.rows[0], 0);
  }

  lemma RoundCounts(c: Config, s: State, r: nat, k: nat)
    requires Retrying(s, r, k)
    ensures var t := Apply(c, s.(batch := s.rows), Execute(false, 0));
            Dispatches(t.log, 1) == Handled(t.log, 1) == k + 1 && t.consecutiveFailures == k + 1
  {
    var u := s.(batch := s.rows);
    ExecuteLogs(c, u, false, 0);
    LogAppend(c, s.log, AttemptOf(u, false, 0));
    HandledAppend(s.log, AttemptOf(u, false, 0), 1);
  }

  lemma RoundRetries(c: Config, s: State, r: nat, k: nat)
    requires Retrying(s, r, k) && k < r && k < c.maxConsecutiveFailures
    ensures Retrying(Apply(c, s.(batch := s.rows), Execute(false, 0)), r, k + 1)
  {
    assert s.rows == [s.rows[0]];
    OneFails(c, s.(batch := s.rows), s.rows[0], false, 0);
    RoundCounts(c, s, r, k);
  }

  lemma RoundStep(c: Config, s: State, r: nat, k: nat)
    requires Retrying(s, r, k)
    ensures var u := Apply(c, s, BeginDrain(0));
            var t := Apply(c, u, Execute(false, 0));
            && u == s.(batch := s.rows)
            && Dispatches(t.log, 1) == Handled(t.log, 1) == k + 1
            && (k < r && k < c.maxConsecutiveFailures ==> Retrying(t, r, k + 1))
  {
    RoundLists(c, s, r, k);
    RoundCounts(c, s, r, k);
    if k < r && k < c.maxConsecutiveFailures {
      RoundRetries(c, s, r, k);
    }
  }

  lemma RunRound(c: Config, r: nat, k: nat)
    requires k > 0
    ensures Run(c, Init(), FailingRun(r, k))
         == Apply(c, Apply(c, Run(c, Init(), FailingRun(r, k - 1)), BeginDrain(0)), Execute(false, 0))
  {
    var before := FailingRun(r, k - 1);
    assert FailingRun(r, k) == (before + [BeginDrain(0)]) + [Execute(false, 0)];
    RunOne(c, Init(), before, BeginDrain(0));
    RunOne(c, Init(), before + [BeginDrain(0)], Execute(false, 0));
  }

  ghost predicate RetryingAfter(c: Config, r: nat, k: nat) {
    Retrying(Run(c, Init(), FailingRun(r, k)), r, k)
  }

  lemma NoneFailedYet(c: Config, r: nat)
    requires ValidConfig(c)
    ensures RetryingAfter(c, r, 0)
  {
    assert FailingRun(r, 0) == [] + [Enqueue(Persistent(r))];
    RunOne(c, Init(), [], Enqueue(Persistent(r)));
    OneIsEnqueued(c, Persistent(r));
  }

  lemma OneMoreRound(c: Config, r: nat, k: nat)
    requires 0 < k <= r && k <= c.maxConsecutiveFailures
    requires RetryingAfter(c, r, k - 1)
    ensures RetryingAfter(c, r, k)
  {
    RunRound(c, r, k);
    RoundStep(c, Run(c, Init(), FailingRun(r, k - 1)), r, k - 1);
  }

  lemma {:induction false} RoundsRetry(c: Config, r: nat, k: nat)
    requires ValidConfig(c) && k <= r && k <= c.maxConsecutiveFailures
    ensures RetryingAfter(c, r, k)
  {
    if k == 0 {
      NoneFailedYet(c, r);
    } else {
      RoundsRetry(c, r, k - 1);
      OneMoreRound(c, r, k);
    }
  }

  lemma {:induction false} RoundsSubmit(r: nat, k: nat)
    ensures forall i | 0 <= i < |Rounds(k)| :: !Rounds(k)[i].Enqueue?
    ensures Retries(FailingRun(r, k), r)
  {
    if k > 0 {
      RoundsSubmit(r, k - 1);
    }
  }

  /** A run in which the handler of one action runs 1 + r times, for any retry allowance up to the failure cap. */
  lemma RetriesAreUsed(c: Config, r: nat)
    requires ValidConfig(c) && r <= c.maxConsecutiveFailures
    ensures Retries(FailingRun(r, r + 1), r)
    ensures Handled(Run(c, Init(), FailingRun(r, r + 1)).log, 1) == 1 + r
  {
    RoundsSubmit(r, r + 1);
    RoundsRetry(c, r, r);
    RunRound(c, r, r + 1);
    RoundStep(c, Run(c, Init(), FailingRun(r, r)), r, r);
  }

  /**
   The documented at-most-once: of all runs of new actions with at most m retries, in none is
   an action dispatched twice, or its handler run twice, exactly if m is 0.
   */
  lemma ExecutedOnceExactly(c: Config, m: nat)
    requires ValidConfig(c)
    ensures (forall steps: seq<Step>, id: int | Retries(steps, m) :: Dispatches(Run(c, Init(), steps).log, id) <= 1)
       <==> m == 0
    ensures (forall steps: seq<Step>, id: int | Retries(steps, m) :: Handled(Run(c, Init(), steps).log, id) <= 1)
       <==> m == 0
  {
    forall steps: seq<Step>, id: int | Retries(steps, m)
      ensures Dispatches(Run(c, Init(), steps).log, id) <= 1 + m
      ensures Handled(Run(c, Init(), steps).log, id) <= Dispatches(Run(c, Init(), steps).log, id)
    {
      DispatchesAreFew(c, steps, m, id);
      HandledIsDispatched(Run(c, Init(), steps).log, id);
    }
    if m > 0 {
      RetriesAreUsed(c, 1);
      var steps := FailingRun(1, 2);
      assert Retries(steps, m);
      HandledIsDispatched(Run(c, Init(), steps).log, 1);
    }
  }

  // ---------------------------------------------------------------------------------------
  // The failure cap

  /** The rest of a drain dispatches an action with the failure count at the cap. */
  ghost predicate PassesCap(c: Config, s: State, verdicts: nat -> Verdict) {
    exists k: nat | k < |s.batch| :: Run(c, s, Executions(verdicts, k)).consecutiveFailures >= c.maxConsecutiveFailures
  }

  function AllRaise(): nat -> Verdict {
    n => Verdict(false, 0)
  }

  lemma FailureCount(c: Config, s: State, succeeds: bool, now: int)
    requires s.batch != []
    ensures Apply(c, s, Execute(succeeds, now)).consecutiveFailures
         == if succeeds && !s.batch[0].IsExpired(now) then 0 else s.consecutiveFailures + 1
    ensures Apply(c, s, Execute(succeeds, now)).batch == s.batch[1..]
  {
  }

  lemma {:induction false} StreakIsBounded(c: Config, s: State, verdicts: nat -> Verdict, k: nat)
    requires k <= |s.batch|
    ensures var t := Run(c, s, Executions(verdicts, k));
            && t.batch == s.batch[k..]
            && t.consecutiveFailures <= s.consecutiveFailures + k
            && (verdicts == AllRaise() ==> t.consecutiveFailures == s.consecutiveFailures + k)
  {
    if k > 0 {
      StreakIsBounded(c, s, verdicts, k - 1);
      var t := Run(c, s, Executions(verdicts, k - 1));
      var v := verdicts(k - 1);
      RunOne(c, s, Executions(verdicts, k - 1), Execute(v.succeeds, v.at));
      FailureCount(c, t, v.succeeds, v.at);
    }
  }

  /**
   The documented stop at the cap: whatever the handlers do, the rest of a drain dispatches
   nothing with the failure count at the cap, exactly if nothing is left to run or the count
   and what is left do not exceed the cap together.
   */
  lemma StopsAtCapExactly(c: Config, s: State)
    ensures (forall verdicts: nat -> Verdict :: !PassesCap(c, s, verdicts))
       <==> s.batch == [] || s.consecutiveFailures + |s.batch| <= c.maxConsecutiveFailures
  {
    if s.batch != [] && s.consecutiveFailures + |s.batch| > c.maxConsecutiveFailures {
      var k := |s.batch| - 1;
      StreakIsBounded(c, s, AllRaise(), k);
      assert PassesCap(c, s, AllRaise());
    } else {
      forall verdicts: nat -> Verdict
        ensures !PassesCap(c, s, verdicts)
      {
        forall k: nat | k < |s.batch|
          ensures Run(c, s, Executions(verdicts, k)).consecutiveFailures < c.maxConsecutiveFailures
        {
          StreakIsBounded(c, s, verdicts, k);
        }
      }
    }
  }

  /** The cap stops nothing: a drain dispatches all it listed whatever the failure count and the verdicts. */
  lemma {:induction false} DrainIgnoresCap(c: Config, steps: seq<Step>, s: State, now: int, verdicts: nat -> Verdict)
    requires Orderly(steps) && s == Run(c, Init(), steps) && s.batch == []
    ensures |Drain(c, s, now, verdicts).log| == |s.log| + |Runnable(Swept(s.rows, now))|
    ensures Drain(c, s, now, verdicts).batch == []
  {
    KeptRun(c, steps);
    DrainUsesWork(c, s, now, verdicts);
  }

  /** For every configuration, a run whose next drain passes the cap. */
  lemma CapIsPassed(c: Config, s: State, verdicts: nat -> Verdict)
    requires ValidConfig(c)
    requires s == Run(c, Init(), FailingRun(c.maxConsecutiveFailures, c.maxConsecutiveFailures))
    ensures s.consecutiveFailures == c.maxConsecutiveFailures
    ensures |Apply(c, s, BeginDrain(0)).batch| == 1 && PassesCap(c, Apply(c, s, BeginDrain(0)), verdicts)
  {
    var r := c.maxConsecutiveFailures;
    RoundsRetry(c, r, r);
    RoundStep(c, s, r, r);
    var t := Apply(c, s, BeginDrain(0));
    assert Executions(verdicts, 0) == [];
    assert Run(c, t, Executions(verdicts, 0)) == t;
  }
}
