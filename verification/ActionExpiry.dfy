/** Terminal statuses, expiry and backoff of queued actions, each with its exact condition. */
module ActionExpiry {
  import opened Common
  import opened ActionModel
  import opened ActionLaws
  import StableSort

  // ---------------------------------------------------------------------------------------
  // Terminal statuses

  /** The step leaves every finished row as it is. */
  ghost predicate KeepsTerminal(c: Config, s: State, step: Step) {
    var t := Apply(c, s, step);
    |s.rows| <= |t.rows| && forall i | 0 <= i < |s.rows| && s.rows[i].IsTerminal() :: t.rows[i] == s.rows[i]
  }

  /** A step changes a finished row exactly if it executes a row that was swept after being listed. */
  lemma TerminalStepExactly(c: Config, s: State, step: Step)
    requires Kept(c, s)
    ensures KeepsTerminal(c, s, step) <==> (step.Execute? && s.batch != [] ==> s.batch[0] in s.rows)
  {
    if step.Execute? && s.batch != [] {
      assert s.batch[0] in s.batch;
      var i := ExecuteTouchesOne(c, s, step.succeeds, step.now);
      if s.batch[0] in s.rows {
        var k :| 0 <= k < |s.rows| && s.rows[k] == s.batch[0];
        assert k == i;
      } else {
        assert s.rows[i].IsTerminal() && Apply(c, s, step).rows[i] != s.rows[i];
      }
    }
  }

  /** Every listed row is still as it was listed. */
  ghost predicate Verbatim(s: State) {
    forall a | a in s.batch :: a in s.rows
  }

  /** A sweep by someone else hits none of the rows the executor is about to run. */
  ghost predicate Spares(s: State, now: int) {
    forall a | a in s.batch :: !a.IsStale(now)
  }

  ghost predicate Ran(s: State, n: nat, id: int)
    requires n <= |s.batch|
  {
    exists k | 0 <= k < n :: s.batch[k].id == id
  }

  /** One execution ends its own row's expiry, if any, and touches no other row. */
  lemma {:induction false} ExecutionTouches(c: Config, s: State, v: Verdict, i: nat)
    requires Kept(c, s)
    requires s.batch != [] && i < |s.rows|
    ensures var t := Apply(c, s, Execute(v.succeeds, v.at));
            && Kept(c, t) && t.batch == s.batch[1..]
            && |t.rows| == |s.rows| && t.rows[i].id == s.rows[i].id
            && if s.batch[0].id == s.rows[i].id then !t.rows[i].status.Expired? else t.rows[i] == s.rows[i]
  {
    KeptExecute(c, s, v.succeeds, v.at);
    ExecuteLogs(c, s, v.succeeds, v.at);
    var j := ExecuteTouchesOne(c, s, v.succeeds, v.at);
    assert j == i <==> s.rows[i].id == s.batch[0].id;
  }

  /** After the first n executions of a batch: the rows they ran are not EXPIRED, the others are untouched. */
  lemma {:induction false} ExecutionsTouch(c: Config, s: State, verdicts: nat -> Verdict, n: nat, i: nat)
    requires Kept(c, s)
    requires n <= |s.batch| && i < |s.rows|
    ensures var t := Run(c, s, Executions(verdicts, n));
            && Kept(c, t) && t.batch == s.batch[n..]
            && |t.rows| == |s.rows| && t.rows[i].id == s.rows[i].id
            && if Ran(s, n, s.rows[i].id) then !t.rows[i].status.Expired? else t.rows[i] == s.rows[i]
  {
    if n > 0 {
      ExecutionsTouch(c, s, verdicts, n - 1, i);
      var u := Run(c, s, Executions(verdicts, n - 1));
      var v := verdicts(n - 1);
      RunOne(c, s, Executions(verdicts, n - 1), Execute(v.succeeds, v.at));
      assert u.batch[0] == s.batch[n - 1];
      ExecutionTouches(c, u, v, i);
      RanNext(s, n, s.rows[i].id);
    }
  }

  lemma RanNext(s: State, n: nat, id: int)
    requires 0 < n <= |s.batch|
    ensures Ran(s, n, id) <==> Ran(s, n - 1, id) || s.batch[n - 1].id == id
  {
  }

  /** The row of a listed action. */
  lemma RowOf(c: Config, s: State, k: nat) returns (i: nat)
    requires Kept(c, s) && k < |s.batch|
    ensures i < |s.rows| && (s.rows[i] == s.batch[k] || s.rows[i] == s.batch[k].(status := Expired))
  {
    var a := s.batch[k];
    assert a in s.batch;
    i :| 0 <= i < |s.rows| && (s.rows[i] == a || s.rows[i] == a.(status := Expired));
  }

  /** The rest of the drain leaves every row that is finished now as it is. */
  ghost predicate RestKeepsTerminal(c: Config, s: State, verdicts: nat -> Verdict) {
    var t := Run(c, s, Executions(verdicts, |s.batch|));
    |t.rows| == |s.rows| && forall i | 0 <= i < |s.rows| && s.rows[i].IsTerminal() :: t.rows[i] == s.rows[i]
  }

  /** A finished row is not listed while the listed rows are as they were listed. */
  lemma FinishedIsNotListed(c: Config, s: State, i: nat)
    requires Kept(c, s) && Verbatim(s)
    requires i < |s.rows| && s.rows[i].IsTerminal()
    ensures !Ran(s, |s.batch|, s.rows[i].id)
  {
    forall k | 0 <= k < |s.batch|
      ensures s.batch[k].id != s.rows[i].id
    {
      assert s.batch[k] in s.batch && s.batch[k] in s.rows;
      var m :| 0 <= m < |s.rows| && s.rows[m] == s.batch[k];
      assert m != i;
    }
  }

  lemma RestIsSafe(c: Config, s: State, verdicts: nat -> Verdict)
    requires Kept(c, s) && Verbatim(s)
    ensures RestKeepsTerminal(c, s, verdicts)
  {
    var n := |s.batch|;
    ExecutionsLength(c, s, verdicts);
    forall i | 0 <= i < |s.rows| && s.rows[i].IsTerminal()
      ensures Run(c, s, Executions(verdicts, n)).rows[i] == s.rows[i]
    {
      ExecutionsTouch(c, s, verdicts, n, i);
      FinishedIsNotListed(c, s, i);
    }
  }

  lemma ExecutionsLength(c: Config, s: State, verdicts: nat -> Verdict)
    requires Kept(c, s)
    ensures |Run(c, s, Executions(verdicts, |s.batch|)).rows| == |s.rows|
  {
    if s.rows != [] {
      ExecutionsTouch(c, s, verdicts, |s.batch|, 0);
    } else if s.batch != [] {
      var i := RowOf(c, s, 0);
    }
  }

  lemma SparedStayVerbatim(c: Config, s: State, now: int)
    requires Kept(c, s) && Verbatim(s) && Spares(s, now)
    ensures Verbatim(Apply(c, s, Sweep(now)))
  {
    var t := Apply(c, s, Sweep(now));
    forall a | a in t.batch
      ensures a in t.rows
    {
      SweptHolds(s.rows, now, a);
    }
  }

  lemma HitIsRevived(c: Config, s: State, now: int, verdicts: nat -> Verdict, k: nat)
    requires Kept(c, s) && Verbatim(s)
    requires k < |s.batch| && s.batch[k].IsStale(now)
    ensures !RestKeepsTerminal(c, Apply(c, s, Sweep(now)), verdicts)
  {
    var t := Apply(c, s, Sweep(now));
    var a := s.batch[k];
    KeptSweep(c, s, now);
    assert t.batch[k] == a && a in s.batch;
    var i := RowOf(c, t, k);
    SweptHolds(s.rows, now, a);
    ExecutionsTouch(c, t, verdicts, |t.batch|, i);
    assert Ran(t, |t.batch|, t.rows[i].id);
    assert t.rows[i].IsTerminal();
  }

  /**
   A sweep in the middle of a drain is safe, in that the rest of the drain revives no finished
   row, exactly if it hits none of the rows still to run; whatever the handlers then do.
   */
  lemma SweepIsSafeExactly(c: Config, s: State, now: int, verdicts: nat -> Verdict)
    requires Kept(c, s) && Verbatim(s)
    ensures RestKeepsTerminal(c, Apply(c, s, Sweep(now)), verdicts) <==> Spares(s, now)
  {
    if Spares(s, now) {
      SparedStayVerbatim(c, s, now);
      KeptSweep(c, s, now);
      RestIsSafe(c, Apply(c, s, Sweep(now)), verdicts);
    } else {
      var a :| a in s.batch && a.IsStale(now);
      var k :| 0 <= k < |s.batch| && s.batch[k] == a;
      HitIsRevived(c, s, now, verdicts, k);
    }
  }

  /** Every sweep of the run spares the batch in progress. */
  ghost predicate SweepsSpare(c: Config, steps: seq<Step>) {
    forall k | 0 <= k < |steps| && steps[k].Sweep? :: Spares(Run(c, Init(), steps[..k]), steps[k].now)
  }

  lemma VerbatimExecute(c: Config, s: State, succeeds: bool, now: int)
    requires Kept(c, s) && Verbatim(s)
    requires s.batch != []
    ensures Verbatim(Apply(c, s, Execute(succeeds, now)))
  {
    var t := Apply(c, s, Execute(succeeds, now));
    var i := ExecuteTouchesOne(c, s, succeeds, now);
    ExecuteLogs(c, s, succeeds, now);
    assert t.batch == s.batch[1..];
    forall b | b in t.batch
      ensures b in t.rows
    {
      var n :| 0 <= n < |t.batch| && t.batch[n] == b;
      assert s.batch[n + 1] == b && b in s.batch && b.id != s.batch[0].id;
      assert b in s.rows;
      var k :| 0 <= k < |s.rows| && s.rows[k] == b;
      assert t.rows[k] == b;
    }
  }

  lemma VerbatimStep(c: Config, s: State, step: Step)
    requires Kept(c, s) && Verbatim(s)
    requires step.Sweep? ==> Spares(s, step.now)
    ensures Verbatim(Apply(c, s, step))
  {
    match step
    case Enqueue(_) =>
    case StopDrain =>
    case Sweep(now) => SparedStayVerbatim(c, s, now);
    case BeginDrain(now) =>
      if s.batch == [] {
        TableKeptSweep(c, s, now);
        RunnableIsOldest(Swept(s.rows, now));
      }
    case Execute(succeeds, now) =>
      if s.batch != [] {
        VerbatimExecute(c, s, succeeds, now);
      }
  }

  lemma {:induction false} VerbatimRun(c: Config, steps: seq<Step>)
    requires Orderly(steps) && SweepsSpare(c, steps)
    ensures Verbatim(Run(c, Init(), steps))
  {
    if steps != [] {
      var before := steps[..|steps| - 1];
      forall k | 0 <= k < |before| && before[k].Sweep?
        ensures Spares(Run(c, Init(), before[..k]), before[k].now)
      {
        assert before[..k] == steps[..k];
      }
      VerbatimRun(c, before);
      KeptRun(c, before);
      VerbatimStep(c, Run(c, Init(), before), steps[|steps| - 1]);
    }
  }

  /** In a run whose sweeps spare the batch, a row that reached a terminal status never changes again. */
  lemma {:induction false} TerminalForGood(c: Config, steps: seq<Step>, n: nat, i: nat)
    requires n <= |steps|
    requires Orderly(steps) && SweepsSpare(c, steps)
    requires i < |Run(c, Init(), steps[..n]).rows|
    requires Run(c, Init(), steps[..n]).rows[i].IsTerminal()
    ensures i < |Run(c, Init(), steps).rows|
    ensures Run(c, Init(), steps).rows[i] == Run(c, Init(), steps[..n]).rows[i]
  {
    if n == |steps| {
      assert steps[..n] == steps;
    } else {
      var before := steps[..|steps| - 1];
      assert before[..n] == steps[..n];
      forall k | 0 <= k < |before| && before[k].Sweep?
        ensures Spares(Run(c, Init(), before[..k]), before[k].now)
      {
        assert before[..k] == steps[..k];
      }
      TerminalForGood(c, before, n, i);
      var s := Run(c, Init(), before);
      KeptRun(c, before);
      VerbatimRun(c, before);
      TerminalStepExactly(c, s, steps[|steps| - 1]);
      assert s.batch != [] ==> s.batch[0] in s.batch;
    }
  }

  /** One action is listed and then swept before it runs. */
  function SweptInBatch(c: Config, a: Action): State {
    Apply(c, Apply(c, Apply(c, Init(), Enqueue(a)), BeginDrain(0)), Sweep(10))
  }

  lemma OneIsEnqueued(c: Config, a: Action)
    requires ValidConfig(c)
    ensures Apply(c, Init(), Enqueue(a)) == Init().(rows := [a])
  {
    assert [] + [a] == [a];
  }

  lemma OneDrainBegins(c: Config, s: State, a: Action, now: int)
    requires a.status.Pending? && !a.IsStale(now)
    requires s.rows == [a] && s.batch == []
    ensures Apply(c, s, BeginDrain(now)) == s.(batch := [a])
  {
    assert Swept([a], now) == [a];
    OneIsListed(a);
  }

  lemma {:induction false} SweptInBatchIs(c: Config, a: Action)
    requires c == Config(10, 10) && a == Action(1, 0, 5, Pending, None, 0, 1, None)
    ensures SweptInBatch(c, a) == Init().(rows := [a.(status := Expired)], batch := [a])
  {
    OneIsEnqueued(c, a);
    OneDrainBegins(c, Init().(rows := [a]), a, 0);
    assert Swept([a], 10) == [a.(status := Expired)];
  }

  /** Failing once the action at the head of the batch, alone in its table, requeues it. */
  lemma OneFails(c: Config, s: State, a: Action, succeeds: bool, now: int)
    requires s.batch == [a] && a.CanRetry() && s.consecutiveFailures < c.maxConsecutiveFailures
    requires |s.rows| == 1 && s.rows[0].(status := a.status) == a
    requires succeeds ==> a.IsExpired(now)
    ensures var t := Apply(c, s, Execute(succeeds, now));
            && t.rows == [a.(status := Pending, retryCount := a.retryCount + 1,
                             nextAttemptAt := Some(now + Pow2(a.retryCount)))]
            && t.log == s.log + [Attempt(a.id, !a.IsExpired(now), false)] && t.batch == []
  {
    var running := a.(status := Running);
    assert Update(s.rows, a.id, SetStatus(Running)) == [running];
    OneRequeued(running, now);
  }

  lemma OneRequeued(a: Action, now: int)
    requires a.CanRetry()
    ensures MarkFailed([a], a.id, true, now)
         == [a.(status := Pending, retryCount := a.retryCount + 1, nextAttemptAt := Some(now + Pow2(a.retryCount)))]
  {
    assert Get([a], a.id) == Some(a);
  }

  lemma LateExecution(c: Config, s: State, a: Action)
    requires c == Config(10, 10) && a == Action(1, 0, 5, Pending, None, 0, 1, None)
    requires s == Init().(rows := [a.(status := Expired)], batch := [a])
    ensures Apply(c, s, Execute(true, 10)).rows == [a.(retryCount := 1, nextAttemptAt := Some(11))]
    ensures Apply(c, s, Execute(true, 10)).log == [Attempt(1, false, false)]
  {
    OneFails(c, s, a, true, 10);
    assert Pow2(0) == 1;
  }

  /** A run in which an action swept between listing and execution leaves EXPIRED; its handler does not run. */
  lemma {:induction false} SweptActionRevives(c: Config, a: Action, s: State)
    requires c == Config(10, 10) && a == Action(1, 0, 5, Pending, None, 0, 1, None)
    requires s == SweptInBatch(c, a)
    ensures s.rows == [a.(status := Expired)]
    ensures Apply(c, s, Execute(true, 10)).rows == [a.(retryCount := 1, nextAttemptAt := Some(11))]
    ensures Apply(c, s, Execute(true, 10)).log == [Attempt(1, false, false)]
  {
    assert s == Init().(rows := [a.(status := Expired)], batch := [a]) by {
      SweptInBatchIs(c, a);
    }
    LateExecution(c, s, a);
  }

  lemma OneIsListed(a: Action)
    requires a.status.Pending?
    ensures Runnable([a]) == [a]
  {
    assert [a][1..] == [];
    assert PendingRows([a]) == [a];
    assert StableSort.Sort(CreatedKey, [a]) == [a];
  }

  // ---------------------------------------------------------------------------------------
  // Expired actions never run

  /** The steps read a clock that does not go back. */
  ghost predicate TimesGrow(steps: seq<Step>) {
    forall j, k | 0 <= j < k < |steps| && TimeOf(steps[j]).Some? && TimeOf(steps[k]).Some? ::
      TimeOf(steps[j]).value <= TimeOf(steps[k]).value
  }

  /** What no step changes in a row. */
  lemma RowIsFixed(c: Config, s: State, step: Step, i: nat)
    requires i < |s.rows|
    ensures var t := Apply(c, s, step);
            && i < |t.rows| && t.rows[i].id == s.rows[i].id && t.rows[i].expiresAt == s.rows[i].expiresAt
            && t.rows[i].maxRetries == s.rows[i].maxRetries
  {
  }

  lemma BecomesExpired(c: Config, s: State, step: Step, i: nat)
    requires Kept(c, s)
    requires i < |Apply(c, s, step).rows| && Apply(c, s, step).rows[i].status.Expired?
    requires step.Enqueue? ==> FreshSubmission(step.action)
    ensures i < |s.rows|
    ensures s.rows[i].status.Expired? || (TimeOf(step).Some? && s.rows[i].expiresAt < TimeOf(step).value)
  {
    if step.Execute? && s.batch != [] {
      var k := ExecuteTouchesOne(c, s, step.succeeds, step.now);
    }
  }

  /** An EXPIRED row's lifetime was over at some clock reading of the run. */
  lemma {:induction false} ExpiredWasLate(c: Config, steps: seq<Step>, i: nat) returns (k: nat)
    requires Orderly(steps)
    requires i < |Run(c, Init(), steps).rows| && Run(c, Init(), steps).rows[i].status.Expired?
    ensures k < |steps| && TimeOf(steps[k]).Some?
    ensures Run(c, Init(), steps).rows[i].expiresAt < TimeOf(steps[k]).value
  {
    var before, last := steps[..|steps| - 1], steps[|steps| - 1];
    var s := Run(c, Init(), before);
    KeptRun(c, before);
    BecomesExpired(c, s, last, i);
    RowIsFixed(c, s, last, i);
    if s.rows[i].status.Expired? {
      k := ExpiredWasLate(c, before, i);
    } else {
      k := |steps| - 1;
    }
  }

  /** The entry a step adds to the log runs no handler of a row whose lifetime is over. */
  lemma LateIsRefused(c: Config, s: State, step: Step, i: nat)
    requires Kept(c, s) && i < |s.rows|
    requires step.Execute? ==> s.rows[i].expiresAt < step.now
    ensures var t := Apply(c, s, step);
            && s.log <= t.log
            && forall k | |s.log| <= k < |t.log| && t.log[k].id == s.rows[i].id :: !t.log[k].ran && !t.log[k].ok
  {
    if step.Execute? && s.batch != [] {
      ExecuteLogs(c, s, step.succeeds, step.now);
      var j := ExecuteTouchesOne(c, s, step.succeeds, step.now);
      assert s.batch[0].id == s.rows[i].id ==> j == i;
    }
  }

  /**
   With a clock that does not go back, the handler of an action that has ever been EXPIRED is
   never run again, even where a sweep hit a batch in progress.
   */
  lemma {:induction false} ExpiredNeverRuns(c: Config, steps: seq<Step>, n: nat, i: nat, k: nat)
    requires Orderly(steps) && TimesGrow(steps)
    requires n <= |steps|
    requires i < |Run(c, Init(), steps[..n]).rows| && Run(c, Init(), steps[..n]).rows[i].status.Expired?
    ensures Run(c, Init(), steps[..n]).log <= Run(c, Init(), steps).log
    ensures i < |Run(c, Init(), steps).rows|
    ensures Run(c, Init(), steps).rows[i].id == Run(c, Init(), steps[..n]).rows[i].id
    ensures Run(c, Init(), steps).rows[i].expiresAt == Run(c, Init(), steps[..n]).rows[i].expiresAt
    ensures |Run(c, Init(), steps[..n]).log| <= k < |Run(c, Init(), steps).log|
            && Run(c, Init(), steps).log[k].id == Run(c, Init(), steps[..n]).rows[i].id
            ==> !Run(c, Init(), steps).log[k].ran && !Run(c, Init(), steps).log[k].ok
  {
    if n == |steps| {
      assert steps[..n] == steps;
    } else {
      var before, last := steps[..|steps| - 1], steps[|steps| - 1];
      assert before[..n] == steps[..n];
      ExpiredNeverRuns(c, before, n, i, k);
      var s := Run(c, Init(), before);
      KeptRun(c, before);
      RowIsFixed(c, s, last, i);
      var m := ExpiredWasLate(c, steps[..n], i);
      assert steps[..n][m] == steps[m];
      LateIsRefused(c, s, last, i);
    }
  }

  // ---------------------------------------------------------------------------------------
  // Backoff

  predicate IsDue(a: Action, now: int) {
    a.nextAttemptAt.None? || a.nextAttemptAt.value <= now
  }

  /** If step k begins a drain, everything it lists is due. */
  ghost predicate ListsOnlyDue(c: Config, steps: seq<Step>, k: nat)
    requires k < |steps|
  {
    var s := Run(c, Init(), steps[..k]);
    steps[k].BeginDrain? && s.batch == [] ==>
      forall a | a in Runnable(Swept(s.rows, steps[k].now)) :: IsDue(a, steps[k].now)
  }

  /** New actions, none with more than m retries or a next attempt already set. */
  ghost predicate Submits(steps: seq<Step>, m: nat) {
    forall k | 0 <= k < |steps| && steps[k].Enqueue? ::
      FreshSubmission(steps[k].action) && steps[k].action.maxRetries <= m && steps[k].action.nextAttemptAt.None?
  }

  ghost predicate NoBackoff(rows: seq<Action>) {
    forall i | 0 <= i < |rows| :: rows[i].maxRetries == 0 && rows[i].nextAttemptAt.None?
  }

  lemma {:induction false} GetMember(rows: seq<Action>, id: int)
    requires Get(rows, id).Some?
    ensures Get(rows, id).value in rows
  {
    if rows[0].id != id {
      GetMember(rows[1..], id);
    }
  }

  lemma NoBackoffStep(c: Config, s: State, step: Step)
    requires NoBackoff(s.rows)
    requires step.Enqueue? ==> step.action.maxRetries == 0 && step.action.nextAttemptAt.None?
    ensures NoBackoff(Apply(c, s, step).rows)
  {
    if step.Execute? && s.batch != [] {
      var running := Update(s.rows, s.batch[0].id, SetStatus(Running));
      assert NoBackoff(running);
      if Get(running, s.batch[0].id).Some? {
        GetMember(running, s.batch[0].id);
      }
    }
  }

  lemma {:induction false} NoBackoffRun(c: Config, steps: seq<Step>)
    requires Submits(steps, 0)
    ensures NoBackoff(Run(c, Init(), steps).rows)
  {
    if steps != [] {
      NoBackoffRun(c, steps[..|steps| - 1]);
      NoBackoffStep(c, Run(c, Init(), steps[..|steps| - 1]), steps[|steps| - 1]);
    }
  }

  function EarlyRetry(): seq<Step> {
    [Enqueue(Action(1, 0, 5, Pending, None, 0, 1, None)), BeginDrain(0), Execute(false, 0), BeginDrain(0)]
  }

  lemma RunNext(c: Config, steps: seq<Step>, k: nat)
    requires k < |steps|
    ensures Run(c, Init(), steps[..k + 1]) == Apply(c, Run(c, Init(), steps[..k]), steps[k])
  {
    assert steps[..k + 1] == steps[..k] + [steps[k]];
    RunOne(c, Init(), steps[..k], steps[k]);
  }

  lemma RetryIsWaiting(c: Config, a: Action, s: State)
    requires ValidConfig(c) && a == Action(1, 0, 5, Pending, None, 0, 1, None)
    requires s == Run(c, Init(), EarlyRetry()[..3])
    ensures s.rows == [a.(retryCount := 1, nextAttemptAt := Some(1))] && s.batch == []
  {
    var steps := EarlyRetry();
    RunNext(c, steps, 0);
    RunNext(c, steps, 1);
    RunNext(c, steps, 2);
    OneIsEnqueued(c, a);
    OneDrainBegins(c, Init().(rows := [a]), a, 0);
    OneFails(c, Init().(rows := [a], batch := [a]), a, false, 0);
    assert Pow2(0) == 1;
  }

  lemma WaitingIsListed(c: Config, b: Action, s: State)
    requires b == Action(1, 0, 5, Pending, None, 1, 1, Some(1))
    requires s.rows == [b] && s.batch == []
    ensures Apply(c, s, BeginDrain(0)).batch == [b]
    ensures b in Runnable(Swept(s.rows, 0)) && !IsDue(b, 0)
  {
    OneDrainBegins(c, s, b, 0);
    assert Swept([b], 0) == [b];
    OneIsListed(b);
    assert b in [b];
  }

  /** A run, its clock standing still, whose second drain lists a retry that is due only a second later. */
  lemma RetryIsListedEarly(c: Config)
    requires ValidConfig(c)
    ensures Submits(EarlyRetry(), 1) && TimesGrow(EarlyRetry())
    ensures Run(c, Init(), EarlyRetry()).batch == [Action(1, 0, 5, Pending, None, 1, 1, Some(1))]
    ensures !ListsOnlyDue(c, EarlyRetry(), 3)
  {
    var steps := EarlyRetry();
    var s := Run(c, Init(), steps[..3]);
    RetryIsWaiting(c, Action(1, 0, 5, Pending, None, 0, 1, None), s);
    WaitingIsListed(c, Action(1, 0, 5, Pending, None, 1, 1, Some(1)), s);
    RunNext(c, steps, 3);
    assert steps[..4] == steps;
  }

  /**
   The documented backoff holds of every run whose actions have at most m retries, with a
   clock that does not go back, exactly if m is 0: then there is nothing to back off from.
   */
  lemma BackoffHoldsExactly(c: Config, m: nat)
    requires ValidConfig(c)
    ensures (forall steps: seq<Step>, k: nat | Submits(steps, m) && TimesGrow(steps) && k < |steps| ::
               ListsOnlyDue(c, steps, k))
       <==> m == 0
  {
    if m == 0 {
      forall steps: seq<Step>, k: nat | Submits(steps, m) && TimesGrow(steps) && k < |steps|
        ensures ListsOnlyDue(c, steps, k)
      {
        NothingEverWaits(c, steps, k);
      }
    } else {
      RetryIsListedEarly(c);
      assert Submits(EarlyRetry(), m);
      assert !ListsOnlyDue(c, EarlyRetry(), 3);
    }
  }

  lemma NothingEverWaits(c: Config, steps: seq<Step>, k: nat)
    requires Submits(steps, 0) && k < |steps|
    ensures ListsOnlyDue(c, steps, k)
  {
    var s := Run(c, Init(), steps[..k]);
    NoBackoffRun(c, steps[..k]);
    assert Orderly(steps[..k]);
    KeptRun(c, steps[..k]);
    if steps[k].BeginDrain? && s.batch == [] {
      var swept := Swept(s.rows, steps[k].now);
      TableKeptSweep(c, s, steps[k].now);
      RunnableIsOldest(swept);
      assert NoBackoff(swept);
    }
  }
}
