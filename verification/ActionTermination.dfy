/** Draining the action queue ends: no action waits for ever. */
module ActionTermination {
  import opened Common
  import opened ActionModel
  import opened ActionLaws

  ghost predicate Listed(batch: seq<Action>, id: int) {
    exists k | 0 <= k < |batch| :: batch[k].id == id
  }

  /** Executions an action can still take: it waits, or it is listed and will be run, swept or not. */
  ghost function Weight(batch: seq<Action>, a: Action): int {
    if a.status.Pending? || Listed(batch, a.id) then a.maxRetries - a.retryCount + 1 else 0
  }

  ghost function Work(rows: seq<Action>, batch: seq<Action>): int {
    if rows == [] then 0 else Work(rows[..|rows| - 1], batch) + Weight(batch, rows[|rows| - 1])
  }

  /** The work of a state: the sum over the rows that wait or are listed of max_retries - retry_count + 1. */
  ghost function WorkLeft(s: State): int {
    Work(s.rows, s.batch)
  }

  ghost predicate NoHeavier(rows: seq<Action>, batch: seq<Action>, t: seq<Action>, left: seq<Action>) {
    |t| == |rows| && forall i | 0 <= i < |rows| :: Weight(left, t[i]) <= Weight(batch, rows[i])
  }

  lemma {:induction false} WorkCompares(rows: seq<Action>, batch: seq<Action>, t: seq<Action>, left: seq<Action>, i: nat)
    requires NoHeavier(rows, batch, t, left)
    ensures Work(t, left) <= Work(rows, batch)
    ensures i < |rows| && Weight(left, t[i]) < Weight(batch, rows[i]) ==> Work(t, left) < Work(rows, batch)
  {
    if rows != [] {
      var n := |rows| - 1;
      WorkCompares(rows[..n], batch, t[..n], left, if i < n then i else n);
    }
  }

  lemma {:induction false} WorkIsNatural(rows: seq<Action>, batch: seq<Action>)
    requires forall i | 0 <= i < |rows| :: rows[i].retryCount <= rows[i].maxRetries
    ensures Work(rows, batch) >= 0
    ensures (exists i | 0 <= i < |rows| :: rows[i].status.Pending?) ==> Work(rows, batch) > 0
  {
    if rows != [] {
      var n := |rows| - 1;
      WorkIsNatural(rows[..n], batch);
      if i :| 0 <= i < |rows| && rows[i].status.Pending? {
        assert i < n ==> rows[..n][i].status.Pending?;
      }
    }
  }

  lemma RetriesInBudget(c: Config, s: State)
    requires Kept(c, s)
    ensures forall i | 0 <= i < |s.rows| :: s.rows[i].retryCount <= s.rows[i].maxRetries
  {
    forall i | 0 <= i < |s.rows|
      ensures s.rows[i].retryCount <= s.rows[i].maxRetries
    {
      assert RowKept(c, s.log, s.rows[i]);
    }
  }

  lemma ExecutionIsLighter(c: Config, s: State, succeeds: bool, now: int) returns (i: nat)
    requires Kept(c, s)
    requires s.batch != []
    ensures var t := ApplyExecute(c, s, succeeds, now);
            && NoHeavier(s.rows, s.batch, t.rows, t.batch)
            && i < |s.rows| && Weight(t.batch, t.rows[i]) < Weight(s.batch, s.rows[i])
  {
    var t := ApplyExecute(c, s, succeeds, now);
    i := ExecuteTouchesOne(c, s, succeeds, now);
    ExecuteLogs(c, s, succeeds, now);
    RetriesInBudget(c, s);
    var head := s.batch[0];
    assert head in s.batch;
    assert Listed(s.batch, head.id);
    forall id | Listed(t.batch, id)
      ensures Listed(s.batch, id) && id != head.id
    {
      var k :| 0 <= k < |t.batch| && t.batch[k].id == id;
      assert s.batch[k + 1].id == id;
    }
  }

  /** Every execution uses up work, whatever the handler does and whether or not its row was swept. */
  lemma ExecutionUsesWork(c: Config, s: State, succeeds: bool, now: int)
    requires Kept(c, s)
    requires s.batch != []
    ensures WorkLeft(ApplyExecute(c, s, succeeds, now)) <= WorkLeft(s) - 1
  {
    var t := ApplyExecute(c, s, succeeds, now);
    var i := ExecutionIsLighter(c, s, succeeds, now);
    WorkCompares(s.rows, s.batch, t.rows, t.batch, i);
  }

  lemma BeginIsNoHeavier(c: Config, s: State, now: int)
    requires Kept(c, s)
    ensures WorkLeft(ApplyBeginDrain(s, now)) <= WorkLeft(s)
  {
    if s.batch == [] {
      var t := ApplyBeginDrain(s, now);
      RetriesInBudget(c, s);
      TableKeptSweep(c, s, now);
      RunnableIsOldest(t.rows);
      forall i | 0 <= i < |t.rows|
        ensures Weight(t.batch, t.rows[i]) <= Weight(s.batch, s.rows[i])
      {
        if Listed(t.batch, t.rows[i].id) {
          var k :| 0 <= k < |t.batch| && t.batch[k].id == t.rows[i].id;
          assert t.batch[k] in t.batch;
          var j :| 0 <= j < |t.rows| && t.rows[j] == t.batch[k];
          assert j == i;
        }
      }
      WorkCompares(s.rows, s.batch, t.rows, t.batch, 0);
    }
  }

  lemma OtherStepsAreNoHeavier(c: Config, s: State, now: int)
    requires Kept(c, s)
    ensures WorkLeft(s.(batch := [])) <= WorkLeft(s)
    ensures WorkLeft(s.(rows := Swept(s.rows, now))) <= WorkLeft(s)
  {
    RetriesInBudget(c, s);
    WorkCompares(s.rows, s.batch, s.rows, [], 0);
    WorkCompares(s.rows, s.batch, Swept(s.rows, now), s.batch, 0);
  }

  /**
   Without new enqueues, the dispatches still to come number at most the work left, in any
   run of drains, stops and sweeps, even where sweeps hit a batch in progress.
   */
  lemma {:induction false} DispatchesAreBounded(c: Config, s: State, steps: seq<Step>)
    requires Kept(c, s)
    requires forall k | 0 <= k < |steps| :: !steps[k].Enqueue?
    ensures var t := Run(c, s, steps);
            Kept(c, t) && |t.log| + WorkLeft(t) <= |s.log| + WorkLeft(s)
  {
    if steps != [] {
      var last := steps[|steps| - 1];
      DispatchesAreBounded(c, s, steps[..|steps| - 1]);
      var u := Run(c, s, steps[..|steps| - 1]);
      KeptStep(c, u, last);
      WorkStep(c, u, last);
    }
  }

  lemma WorkStep(c: Config, s: State, step: Step)
    requires Kept(c, s)
    requires !step.Enqueue?
    ensures var t := Apply(c, s, step);
            |t.log| + WorkLeft(t) <= |s.log| + WorkLeft(s)
  {
    match step
    case BeginDrain(now) => BeginIsNoHeavier(c, s, now);
    case Execute(succeeds, now) =>
      if s.batch != [] {
        ExecutionUsesWork(c, s, succeeds, now);
        ExecuteLogs(c, s, succeeds, now);
      }
    case StopDrain => OtherStepsAreNoHeavier(c, s, 0);
    case Sweep(now) => OtherStepsAreNoHeavier(c, s, now);
  }

  // ---------------------------------------------------------------------------------------
  // Whole drains

  lemma {:induction false} ExecutionsUseWork(c: Config, s: State, verdicts: nat -> Verdict, n: nat)
    requires Kept(c, s)
    requires n <= |s.batch|
    ensures var t := Run(c, s, Executions(verdicts, n));
            && Kept(c, t)
            && t.batch == s.batch[n..]
            && |t.log| == |s.log| + n
            && WorkLeft(t) <= WorkLeft(s) - n
  {
    if n > 0 {
      ExecutionsUseWork(c, s, verdicts, n - 1);
      var t := Run(c, s, Executions(verdicts, n - 1));
      var v := verdicts(n - 1);
      RunOne(c, s, Executions(verdicts, n - 1), Execute(v.succeeds, v.at));
      KeptExecute(c, t, v.succeeds, v.at);
      ExecuteLogs(c, t, v.succeeds, v.at);
      ExecutionUsesWork(c, t, v.succeeds, v.at);
    }
  }

  /** A drain dispatches every row it lists once and uses at least that much work. */
  lemma {:induction false} DrainUsesWork(c: Config, s: State, now: int, verdicts: nat -> Verdict)
    requires Kept(c, s) && s.batch == []
    ensures var t := Drain(c, s, now, verdicts);
            var n := |Runnable(Swept(s.rows, now))|;
            && Kept(c, t) && t.batch == []
            && |t.log| == |s.log| + n
            && WorkLeft(t) <= WorkLeft(s) - n
  {
    var u := ApplyBeginDrain(s, now);
    KeptBeginDrain(c, s, now);
    BeginIsNoHeavier(c, s, now);
    ExecutionsUseWork(c, u, verdicts, |u.batch|);
  }

  function Drains(c: Config, s: State, times: nat -> int, verdicts: nat -> nat -> Verdict, rounds: nat): State {
    if rounds == 0 then s
    else Drain(c, Drains(c, s, times, verdicts, rounds - 1), times(rounds - 1), verdicts(rounds - 1))
  }

  ghost predicate NonePending(rows: seq<Action>) {
    forall i | 0 <= i < |rows| :: !rows[i].status.Pending?
  }

  /** A drain that finds nothing to run leaves nothing pending. */
  lemma IdleDrain(c: Config, s: State, now: int, verdicts: nat -> Verdict)
    requires Kept(c, s) && s.batch == []
    requires Runnable(Swept(s.rows, now)) == []
    ensures NonePending(Drain(c, s, now, verdicts).rows)
  {
    var rows := Swept(s.rows, now);
    TableKeptSweep(c, s, now);
    RunnableIsOldest(rows);
    forall i | 0 <= i < |rows|
      ensures !rows[i].status.Pending?
    {
      PendingMembers(rows, rows[i]);
    }
  }

  lemma {:induction false} NoPendingRows(rows: seq<Action>)
    requires NonePending(rows)
    ensures PendingRows(rows) == []
  {
    if rows != [] {
      NoPendingRows(rows[1..]);
    }
  }

  lemma NothingToRun(rows: seq<Action>, now: int)
    requires NonePending(rows)
    ensures Runnable(Swept(rows, now)) == []
  {
    NoPendingRows(Swept(rows, now));
  }

  lemma NoWorkLeft(c: Config, s: State)
    requires Kept(c, s)
    requires WorkLeft(s) <= 0
    ensures NonePending(s.rows)
  {
    RetriesInBudget(c, s);
    WorkIsNatural(s.rows, s.batch);
  }

  lemma {:induction false} DrainProgress(c: Config, s: State, now: int, verdicts: nat -> Verdict, work: int)
    requires Kept(c, s) && s.batch == []
    requires NonePending(s.rows) || WorkLeft(s) <= work
    ensures var t := Drain(c, s, now, verdicts);
            && Kept(c, t) && t.batch == []
            && (NonePending(t.rows) || WorkLeft(t) <= work - 1)
  {
    DrainUsesWork(c, s, now, verdicts);
    if NonePending(s.rows) {
      NothingToRun(s.rows, now);
    }
    if Runnable(Swept(s.rows, now)) == [] {
      IdleDrain(c, s, now, verdicts);
    }
  }

  lemma {:induction false} DrainsProgress(c: Config, s: State, times: nat -> int,
                                         verdicts: nat -> nat -> Verdict, rounds: nat)
    requires Kept(c, s) && s.batch == []
    ensures var t := Drains(c, s, times, verdicts, rounds);
            && Kept(c, t) && t.batch == []
            && (NonePending(t.rows) || WorkLeft(t) <= WorkLeft(s) - rounds)
  {
    if rounds > 0 {
      DrainsProgress(c, s, times, verdicts, rounds - 1);
      DrainProgress(c, Drains(c, s, times, verdicts, rounds - 1), times(rounds - 1), verdicts(rounds - 1),
                    WorkLeft(s) - (rounds - 1));
    }
  }

  lemma DrainsFinish(c: Config, s: State, times: nat -> int, verdicts: nat -> nat -> Verdict, rounds: nat)
    requires Kept(c, s) && s.batch == []
    requires rounds >= WorkLeft(s)
    ensures NonePending(Drains(c, s, times, verdicts, rounds).rows)
  {
    DrainsProgress(c, s, times, verdicts, rounds);
    var t := Drains(c, s, times, verdicts, rounds);
    if WorkLeft(t) <= 0 {
      NoWorkLeft(c, t);
    }
  }

  /**
   No starvation: from any orderly run, after as many further drains as there is work left,
   no action is pending, despite the batch limit and handlers that always fail.
   */
  lemma {:induction false} NoStarvation(c: Config, s: State, steps: seq<Step>,
                     times: nat -> int, verdicts: nat -> nat -> Verdict, rounds: nat)
    requires Orderly(steps) && s == Run(c, Init(), steps)
    requires s.batch == []
    requires rounds >= WorkLeft(s)
    ensures NonePending(Drains(c, s, times, verdicts, rounds).rows)
  {
    assert Kept(c, s) by {
      KeptRun(c, steps);
    }
    DrainsFinish(c, s, times, verdicts, rounds);
  }
}
