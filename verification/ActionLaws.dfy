/** What the action queue and its executor keep over every run. */
module ActionLaws {
  import opened Common
  import opened ActionModel
  import StableSort

  // ---------------------------------------------------------------------------------------
  // Tables with unique ids

  ghost predicate DistinctIds(rows: seq<Action>) {
    forall i, j | 0 <= i < j < |rows| :: rows[i].id != rows[j].id
  }

  ghost predicate DistinctKeys(rows: seq<Action>) {
    forall i, j | 0 <= i < j < |rows| ::
      rows[i].idempotencyKey.Some? ==> rows[i].idempotencyKey != rows[j].idempotencyKey
  }

  lemma {:induction false} GetFinds(rows: seq<Action>, i: nat)
    requires DistinctIds(rows)
    requires i < |rows|
    ensures Get(rows, rows[i].id) == Some(rows[i])
  {
    if i > 0 {
      GetFinds(rows[1..], i - 1);
    }
  }

  lemma {:induction false} PendingMembers(rows: seq<Action>, a: Action)
    ensures a in PendingRows(rows) <==> a in rows && a.status.Pending?
  {
    if rows != [] {
      PendingMembers(rows[1..], a);
      assert rows == [rows[0]] + rows[1..];
    }
  }

  ghost predicate IdFree(id: int, s: seq<Action>) {
    forall a | a in s :: a.id != id
  }

  lemma DistinctCons(a: Action, s: seq<Action>)
    requires DistinctIds(s)
    requires IdFree(a.id, s)
    ensures DistinctIds([a] + s)
  {
  }

  lemma {:induction false} PendingDistinct(rows: seq<Action>)
    requires DistinctIds(rows)
    ensures DistinctIds(PendingRows(rows))
  {
    if rows != [] {
      var rest := PendingRows(rows[1..]);
      PendingDistinct(rows[1..]);
      forall a | a in rest
        ensures a.id != rows[0].id
      {
        PendingMembers(rows[1..], a);
      }
      DistinctCons(rows[0], rest);
      assert [] + rest == rest;
    }
  }

  lemma {:induction false} InsertDistinct(x: Action, s: seq<Action>)
    requires DistinctIds(s)
    requires IdFree(x.id, s)
    ensures DistinctIds(StableSort.Insert(CreatedKey, x, s))
  {
    if s != [] && StableSort.Before(CreatedKey(s[0]), CreatedKey(x)) {
      var rest := StableSort.Insert(CreatedKey, x, s[1..]);
      InsertDistinct(x, s[1..]);
      assert s[0] in s;
      forall a | a in rest
        ensures a.id != s[0].id
      {
        StableSort.InsertMember(CreatedKey, x, s[1..], a);
      }
      DistinctCons(s[0], rest);
    } else {
      DistinctCons(x, s);
    }
  }

  lemma SortMember(s: seq<Action>, a: Action)
    ensures a in StableSort.Sort(CreatedKey, s) <==> a in s
  {
    assert a in StableSort.Sort(CreatedKey, s) <==> a in multiset(StableSort.Sort(CreatedKey, s));
    assert a in s <==> a in multiset(s);
  }

  lemma {:induction false} SortDistinct(s: seq<Action>)
    requires DistinctIds(s)
    ensures DistinctIds(StableSort.Sort(CreatedKey, s))
  {
    if s != [] {
      var t := StableSort.Sort(CreatedKey, s[1..]);
      SortDistinct(s[1..]);
      forall a | a in t
        ensures a.id != s[0].id
      {
        SortMember(s[1..], a);
      }
      InsertDistinct(s[0], t);
    }
  }

  lemma {:induction false} SortedPending(rows: seq<Action>)
    requires DistinctIds(rows)
    ensures var sorted := StableSort.Sort(CreatedKey, PendingRows(rows));
            && DistinctIds(sorted)
            && (forall a :: a in sorted <==> a in rows && a.status.Pending?)
            && (forall i, j | 0 <= i < j < |sorted| :: sorted[i].createdAt <= sorted[j].createdAt)
  {
    var p := PendingRows(rows);
    var sorted := StableSort.Sort(CreatedKey, p);
    PendingDistinct(rows);
    SortDistinct(p);
    StableSort.SortIsStable(CreatedKey, p, (0, 0));
    forall a
      ensures a in sorted <==> a in rows && a.status.Pending?
    {
      SortMember(p, a);
      PendingMembers(rows, a);
    }
    forall i, j | 0 <= i < j < |sorted|
      ensures sorted[i].createdAt <= sorted[j].createdAt
    {
      assert !StableSort.Before(CreatedKey(sorted[j]), CreatedKey(sorted[i]));
    }
  }

  lemma PrefixIsOldest(sorted: seq<Action>, n: nat)
    requires n <= |sorted|
    requires DistinctIds(sorted)
    requires forall i, j | 0 <= i < j < |sorted| :: sorted[i].createdAt <= sorted[j].createdAt
    ensures DistinctIds(sorted[..n])
    ensures forall a | a in sorted[..n] :: a in sorted
    ensures forall a, x | a in sorted && a !in sorted[..n] && x in sorted[..n] :: x.createdAt <= a.createdAt
  {
    forall a, x | a in sorted && a !in sorted[..n] && x in sorted[..n]
      ensures x.createdAt <= a.createdAt
    {
      var j :| 0 <= j < |sorted| && sorted[j] == a;
      var i :| 0 <= i < n && sorted[i] == x;
      assert j < n ==> sorted[..n][j] == a;
    }
  }

  /** The batch is the oldest pending rows, oldest first, at most 64 of them. */
  lemma {:induction false} RunnableIsOldest(rows: seq<Action>)
    requires DistinctIds(rows)
    ensures var b := Runnable(rows);
            && |b| == (if |PendingRows(rows)| <= 64 then |PendingRows(rows)| else 64)
            && DistinctIds(b)
            && (forall a | a in b :: a in rows && a.status.Pending?)
            && (forall i, j | 0 <= i < j < |b| :: b[i].createdAt <= b[j].createdAt)
            && (forall a | a in rows && a.status.Pending? && a !in b ::
                  |b| == 64 && forall x | x in b :: x.createdAt <= a.createdAt)
  {
    var sorted := StableSort.Sort(CreatedKey, PendingRows(rows));
    var n := if |sorted| <= BATCH_LIMIT then |sorted| else BATCH_LIMIT;
    SortedPending(rows);
    PrefixIsOldest(sorted, n);
    assert Runnable(rows) == sorted[..n];
  }

  /** The rows a drain at `now` chooses from: pending and not stale. */
  function Live(rows: seq<Action>, now: int): seq<Action> {
    PendingRows(Swept(rows, now))
  }

  lemma LiveMembers(rows: seq<Action>, now: int, a: Action)
    ensures a in Live(rows, now) <==> a in rows && a.status.Pending? && !a.IsStale(now)
  {
    var swept := Swept(rows, now);
    PendingMembers(swept, a);
    if a in rows && a.status.Pending? && !a.IsStale(now) {
      var i :| 0 <= i < |rows| && rows[i] == a;
      assert swept[i] == a;
    }
    if a in swept && a.status.Pending? {
      var i :| 0 <= i < |swept| && swept[i] == a;
      assert rows[i] == a;
    }
  }

  lemma {:induction false} PrefixMember(s: seq<Action>, n: nat, k: nat)
    requires DistinctIds(s)
    requires n <= |s| && k < |s|
    ensures s[k] in s[..n] <==> k < n
  {
    if k < n {
      assert s[..n][k] == s[k];
    }
  }

  /**
   The exact batch: a row is listed by a drain at `now` if and only if it is pending, not
   stale, and fewer than 64 such rows come before it by creation time and table order.
   next_attempt_at plays no part.
   */
  lemma ListedExactly(rows: seq<Action>, now: int, p: nat)
    requires DistinctIds(rows)
    requires p < |Live(rows, now)|
    ensures Live(rows, now)[p] in Runnable(Swept(rows, now))
       <==> StableSort.Rank(CreatedKey, Live(rows, now), p) < 64
    ensures forall a :: a in Live(rows, now) <==> a in rows && a.status.Pending? && !a.IsStale(now)
    ensures forall a | a in Runnable(Swept(rows, now)) :: a in Live(rows, now)
  {
    var live := Live(rows, now);
    var sorted := StableSort.Sort(CreatedKey, live);
    StableSort.SortPlaces(CreatedKey, live, p);
    PendingDistinct(Swept(rows, now));
    SortDistinct(live);
    var r := StableSort.Rank(CreatedKey, live, p);
    if |sorted| > BATCH_LIMIT {
      PrefixMember(sorted, BATCH_LIMIT, r);
    }
    forall a
      ensures a in live <==> a in rows && a.status.Pending? && !a.IsStale(now)
    {
      LiveMembers(rows, now, a);
    }
    forall a | a in Runnable(Swept(rows, now))
      ensures a in live
    {
      assert a in sorted;
      SortMember(live, a);
    }
  }

  // ---------------------------------------------------------------------------------------
  // The log of dispatches

  function Dispatches(log: seq<Attempt>, id: int): nat {
    if log == [] then 0
    else Dispatches(log[..|log| - 1], id) + if log[|log| - 1].id == id then 1 else 0
  }

  function Successes(log: seq<Attempt>): nat {
    if log == [] then 0 else Successes(log[..|log| - 1]) + if log[|log| - 1].ok then 1 else 0
  }

  /** How many failures the log ends with. */
  function Trailing(log: seq<Attempt>): nat {
    if log == [] || log[|log| - 1].ok then 0 else Trailing(log[..|log| - 1]) + 1
  }

  /** At some point the log ended with as many failures as trip the breaker. */
  ghost predicate Tripped(c: Config, log: seq<Attempt>) {
    exists k | 0 <= k <= |log| :: Trailing(log[..k]) >= c.maxConsecutiveFailures
  }

  lemma LogAppend(c: Config, log: seq<Attempt>, a: Attempt)
    ensures forall id :: Dispatches(log + [a], id) == Dispatches(log, id) + if a.id == id then 1 else 0
    ensures Successes(log + [a]) == Successes(log) + if a.ok then 1 else 0
    ensures Trailing(log + [a]) == if a.ok then 0 else Trailing(log) + 1
    ensures Tripped(c, log) ==> Tripped(c, log + [a])
    ensures Trailing(log) >= c.maxConsecutiveFailures ==> Tripped(c, log)
  {
    var longer := log + [a];
    assert longer[..|log|] == log;
    assert log[..|log|] == log;
    if Tripped(c, log) {
      var k :| 0 <= k <= |log| && Trailing(log[..k]) >= c.maxConsecutiveFailures;
      assert longer[..k] == log[..k];
    }
  }

  // ---------------------------------------------------------------------------------------
  // The invariant

  /** What a row says about the dispatches of its action. */
  ghost predicate RowKept(c: Config, log: seq<Attempt>, a: Action) {
    && (a.status.Pending? || a.status.Expired? || a.status.Succeeded? || a.status.Failed?)
    && a.retryCount <= a.maxRetries
    && Dispatches(log, a.id) == a.retryCount + (if a.status.Succeeded? || a.status.Failed? then 1 else 0)
    && (a.status.Failed? && a.CanRetry() ==> Tripped(c, log))
  }

  /** The table has the row as it was listed, or as a sweep has left it since. */
  ghost predicate Holds(rows: seq<Action>, a: Action) {
    a in rows || a.(status := Expired) in rows
  }

  ghost predicate BatchKept(s: State) {
    && DistinctIds(s.batch)
    && forall a | a in s.batch :: a.status.Pending? && Holds(s.rows, a)
  }

  ghost predicate CountersKept(s: State) {
    && s.processed == |s.log| == s.succeeded + s.failed
    && s.succeeded == Successes(s.log)
    && s.consecutiveFailures == Trailing(s.log)
  }

  ghost predicate TableKept(c: Config, s: State) {
    && |s.rows| <= c.maxSize
    && DistinctIds(s.rows) && DistinctKeys(s.rows)
    && (forall i | 0 <= i < |s.rows| :: RowKept(c, s.log, s.rows[i]))
    && (forall id | !HasId(s.rows, id) :: Dispatches(s.log, id) == 0)
  }

  ghost predicate Kept(c: Config, s: State) {
    TableKept(c, s) && BatchKept(s) && CountersKept(s)
  }

  predicate FreshSubmission(a: Action) {
    a.status.Pending? && a.retryCount == 0
  }

  lemma KeptEnqueue(c: Config, s: State, a: Action)
    requires Kept(c, s)
    requires FreshSubmission(a)
    ensures Kept(c, ApplyEnqueue(c, s, a))
  {
    if EnqueueOutcome(c, s.rows, a).Created? {
      var t := ApplyEnqueue(c, s, a);
      forall id | !HasId(t.rows, id)
        ensures Dispatches(s.log, id) == 0
      {
        forall i | 0 <= i < |s.rows|
          ensures s.rows[i].id != id
        {
          assert t.rows[i].id != id;
        }
      }
      if a.idempotencyKey.Some? {
        assert !HasKey(s.rows, a.idempotencyKey.value);
      }
    }
  }

  lemma KeptIds(rows: seq<Action>, t: seq<Action>)
    requires |t| == |rows|
    requires forall i | 0 <= i < |rows| :: t[i].id == rows[i].id && t[i].idempotencyKey == rows[i].idempotencyKey
    ensures DistinctIds(rows) ==> DistinctIds(t)
    ensures DistinctKeys(rows) ==> DistinctKeys(t)
    ensures forall id :: HasId(rows, id) <==> HasId(t, id)
  {
    forall id
      ensures HasId(rows, id) <==> HasId(t, id)
    {
      if HasId(rows, id) {
        var i :| 0 <= i < |rows| && rows[i].id == id;
        assert t[i].id == id;
      }
      if HasId(t, id) {
        var i :| 0 <= i < |t| && t[i].id == id;
        assert rows[i].id == id;
      }
    }
  }

  lemma TableKeptSweep(c: Config, s: State, now: int)
    requires TableKept(c, s)
    ensures TableKept(c, s.(rows := Swept(s.rows, now)))
  {
    KeptIds(s.rows, Swept(s.rows, now));
  }

  lemma {:induction false} KeptSweep(c: Config, s: State, now: int)
    requires Kept(c, s)
    ensures Kept(c, s.(rows := Swept(s.rows, now)))
  {
    TableKeptSweep(c, s, now);
    forall a | a in s.batch
      ensures Holds(Swept(s.rows, now), a)
    {
      SweptHolds(s.rows, now, a);
    }
  }

  lemma SweptHolds(rows: seq<Action>, now: int, a: Action)
    requires a.status.Pending? && Holds(rows, a)
    ensures Holds(Swept(rows, now), a)
    ensures a in Swept(rows, now) <==> a in rows && !a.IsStale(now)
  {
    var swept := Swept(rows, now);
    var i :| 0 <= i < |rows| && (rows[i] == a || rows[i] == a.(status := Expired));
    assert swept[i] == a || swept[i] == a.(status := Expired);
    if a in rows {
      var k :| 0 <= k < |rows| && rows[k] == a;
      assert swept[k] == if a.IsStale(now) then a.(status := Expired) else a;
    }
    if a in swept {
      var k :| 0 <= k < |swept| && swept[k] == a;
      assert rows[k] == a;
    }
  }

  lemma {:induction false} KeptBeginDrain(c: Config, s: State, now: int)
    requires Kept(c, s)
    ensures Kept(c, ApplyBeginDrain(s, now))
  {
    if s.batch == [] {
      TableKeptSweep(c, s, now);
      RunnableIsOldest(Swept(s.rows, now));
    }
  }

  lemma UpdateTouchesOne(rows: seq<Action>, i: nat, p: Patch)
    requires DistinctIds(rows)
    requires i < |rows|
    ensures Update(rows, rows[i].id, p) == rows[i := Patched(p, rows[i])]
  {
  }

  lemma MarkFailedTouchesOne(rows: seq<Action>, i: nat, retry: bool, now: int)
    requires DistinctIds(rows)
    requires i < |rows|
    ensures var a := rows[i];
            MarkFailed(rows, a.id, retry, now)
            == rows[i := if retry && a.CanRetry() then Patched(Requeue(a.retryCount + 1, now + Pow2(a.retryCount)), a)
                         else Patched(SetStatus(Failed), a)]
  {
    GetFinds(rows, i);
    var a := rows[i];
    UpdateTouchesOne(rows, i, Requeue(a.retryCount + 1, now + Pow2(a.retryCount)));
    UpdateTouchesOne(rows, i, SetStatus(Failed));
  }

  function ExecutedRow(c: Config, s: State, succeeds: bool, now: int): Action
    requires s.batch != []
  {
    var a := s.batch[0];
    if succeeds && !a.IsExpired(now) then a.(status := Succeeded)
    else if a.CanRetry() && s.consecutiveFailures < c.maxConsecutiveFailures then
      a.(status := Pending, retryCount := a.retryCount + 1, nextAttemptAt := Some(now + Pow2(a.retryCount)))
    else a.(status := Failed)
  }

  /** The one row an execution touches, and what it becomes. */
  lemma ExecuteTouchesOne(c: Config, s: State, succeeds: bool, now: int) returns (i: nat)
    requires DistinctIds(s.rows) && BatchKept(s)
    requires s.batch != []
    ensures i < |s.rows| && (s.rows[i] == s.batch[0] || s.rows[i] == s.batch[0].(status := Expired))
    ensures ApplyExecute(c, s, succeeds, now).rows == s.rows[i := ExecutedRow(c, s, succeeds, now)]
  {
    var a := s.batch[0];
    assert a in s.batch;
    i :| 0 <= i < |s.rows| && (s.rows[i] == a || s.rows[i] == a.(status := Expired));
    UpdateTouchesOne(s.rows, i, SetStatus(Running));
    var running := s.rows[i := a.(status := Running)];
    assert DistinctIds(running);
    UpdateTouchesOne(running, i, SetStatus(Succeeded));
    MarkFailedTouchesOne(running, i, a.CanRetry() && s.consecutiveFailures < c.maxConsecutiveFailures, now);
    assert running[i := ExecutedRow(c, s, succeeds, now)] == s.rows[i := ExecutedRow(c, s, succeeds, now)];
  }

  function AttemptOf(s: State, succeeds: bool, now: int): Attempt
    requires s.batch != []
  {
    var a := s.batch[0];
    Attempt(a.id, !a.IsExpired(now), succeeds && !a.IsExpired(now))
  }

  lemma ExecuteLogs(c: Config, s: State, succeeds: bool, now: int)
    requires s.batch != []
    ensures var t := ApplyExecute(c, s, succeeds, now);
            t.log == s.log + [AttemptOf(s, succeeds, now)] && t.batch == s.batch[1..]
    ensures CountersKept(s) ==> CountersKept(ApplyExecute(c, s, succeeds, now))
  {
    LogAppend(c, s.log, AttemptOf(s, succeeds, now));
  }

  lemma UntouchedRowKept(c: Config, log: seq<Attempt>, attempt: Attempt, b: Action)
    requires RowKept(c, log, b) && b.id != attempt.id
    ensures RowKept(c, log + [attempt], b)
  {
    LogAppend(c, log, attempt);
  }

  lemma TouchedRowKept(c: Config, s: State, succeeds: bool, now: int, row: Action)
    requires CountersKept(s) && s.batch != [] && s.batch[0].status.Pending?
    requires row == s.batch[0] || row == s.batch[0].(status := Expired)
    requires RowKept(c, s.log, row)
    ensures RowKept(c, s.log + [AttemptOf(s, succeeds, now)], ExecutedRow(c, s, succeeds, now))
  {
    LogAppend(c, s.log, AttemptOf(s, succeeds, now));
  }

  lemma ExecuteKeepsTable(c: Config, s: State, succeeds: bool, now: int)
    requires Kept(c, s)
    requires s.batch != []
    ensures TableKept(c, ApplyExecute(c, s, succeeds, now))
  {
    var t := ApplyExecute(c, s, succeeds, now);
    var i := ExecuteTouchesOne(c, s, succeeds, now);
    var attempt := AttemptOf(s, succeeds, now);
    ExecuteLogs(c, s, succeeds, now);
    KeptIds(s.rows, t.rows);
    assert s.batch[0] in s.batch;
    forall k | 0 <= k < |t.rows|
      ensures RowKept(c, t.log, t.rows[k])
    {
      assert RowKept(c, s.log, s.rows[k]);
      if k == i {
        TouchedRowKept(c, s, succeeds, now, s.rows[i]);
      } else {
        UntouchedRowKept(c, s.log, attempt, s.rows[k]);
      }
    }
    forall id | !HasId(t.rows, id)
      ensures Dispatches(t.log, id) == 0
    {
      assert s.rows[i].id == attempt.id;
      LogAppend(c, s.log, attempt);
    }
  }

  lemma HeldElsewhere(rows: seq<Action>, i: nat, row: Action, b: Action)
    requires i < |rows| && rows[i].id != b.id
    requires Holds(rows, b)
    ensures Holds(rows[i := row], b)
  {
    var k :| 0 <= k < |rows| && (rows[k] == b || rows[k] == b.(status := Expired));
    assert rows[i := row][k] == rows[k];
  }

  lemma ExecuteKeepsBatch(c: Config, s: State, succeeds: bool, now: int)
    requires Kept(c, s)
    requires s.batch != []
    ensures BatchKept(ApplyExecute(c, s, succeeds, now))
  {
    var t := ApplyExecute(c, s, succeeds, now);
    var i := ExecuteTouchesOne(c, s, succeeds, now);
    ExecuteLogs(c, s, succeeds, now);
    forall b | b in t.batch
      ensures b.status.Pending? && Holds(t.rows, b)
    {
      var n :| 0 <= n < |t.batch| && t.batch[n] == b;
      assert s.batch[n + 1] == b && b.id != s.batch[0].id;
      HeldElsewhere(s.rows, i, ExecutedRow(c, s, succeeds, now), b);
    }
  }

  lemma {:induction false} KeptExecute(c: Config, s: State, succeeds: bool, now: int)
    requires Kept(c, s)
    ensures Kept(c, ApplyExecute(c, s, succeeds, now))
  {
    if s.batch != [] {
      ExecuteKeepsTable(c, s, succeeds, now);
      ExecuteKeepsBatch(c, s, succeeds, now);
      ExecuteLogs(c, s, succeeds, now);
    }
  }

  lemma {:induction false} KeptStep(c: Config, s: State, step: Step)
    requires Kept(c, s)
    requires step.Enqueue? ==> FreshSubmission(step.action)
    ensures Kept(c, Apply(c, s, step))
  {
    match step
    case Enqueue(a) => KeptEnqueue(c, s, a);
    case BeginDrain(now) => KeptBeginDrain(c, s, now);
    case Execute(succeeds, now) => KeptExecute(c, s, succeeds, now);
    case StopDrain =>
    case Sweep(now) => KeptSweep(c, s, now);
  }

  /** Actions are submitted pending, with no retry used. */
  ghost predicate Orderly(steps: seq<Step>) {
    forall k | 0 <= k < |steps| && steps[k].Enqueue? :: FreshSubmission(steps[k].action)
  }

  lemma {:induction false} KeptRun(c: Config, steps: seq<Step>)
    requires Orderly(steps)
    ensures Kept(c, Run(c, Init(), steps))
  {
    if steps != [] {
      var before := steps[..|steps| - 1];
      KeptRun(c, before);
      KeptStep(c, Run(c, Init(), before), steps[|steps| - 1]);
    }
  }

  /**
   Attempt accounting over every orderly run, whatever sweeps fall into a drain: an action
   has been dispatched exactly retry_count times while it waits or has expired, and once more
   when it succeeded or failed; so at most 1 + max_retries times, and FAILED short of the
   budget only if the breaker tripped. Ids and idempotency keys stay unique and no row is
   RUNNING at rest.
   */
  lemma {:induction false} AttemptAccounting(c: Config, steps: seq<Step>, i: nat)
    requires Orderly(steps)
    requires i < |Run(c, Init(), steps).rows|
    ensures var s := Run(c, Init(), steps);
            var a := s.rows[i];
            && !a.status.Running?
            && Dispatches(s.log, a.id) == a.retryCount + (if a.status.Succeeded? || a.status.Failed? then 1 else 0)
            && Dispatches(s.log, a.id) <= 1 + a.maxRetries
            && (a.status.Failed? ==> a.retryCount == a.maxRetries || Tripped(c, s.log))
            && |s.rows| <= c.maxSize
            && (forall j | 0 <= j < |s.rows| && j != i ::
                  && s.rows[j].id != a.id
                  && (a.idempotencyKey.Some? ==> s.rows[j].idempotencyKey != a.idempotencyKey))
    ensures CountersKept(Run(c, Init(), steps))
  {
    KeptRun(c, steps);
  }
}
