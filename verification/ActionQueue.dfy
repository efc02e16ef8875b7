/** The persistent queue and the executor as the objects the source has. */
module ActionQueue {
  import opened Common
  import opened ActionModel
  import ActionLaws
  import StableSort

  class OrionActionQueue {
    const config: Config
    var rows: seq<Action>

    constructor (config: Config)
      requires ValidConfig(config)
      ensures this.config == config && rows == []
    {
      this.config := config;
      rows := [];
    }

    method Enqueue(action: Action) returns (result: EnqueueResult)
      modifies this
      ensures result == EnqueueOutcome(config, old(rows), action)
      ensures rows == if result.Created? then old(rows) + [action] else old(rows)
    {
      if |rows| >= config.maxSize {
        return AtCapacity;
      }
      if action.idempotencyKey.Some? && action.idempotencyKey.value != "" {
        if HasKey(rows, action.idempotencyKey.value) {
          return Duplicate;
        }
      }
      // The table's own constraints: the primary key and the unique index on the key.
      if HasId(rows, action.id) || (action.idempotencyKey.Some? && HasKey(rows, action.idempotencyKey.value)) {
        return Conflict;
      }
      rows := rows + [action];
      result := Created;
    }

    /** UPDATE ... WHERE action_id = id */
    method UpdateRow(id: int, patch: Patch)
      modifies this
      ensures rows == Update(old(rows), id, patch)
    {
      rows := Update(rows, id, patch);
    }

    method MarkRunning(id: int)
      modifies this
      ensures rows == Update(old(rows), id, SetStatus(Running))
    {
      UpdateRow(id, SetStatus(Running));
    }

    method MarkSucceeded(id: int)
      modifies this
      ensures rows == Update(old(rows), id, SetStatus(Succeeded))
    {
      UpdateRow(id, SetStatus(Succeeded));
    }

    method MarkFailed(id: int, retry: bool, now: int)
      modifies this
      ensures rows == ActionModel.MarkFailed(old(rows), id, retry, now)
    {
      var current := Get(rows, id);
      if current.None? {
        return;
      }
      if retry && current.value.CanRetry() {
        var nextAttempt := now + Pow2(current.value.retryCount);
        UpdateRow(id, Requeue(current.value.retryCount + 1, nextAttempt));
      } else {
        UpdateRow(id, SetStatus(Failed));
      }
    }

    /** Select the pending rows, order them by creation time, and cut at the limit. */
    method ListPending() returns (actions: seq<Action>)
      requires ActionLaws.DistinctIds(rows)
      ensures actions == Runnable(rows)
      ensures forall a | a in actions :: a in rows && a.status.Pending?
      ensures |actions| <= 64 && ActionLaws.DistinctIds(actions)
      ensures forall i, j | 0 <= i < j < |actions| :: actions[i].createdAt <= actions[j].createdAt
      ensures forall a | a in rows && a.status.Pending? && a !in actions ::
                |actions| == 64 && forall x | x in actions :: x.createdAt <= a.createdAt
    {
      actions := PendingRows(rows);
      actions := StableSort.Sort(CreatedKey, actions);
      if |actions| > BATCH_LIMIT {
        actions := actions[..BATCH_LIMIT];
      }
      ActionLaws.RunnableIsOldest(rows);
    }

    /** Marks the stale rows one by one and returns their ids, in table order. */
    method SweepExpired(now: int) returns (ids: seq<int>)
      requires ActionLaws.DistinctIds(rows)
      modifies this
      ensures rows == Swept(old(rows), now)
      ensures ids == StaleIds(old(rows), now)
      ensures forall i | 0 <= i < |rows| ::
                old(rows)[i].id in ids
                <==> old(rows)[i].status in {Pending, Running} && old(rows)[i].expiresAt < now
      ensures forall id | id in ids :: exists i | 0 <= i < |rows| :: old(rows)[i].id == id
    {
      var table := rows;
      ids := [];
      for i := 0 to |table|
        invariant rows == table
        invariant ids == StaleIds(table[..i], now)
      {
        StaleNext(table, i, now);
        if table[i].IsStale(now) {
          ids := ids + [table[i].id];
        }
      }
      assert table[..|table|] == table;
      for k := 0 to |ids|
        invariant |rows| == |table|
        invariant forall i | 0 <= i < |table| ::
                    rows[i] == if table[i].id in ids[..k] then table[i].(status := Expired) else table[i]
      {
        assert ids[..k + 1] == ids[..k] + [ids[k]];
        UpdateRow(ids[k], SetStatus(Expired));
      }
      assert ids[..|ids|] == ids;
      StaleIdsMark(table, now);
    }
  }

  function StaleIds(rows: seq<Action>, now: int): seq<int> {
    if rows == [] then []
    else StaleIds(rows[..|rows| - 1], now) + if rows[|rows| - 1].IsStale(now) then [rows[|rows| - 1].id] else []
  }

  lemma StaleNext(rows: seq<Action>, i: nat, now: int)
    requires i < |rows|
    ensures StaleIds(rows[..i + 1], now)
         == StaleIds(rows[..i], now) + if rows[i].IsStale(now) then [rows[i].id] else []
  {
    assert rows[..i + 1][..i] == rows[..i];
  }

  lemma {:induction false} StaleIdsMark(rows: seq<Action>, now: int)
    requires ActionLaws.DistinctIds(rows)
    ensures forall i | 0 <= i < |rows| :: rows[i].id in StaleIds(rows, now) <==> rows[i].IsStale(now)
    ensures forall id | id in StaleIds(rows, now) :: exists i | 0 <= i < |rows| :: rows[i].id == id
  {
    if rows != [] {
      var n := |rows| - 1;
      StaleIdsMark(rows[..n], now);
      forall id | id in StaleIds(rows, now)
        ensures exists i | 0 <= i < |rows| :: rows[i].id == id
      {
        if id in StaleIds(rows[..n], now) {
          var i :| 0 <= i < n && rows[..n][i].id == id;
          assert rows[i].id == id;
        } else {
          assert rows[n].id == id;
        }
      }
      forall i | 0 <= i < |rows|
        ensures rows[i].id in StaleIds(rows, now) <==> rows[i].IsStale(now)
      {
        if i < n {
          assert rows[..n][i] == rows[i];
        }
      }
    }
  }

  class OrionExecutor {
    const queue: OrionActionQueue
    const config: Config
    var consecutiveFailures: nat
    var processed: nat
    var succeeded: nat
    var failed: nat
    ghost var batch: seq<Action>
    ghost var log: seq<Attempt>

    ghost function View(): State
      reads this, queue
    {
      State(queue.rows, batch, consecutiveFailures, processed, succeeded, failed, log)
    }

    constructor (queue: OrionActionQueue)
      ensures this.queue == queue && config == queue.config
      ensures View() == Init().(rows := queue.rows)
    {
      this.queue := queue;
      config := queue.config;
      consecutiveFailures, processed, succeeded, failed := 0, 0, 0, 0;
      batch, log := [], [];
    }

    /** Execute the listed action; `verdict` is what its handler does and the time it runs. */
    method ExecuteAction(action: Action, verdict: Verdict)
      requires batch != [] && batch[0] == action
      modifies this, queue
      ensures View() == Apply(config, old(View()), Execute(verdict.succeeds, verdict.at))
      ensures batch == old(batch)[1..]
    {
      batch := batch[1..];
      queue.MarkRunning(action.id);
      var succeeds := !action.IsExpired(verdict.at) && verdict.succeeds;
      log := log + [Attempt(action.id, !action.IsExpired(verdict.at), succeeds)];
      if !succeeds {
        queue.MarkFailed(action.id,
                         action.CanRetry() && consecutiveFailures < config.maxConsecutiveFailures,
                         verdict.at);
        failed := failed + 1;
        consecutiveFailures := consecutiveFailures + 1;
        processed := processed + 1;
        return;
      }
      queue.MarkSucceeded(action.id);
      succeeded := succeeded + 1;
      consecutiveFailures := 0;
      processed := processed + 1;
    }

    /** One drain, with the stop flag not set. */
    method DrainOnce(now: int, verdicts: nat -> Verdict) returns (count: nat)
      requires batch == []
      requires ActionLaws.DistinctIds(queue.rows)
      modifies this, queue
      ensures View() == Drain(config, old(View()), now, verdicts)
      ensures count == |Runnable(Swept(old(queue.rows), now))|
      ensures batch == []
    {
      ghost var start := View();
      var expired := queue.SweepExpired(now);
      var runnable := queue.ListPending();
      batch := runnable;
      ghost var listed := View();
      assert listed == ApplyBeginDrain(start, now);
      count := ExecuteBatch(runnable, verdicts);
    }

    method ExecuteBatch(runnable: seq<Action>, verdicts: nat -> Verdict) returns (count: nat)
      requires batch == runnable
      modifies this, queue
      ensures View() == Run(config, old(View()), Executions(verdicts, |runnable|))
      ensures count == |runnable|
      ensures batch == []
    {
      ghost var start := View();
      count := 0;
      while count < |runnable|
        invariant count <= |runnable|
        invariant batch == runnable[count..]
        invariant View() == Run(config, start, Executions(verdicts, count))
      {
        ExecuteNext(start, runnable[count], verdicts, count);
        count := count + 1;
      }
    }

    method ExecuteNext(ghost start: State, action: Action, verdicts: nat -> Verdict, k: nat)
      requires batch != [] && batch[0] == action
      requires View() == Run(config, start, Executions(verdicts, k))
      modifies this, queue
      ensures View() == Run(config, start, Executions(verdicts, k + 1))
      ensures batch == old(batch)[1..]
    {
      ghost var v := verdicts(k);
      RunOne(config, start, Executions(verdicts, k), Execute(v.succeeds, v.at));
      ExecuteAction(action, verdicts(k));
    }
  }
}
