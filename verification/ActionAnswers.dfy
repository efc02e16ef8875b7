/** What the action queue and its executor answer, told from the rows, the clock and the log. */
module ActionAnswers {
  import opened Common
  import opened ActionModel
  import opened ActionLaws

  predicate IdKnown(rows: seq<Action>, id: int) {
    exists i | 0 <= i < |rows| :: rows[i].id == id
  }

  predicate KeyKnown(rows: seq<Action>, key: Option<string>) {
    key.Some? && exists i | 0 <= i < |rows| :: rows[i].idempotencyKey == key
  }

  /**
   Below capacity an action is created exactly if neither its id nor its key is known; a known
   key that is not empty makes it a duplicate, whatever its id, and anything else a conflict.
   Only a created action changes the table, whose last row it becomes.
   */
  lemma EnqueueAnswers(c: Config, s: State, a: Action)
    ensures var outcome, t := EnqueueOutcome(c, s.rows, a), Apply(c, s, Enqueue(a));
            && (outcome.AtCapacity? <==> |s.rows| >= c.maxSize)
            && (outcome.Created? <==> |s.rows| < c.maxSize && !IdKnown(s.rows, a.id) && !KeyKnown(s.rows, a.idempotencyKey))
            && (outcome.Duplicate? <==> && |s.rows| < c.maxSize && KeyKnown(s.rows, a.idempotencyKey)
                                        && a.idempotencyKey != Some(""))
            && t == if outcome.Created? then s.(rows := s.rows + [a]) else s
  {
  }

  /** A sweep expires exactly the rows that wait or run past their lifetime, and changes nothing else. */
  lemma SweepAnswers(c: Config, s: State, now: int)
    ensures var t := Apply(c, s, Sweep(now));
            && t == s.(rows := t.rows) && |t.rows| == |s.rows|
            && forall i | 0 <= i < |s.rows| ::
                 t.rows[i] == if s.rows[i].status in {Pending, Running} && s.rows[i].expiresAt < now
                              then s.rows[i].(status := Expired) else s.rows[i]
  {
  }

  /** The delay before the retry after n: a second at first, and then twice the one before. */
  lemma DelaysDouble(n: nat)
    ensures Pow2(0) == 1 && Pow2(n + 1) == 2 * Pow2(n)
  {
  }

  /** The handler of an action runs exactly if its lifetime is not over, and the log says how that went. */
  lemma ExecutionIsLogged(c: Config, s: State, succeeds: bool, now: int)
    requires s.batch != []
    ensures var t, a := Apply(c, s, Execute(succeeds, now)), s.batch[0];
            var ran := now <= a.expiresAt;
            && t.log == s.log + [Attempt(a.id, ran, ran && succeeds)]
            && t.batch == s.batch[1..] && t.processed == s.processed + 1
            && t.succeeded == s.succeeded + (if ran && succeeds then 1 else 0)
            && t.failed == s.failed + (if ran && succeeds then 0 else 1)
            && t.consecutiveFailures == if ran && succeeds then 0 else s.consecutiveFailures + 1
  {
  }

  /**
   An execution makes the row of its action SUCCEEDED if the handler ran and returned. Failing
   or refused, the row is PENDING again with one more retry and the next delay, if it has a
   retry left and fewer failures than the cap came in a row; otherwise it is FAILED. Every
   other row stays.
   */
  lemma ExecutionAnswers(c: Config, s: State, succeeds: bool, now: int)
    requires Kept(c, s) && s.batch != []
    ensures var t, a := Apply(c, s, Execute(succeeds, now)), s.batch[0];
            && |t.rows| == |s.rows|
            && forall i | 0 <= i < |s.rows| ::
                 t.rows[i] == if s.rows[i].id != a.id then s.rows[i]
                              else if succeeds && now <= a.expiresAt then a.(status := Succeeded)
                              else if a.retryCount < a.maxRetries && s.consecutiveFailures < c.maxConsecutiveFailures
                              then a.(retryCount := a.retryCount + 1, nextAttemptAt := Some(now + Pow2(a.retryCount)))
                              else a.(status := Failed)
  {
    var k := ExecuteTouchesOne(c, s, succeeds, now);
    assert s.batch[0] in s.batch;
    forall i | 0 <= i < |s.rows| && s.rows[i].id == s.batch[0].id
      ensures i == k
    {
    }
  }

  /** A drain that finds no batch in progress sweeps and lists at its clock reading; stopping one forgets its batch. */
  lemma DrainStarts(c: Config, s: State, now: int)
    ensures s.batch == [] ==>
              && Apply(c, s, BeginDrain(now)).rows == Apply(c, s, Sweep(now)).rows
              && Apply(c, s, BeginDrain(now)) == s.(rows := Apply(c, s, Sweep(now)).rows,
                                                    batch := Apply(c, s, BeginDrain(now)).batch)
    ensures Apply(c, s, StopDrain) == s.(batch := [])
  {
  }

  /** What the log says of the k-th listed action. */
  ghost predicate LoggedAs(entry: Attempt, a: Action, v: Verdict) {
    entry == Attempt(a.id, v.at <= a.expiresAt, v.at <= a.expiresAt && v.succeeds)
  }

  /** What a run executed of the batch of `s`: its first n actions, in order, each with its own verdict. */
  ghost predicate Took(s: State, t: State, verdicts: nat -> Verdict, n: nat)
    requires n <= |s.batch|
  {
    && t.batch == s.batch[n..] && |t.log| == |s.log| + n && s.log <= t.log
    && forall k | 0 <= k < n :: LoggedAs(t.log[|s.log| + k], s.batch[k], verdicts(k))
  }

  lemma TakesNext(c: Config, s: State, t: State, verdicts: nat -> Verdict, n: nat)
    requires n < |s.batch| && Took(s, t, verdicts, n)
    ensures Took(s, Apply(c, t, Execute(verdicts(n).succeeds, verdicts(n).at)), verdicts, n + 1)
  {
    ExecutionIsLogged(c, t, verdicts(n).succeeds, verdicts(n).at);
  }

  /** The executions of a batch take its actions in order. */
  lemma {:induction false} ExecutionsInOrder(c: Config, s: State, verdicts: nat -> Verdict, n: nat)
    requires n <= |s.batch|
    ensures Took(s, Run(c, s, Executions(verdicts, n)), verdicts, n)
  {
    if n > 0 {
      ExecutionsInOrder(c, s, verdicts, n - 1);
      var t, v := Run(c, s, Executions(verdicts, n - 1)), verdicts(n - 1);
      RunOne(c, s, Executions(verdicts, n - 1), Execute(v.succeeds, v.at));
      TakesNext(c, s, t, verdicts, n - 1);
    }
  }

  /** A whole drain of an idle executor executes what it listed after its sweep, in order, all of it. */
  lemma DrainInOrder(c: Config, s: State, now: int, verdicts: nat -> Verdict)
    requires s.batch == []
    ensures var listed := ApplyBeginDrain(s, now).batch;
            Took(s.(batch := listed), Drain(c, s, now, verdicts), verdicts, |listed|)
  {
    var u := ApplyBeginDrain(s, now);
    ExecutionsInOrder(c, u, verdicts, |u.batch|);
    TookFrom(u, s.(batch := u.batch), Drain(c, s, now, verdicts), verdicts);
  }

  lemma TookFrom(u: State, w: State, t: State, verdicts: nat -> Verdict)
    requires u.batch == w.batch && u.log == w.log && Took(u, t, verdicts, |u.batch|)
    ensures Took(w, t, verdicts, |w.batch|)
  {
  }
}
