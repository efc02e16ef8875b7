/** Every operation on alerts keeps the table fit for evaluation. */
module AlertOperations {
  import opened Common
  import opened AlertModel
  import opened AlertLaws

  ghost predicate UniqueIds(s: State) {
    && (forall i, j | 0 <= i < j < |s.rows| :: s.rows[i].id != s.rows[j].id)
    && (forall i | 0 <= i < |s.rows| :: s.rows[i].id < s.nextId)
  }

  ghost predicate Kept(s: State) {
    UniqueIds(s) && OneOpenPerKey(s.rows)
  }

  lemma {:induction false} FindRow(rows: seq<Alert>, id: int) returns (i: nat)
    requires Find(rows, id).Some?
    ensures i < |rows| && rows[i] == Find(rows, id).value && rows[i].id == id
  {
    if rows[0].id == id {
      i := 0;
    } else {
      var k := FindRow(rows[1..], id);
      i := k + 1;
    }
  }

  lemma StatusTouchesOne(s: State, i: nat, status: Status)
    requires UniqueIds(s) && i < |s.rows|
    ensures WithStatus(s.rows, s.rows[i].id, status) == s.rows[i := s.rows[i].(status := status)]
  {
  }

  lemma KeptReport(s: State, key: Key, severity: Severity, now: int)
    requires Kept(s)
    ensures Kept(ApplyReport(s, key, severity, now))
  {
    CreateOpens(s.rows, key, severity, now, s.nextId, key);
    var t := ApplyReport(s, key, severity, now);
    forall i, j | 0 <= i < j < |t.rows|
      ensures t.rows[i].id != t.rows[j].id
    {
      assert t.rows[i].id == s.rows[i].id;
    }
  }

  lemma KeptClear(s: State, key: Key)
    requires Kept(s)
    ensures Kept(s.(rows := AutoResolve(s.rows, key)))
  {
    AutoResolveCloses(s.rows, key, key);
  }

  lemma {:induction false} KeptEvaluate(s: State, device: string, policy: string, rules: seq<Rule>,
                                        summary: Summary, now: int)
    requires Kept(s)
    ensures Kept(Evaluate(s, device, policy, rules, summary, now))
  {
    if rules != [] {
      var n := |rules| - 1;
      KeptEvaluate(s, device, policy, rules[..n], summary, now);
      var t := Evaluate(s, device, policy, rules[..n], summary, now);
      var key := Key(device, policy, rules[n].ruleType);
      KeptReport(t, key, rules[n].severity, now);
      KeptClear(t, key);
    }
  }

  lemma KeptSetStatus(s: State, i: nat, status: Status)
    requires Kept(s) && i < |s.rows|
    requires s.rows[i].IsOpen() || !(status.Active? || status.Acknowledged?)
    ensures Kept(s.(rows := WithStatus(s.rows, s.rows[i].id, status)))
  {
    StatusTouchesOne(s, i, status);
  }

  lemma {:induction false} RetainedRows(rows: seq<Alert>, cutoff: int, a: Alert)
    ensures a in Retained(rows, cutoff) <==> a in rows && (a.IsOpen() || cutoff <= a.createdAt)
  {
    if rows != [] {
      var n := |rows| - 1;
      RetainedRows(rows[..n], cutoff, a);
      assert rows == rows[..n] + [rows[n]];
    }
  }

  lemma {:induction false} KeptCleanup(s: State, cutoff: int)
    requires Kept(s)
    ensures Kept(s.(rows := Retained(s.rows, cutoff)))
    decreases |s.rows|
  {
    if s.rows != [] {
      var n := |s.rows| - 1;
      var before := s.(rows := s.rows[..n]);
      KeptCleanup(before, cutoff);
      forall i | 0 <= i < |Retained(before.rows, cutoff)|
        ensures var a := Retained(before.rows, cutoff)[i];
                a.id != s.rows[n].id && (a.IsOpen() && s.rows[n].IsOpen() ==> a.key != s.rows[n].key)
      {
        var a := Retained(before.rows, cutoff)[i];
        RetainedRows(before.rows, cutoff, a);
        var k :| 0 <= k < n && s.rows[..n][k] == a;
      }
    }
  }

  lemma KeptStep(s: State, op: Op)
    requires Kept(s)
    ensures Kept(Apply(s, op))
  {
    match op
    case EvaluateHealth(device, policy, rules, summary, now) => KeptEvaluate(s, device, policy, rules, summary, now);
    case Report(key, severity, now) => KeptReport(s, key, severity, now);
    case Clear(key) => KeptClear(s, key);
    case Acknowledge(id) =>
      if Find(s.rows, id).Some? && Find(s.rows, id).value.status.Active? {
        var i := FindRow(s.rows, id);
        KeptSetStatus(s, i, Acknowledged);
      }
    case Dismiss(id) =>
      if Find(s.rows, id).Some? {
        var i := FindRow(s.rows, id);
        KeptSetStatus(s, i, Dismissed);
      }
    case Resolve(id) =>
      if Find(s.rows, id).Some? {
        var i := FindRow(s.rows, id);
        KeptSetStatus(s, i, Resolved);
      }
    case Cleanup(cutoff) => KeptCleanup(s, cutoff);
  }

  lemma {:induction false} KeptRun(ops: seq<Op>)
    ensures Kept(Run(State([], 0), ops))
  {
    if ops != [] {
      KeptRun(ops[..|ops| - 1]);
      KeptStep(Run(State([], 0), ops[..|ops| - 1]), ops[|ops| - 1]);
    }
  }

  /**
   After any history of alert operations, an evaluation leaves open exactly the triggered
   rules among the policy's keys and nothing else touched; clean-up removes no open alert.
   */
  lemma {:induction false} EvaluationAfterAnyHistory(ops: seq<Op>, device: string, policy: string, rules: seq<Rule>,
                                  summary: Summary, now: int, i: nat)
    requires DistinctTypes(rules)
    requires i < |rules|
    ensures var s := Run(State([], 0), ops);
            var t := Evaluate(s, device, policy, rules, summary, now);
            && (HasOpen(t.rows, Key(device, policy, rules[i].ruleType)) <==> Triggered(rules[i], summary))
            && LeavesOthers(s.rows, t.rows, device, policy)
            && OneOpenPerKey(t.rows)
  {
    KeptRun(ops);
    OpenExactlyWhenTriggered(Run(State([], 0), ops), device, policy, rules, summary, now, i);
    EvaluationReconciles(Run(State([], 0), ops), device, policy, rules, summary, now,
                         Key(device, policy, rules[i].ruleType));
  }
}
