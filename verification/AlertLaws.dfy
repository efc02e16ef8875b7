/** What alert evaluation and the alert operations keep. */
module AlertLaws {
  import opened Common
  import opened AlertModel

  // ---------------------------------------------------------------------------------------
  // The rules

  /** The same device with no better a reading: less charge, less free space, longer silence. */
  ghost predicate NoBetter(a: Summary, b: Summary) {
    && a.healthState == b.healthState && a.connectivity == b.connectivity
    && a.storageTotalBytes == b.storageTotalBytes
    && (a.batteryPercent.Some? ==> b.batteryPercent.Some? && b.batteryPercent.value <= a.batteryPercent.value)
    && (a.storageFreeBytes.Some? ==> b.storageFreeBytes.Some? && b.storageFreeBytes.value <= a.storageFreeBytes.value)
    && (a.lastSeenSecondsAgo.Some? ==> b.lastSeenSecondsAgo.Some? && b.lastSeenSecondsAgo.value >= a.lastSeenSecondsAgo.value)
  }

  lemma ShareIsMonotone(f: real, g: real, total: real)
    requires g <= f && total > 0.0
    ensures g / total * 100.0 <= f / total * 100.0
  {
    assert g / total <= f / total;
  }

  /** Readings that get no better never clear a triggered rule. */
  lemma WorseStaysTriggered(rule: Rule, a: Summary, b: Summary)
    requires NoBetter(a, b) && Triggered(rule, a)
    ensures Triggered(rule, b)
  {
    if rule.ruleType.LowStorage? {
      ShareIsMonotone(a.storageFreeBytes.value as real, b.storageFreeBytes.value as real,
                      a.storageTotalBytes.value as real);
    }
  }

  // ---------------------------------------------------------------------------------------
  // At most one open alert a key

  ghost predicate OneOpenPerKey(rows: seq<Alert>) {
    forall i, j | 0 <= i < j < |rows| :: rows[i].IsOpen() && rows[j].IsOpen() ==> rows[i].key != rows[j].key
  }

  ghost predicate HasOpen(rows: seq<Alert>, key: Key) {
    exists i | 0 <= i < |rows| :: OpenFor(rows[i], key)
  }

  /** Rows of other keys stay where they are; rows are only ever appended. */
  ghost predicate LeavesOthers(before: seq<Alert>, after: seq<Alert>, device: string, policy: string) {
    && |before| <= |after|
    && (forall i | 0 <= i < |before| ::
          && after[i].id == before[i].id && after[i].key == before[i].key
          && after[i].createdAt == before[i].createdAt
          && (before[i].key.device != device || before[i].key.policy != policy ==> after[i] == before[i])
          && (!before[i].IsOpen() ==> after[i] == before[i]))
    && (forall i | |before| <= i < |after| :: after[i].key.device == device && after[i].key.policy == policy)
  }

  lemma HasOpenOne(rows: seq<Alert>, i: nat, a: Alert, key: Key)
    requires i < |rows|
    requires a.key == rows[i].key
    requires OneOpenPerKey(rows) && rows[i].IsOpen()
    ensures HasOpen(rows[i := a], key) <==> if key == a.key then a.IsOpen() else HasOpen(rows, key)
    ensures OneOpenPerKey(rows[i := a])
  {
    var t := rows[i := a];
    if HasOpen(rows, key) {
      var k :| 0 <= k < |rows| && OpenFor(rows[k], key);
      assert k != i ==> t[k] == rows[k];
    }
    if HasOpen(t, key) {
      var k :| 0 <= k < |t| && OpenFor(t[k], key);
      assert k != i ==> t[k] == rows[k];
    }
    if a.IsOpen() {
      assert OpenFor(t[i], a.key);
    }
  }

  lemma CreateOpens(rows: seq<Alert>, key: Key, severity: Severity, now: int, newId: int, other: Key)
    requires OneOpenPerKey(rows)
    ensures var t := CreateOrUpdate(rows, key, severity, now, newId);
            && OneOpenPerKey(t)
            && (HasOpen(t, other) <==> other == key || HasOpen(rows, other))
            && LeavesOthers(rows, t, key.device, key.policy)
            && (|t| == |rows| <==> HasOpen(rows, key))
  {
    var found := LatestOpen(rows, key);
    if found.Some? {
      var i := found.value;
      HasOpenOne(rows, i, rows[i].(severity := severity, lastSeenAt := now), other);
      assert OpenFor(rows[i], key);
    } else {
      var t := rows + [Alert(newId, key, severity, Active, now, now)];
      assert OpenFor(t[|rows|], key);
      if HasOpen(rows, other) {
        var k :| 0 <= k < |rows| && OpenFor(rows[k], other);
        assert OpenFor(t[k], other);
      }
    }
  }

  lemma AutoResolveCloses(rows: seq<Alert>, key: Key, other: Key)
    requires OneOpenPerKey(rows)
    ensures var t := AutoResolve(rows, key);
            && OneOpenPerKey(t)
            && (HasOpen(t, other) <==> other != key && HasOpen(rows, other))
            && LeavesOthers(rows, t, key.device, key.policy)
            && |t| == |rows|
  {
    var found := LatestOpen(rows, key);
    if found.Some? {
      HasOpenOne(rows, found.value, rows[found.value].(status := Resolved), other);
    }
  }

  // ---------------------------------------------------------------------------------------
  // Reconciliation

  /** The verdict of the last rule of a type, if the list has one. */
  function LastVerdict(rules: seq<Rule>, ruleType: RuleType, summary: Summary): Option<bool> {
    if rules == [] then None
    else
      var n := |rules| - 1;
      if rules[n].ruleType == ruleType then Some(Triggered(rules[n], summary))
      else LastVerdict(rules[..n], ruleType, summary)
  }

  lemma RuleReconciles(s: State, device: string, policy: string, rule: Rule, summary: Summary, now: int, key: Key)
    requires OneOpenPerKey(s.rows)
    ensures var t := EvaluateRule(s, device, policy, rule, summary, now);
            && OneOpenPerKey(t.rows)
            && LeavesOthers(s.rows, t.rows, device, policy)
            && (HasOpen(t.rows, key) <==> if key == Key(device, policy, rule.ruleType) then Triggered(rule, summary)
                                          else HasOpen(s.rows, key))
            && (|t.rows| == |s.rows| <==>
                  Triggered(rule, summary) ==> HasOpen(s.rows, Key(device, policy, rule.ruleType)))
  {
    var k := Key(device, policy, rule.ruleType);
    if Triggered(rule, summary) {
      CreateOpens(s.rows, k, rule.severity, now, s.nextId, key);
    } else {
      AutoResolveCloses(s.rows, k, key);
    }
  }

  lemma LeavesOthersTwice(a: seq<Alert>, b: seq<Alert>, d: seq<Alert>, device: string, policy: string)
    requires LeavesOthers(a, b, device, policy) && LeavesOthers(b, d, device, policy)
    ensures LeavesOthers(a, d, device, policy)
  {
    forall i | |a| <= i < |d|
      ensures d[i].key.device == device && d[i].key.policy == policy
    {
      if i < |b| {
        assert d[i].key == b[i].key;
      }
    }
  }

  /**
   After an evaluation, the open alerts of the device's policy agree with the rules: a key
   whose type has a rule is open exactly if the last such rule triggers. Every other alert,
   open or closed, is untouched.
   */
  lemma {:induction false} EvaluationReconciles(s: State, device: string, policy: string, rules: seq<Rule>,
                                               summary: Summary, now: int, key: Key)
    requires OneOpenPerKey(s.rows)
    ensures var t := Evaluate(s, device, policy, rules, summary, now);
            && OneOpenPerKey(t.rows)
            && LeavesOthers(s.rows, t.rows, device, policy)
            && (HasOpen(t.rows, key) <==>
                  var v := LastVerdict(rules, key.ruleType, summary);
                  if key.device == device && key.policy == policy && v.Some? then v.value else HasOpen(s.rows, key))
  {
    if rules != [] {
      var n := |rules| - 1;
      var u := Evaluate(s, device, policy, rules[..n], summary, now);
      EvaluationReconciles(s, device, policy, rules[..n], summary, now, key);
      RuleReconciles(u, device, policy, rules[n], summary, now, key);
      LeavesOthersTwice(s.rows, u.rows, Evaluate(s, device, policy, rules, summary, now).rows, device, policy);
    }
  }

  ghost predicate DistinctTypes(rules: seq<Rule>) {
    forall i, j | 0 <= i < j < |rules| :: rules[i].ruleType != rules[j].ruleType
  }

  lemma {:induction false} DistinctTypesDecide(rules: seq<Rule>, i: nat, summary: Summary)
    requires DistinctTypes(rules)
    requires i < |rules|
    ensures LastVerdict(rules, rules[i].ruleType, summary) == Some(Triggered(rules[i], summary))
  {
    var n := |rules| - 1;
    if i < n {
      DistinctTypesDecide(rules[..n], i, summary);
    }
  }

  /** With one rule a type, exactly the triggered rules have an open alert. */
  lemma OpenExactlyWhenTriggered(s: State, device: string, policy: string, rules: seq<Rule>,
                                 summary: Summary, now: int, i: nat)
    requires OneOpenPerKey(s.rows)
    requires DistinctTypes(rules)
    requires i < |rules|
    ensures HasOpen(Evaluate(s, device, policy, rules, summary, now).rows, Key(device, policy, rules[i].ruleType))
       <==> Triggered(rules[i], summary)
  {
    EvaluationReconciles(s, device, policy, rules, summary, now, Key(device, policy, rules[i].ruleType));
    DistinctTypesDecide(rules, i, summary);
  }

  // ---------------------------------------------------------------------------------------
  // Evaluating the same summary again

  /** Rules of one type agree on the summary. */
  ghost predicate Agree(rules: seq<Rule>, summary: Summary) {
    forall i, j | 0 <= i < j < |rules| && rules[i].ruleType == rules[j].ruleType ::
      Triggered(rules[i], summary) == Triggered(rules[j], summary)
  }

  /** The table is as an evaluation of these rules leaves it. */
  ghost predicate Reconciled(rows: seq<Alert>, device: string, policy: string, rules: seq<Rule>, summary: Summary) {
    forall r: RuleType ::
      var v := LastVerdict(rules, r, summary);
      v.Some? ==> (HasOpen(rows, Key(device, policy, r)) <==> v.value)
  }

  lemma EvaluationLeavesReconciled(s: State, device: string, policy: string, rules: seq<Rule>, summary: Summary, now: int)
    requires OneOpenPerKey(s.rows)
    ensures OneOpenPerKey(Evaluate(s, device, policy, rules, summary, now).rows)
    ensures Reconciled(Evaluate(s, device, policy, rules, summary, now).rows, device, policy, rules, summary)
  {
    forall r: RuleType
      ensures OneOpenPerKey(Evaluate(s, device, policy, rules, summary, now).rows)
      ensures var v := LastVerdict(rules, r, summary);
              v.Some? ==> (HasOpen(Evaluate(s, device, policy, rules, summary, now).rows, Key(device, policy, r)) <==> v.value)
    {
      EvaluationReconciles(s, device, policy, rules, summary, now, Key(device, policy, r));
    }
    EvaluationReconciles(s, device, policy, rules, summary, now, Key(device, policy, LowBattery));
  }

  lemma {:induction false} LastVerdictIsRule(rules: seq<Rule>, r: RuleType, summary: Summary) returns (i: nat)
    requires LastVerdict(rules, r, summary).Some?
    ensures i < |rules| && rules[i].ruleType == r
    ensures LastVerdict(rules, r, summary) == Some(Triggered(rules[i], summary))
    ensures forall j | i < j < |rules| :: rules[j].ruleType != r
  {
    var n := |rules| - 1;
    if rules[n].ruleType == r {
      i := n;
    } else {
      i := LastVerdictIsRule(rules[..n], r, summary);
    }
  }

  lemma {:induction false} RuleHasVerdict(rules: seq<Rule>, i: nat, summary: Summary)
    requires i < |rules|
    ensures LastVerdict(rules, rules[i].ruleType, summary).Some?
  {
    var n := |rules| - 1;
    if i < n {
      RuleHasVerdict(rules[..n], i, summary);
    }
  }

  /** How far an evaluation has come without a new row: prefix by prefix. */
  lemma {:induction false} PrefixRows(s: State, device: string, policy: string, rules: seq<Rule>,
                                     summary: Summary, now: int, k: nat)
    requires OneOpenPerKey(s.rows)
    requires k <= |rules|
    ensures |s.rows| <= |Evaluate(s, device, policy, rules[..k], summary, now).rows|
         <= |Evaluate(s, device, policy, rules, summary, now).rows|
  {
    EvaluationReconciles(s, device, policy, rules[..k], summary, now, Key(device, policy, LowBattery));
    if k < |rules| {
      var n := |rules| - 1;
      PrefixRows(s, device, policy, rules[..n], summary, now, k);
      assert rules[..n][..k] == rules[..k];
      EvaluationReconciles(s, device, policy, rules[..n], summary, now, Key(device, policy, LowBattery));
      RuleReconciles(Evaluate(s, device, policy, rules[..n], summary, now), device, policy, rules[n], summary, now,
                     Key(device, policy, LowBattery));
    } else {
      assert rules[..k] == rules;
    }
  }

  /** Rule k makes a new row exactly if it triggers and the rules before it left its key closed. */
  lemma RuleAddsRow(s: State, device: string, policy: string, rules: seq<Rule>, summary: Summary, now: int, k: nat)
    requires OneOpenPerKey(s.rows)
    requires k < |rules|
    ensures var t := Evaluate(s, device, policy, rules[..k], summary, now);
            var u := Evaluate(s, device, policy, rules[..k + 1], summary, now);
            var v := LastVerdict(rules[..k], rules[k].ruleType, summary);
            |t.rows| < |u.rows| <==>
              && Triggered(rules[k], summary)
              && !(if v.Some? then v.value else HasOpen(s.rows, Key(device, policy, rules[k].ruleType)))
  {
    var key := Key(device, policy, rules[k].ruleType);
    assert rules[..k + 1][..k] == rules[..k];
    EvaluationReconciles(s, device, policy, rules[..k], summary, now, key);
    var t := Evaluate(s, device, policy, rules[..k], summary, now);
    RuleReconciles(t, device, policy, rules[k], summary, now, key);
    PrefixRows(s, device, policy, rules[..k + 1], summary, now, k);
  }

  /** Two rules of one type that disagree force a new row out of a reconciled table. */
  lemma DisagreementAddsRow(s: State, device: string, policy: string, rules: seq<Rule>, summary: Summary, now: int,
                            i: nat, j: nat)
    requires OneOpenPerKey(s.rows) && Reconciled(s.rows, device, policy, rules, summary)
    requires i < |rules| && j < |rules| && rules[i].ruleType == rules[j].ruleType
    requires Triggered(rules[i], summary) && !Triggered(rules[j], summary)
    ensures |s.rows| < |Evaluate(s, device, policy, rules, summary, now).rows|
  {
    var k := FirstAfterClosed(s, device, policy, rules, summary, i, j);
    RuleAddsRow(s, device, policy, rules, summary, now, k);
    PrefixRows(s, device, policy, rules, summary, now, k);
    PrefixRows(s, device, policy, rules, summary, now, k + 1);
    assert rules[..k + 1][..k] == rules[..k];
  }

  /** Some rule of the type triggers just after the key was closed. */
  lemma FirstAfterClosed(s: State, device: string, policy: string, rules: seq<Rule>, summary: Summary, i: nat, j: nat)
    returns (k: nat)
    requires Reconciled(s.rows, device, policy, rules, summary)
    requires i < |rules| && j < |rules| && rules[i].ruleType == rules[j].ruleType
    requires Triggered(rules[i], summary) && !Triggered(rules[j], summary)
    ensures k < |rules| && rules[k].ruleType == rules[i].ruleType && Triggered(rules[k], summary)
    ensures var v := LastVerdict(rules[..k], rules[k].ruleType, summary);
            !(if v.Some? then v.value else HasOpen(s.rows, Key(device, policy, rules[k].ruleType)))
  {
    var r := rules[i].ruleType;
    RuleHasVerdict(rules, i, summary);
    var last := LastVerdictIsRule(rules, r, summary);
    if Triggered(rules[last], summary) {
      k := TriggerAfter(rules, summary, r, j, last);
    } else {
      k := FirstTrigger(rules, summary, r, i);
    }
  }

  /** Between a rule that does not trigger and a later one that does, one triggers right after a clear one. */
  lemma {:induction false} TriggerAfter(rules: seq<Rule>, summary: Summary, r: RuleType, j: nat, m: nat) returns (k: nat)
    requires j < m < |rules|
    requires rules[j].ruleType == r == rules[m].ruleType
    requires !Triggered(rules[j], summary) && Triggered(rules[m], summary)
    ensures k < |rules| && rules[k].ruleType == r && Triggered(rules[k], summary)
    ensures LastVerdict(rules[..k], r, summary) == Some(false)
    decreases m
  {
    RuleHasVerdict(rules[..m], j, summary);
    var p := LastVerdictIsRule(rules[..m], r, summary);
    if Triggered(rules[p], summary) {
      k := TriggerAfter(rules, summary, r, j, p);
    } else {
      k := m;
    }
  }

  /** The first rule of the type that triggers has only clear ones before it. */
  lemma {:induction false} FirstTrigger(rules: seq<Rule>, summary: Summary, r: RuleType, i: nat) returns (k: nat)
    requires i < |rules| && rules[i].ruleType == r && Triggered(rules[i], summary)
    ensures k < |rules| && rules[k].ruleType == r && Triggered(rules[k], summary)
    ensures LastVerdict(rules[..k], r, summary) != Some(true)
    decreases i
  {
    if LastVerdict(rules[..i], r, summary) == Some(true) {
      var p := LastVerdictIsRule(rules[..i], r, summary);
      k := FirstTrigger(rules, summary, r, p);
    } else {
      k := i;
    }
  }

  lemma {:induction false} AgreementAddsNone(s: State, device: string, policy: string, rules: seq<Rule>,
                                            summary: Summary, now: int, k: nat)
    requires OneOpenPerKey(s.rows) && Reconciled(s.rows, device, policy, rules, summary)
    requires Agree(rules, summary)
    requires k <= |rules|
    ensures |Evaluate(s, device, policy, rules[..k], summary, now).rows| == |s.rows|
  {
    if k > 0 {
      var m := k - 1;
      AgreementAddsNone(s, device, policy, rules, summary, now, m);
      RuleAddsRow(s, device, policy, rules, summary, now, m);
      PrefixRows(s, device, policy, rules[..k], summary, now, m);
      assert rules[..k][..m] == rules[..m];
      var r := rules[m].ruleType;
      if LastVerdict(rules[..m], r, summary).Some? {
        var p := LastVerdictIsRule(rules[..m], r, summary);
      } else {
        RuleHasVerdict(rules, m, summary);
        var p := LastVerdictIsRule(rules, r, summary);
        assert Triggered(rules[m], summary) ==> HasOpen(s.rows, Key(device, policy, r));
      }
    }
  }

  /**
   Evaluating the same summary again creates no row exactly if rules of one type agree on it.
   One rule a type always does.
   */
  lemma SecondEvaluationAddsNothing(s: State, device: string, policy: string, rules: seq<Rule>,
                                    summary: Summary, first: int, second: int)
    requires OneOpenPerKey(s.rows)
    ensures var t := Evaluate(s, device, policy, rules, summary, first);
            |Evaluate(t, device, policy, rules, summary, second).rows| == |t.rows| <==> Agree(rules, summary)
    ensures DistinctTypes(rules) ==> Agree(rules, summary)
  {
    var t := Evaluate(s, device, policy, rules, summary, first);
    EvaluationLeavesReconciled(s, device, policy, rules, summary, first);
    if Agree(rules, summary) {
      AgreementAddsNone(t, device, policy, rules, summary, second, |rules|);
      assert rules[..|rules|] == rules;
    } else {
      var i, j :| 0 <= i < j < |rules| && rules[i].ruleType == rules[j].ruleType
                  && Triggered(rules[i], summary) != Triggered(rules[j], summary);
      if Triggered(rules[i], summary) {
        DisagreementAddsRow(t, device, policy, rules, summary, second, i, j);
      } else {
        DisagreementAddsRow(t, device, policy, rules, summary, second, j, i);
      }
    }
  }
}
