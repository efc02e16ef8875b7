/** What health rules and alert operations answer, told from the readings and the rows. */
module AlertAnswers {
  import opened Common
  import opened AlertModel
  import opened AlertLaws
  import opened AlertOperations

  // ---------------------------------------------------------------------------------------
  // The rules

  predicate IsOffline(summary: Summary) {
    summary.healthState == OfflineState || summary.connectivity == OfflineLink
  }

  predicate IsDegraded(summary: Summary) {
    summary.healthState == Degraded || summary.connectivity == DegradedLink
  }

  predicate BatteryBelow(summary: Summary, percent: real) {
    summary.batteryPercent.Some? && summary.batteryPercent.value as real < percent
  }

  /** Less than that share of the storage is free. */
  predicate StorageBelow(summary: Summary, percent: real) {
    && summary.storageFreeBytes.Some? && summary.storageTotalBytes.Some? && summary.storageTotalBytes.value > 0
    && 100.0 * summary.storageFreeBytes.value as real < percent * summary.storageTotalBytes.value as real
  }

  predicate SilentFor(summary: Summary, seconds: int) {
    summary.lastSeenSecondsAgo.Some? && summary.lastSeenSecondsAgo.value > seconds
  }

  lemma ShareBelow(free: real, total: real, percent: real)
    requires total > 0.0
    ensures free / total * 100.0 < percent <==> 100.0 * free < percent * total
  {
    var share := free / total;
    assert share * total == free;
    if share * 100.0 < percent {
      Scaled(share * 100.0, percent, total);
      assert share * 100.0 * total == 100.0 * (share * total);
    } else {
      ScaledUp(percent, share * 100.0, total);
      assert share * 100.0 * total == 100.0 * (share * total);
    }
  }

  lemma Scaled(x: real, y: real, k: real)
    requires k > 0.0 && x < y
    ensures x * k < y * k
  {
  }

  lemma ScaledUp(x: real, y: real, k: real)
    requires k > 0.0 && x <= y
    ensures x * k <= y * k
  {
  }

  /** What each rule reads, with the thresholds of rules that give none: 20 percent, 10 percent, 60 seconds. */
  lemma RuleReads(rule: Rule, summary: Summary)
    ensures Triggered(rule, summary) <==>
              && rule.enabled
              && match rule.ruleType
                 case LowBattery => BatteryBelow(summary, if rule.threshold.Some? then rule.threshold.value else 20.0)
                 case LowStorage => StorageBelow(summary, if rule.threshold.Some? then rule.threshold.value else 10.0)
                 case Offline => IsOffline(summary)
                 case DegradedConnection => IsDegraded(summary)
                 case HeartbeatDelayed =>
                   SilentFor(summary, if rule.durationSeconds.Some? then rule.durationSeconds.value else 60)
                 case HealthUnknown => summary.healthState == Unknown
  {
    if rule.ruleType.LowStorage? && summary.storageFreeBytes.Some? && summary.storageTotalBytes.Some?
       && summary.storageTotalBytes.value > 0 {
      ShareBelow(summary.storageFreeBytes.value as real, summary.storageTotalBytes.value as real,
                 if rule.threshold.Some? then rule.threshold.value else 10.0);
    }
  }

  // ---------------------------------------------------------------------------------------
  // Rows

  /**
   A report of a key with an open alert gives that alert the severity and the time and leaves
   the rest of it, and every other row, alone; otherwise it appends an active alert.
   */
  lemma ReportAnswers(s: State, key: Key, severity: Severity, now: int)
    requires Kept(s)
    ensures var t := Apply(s, Report(key, severity, now));
            if HasOpen(s.rows, key)
            then && |t.rows| == |s.rows| && t.nextId == s.nextId
                 && forall i | 0 <= i < |s.rows| ::
                      t.rows[i] == if OpenFor(s.rows[i], key) then s.rows[i].(severity := severity, lastSeenAt := now)
                                   else s.rows[i]
            else t.rows == s.rows + [Alert(s.nextId, key, severity, Active, now, now)] && t.nextId == s.nextId + 1
  {
    var found := LatestOpen(s.rows, key);
    if found.Some? {
      assert OpenFor(s.rows[found.value], key);
    }
  }

  /** A clear resolves the open alert of its key, if any, and leaves every other row alone. */
  lemma ClearAnswers(s: State, key: Key)
    requires Kept(s)
    ensures var t := Apply(s, Clear(key));
            && |t.rows| == |s.rows| && t.nextId == s.nextId
            && forall i | 0 <= i < |s.rows| ::
                 t.rows[i] == if OpenFor(s.rows[i], key) then s.rows[i].(status := Resolved) else s.rows[i]
  {
    var found := LatestOpen(s.rows, key);
  }

  /** What the operations on one alert make of a row: only the one named, and only in the statuses given. */
  lemma StatusAnswers(s: State, id: int)
    requires Kept(s)
    ensures var a, d, r := Apply(s, Acknowledge(id)), Apply(s, Dismiss(id)), Apply(s, Resolve(id));
            && |a.rows| == |d.rows| == |r.rows| == |s.rows|
            && a.nextId == d.nextId == r.nextId == s.nextId
            && forall i | 0 <= i < |s.rows| ::
                 && a.rows[i] == (if s.rows[i].id == id && s.rows[i].status == Active
                                  then s.rows[i].(status := Acknowledged) else s.rows[i])
                 && d.rows[i] == (if s.rows[i].id == id && s.rows[i].status in {Active, Acknowledged}
                                  then s.rows[i].(status := Dismissed) else s.rows[i])
                 && r.rows[i] == (if s.rows[i].id == id && s.rows[i].status != Resolved
                                  then s.rows[i].(status := Resolved) else s.rows[i])
  {
    if Find(s.rows, id).Some? {
      var i := FindRow(s.rows, id);
    } else {
      FindsNothing(s.rows, id);
    }
  }

  lemma {:induction false} FindsNothing(rows: seq<Alert>, id: int)
    requires Find(rows, id).None?
    ensures forall i | 0 <= i < |rows| :: rows[i].id != id
  {
    if rows != [] {
      FindsNothing(rows[1..], id);
      assert forall i | 1 <= i < |rows| :: rows[i] == rows[1..][i - 1];
    }
  }

  // ---------------------------------------------------------------------------------------
  // What an evaluation writes

  /** The key has an open alert with that severity, seen at that time. */
  ghost predicate Stamped(rows: seq<Alert>, key: Key, severity: Severity, now: int) {
    exists i | 0 <= i < |rows| :: OpenFor(rows[i], key) && rows[i].severity == severity && rows[i].lastSeenAt == now
  }

  lemma ReportStamps(s: State, key: Key, severity: Severity, now: int)
    requires Kept(s)
    ensures Stamped(ApplyReport(s, key, severity, now).rows, key, severity, now)
  {
    ReportAnswers(s, key, severity, now);
    var t := Apply(s, Report(key, severity, now)).rows;
    if HasOpen(s.rows, key) {
      var i :| 0 <= i < |s.rows| && OpenFor(s.rows[i], key);
      assert OpenFor(t[i], key);
    } else {
      assert OpenFor(t[|s.rows|], key);
    }
  }

  lemma StampStays(s: State, key: Key, severity: Severity, now: int, other: Key, level: Severity)
    requires Kept(s) && Stamped(s.rows, key, severity, now) && other != key
    ensures Stamped(ApplyReport(s, other, level, now).rows, key, severity, now)
    ensures Stamped(AutoResolve(s.rows, other), key, severity, now)
  {
    ReportAnswers(s, other, level, now);
    ClearAnswers(s, other);
    var i :| 0 <= i < |s.rows| && OpenFor(s.rows[i], key) && s.rows[i].severity == severity && s.rows[i].lastSeenAt == now;
    assert Apply(s, Report(other, level, now)).rows[i] == s.rows[i];
    assert Apply(s, Clear(other)).rows[i] == s.rows[i];
  }

  /** With one rule a type, each triggered rule leaves its alert open with its severity, seen now. */
  lemma {:induction false} EvaluationStamps(s: State, device: string, policy: string, rules: seq<Rule>,
                                           summary: Summary, now: int, i: nat)
    requires Kept(s) && DistinctTypes(rules)
    requires i < |rules| && Triggered(rules[i], summary)
    ensures Stamped(Evaluate(s, device, policy, rules, summary, now).rows, Key(device, policy, rules[i].ruleType),
                    rules[i].severity, now)
  {
    var n := |rules| - 1;
    var u := Evaluate(s, device, policy, rules[..n], summary, now);
    KeptEvaluate(s, device, policy, rules[..n], summary, now);
    if i == n {
      ReportStamps(u, Key(device, policy, rules[i].ruleType), rules[i].severity, now);
    } else {
      EvaluationStamps(s, device, policy, rules[..n], summary, now, i);
      StampStays(u, Key(device, policy, rules[i].ruleType), rules[i].severity, now,
                 Key(device, policy, rules[n].ruleType), rules[n].severity);
    }
  }
}
