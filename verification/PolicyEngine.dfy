/** The policy engine: a device's policy, created on demand, and its evaluation. */
module PolicyEngine {
  import opened Common
  import opened AlertModel
  import opened AlertManager
  import AlertAnswers
  import AlertLaws
  import AlertOperations
  import PairingModel

  // ---------------------------------------------------------------------------------------
  // Policies

  datatype Policy = Policy(id: string, device: string, enabled: bool, rules: seq<Rule>, createdAt: int)

  datatype Config = Config(batteryThreshold: real, storageThreshold: real, degradedSeconds: int, offlineSeconds: int,
                           evaluationEnabled: bool)

  function DefaultRules(c: Config): seq<Rule> {
    [Rule(LowBattery, true, Some(c.batteryThreshold), None, Warning),
     Rule(LowStorage, true, Some(c.storageThreshold), None, Warning),
     Rule(HeartbeatDelayed, true, None, Some(c.degradedSeconds), Warning),
     Rule(Offline, true, None, Some(c.offlineSeconds), Critical),
     Rule(DegradedConnection, true, None, None, Warning)]
  }

  lemma DefaultTypesAreDistinct(c: Config)
    ensures AlertLaws.DistinctTypes(DefaultRules(c))
  {
  }

  /** The row that ORDER BY created_at DESC LIMIT 1 picks among the policies of a device. */
  function LatestPolicy(rows: seq<Policy>, device: string): (r: Option<Policy>)
    ensures r.Some? ==> r.value in rows && r.value.device == device
    ensures r.Some? ==> forall p | p in rows && p.device == device :: p.createdAt <= r.value.createdAt
    ensures r.None? ==> forall p | p in rows :: p.device != device
  {
    if rows == [] then None
    else
      var last := rows[|rows| - 1];
      var before := LatestPolicy(rows[..|rows| - 1], device);
      assert forall p | p in rows :: p == last || p in rows[..|rows| - 1];
      if last.device == device && (before.None? || before.value.createdAt < last.createdAt) then Some(last) else before
  }

  predicate IdTaken(rows: seq<Policy>, id: string) {
    exists i | 0 <= i < |rows| :: rows[i].id == id
  }

  datatype Fetched = Found(policy: Policy) | InvalidDevice | Conflict

  /** The device's policy and the table after fetching it: a default one is created when there is none. */
  function Ensured(c: Config, rows: seq<Policy>, device: string, newId: string, now: int): (seq<Policy>, Fetched) {
    var existing := LatestPolicy(rows, device);
    if existing.Some? then (rows, Found(existing.value))
    else if !PairingModel.ValidIdentity(device) then (rows, InvalidDevice)
    else if IdTaken(rows, newId) then (rows, Conflict)
    else
      var policy := Policy(newId, device, true, DefaultRules(c), now);
      (rows + [policy], Found(policy))
  }

  /** A policy once fetched is the one fetched the next time, by whatever clock and with nothing created. */
  lemma EnsuredOnce(c: Config, rows: seq<Policy>, device: string, newId: string, now: int, otherId: string, later: int)
    requires Ensured(c, rows, device, newId, now).1.Found?
    ensures var (t, fetched) := Ensured(c, rows, device, newId, now);
            Ensured(c, t, device, otherId, later) == (t, fetched)
  {
    var (t, fetched) := Ensured(c, rows, device, newId, now);
    if LatestPolicy(rows, device).None? {
      assert t[..|t| - 1] == rows;
    }
  }

  // ---------------------------------------------------------------------------------------
  // Evaluation

  /** The keys of the rules that trigger, in rule order. */
  function TriggeredKeys(device: string, policy: string, rules: seq<Rule>, summary: Summary): seq<Key> {
    if rules == [] then []
    else
      var n := |rules| - 1;
      TriggeredKeys(device, policy, rules[..n], summary)
      + if Triggered(rules[n], summary) then [Key(device, policy, rules[n].ruleType)] else []
  }

  lemma {:induction false} KeysHaveTypes(device: string, policy: string, rules: seq<Rule>, summary: Summary)
    ensures forall key | key in TriggeredKeys(device, policy, rules, summary) ::
              exists j | 0 <= j < |rules| :: rules[j].ruleType == key.ruleType
  {
    if rules != [] {
      var n := |rules| - 1;
      KeysHaveTypes(device, policy, rules[..n], summary);
      forall key | key in TriggeredKeys(device, policy, rules, summary)
        ensures exists j | 0 <= j < |rules| :: rules[j].ruleType == key.ruleType
      {
        if key in TriggeredKeys(device, policy, rules[..n], summary) {
          var j :| 0 <= j < n && rules[..n][j].ruleType == key.ruleType;
          assert rules[j].ruleType == key.ruleType;
        } else {
          assert rules[n].ruleType == key.ruleType;
        }
      }
    }
  }

  /** The alert is a row of the table, as far as what never changes in a row tells. */
  ghost predicate IsRow(rows: seq<Alert>, a: Alert) {
    exists i | 0 <= i < |rows| :: rows[i].id == a.id && rows[i].key == a.key && rows[i].createdAt == a.createdAt
  }

  lemma RowStays(s: State, key: Key, severity: Severity, now: int, a: Alert)
    requires IsRow(s.rows, a)
    ensures IsRow(ApplyReport(s, key, severity, now).rows, a) && IsRow(AutoResolve(s.rows, key), a)
    ensures a in s.rows && a.key != key ==> a in ApplyReport(s, key, severity, now).rows && a in AutoResolve(s.rows, key)
  {
    var t, u := ApplyReport(s, key, severity, now).rows, AutoResolve(s.rows, key);
    var i :| 0 <= i < |s.rows| && s.rows[i].id == a.id && s.rows[i].key == a.key && s.rows[i].createdAt == a.createdAt;
    assert t[i].id == a.id && t[i].key == a.key && t[i].createdAt == a.createdAt;
    assert u[i].id == a.id && u[i].key == a.key && u[i].createdAt == a.createdAt;
    if a in s.rows && a.key != key {
      var k :| 0 <= k < |s.rows| && s.rows[k] == a;
      assert t[k] == a && u[k] == a;
    }
  }

  /** What has been returned after the first i rules. */
  ghost predicate Returned(rows: seq<Alert>, device: string, policy: string, rules: seq<Rule>, i: nat, summary: Summary,
                           triggered: seq<Alert>)
    requires i <= |rules|
  {
    var keys := TriggeredKeys(device, policy, rules[..i], summary);
    && |triggered| == |keys|
    && (forall k | 0 <= k < |triggered| :: triggered[k].key == keys[k] && triggered[k].IsOpen() && IsRow(rows, triggered[k]))
    && (AlertLaws.DistinctTypes(rules) ==> forall k | 0 <= k < |triggered| :: triggered[k] in rows)
  }

  /** Distinct types: the keys returned so far are not the next rule's. */
  lemma LaterKeyIsNew(device: string, policy: string, rules: seq<Rule>, i: nat, summary: Summary, key: Key)
    requires AlertLaws.DistinctTypes(rules) && i < |rules|
    requires key in TriggeredKeys(device, policy, rules[..i], summary)
    ensures key.ruleType != rules[i].ruleType
  {
    KeysHaveTypes(device, policy, rules[..i], summary);
    var j :| 0 <= j < i && rules[..i][j].ruleType == key.ruleType;
    assert rules[j].ruleType == key.ruleType;
  }

  /** The next rule keeps the alerts returned so far in the table, unchanged if no other rule has its type. */
  lemma StaysReturned(s: State, t: State, device: string, policy: string, rules: seq<Rule>, i: nat, summary: Summary,
                      now: int, triggered: seq<Alert>)
    requires i < |rules|
    requires Returned(s.rows, device, policy, rules, i, summary, triggered)
    requires t == EvaluateRule(s, device, policy, rules[i], summary, now)
    ensures Returned(t.rows, device, policy, rules, i, summary, triggered)
  {
    var key := Key(device, policy, rules[i].ruleType);
    forall k | 0 <= k < |triggered|
      ensures IsRow(t.rows, triggered[k]) && (AlertLaws.DistinctTypes(rules) ==> triggered[k] in t.rows)
    {
      RowStays(s, key, rules[i].severity, now, triggered[k]);
      if AlertLaws.DistinctTypes(rules) {
        LaterKeyIsNew(device, policy, rules, i, summary, triggered[k].key);
      }
    }
  }

  lemma ReturnedNext(rows: seq<Alert>, device: string, policy: string, rules: seq<Rule>, i: nat, summary: Summary,
                     triggered: seq<Alert>, more: seq<Alert>)
    requires i < |rules|
    requires Returned(rows, device, policy, rules, i, summary, triggered)
    requires |more| == if Triggered(rules[i], summary) then 1 else 0
    requires forall a | a in more :: a in rows && a.IsOpen() && a.key == Key(device, policy, rules[i].ruleType)
    ensures Returned(rows, device, policy, rules, i + 1, summary, triggered + more)
  {
    assert rules[..i + 1][..i] == rules[..i];
    forall a | a in more
      ensures IsRow(rows, a)
    {
      var j :| 0 <= j < |rows| && rows[j] == a;
      assert rows[j].id == a.id && rows[j].key == a.key && rows[j].createdAt == a.createdAt;
    }
    if more != [] {
      assert more[0] in more;
    }
  }

  /** Evaluate the rules of a policy in order; the result is the open alerts of those that trigger. */
  method EvaluateRules(alerts: Manager, device: string, policy: string, rules: seq<Rule>, summary: Summary, now: int)
    returns (triggered: seq<Alert>)
    requires alerts.Valid()
    modifies alerts
    ensures alerts.Valid()
    ensures alerts.View() == Apply(old(alerts.View()), EvaluateHealth(device, policy, rules, summary, now))
    ensures Returned(alerts.rows, device, policy, rules, |rules|, summary, triggered)
  {
    triggered := [];
    for i := 0 to |rules|
      invariant alerts.Valid()
      invariant alerts.View() == Evaluate(old(alerts.View()), device, policy, rules[..i], summary, now)
      invariant Returned(alerts.rows, device, policy, rules, i, summary, triggered)
    {
      assert rules[..i + 1][..i] == rules[..i];
      ghost var before := alerts.View();
      var more := EvaluateOne(alerts, device, policy, rules[i], summary, now);
      StaysReturned(before, alerts.View(), device, policy, rules, i, summary, now, triggered);
      ReturnedNext(alerts.rows, device, policy, rules, i, summary, triggered, more);
      triggered := triggered + more;
    }
    assert rules[..|rules|] == rules;
  }

  /** Evaluate one rule: open its alert and return it, or resolve it. */
  method EvaluateOne(alerts: Manager, device: string, policy: string, rule: Rule, summary: Summary, now: int)
    returns (triggered: seq<Alert>)
    requires alerts.Valid()
    modifies alerts
    ensures alerts.Valid()
    ensures alerts.View() == EvaluateRule(old(alerts.View()), device, policy, rule, summary, now)
    ensures |triggered| == if Triggered(rule, summary) then 1 else 0
    ensures forall a | a in triggered :: a in alerts.rows && a.IsOpen() && a.key == Key(device, policy, rule.ruleType)
  {
    var key := Key(device, policy, rule.ruleType);
    if Triggered(rule, summary) {
      var alert := alerts.CreateOrUpdateAlert(key, rule.severity, now);
      triggered := [alert];
    } else {
      alerts.AutoResolveAlert(key);
      triggered := [];
    }
  }

  /** What one evaluation does to the policies and the alerts. */
  function Evaluated(c: Config, trusted: bool, fetched: Fetched, s: State, device: string, summary: Summary,
                     now: int): State {
    if trusted && fetched.Found? && fetched.policy.enabled && c.evaluationEnabled
    then Apply(s, EvaluateHealth(device, fetched.policy.id, fetched.policy.rules, summary, now))
    else s
  }

  /**
   A trusted device without a policy: after its first evaluation, in any history of alert
   operations, exactly the default rules that trigger have an open alert under the new policy.
   */
  lemma FirstEvaluation(c: Config, rows: seq<Policy>, ops: seq<Op>, device: string, newId: string, summary: Summary,
                        now: int, i: nat)
    requires c.evaluationEnabled && PairingModel.ValidIdentity(device) && !IdTaken(rows, newId)
    requires LatestPolicy(rows, device).None? && i < |DefaultRules(c)|
    ensures var s := Run(State([], 0), ops);
            var t := Evaluated(c, true, Ensured(c, rows, device, newId, now).1, s, device, summary, now);
            && (AlertLaws.HasOpen(t.rows, Key(device, newId, DefaultRules(c)[i].ruleType))
                <==> Triggered(DefaultRules(c)[i], summary))
            && AlertLaws.LeavesOthers(s.rows, t.rows, device, newId)
  {
    DefaultTypesAreDistinct(c);
    AlertOperations.EvaluationAfterAnyHistory(ops, device, newId, DefaultRules(c), summary, now, i);
  }

  /**
   The first evaluation of a trusted device, whatever came before: each key of its new policy
   is open exactly if the readings say so, as a critical alert if the device is offline and a
   warning otherwise; the type without a default rule keeps its state.
   */
  lemma FirstEvaluationOpens(c: Config, rows: seq<Policy>, ops: seq<Op>, device: string, newId: string, summary: Summary,
                             now: int, s: State, t: State)
    requires c.evaluationEnabled && PairingModel.ValidIdentity(device)
    requires (forall i | 0 <= i < |rows| :: rows[i].device != device && rows[i].id != newId)
    requires s == Run(State([], 0), ops)
    requires t == Evaluated(c, true, Ensured(c, rows, device, newId, now).1, s, device, summary, now)
    ensures IsOpen(t, device, newId, LowBattery) <==> AlertAnswers.BatteryBelow(summary, c.batteryThreshold)
    ensures IsOpen(t, device, newId, LowStorage) <==> AlertAnswers.StorageBelow(summary, c.storageThreshold)
    ensures IsOpen(t, device, newId, HeartbeatDelayed) <==> AlertAnswers.SilentFor(summary, c.degradedSeconds)
    ensures IsOpen(t, device, newId, Offline) <==> AlertAnswers.IsOffline(summary)
    ensures IsOpen(t, device, newId, DegradedConnection) <==> AlertAnswers.IsDegraded(summary)
    ensures IsOpen(t, device, newId, HealthUnknown) <==> IsOpen(s, device, newId, HealthUnknown)
    ensures forall r: RuleType | r != HealthUnknown && IsOpen(t, device, newId, r) ::
              AlertAnswers.Stamped(t.rows, Key(device, newId, r), if r == Offline then Critical else Warning, now)
    ensures AlertLaws.LeavesOthers(s.rows, t.rows, device, newId)
  {
    NoPolicyYet(rows, device);
    var rules := DefaultRules(c);
    DefaultTypesAreDistinct(c);
    AlertOperations.KeptRun(ops);
    forall i | 0 <= i < |rules|
      ensures IsOpen(t, device, newId, rules[i].ruleType) <==> Triggered(rules[i], summary)
      ensures Triggered(rules[i], summary) ==>
                AlertAnswers.Stamped(t.rows, Key(device, newId, rules[i].ruleType), rules[i].severity, now)
    {
      FirstEvaluation(c, rows, ops, device, newId, summary, now, i);
      if Triggered(rules[i], summary) {
        AlertAnswers.EvaluationStamps(s, device, newId, rules, summary, now, i);
      }
    }
    ReadDefaults(c, rules, summary);
    NoVerdict(rules, HealthUnknown, summary);
    AlertLaws.EvaluationReconciles(s, device, newId, rules, summary, now, Key(device, newId, HealthUnknown));
  }

  ghost predicate IsOpen(s: State, device: string, policy: string, ruleType: RuleType) {
    AlertLaws.HasOpen(s.rows, Key(device, policy, ruleType))
  }

  lemma {:induction false} NoPolicyYet(rows: seq<Policy>, device: string)
    requires forall i | 0 <= i < |rows| :: rows[i].device != device
    ensures LatestPolicy(rows, device).None?
  {
  }

  lemma ReadDefaults(c: Config, rules: seq<Rule>, summary: Summary)
    requires rules == DefaultRules(c)
    ensures |rules| == 5
    ensures rules[0].ruleType == LowBattery && rules[0].severity == Warning
    ensures rules[1].ruleType == LowStorage && rules[1].severity == Warning
    ensures rules[2].ruleType == HeartbeatDelayed && rules[2].severity == Warning
    ensures rules[3].ruleType == Offline && rules[3].severity == Critical
    ensures rules[4].ruleType == DegradedConnection && rules[4].severity == Warning
    ensures Triggered(rules[0], summary) <==> AlertAnswers.BatteryBelow(summary, c.batteryThreshold)
    ensures Triggered(rules[1], summary) <==> AlertAnswers.StorageBelow(summary, c.storageThreshold)
    ensures Triggered(rules[2], summary) <==> AlertAnswers.SilentFor(summary, c.degradedSeconds)
    ensures Triggered(rules[3], summary) <==> AlertAnswers.IsOffline(summary)
    ensures Triggered(rules[4], summary) <==> AlertAnswers.IsDegraded(summary)
  {
    AlertAnswers.RuleReads(rules[0], summary);
    AlertAnswers.RuleReads(rules[1], summary);
    AlertAnswers.RuleReads(rules[2], summary);
    AlertAnswers.RuleReads(rules[3], summary);
    AlertAnswers.RuleReads(rules[4], summary);
  }

  lemma {:induction false} NoVerdict(rules: seq<Rule>, ruleType: RuleType, summary: Summary)
    requires forall i | 0 <= i < |rules| :: rules[i].ruleType != ruleType
    ensures AlertLaws.LastVerdict(rules, ruleType, summary).None?
  {
    if rules != [] {
      NoVerdict(rules[..|rules| - 1], ruleType, summary);
    }
  }

  /** After any evaluation of a device, a key whose one rule is disabled is closed. */
  lemma DisabledRuleCloses(s: State, device: string, policy: string, rules: seq<Rule>, summary: Summary, now: int, i: nat)
    requires AlertOperations.Kept(s)
    requires AlertLaws.DistinctTypes(rules) && i < |rules| && !rules[i].enabled
    ensures !IsOpen(Apply(s, EvaluateHealth(device, policy, rules, summary, now)), device, policy, rules[i].ruleType)
  {
    AlertLaws.OpenExactlyWhenTriggered(s, device, policy, rules, summary, now, i);
  }

  /**
   An evaluation touches no alert of an untrusted device, under a disabled policy, when
   evaluation is off, or when no policy could be had.
   */
  lemma EvaluationIsGated(c: Config, trusted: bool, fetched: Fetched, s: State, device: string, summary: Summary, now: int)
    requires !trusted || !c.evaluationEnabled || !fetched.Found? || !fetched.policy.enabled
    ensures Evaluated(c, trusted, fetched, s, device, summary, now) == s
  {
  }

  /** A default policy is created exactly for a well-formed device that has none, under an id not taken; it is enabled. */
  lemma EnsureAnswers(c: Config, rows: seq<Policy>, device: string, newId: string, now: int)
    ensures var (t, fetched) := Ensured(c, rows, device, newId, now);
            var has := exists i | 0 <= i < |rows| :: rows[i].device == device;
            && (has ==> t == rows && fetched.Found? && fetched.policy in rows && fetched.policy.device == device)
            && (fetched.InvalidDevice? <==> !has && !PairingModel.ValidIdentity(device))
            && (fetched.Conflict? <==> !has && PairingModel.ValidIdentity(device)
                                       && exists i | 0 <= i < |rows| :: rows[i].id == newId)
            && (!fetched.Found? ==> t == rows)
            && (!has && fetched.Found? ==>
                  && t == rows + [fetched.policy] && fetched.policy.id == newId && fetched.policy.device == device
                  && fetched.policy.enabled && fetched.policy.createdAt == now)
  {
    if LatestPolicy(rows, device).None? {
      assert forall i | 0 <= i < |rows| :: rows[i] in rows;
    }
  }

  class PolicyEngine {
    const config: Config
    const alerts: Manager
    var policies: seq<Policy>

    constructor (config: Config, alerts: Manager)
      ensures this.config == config && this.alerts == alerts && policies == []
    {
      this.config := config;
      this.alerts := alerts;
      policies := [];
    }

    method EnsureDefaultPolicy(device: string, newId: string, now: int) returns (fetched: Fetched)
      modifies this
      ensures (policies, fetched) == Ensured(config, old(policies), device, newId, now)
    {
      var existing := LatestPolicy(policies, device);
      if existing.Some? {
        return Found(existing.value);
      }
      fetched := CreatePolicy(device, DefaultRules(config), newId, now);
    }

    method CreatePolicy(device: string, rules: seq<Rule>, newId: string, now: int) returns (created: Fetched)
      modifies this
      ensures created.InvalidDevice? <==> !PairingModel.ValidIdentity(device)
      ensures created.Conflict? <==> PairingModel.ValidIdentity(device) && IdTaken(old(policies), newId)
      ensures created.Found? ==> created.policy == Policy(newId, device, true, rules, now)
      ensures policies == if created.Found? then old(policies) + [created.policy] else old(policies)
    {
      if !PairingModel.ValidIdentity(device) {
        return InvalidDevice;
      }
      if IdTaken(policies, newId) {
        return Conflict;
      }
      var policy := Policy(newId, device, true, rules, now);
      policies := policies + [policy];
      created := Found(policy);
    }

    /**
     Evaluate the policy of a device, creating the default one if it has none. Nothing changes
     for an untrusted device, and no alert does when the policy or evaluation is disabled or
     no policy could be created, which raises; otherwise each rule opens or resolves its alert.
     */
    method EvaluateDeviceHealth(trusted: bool, device: string, summary: Summary, newId: string, now: int)
      returns (triggered: seq<Alert>, fetched: Option<Fetched>)
      requires alerts.Valid()
      modifies this, alerts
      ensures alerts.Valid()
      ensures fetched.Some? <==> trusted
      ensures var (rows, result) := Ensured(config, old(policies), device, newId, now);
              && policies == (if trusted then rows else old(policies))
              && (trusted ==> fetched == Some(result))
              && alerts.View() == Evaluated(config, trusted, result, old(alerts.View()), device, summary, now)
              && var active := trusted && result.Found? && result.policy.enabled && config.evaluationEnabled;
                 && (!active ==> triggered == [])
                 && (active ==> Returned(alerts.rows, device, result.policy.id, result.policy.rules,
                                         |result.policy.rules|, summary, triggered))
    {
      triggered, fetched := [], None;
      if !trusted {
        return;
      }
      var result := EnsureDefaultPolicy(device, newId, now);
      fetched := Some(result);
      if !result.Found? || !result.policy.enabled || !config.evaluationEnabled {
        return;
      }
      triggered := EvaluateRules(alerts, device, result.policy.id, result.policy.rules, summary, now);
    }
  }
}
