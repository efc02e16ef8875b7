/** Health rules and the alerts table. */
module AlertModel {
  import opened Common

  datatype RuleType = LowBattery | LowStorage | Offline | DegradedConnection | HeartbeatDelayed | HealthUnknown

  datatype Severity = Info | Warning | Critical

  datatype Rule = Rule(
    ruleType: RuleType,
    enabled: bool,
    threshold: Option<real>,
    durationSeconds: Option<int>,
    severity: Severity)

  datatype HealthState = Healthy | Degraded | OfflineState | Unknown

  datatype Connectivity = Online | DegradedLink | OfflineLink | UnknownLink

  datatype Summary = Summary(
    batteryPercent: Option<int>,
    storageFreeBytes: Option<int>,
    storageTotalBytes: Option<int>,
    healthState: HealthState,
    connectivity: Connectivity,
    lastSeenSecondsAgo: Option<int>)

  function OrElse<T>(o: Option<T>, default: T): T {
    if o.Some? then o.value else default
  }

  /** Whether an enabled rule is triggered by the summary; a missing reading triggers nothing. */
  predicate Triggered(rule: Rule, summary: Summary) {
    rule.enabled &&
    match rule.ruleType
    case LowBattery =>
      summary.batteryPercent.Some? && summary.batteryPercent.value as real < OrElse(rule.threshold, 20.0)
    case LowStorage =>
      && summary.storageFreeBytes.Some? && summary.storageTotalBytes.Some?
      && summary.storageTotalBytes.value > 0
      && summary.storageFreeBytes.value as real / summary.storageTotalBytes.value as real * 100.0
         < OrElse(rule.threshold, 10.0)
    case Offline => summary.healthState.OfflineState? || summary.connectivity.OfflineLink?
    case DegradedConnection => summary.healthState.Degraded? || summary.connectivity.DegradedLink?
    case HeartbeatDelayed =>
      summary.lastSeenSecondsAgo.Some? && summary.lastSeenSecondsAgo.value > OrElse(rule.durationSeconds, 60)
    case HealthUnknown => summary.healthState.Unknown?
  }

  // ---------------------------------------------------------------------------------------

  datatype Status = Active | Acknowledged | Resolved | Dismissed

  /** What the source joins with colons into the de-duplication key. */
  datatype Key = Key(device: string, policy: string, ruleType: RuleType)

  datatype Alert = Alert(id: int, key: Key, severity: Severity, status: Status, createdAt: int, lastSeenAt: int)
  {
    predicate IsOpen() {
      status.Active? || status.Acknowledged?
    }
  }

  predicate OpenFor(a: Alert, key: Key) {
    a.key == key && a.IsOpen()
  }

  /** The row that ORDER BY created_at DESC LIMIT 1 picks among the open ones of a key. */
  function LatestOpen(rows: seq<Alert>, key: Key): (r: Option<nat>)
    ensures r.Some? ==> r.value < |rows| && OpenFor(rows[r.value], key)
    ensures r.Some? ==> forall i | 0 <= i < |rows| && OpenFor(rows[i], key) :: rows[i].createdAt <= rows[r.value].createdAt
    ensures r.None? ==> forall i | 0 <= i < |rows| :: !OpenFor(rows[i], key)
  {
    if rows == [] then None
    else
      var last := |rows| - 1;
      var before := LatestOpen(rows[..last], key);
      assert forall i | 0 <= i < last :: rows[..last][i] == rows[i];
      if OpenFor(rows[last], key) && (before.None? || rows[before.value].createdAt < rows[last].createdAt) then Some(last)
      else before
  }

  function CreateOrUpdate(rows: seq<Alert>, key: Key, severity: Severity, now: int, newId: int): seq<Alert> {
    var found := LatestOpen(rows, key);
    if found.Some? then rows[found.value := rows[found.value].(severity := severity, lastSeenAt := now)]
    else rows + [Alert(newId, key, severity, Active, now, now)]
  }

  function AutoResolve(rows: seq<Alert>, key: Key): seq<Alert> {
    var found := LatestOpen(rows, key);
    if found.Some? then rows[found.value := rows[found.value].(status := Resolved)] else rows
  }

  datatype State = State(rows: seq<Alert>, nextId: int)

  function EvaluateRule(s: State, device: string, policy: string, rule: Rule, summary: Summary, now: int): State {
    var key := Key(device, policy, rule.ruleType);
    if Triggered(rule, summary) then ApplyReport(s, key, rule.severity, now)
    else s.(rows := AutoResolve(s.rows, key))
  }

  /** The rules of a policy, in order. */
  function Evaluate(s: State, device: string, policy: string, rules: seq<Rule>, summary: Summary, now: int): State {
    if rules == [] then s
    else
      var n := |rules| - 1;
      EvaluateRule(Evaluate(s, device, policy, rules[..n], summary, now), device, policy, rules[n], summary, now)
  }

  // ---------------------------------------------------------------------------------------
  // The other operations on alerts

  function Find(rows: seq<Alert>, id: int): Option<Alert> {
    if rows == [] then None
    else if rows[0].id == id then Some(rows[0])
    else Find(rows[1..], id)
  }

  /** UPDATE alerts SET status = ... WHERE id = ... */
  function WithStatus(rows: seq<Alert>, id: int, status: Status): (r: seq<Alert>)
    ensures |r| == |rows|
  {
    seq(|rows|, i requires 0 <= i < |rows| => if rows[i].id == id then rows[i].(status := status) else rows[i])
  }

  /** The rows that the retention clean-up keeps. */
  function Retained(rows: seq<Alert>, cutoff: int): seq<Alert> {
    if rows == [] then []
    else
      var n := |rows| - 1;
      Retained(rows[..n], cutoff) + if !rows[n].IsOpen() && rows[n].createdAt < cutoff then [] else [rows[n]]
  }

  datatype Op =
    | EvaluateHealth(device: string, policy: string, rules: seq<Rule>, summary: Summary, now: int)
    | Report(key: Key, severity: Severity, now: int)
    | Clear(key: Key)
    | Acknowledge(id: int)
    | Dismiss(id: int)
    | Resolve(id: int)
    | Cleanup(cutoff: int)

  function ApplyReport(s: State, key: Key, severity: Severity, now: int): State {
    State(CreateOrUpdate(s.rows, key, severity, now, s.nextId),
          if LatestOpen(s.rows, key).None? then s.nextId + 1 else s.nextId)
  }

  function Apply(s: State, op: Op): State {
    match op
    case EvaluateHealth(device, policy, rules, summary, now) => Evaluate(s, device, policy, rules, summary, now)
    case Report(key, severity, now) => ApplyReport(s, key, severity, now)
    case Clear(key) => s.(rows := AutoResolve(s.rows, key))
    case Acknowledge(id) =>
      var a := Find(s.rows, id);
      if a.Some? && a.value.status.Active? then s.(rows := WithStatus(s.rows, id, Acknowledged)) else s
    case Dismiss(id) =>
      var a := Find(s.rows, id);
      if a.Some? && a.value.IsOpen() then s.(rows := WithStatus(s.rows, id, Dismissed)) else s
    case Resolve(id) =>
      var a := Find(s.rows, id);
      if a.Some? && !a.value.status.Resolved? then s.(rows := WithStatus(s.rows, id, Resolved)) else s
    case Cleanup(cutoff) => s.(rows := Retained(s.rows, cutoff))
  }

  function Run(s: State, ops: seq<Op>): State {
    if ops == [] then s else Apply(Run(s, ops[..|ops| - 1]), ops[|ops| - 1])
  }
}
