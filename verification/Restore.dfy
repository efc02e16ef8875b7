/** Backup and restore of the allowed tables, with the schema's one cascading foreign key. */
module Restore {
  import opened Common

  datatype Table =
    | AegisSessions | Alerts | AtlasBackups | AtlasCapabilityVersions | AtlasHealth | AtlasRecovery
    | AtlasRetention | ConfigEntries | DeviceHealth | DeviceSequences | Identities | OrionActions
    | OrionCapabilities | OrionEvents | OrionReconciliation | PairingSessions | Policies | PolicyRules
    | SchemaMigrations | ScreenAuthorizations | ScreenSessions | TelemetryEvents | TransportPeers
    | TransportSequences | TransportSessions | TrustedDevices
    | Other(name: string)

  /** The allowed tables in the order of their names. */
  const ALLOWED: seq<Table> := [
    AegisSessions, Alerts, AtlasBackups, AtlasCapabilityVersions, AtlasHealth, AtlasRecovery,
    AtlasRetention, ConfigEntries, DeviceHealth, DeviceSequences, Identities, OrionActions,
    OrionCapabilities, OrionEvents, OrionReconciliation, PairingSessions, Policies, PolicyRules,
    SchemaMigrations, ScreenAuthorizations, ScreenSessions, TelemetryEvents, TransportPeers,
    TransportSequences, TransportSessions, TrustedDevices]

  /** The tables a backup may hold: exactly those listed. */
  predicate Allowed(t: Table) {
    !t.Other?
  }

  /** The place of a table in the list. */
  function Place(t: Table): nat {
    match t
    case AegisSessions => 0 case Alerts => 1 case AtlasBackups => 2 case AtlasCapabilityVersions => 3
    case AtlasHealth => 4 case AtlasRecovery => 5 case AtlasRetention => 6 case ConfigEntries => 7
    case DeviceHealth => 8 case DeviceSequences => 9 case Identities => 10 case OrionActions => 11
    case OrionCapabilities => 12 case OrionEvents => 13 case OrionReconciliation => 14
    case PairingSessions => 15 case Policies => 16 case PolicyRules => 17 case SchemaMigrations => 18
    case ScreenAuthorizations => 19 case ScreenSessions => 20 case TelemetryEvents => 21
    case TransportPeers => 22 case TransportSequences => 23 case TransportSessions => 24
    case TrustedDevices => 25 case Other(_) => 26
  }

  lemma ListedAtItsPlace(t: Table)
    ensures Allowed(t) ==> Place(t) < |ALLOWED| && ALLOWED[Place(t)] == t
  {
  }

  lemma NoOtherIsListed(k: nat)
    requires k < |ALLOWED|
    ensures !ALLOWED[k].Other?
  {
  }

  lemma AllowedAreListed(t: Table)
    ensures Allowed(t) <==> t in ALLOWED
  {
    ListedAtItsPlace(t);
    if t in ALLOWED {
      var k :| 0 <= k < |ALLOWED| && ALLOWED[k] == t;
      NoOtherIsListed(k);
    }
  }

  datatype Value = Null | Int(i: int) | Real(r: real) | Text(s: string)

  type Row = map<string, Value>

  type Tables = map<Table, seq<Row>>

  function Forbidden(t: Table): set<string> {
    if t == Identities then {"private_key_pem"} else {}
  }

  function Projected(t: Table, rows: seq<Row>): (r: seq<Row>)
    ensures |r| == |rows|
  {
    seq(|rows|, i requires 0 <= i < |rows| => rows[i] - Forbidden(t))
  }

  /** The payload of a backup. */
  function Backup(db: Tables): Tables {
    map t | t in db && Allowed(t) :: Projected(t, db[t])
  }

  // ---------------------------------------------------------------------------------------
  // Restoring

  /** The column of a row, Null when it has none. */
  function Column(row: Row, c: string): Value {
    if c in row then row[c] else Null
  }

  /** INSERT with the columns of the first row. */
  function Inserted(rows: seq<Row>): (r: seq<Row>)
    ensures |r| == |rows|
  {
    seq(|rows|, i requires 0 <= i < |rows| => map c | c in rows[0] :: Column(rows[i], c))
  }

  predicate Refers(rule: Row, policies: seq<Row>) {
    exists k | 0 <= k < |policies| :: Column(policies[k], "id") == Column(rule, "policy_id")
  }

  /** Every policy rule belongs to a policy. */
  predicate Consistent(rules: seq<Row>, policies: seq<Row>) {
    forall k | 0 <= k < |rules| :: Refers(rules[k], policies)
  }

  /** ON DELETE CASCADE: the rules that refer to none of the deleted policies. */
  function Spared(rules: seq<Row>, policies: seq<Row>): seq<Row> {
    if rules == [] then []
    else (if Refers(rules[0], policies) then [] else [rules[0]]) + Spared(rules[1..], policies)
  }

  function RowsOf(db: Tables, t: Table): seq<Row> {
    if t in db then db[t] else []
  }

  /** DELETE FROM t */
  function Emptied(db: Tables, t: Table): Tables {
    var spared := if t == Policies && PolicyRules in db
                  then db[PolicyRules := Spared(db[PolicyRules], RowsOf(db, Policies))] else db;
    spared[t := []]
  }

  /** One table of a restore; None when the database refuses a statement. */
  function RestoreTable(db: Tables, payload: Tables, t: Table): Option<Tables> {
    if RowsOf(payload, t) == [] then Some(db)
    else if t !in db then None
    else
      var emptied := Emptied(db, t);
      var rows := Inserted(payload[t]);
      if t == PolicyRules && !Consistent(rows, RowsOf(emptied, Policies)) then None
      else Some(emptied[t := rows])
  }

  /** The tables of `order`, one after another; a refusal undoes the whole transaction. */
  function RestoreTables(db: Tables, payload: Tables, order: seq<Table>): Option<Tables> {
    if order == [] then Some(db)
    else
      var before := RestoreTables(db, payload, order[..|order| - 1]);
      if before.None? then None else RestoreTable(before.value, payload, order[|order| - 1])
  }

  // ---------------------------------------------------------------------------------------
  // The round trip

  ghost predicate UniformRows(rows: seq<Row>) {
    forall i, j | 0 <= i < |rows| && 0 <= j < |rows| :: rows[i].Keys == rows[j].Keys
  }

  /** SELECT * gives every row of a table the same columns. */
  ghost predicate Uniform(db: Tables) {
    forall t | t in db :: UniformRows(db[t])
  }

  ghost predicate ForeignKeyHolds(db: Tables) {
    Consistent(RowsOf(db, PolicyRules), RowsOf(db, Policies))
  }

  lemma InsertedIsSame(t: Table, rows: seq<Row>)
    requires UniformRows(rows)
    ensures Inserted(Projected(t, rows)) == Projected(t, rows)
  {
    var p := Projected(t, rows);
    forall i | 0 <= i < |p|
      ensures Inserted(p)[i] == p[i]
    {
      assert rows[i].Keys == rows[0].Keys;
      assert p[i].Keys == p[0].Keys;
    }
  }

  lemma NothingProjectedOut(t: Table, rows: seq<Row>)
    requires t != Identities
    ensures Projected(t, rows) == rows
  {
    forall i | 0 <= i < |rows|
      ensures Projected(t, rows)[i] == rows[i]
    {
      assert Forbidden(t) == {};
      assert (rows[i] - Forbidden(t)).Keys == rows[i].Keys;
    }
  }

  lemma {:induction false} NoneSpared(rules: seq<Row>, policies: seq<Row>)
    requires Consistent(rules, policies)
    ensures Spared(rules, policies) == []
  {
    if rules != [] {
      NoneSpared(rules[1..], policies);
    }
  }

  /** Policies are never restored after the rules that refer to them. */
  ghost predicate PoliciesFirst(order: seq<Table>) {
    forall i, j | 0 <= i < j < |order| :: order[i] == PolicyRules ==> order[j] != Policies
  }

  /** What a table holds once the tables `done` of the backup of `d` are restored over `e`. */
  function Expected(d: Tables, e: Tables, done: seq<Table>, t: Table): seq<Row> {
    if t in done && RowsOf(d, t) != [] then Projected(t, d[t])
    else if t == PolicyRules && Policies in done && RowsOf(d, Policies) != [] then []
    else RowsOf(e, t)
  }

  ghost predicate Restored(d: Tables, e: Tables, done: seq<Table>, r: Tables) {
    r.Keys == e.Keys && forall t | t in e :: r[t] == Expected(d, e, done, t)
  }

  ghost predicate SameDatabase(d: Tables, e: Tables) {
    d.Keys == e.Keys && Uniform(d) && ForeignKeyHolds(d) && ForeignKeyHolds(e)
  }

  lemma ExpectedNext(d: Tables, e: Tables, done: seq<Table>, t: Table, u: Table)
    ensures Expected(d, e, done + [t], u)
         == if u == t && RowsOf(d, t) != [] then Projected(t, d[t])
            else if u == PolicyRules && t == Policies && RowsOf(d, Policies) != []
                    && (PolicyRules !in done || RowsOf(d, PolicyRules) == []) then []
            else Expected(d, e, done, u)
  {
    assert u in done + [t] <==> u in done || u == t;
    assert Policies in done + [t] <==> Policies in done || Policies == t;
  }

  lemma PoliciesReplaced(r: Tables, payload: Tables)
    requires Policies in r && RowsOf(payload, Policies) != []
    requires PolicyRules in r ==> Spared(r[PolicyRules], RowsOf(r, Policies)) == []
    ensures RestoreTable(r, payload, Policies)
         == Some((if PolicyRules in r then r[PolicyRules := []] else r)[Policies := Inserted(payload[Policies])])
  {
    var cleared := if PolicyRules in r then r[PolicyRules := []] else r;
    assert Emptied(r, Policies) == cleared[Policies := []];
    var rows := Inserted(payload[Policies]);
    assert cleared[Policies := []][Policies := rows] == cleared[Policies := rows];
  }

  lemma PoliciesExpected(d: Tables, e: Tables, done: seq<Table>, r: Tables)
    requires d.Keys == e.Keys && Restored(d, e, done, r)
    requires PolicyRules !in done && RowsOf(d, Policies) != []
    ensures Restored(d, e, done + [Policies],
                     (if PolicyRules in r then r[PolicyRules := []] else r)[Policies := Projected(Policies, d[Policies])])
  {
    var next := (if PolicyRules in r then r[PolicyRules := []] else r)[Policies := Projected(Policies, d[Policies])];
    assert next.Keys == r.Keys;
    forall u | u in e
      ensures next[u] == Expected(d, e, done + [Policies], u)
    {
      ExpectedNext(d, e, done, Policies, u);
    }
  }

  lemma {:induction false} RestorePolicies(d: Tables, e: Tables, done: seq<Table>, r: Tables)
    requires SameDatabase(d, e) && Restored(d, e, done, r)
    requires PolicyRules !in done
    requires RowsOf(d, Policies) != []
    ensures var next := RestoreTable(r, Backup(d), Policies);
            next.Some? && Restored(d, e, done + [Policies], next.value)
  {
    InsertedIsSame(Policies, d[Policies]);
    if PolicyRules in r {
      NoRulesLeft(d, e, done, r);
    }
    assert Backup(d)[Policies] == Projected(Policies, d[Policies]);
    PoliciesReplaced(r, Backup(d));
    PoliciesExpected(d, e, done, r);
  }

  /** Emptying the policies takes every rule along. */
  lemma NoRulesLeft(d: Tables, e: Tables, done: seq<Table>, r: Tables)
    requires SameDatabase(d, e) && Restored(d, e, done, r)
    requires PolicyRules !in done && PolicyRules in r
    requires RowsOf(d, Policies) != []
    ensures Spared(r[PolicyRules], RowsOf(r, Policies)) == []
  {
    if Policies !in done {
      assert RowsOf(r, Policies) == RowsOf(e, Policies);
      NoneSpared(r[PolicyRules], RowsOf(r, Policies));
    }
  }

  lemma RulesReplaced(r: Tables, payload: Tables)
    requires PolicyRules in r && RowsOf(payload, PolicyRules) != []
    requires Consistent(Inserted(payload[PolicyRules]), RowsOf(r, Policies))
    ensures RestoreTable(r, payload, PolicyRules) == Some(r[PolicyRules := Inserted(payload[PolicyRules])])
  {
    var rows := Inserted(payload[PolicyRules]);
    assert RowsOf(r[PolicyRules := []], Policies) == RowsOf(r, Policies);
    assert r[PolicyRules := []][PolicyRules := rows] == r[PolicyRules := rows];
  }

  lemma TableExpected(d: Tables, e: Tables, done: seq<Table>, r: Tables, t: Table)
    requires d.Keys == e.Keys && Restored(d, e, done, r)
    requires t != Policies && RowsOf(d, t) != []
    ensures Restored(d, e, done + [t], r[t := Projected(t, d[t])])
  {
    forall u | u in e
      ensures r[t := Projected(t, d[t])][u] == Expected(d, e, done + [t], u)
    {
      ExpectedNext(d, e, done, t, u);
    }
  }

  /** The backed-up rules find their policies restored. */
  lemma {:induction false} RulesFit(d: Tables, e: Tables, done: seq<Table>, r: Tables)
    requires SameDatabase(d, e) && Restored(d, e, done, r)
    requires Policies in done
    requires RowsOf(d, PolicyRules) != []
    ensures Inserted(Backup(d)[PolicyRules]) == Projected(PolicyRules, d[PolicyRules])
    ensures Consistent(Projected(PolicyRules, d[PolicyRules]), RowsOf(r, Policies))
  {
    var rules, policies := d[PolicyRules], RowsOf(d, Policies);
    InsertedIsSame(PolicyRules, rules);
    NothingProjectedOut(PolicyRules, rules);
    NothingProjectedOut(Policies, policies);
    assert Refers(rules[0], policies);
    assert RowsOf(r, Policies) == policies;
  }

  lemma {:induction false} RestoreRules(d: Tables, e: Tables, done: seq<Table>, r: Tables)
    requires SameDatabase(d, e) && Restored(d, e, done, r)
    requires Policies in done
    requires RowsOf(d, PolicyRules) != []
    ensures var next := RestoreTable(r, Backup(d), PolicyRules);
            next.Some? && Restored(d, e, done + [PolicyRules], next.value)
  {
    RulesFit(d, e, done, r);
    RulesReplaced(r, Backup(d));
    TableExpected(d, e, done, r, PolicyRules);
  }

  lemma OtherReplaced(r: Tables, payload: Tables, t: Table)
    requires t in r && t != Policies && t != PolicyRules && RowsOf(payload, t) != []
    ensures RestoreTable(r, payload, t) == Some(r[t := Inserted(payload[t])])
  {
    assert r[t := []][t := Inserted(payload[t])] == r[t := Inserted(payload[t])];
  }

  lemma {:induction false} RestoreOther(d: Tables, e: Tables, done: seq<Table>, r: Tables, t: Table)
    requires SameDatabase(d, e) && Restored(d, e, done, r)
    requires Allowed(t) && t != Policies && t != PolicyRules
    requires RowsOf(d, t) != []
    ensures var next := RestoreTable(r, Backup(d), t);
            next.Some? && Restored(d, e, done + [t], next.value)
  {
    InsertedIsSame(t, d[t]);
    assert Backup(d)[t] == Projected(t, d[t]);
    OtherReplaced(r, Backup(d), t);
    TableExpected(d, e, done, r, t);
  }

  lemma RestoreNothing(d: Tables, e: Tables, done: seq<Table>, r: Tables, t: Table)
    requires Restored(d, e, done, r)
    requires RowsOf(d, t) == []
    ensures RestoreTable(r, Backup(d), t) == Some(r)
    ensures Restored(d, e, done + [t], r)
  {
    forall u
      ensures Expected(d, e, done + [t], u) == Expected(d, e, done, u)
    {
      ExpectedNext(d, e, done, t, u);
    }
  }

  lemma LastComesLast(done: seq<Table>, t: Table)
    requires PoliciesFirst(done + [t])
    requires PolicyRules in done + [t] ==> Policies in done + [t]
    ensures PoliciesFirst(done)
    ensures t == Policies ==> PolicyRules !in done
    ensures PolicyRules in done || t == PolicyRules ==> Policies in done
    ensures t in done + [t] && forall u | u in done :: u in done + [t]
  {
    var order := done + [t];
    assert forall i | 0 <= i < |done| :: order[i] == done[i];
    assert order[|done|] == t;
    if PolicyRules in done {
      var i :| 0 <= i < |done| && done[i] == PolicyRules;
      assert order[i] == PolicyRules;
    }
  }

  lemma {:induction false} RestoreReaches(d: Tables, e: Tables, order: seq<Table>)
    requires SameDatabase(d, e)
    requires PoliciesFirst(order)
    requires forall t | t in order :: Allowed(t)
    requires PolicyRules in order ==> Policies in order
    ensures var r := RestoreTables(e, Backup(d), order);
            r.Some? && Restored(d, e, order, r.value)
  {
    if order != [] {
      var done, t := order[..|order| - 1], order[|order| - 1];
      assert order == done + [t];
      LastComesLast(done, t);
      RestoreReaches(d, e, done);
      RestoreNext(d, e, done, RestoreTables(e, Backup(d), done).value, t);
    }
  }

  lemma {:induction false} RestoreNext(d: Tables, e: Tables, done: seq<Table>, r: Tables, t: Table)
    requires SameDatabase(d, e) && Restored(d, e, done, r)
    requires Allowed(t)
    requires t == Policies ==> PolicyRules !in done
    requires t == PolicyRules ==> Policies in done
    ensures var next := RestoreTable(r, Backup(d), t);
            next.Some? && Restored(d, e, done + [t], next.value)
  {
    if RowsOf(d, t) == [] {
      RestoreNothing(d, e, done, r, t);
    } else if t == Policies {
      RestorePolicies(d, e, done, r);
    } else if t == PolicyRules {
      RestoreRules(d, e, done, r);
    } else {
      RestoreOther(d, e, done, r, t);
    }
  }

  lemma NameOrder()
    ensures PoliciesFirst(ALLOWED)
    ensures forall t :: t in ALLOWED <==> Allowed(t)
  {
    forall t
      ensures t in ALLOWED <==> Allowed(t)
    {
      AllowedAreListed(t);
    }
  }

  /**
   Backing up state `d` and restoring over any later state `e` of the same database succeeds.
   Every allowed table that had rows in `d` gets exactly those rows without forbidden columns;
   the policy rules are emptied if `d` had policies but no rules, because emptying the policies
   cascades to them; and every other table stays as it was in `e`.
   */
  lemma BackupRestores(d: Tables, e: Tables)
    requires SameDatabase(d, e)
    ensures var r := RestoreTables(e, Backup(d), ALLOWED);
            && r.Some? && r.value.Keys == e.Keys
            && forall t | t in e :: r.value[t] ==
                 if Allowed(t) && d[t] != [] then Projected(t, d[t])
                 else if t == PolicyRules && RowsOf(d, Policies) != [] then []
                 else e[t]
  {
    NameOrder();
    RestoreReaches(d, e, ALLOWED);
  }

  /** Restoring the backup of a state over itself changes nothing but the forbidden columns. */
  lemma RestoreOverItself(d: Tables)
    requires SameDatabase(d, d)
    ensures var r := RestoreTables(d, Backup(d), ALLOWED);
            && r.Some? && r.value.Keys == d.Keys
            && forall t | t in d :: r.value[t] == if Allowed(t) then Projected(t, d[t]) else d[t]
  {
    BackupRestores(d, d);
  }

  // ---------------------------------------------------------------------------------------
  // The manifest

  predicate HasManifest(db: Tables, id: string) {
    exists k | 0 <= k < |RowsOf(db, AtlasBackups)| :: Column(RowsOf(db, AtlasBackups)[k], "backup_id") == Text(id)
  }

  /**
   A backup's manifest, recorded after its payload was read, survives the restore of that
   backup exactly if no manifest was there before it.
   */
  lemma ManifestSurvives(d: Tables, e: Tables, id: string)
    requires SameDatabase(d, e) && AtlasBackups in d
    requires !HasManifest(d, id) && HasManifest(e, id)
    ensures var r := RestoreTables(e, Backup(d), ALLOWED);
            r.Some? && (HasManifest(r.value, id) <==> d[AtlasBackups] == [])
  {
    BackupRestores(d, e);
    NothingProjectedOut(AtlasBackups, d[AtlasBackups]);
    var r := RestoreTables(e, Backup(d), ALLOWED).value;
    assert r[AtlasBackups] == if d[AtlasBackups] == [] then e[AtlasBackups] else d[AtlasBackups];
    assert RowsOf(r, AtlasBackups) == if d[AtlasBackups] == [] then RowsOf(e, AtlasBackups) else RowsOf(d, AtlasBackups);
  }

  /** The tables once a backup's manifest is recorded. */
  function Recorded(db: Tables, manifest: Row): Tables {
    db[AtlasBackups := RowsOf(db, AtlasBackups) + [manifest]]
  }

  /** Two databases that differ in their manifests only are the same database. */
  lemma SameManifestless(d: Tables, e: Tables)
    requires Uniform(d) && ForeignKeyHolds(d) && d.Keys == e.Keys
    requires forall t | t in d && t != AtlasBackups :: e[t] == d[t]
    ensures SameDatabase(d, e)
  {
    assert RowsOf(e, PolicyRules) == RowsOf(d, PolicyRules) && RowsOf(e, Policies) == RowsOf(d, Policies);
  }

  lemma Manifests(db: Tables, first: Row, second: Row, m: string, n: string)
    requires RowsOf(db, AtlasBackups) == [first, second]
    requires Column(first, "backup_id") == Text(m) && Column(second, "backup_id") == Text(n)
    ensures HasManifest(db, m) && HasManifest(db, n)
  {
    assert RowsOf(db, AtlasBackups)[0] == first && RowsOf(db, AtlasBackups)[1] == second;
  }

  lemma TwoBackups(d: Tables, first: Row, second: Row)
    requires SameDatabase(d, d) && AtlasBackups in d && d[AtlasBackups] == []
    ensures var one := Recorded(d, first);
            var two := Recorded(one, second);
            && one[AtlasBackups] == [first] && two[AtlasBackups] == [first, second]
            && SameDatabase(d, two) && SameDatabase(one, two)
  {
    var one := Recorded(d, first);
    var two := Recorded(one, second);
    SameManifestless(d, two);
    SameManifestless(one, two);
  }

  /** Of two backups in a row, restoring the first keeps both manifests, and restoring the second loses its own. */
  lemma SecondManifestIsLost(d: Tables, first: Row, second: Row, m: string, n: string)
    requires SameDatabase(d, d) && AtlasBackups in d && d[AtlasBackups] == []
    requires Column(first, "backup_id") == Text(m) && Column(second, "backup_id") == Text(n) && m != n
    ensures var one := Recorded(d, first);
            var two := Recorded(one, second);
            var r, q := RestoreTables(two, Backup(d), ALLOWED), RestoreTables(two, Backup(one), ALLOWED);
            && HasManifest(two, m) && HasManifest(two, n)
            && r.Some? && HasManifest(r.value, m) && HasManifest(r.value, n)
            && q.Some? && !HasManifest(q.value, n)
  {
    var one := Recorded(d, first);
    var two := Recorded(one, second);
    TwoBackups(d, first, second);
    Manifests(two, first, second, m, n);
    assert !HasManifest(one, n) && !HasManifest(d, m) && !HasManifest(d, n);
    ManifestSurvives(one, two, n);
    ManifestSurvives(d, two, m);
    ManifestSurvives(d, two, n);
  }

  /** The same on an otherwise empty database. */
  lemma BackupForgetsItself()
    ensures var d: Tables := map[AtlasBackups := []];
            var one := Recorded(d, map["backup_id" := Text("1")]);
            var two := Recorded(one, map["backup_id" := Text("2")]);
            var q := RestoreTables(two, Backup(one), ALLOWED);
            HasManifest(two, "2") && q.Some? && !HasManifest(q.value, "2")
  {
    var d: Tables := map[AtlasBackups := []];
    SecondManifestIsLost(d, map["backup_id" := Text("1")], map["backup_id" := Text("2")], "1", "2");
  }

  // ---------------------------------------------------------------------------------------

  datatype RestoreResult = Planned | Applied | Unknown | Refused

  class Atlas {
    var tables: Tables
    var files: map<string, Tables>  // the backup files, by backup id

    constructor (tables: Tables)
      ensures this.tables == tables && files == map[]
    {
      this.tables := tables;
      files := map[];
    }

    method ReadTable(t: Table) returns (rows: seq<Row>)
      requires t in tables
      ensures rows == Projected(t, tables[t])
    {
      rows := [];
      for i := 0 to |tables[t]|
        invariant rows == Projected(t, tables[t])[..i]
      {
        rows := rows + [tables[t][i] - Forbidden(t)];
      }
    }

    method BuildPayload() returns (payload: Tables)
      ensures payload == Backup(tables)
    {
      payload := map[];
      for i := 0 to |ALLOWED|
        invariant payload == map t | t in tables && t in ALLOWED[..i] :: Projected(t, tables[t])
      {
        assert ALLOWED[..i + 1] == ALLOWED[..i] + [ALLOWED[i]];
        if ALLOWED[i] in tables {
          var rows := ReadTable(ALLOWED[i]);
          payload := payload[ALLOWED[i] := rows];
        }
      }
      assert ALLOWED[..|ALLOWED|] == ALLOWED;
      NameOrder();
    }

    method CreateBackup(id: string, manifest: Row)
      requires AtlasBackups in tables
      requires Column(manifest, "backup_id") == Text(id)
      modifies this
      ensures files == old(files)[id := Backup(old(tables))]
      ensures tables == old(tables)[AtlasBackups := old(tables)[AtlasBackups] + [manifest]]
      ensures HasManifest(tables, id)
    {
      var payload := BuildPayload();
      files := files[id := payload];
      tables := tables[AtlasBackups := tables[AtlasBackups] + [manifest]];
      assert RowsOf(tables, AtlasBackups)[|tables[AtlasBackups]| - 1] == manifest;
    }

    method Restore(id: string, dryRun: bool) returns (result: RestoreResult)
      modifies this`tables
      ensures var known := HasManifest(old(tables), id) && id in files;
              && (result.Unknown? <==> !known)
              && (result.Planned? <==> known && dryRun)
              && (known && !dryRun ==>
                    var r := RestoreTables(old(tables), files[id], ALLOWED);
                    result == (if r.Some? then Applied else Refused)
                    && tables == if r.Some? then r.value else old(tables))
              && (!known || dryRun ==> tables == old(tables))
    {
      if !HasManifest(tables, id) || id !in files {
        return Unknown;
      }
      var payload := files[id];
      if dryRun {
        return Planned;
      }
      var rollback := tables;
      var ok := RunTransaction(payload, ALLOWED);
      if !ok {
        tables := rollback;
        return Refused;
      }
      result := Applied;
    }

    /** Restore the tables of `order` in turn; false, with the tables in between, when one is refused. */
    method RunTransaction(payload: Tables, order: seq<Table>) returns (ok: bool)
      modifies this`tables
      ensures var r := RestoreTables(old(tables), payload, order);
              ok == r.Some? && (ok ==> tables == r.value)
    {
      for i := 0 to |order|
        invariant RestoreTables(old(tables), payload, order[..i]) == Some(tables)
      {
        assert order[..i + 1][..i] == order[..i];
        var t := order[i];
        if t in payload && payload[t] != [] {
          ok := RestoreOne(payload, t);
          if !ok {
            RefusalIsFinal(old(tables), payload, order, i + 1);
            return false;
          }
        }
      }
      assert order[..|order|] == order;
      ok := true;
    }

    /** One INSERT; a policy rule without its policy is refused. */
    method InsertRow(t: Table, row: Row) returns (ok: bool)
      requires t in tables
      modifies this`tables
      ensures ok <==> t == PolicyRules ==> Refers(row, RowsOf(old(tables), Policies))
      ensures tables == if ok then old(tables)[t := old(tables)[t] + [row]] else old(tables)
    {
      if t == PolicyRules && !Refers(row, RowsOf(tables, Policies)) {
        return false;
      }
      tables := tables[t := tables[t] + [row]];
      ok := true;
    }

    /** Delete a table's rows and insert the backed-up ones; false when the database refuses. */
    method RestoreOne(payload: Tables, t: Table) returns (ok: bool)
      requires t in payload && payload[t] != []
      modifies this`tables
      ensures var r := RestoreTable(old(tables), payload, t);
              ok == r.Some? && (ok ==> tables == r.value)
    {
      if t !in tables {
        return false;
      }
      tables := Emptied(tables, t);
      ok := InsertRows(t, payload[t]);
    }

    /** The inserts for an emptied table, with the columns of the first row. */
    method InsertRows(t: Table, rows: seq<Row>) returns (ok: bool)
      requires t in tables && tables[t] == []
      modifies this`tables
      ensures ok <==> t == PolicyRules ==> Consistent(Inserted(rows), RowsOf(old(tables), Policies))
      ensures ok ==> tables == old(tables)[t := Inserted(rows)]
    {
      ghost var policies := RowsOf(tables, Policies);
      for i := 0 to |rows|
        invariant t in tables && tables[t] == Inserted(rows)[..i]
        invariant tables == old(tables)[t := tables[t]]
        invariant RowsOf(tables, Policies) == policies || t == Policies
        invariant t == PolicyRules ==> forall k | 0 <= k < i :: Refers(Inserted(rows)[k], policies)
      {
        var row := map c | c in rows[0] :: Column(rows[i], c);
        assert row == Inserted(rows)[i];
        assert Inserted(rows)[..i + 1] == Inserted(rows)[..i] + [row];
        var inserted := InsertRow(t, row);
        if !inserted {
          return false;
        }
      }
      assert Inserted(rows)[..|rows|] == Inserted(rows);
      ok := true;
    }
  }

  lemma {:induction false} RefusalIsFinal(db: Tables, payload: Tables, order: seq<Table>, n: nat)
    requires n <= |order|
    requires RestoreTables(db, payload, order[..n]).None?
    ensures RestoreTables(db, payload, order).None?
  {
    if n == |order| {
      assert order[..n] == order;
    } else {
      assert order[..|order| - 1][..n] == order[..n];
      RefusalIsFinal(db, payload, order[..|order| - 1], n);
    }
  }
}
