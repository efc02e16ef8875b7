/** What a backup holds and what a restore of any payload does, column by column. */
module RestoreAnswers {
  import opened Common
  import opened Restore

  // ---------------------------------------------------------------------------------------
  // Columns

  /** The one column that never leaves the database. */
  predicate IsPrivate(t: Table, column: string) {
    t == Identities && column == "private_key_pem"
  }

  /** The rows agree in number and in every column but the private one, which the second have not. */
  ghost predicate SamePublicRows(t: Table, rows: seq<Row>, copies: seq<Row>) {
    && |copies| == |rows|
    && forall i, column | 0 <= i < |rows| ::
         && (column in copies[i] <==> column in rows[i] && !IsPrivate(t, column))
         && (column in copies[i] ==> copies[i][column] == rows[i][column])
  }

  lemma ProjectedRows(t: Table, rows: seq<Row>)
    ensures SamePublicRows(t, rows, Projected(t, rows))
  {
    forall i, column | 0 <= i < |rows|
      ensures column in Projected(t, rows)[i] <==> column in rows[i] && !IsPrivate(t, column)
      ensures column in Projected(t, rows)[i] ==> Projected(t, rows)[i][column] == rows[i][column]
    {
      assert column in Forbidden(t) <==> IsPrivate(t, column);
    }
  }

  /** A backup holds exactly the tables of the schema list that exist, each with all its rows and public columns. */
  lemma BackupHolds(d: Tables, t: Table)
    ensures t in Backup(d) <==> t in d && !t.Other?
    ensures t in Backup(d) ==> SamePublicRows(t, d[t], Backup(d)[t])
    ensures Identities in Backup(d) ==> forall i | 0 <= i < |d[Identities]| :: "private_key_pem" !in Backup(d)[Identities][i]
  {
    if t in d {
      ProjectedRows(t, d[t]);
    }
    if Identities in d {
      ProjectedRows(Identities, d[Identities]);
      assert IsPrivate(Identities, "private_key_pem");
    }
  }

  /** After the round trip, every backed-up row is back with its public columns and no private key. */
  lemma RoundTripRows(d: Tables, e: Tables, t: Table)
    requires SameDatabase(d, e)
    requires t in d && !t.Other? && d[t] != []
    ensures var r := RestoreTables(e, Backup(d), ALLOWED);
            r.Some? && t in r.value && SamePublicRows(t, d[t], r.value[t])
  {
    BackupRestores(d, e);
    ProjectedRows(t, d[t]);
  }

  // ---------------------------------------------------------------------------------------
  // Restoring any payload

  /** The inserted rows have the columns of the first payload row, and Null where a row lacks one. */
  ghost predicate InsertedFrom(payload: seq<Row>, rows: seq<Row>) {
    && |rows| == |payload|
    && forall i, column | 0 <= i < |rows| ::
         && (column in rows[i] <==> column in payload[0])
         && (column in rows[i] ==> rows[i][column] == if column in payload[i] then payload[i][column] else Null)
  }

  lemma InsertedRows(payload: seq<Row>)
    ensures InsertedFrom(payload, Inserted(payload))
  {
  }

  predicate HasPolicy(rule: Row, policies: seq<Row>) {
    exists k | 0 <= k < |policies| ::
      (if "id" in policies[k] then policies[k]["id"] else Null) == (if "policy_id" in rule then rule["policy_id"] else Null)
  }

  lemma HasPolicyRefers(rule: Row, policies: seq<Row>)
    ensures Refers(rule, policies) <==> HasPolicy(rule, policies)
  {
    forall k | 0 <= k < |policies|
      ensures Column(policies[k], "id") == (if "id" in policies[k] then policies[k]["id"] else Null)
    {
    }
  }

  lemma {:induction false} SparedMembers(rules: seq<Row>, policies: seq<Row>, rule: Row)
    ensures rule in Spared(rules, policies) <==> rule in rules && !HasPolicy(rule, policies)
  {
    if rules != [] {
      HasPolicyRefers(rules[0], policies);
      SparedMembers(rules[1..], policies, rule);
      assert rules == [rules[0]] + rules[1..];
    }
  }

  /** The policies in force once the restore has passed them. */
  function PoliciesThen(db: Tables, payload: Tables): seq<Row> {
    if RowsOf(payload, Policies) != [] && Policies in db then Inserted(payload[Policies]) else RowsOf(db, Policies)
  }

  /** The payload's rows of the table cannot be restored: there is no such table, or a rule has no policy. */
  ghost predicate Blocks(db: Tables, payload: Tables, t: Table) {
    && RowsOf(payload, t) != []
    && (|| t !in db
        || (t == PolicyRules && !Consistent(Inserted(payload[t]), PoliciesThen(db, payload))))
  }

  /** What the table holds once the tables `done` are restored. */
  function Want(db: Tables, payload: Tables, done: seq<Table>, t: Table): seq<Row> {
    if t in done && RowsOf(payload, t) != [] then Inserted(payload[t])
    else if t == PolicyRules && Policies in done && RowsOf(payload, Policies) != []
    then Spared(RowsOf(db, PolicyRules), RowsOf(db, Policies))
    else RowsOf(db, t)
  }

  ghost predicate Progress(db: Tables, payload: Tables, done: seq<Table>, r: Tables) {
    r.Keys == db.Keys && forall t | t in db :: r[t] == Want(db, payload, done, t)
  }

  lemma WantNext(db: Tables, payload: Tables, done: seq<Table>, t: Table, u: Table)
    ensures Want(db, payload, done + [t], u)
         == if u == t && RowsOf(payload, t) != [] then Inserted(payload[t])
            else if u == PolicyRules && t == Policies && RowsOf(payload, Policies) != []
                    && (PolicyRules !in done || RowsOf(payload, PolicyRules) == [])
            then Spared(RowsOf(db, PolicyRules), RowsOf(db, Policies))
            else Want(db, payload, done, u)
  {
    assert u in done + [t] <==> u in done || u == t;
    assert Policies in done + [t] <==> Policies in done || Policies == t;
  }

  lemma TableApplied(db: Tables, payload: Tables, done: seq<Table>, r: Tables, t: Table)
    requires Progress(db, payload, done, r)
    requires t in db && t != Policies && RowsOf(payload, t) != []
    ensures Progress(db, payload, done + [t], r[t := Inserted(payload[t])])
  {
    forall u | u in db
      ensures r[t := Inserted(payload[t])][u] == Want(db, payload, done + [t], u)
    {
      WantNext(db, payload, done, t, u);
    }
  }

  lemma PoliciesApplied(db: Tables, payload: Tables, done: seq<Table>, r: Tables)
    requires Progress(db, payload, done, r)
    requires Policies in db && RowsOf(payload, Policies) != []
    requires Policies !in done && PolicyRules !in done
    ensures var next := RestoreTable(r, payload, Policies);
            next.Some? && Progress(db, payload, done + [Policies], next.value)
  {
    var rows := Inserted(payload[Policies]);
    var emptied := Emptied(r, Policies);
    assert emptied.Keys == r.Keys;
    forall u | u in db
      ensures emptied[Policies := rows][u] == Want(db, payload, done + [Policies], u)
    {
      WantNext(db, payload, done, Policies, u);
    }
  }

  lemma RulesApplied(db: Tables, payload: Tables, done: seq<Table>, r: Tables)
    requires Progress(db, payload, done, r)
    requires PolicyRules in db && RowsOf(payload, PolicyRules) != []
    requires Policies in done
    ensures var next := RestoreTable(r, payload, PolicyRules);
            && (next.None? <==> Blocks(db, payload, PolicyRules))
            && (next.Some? ==> Progress(db, payload, done + [PolicyRules], next.value))
  {
    var emptied := Emptied(r, PolicyRules);
    assert RowsOf(emptied, Policies) == PoliciesThen(db, payload);
    var rows := Inserted(payload[PolicyRules]);
    assert emptied[PolicyRules := rows] == r[PolicyRules := rows];
    TableApplied(db, payload, done, r, PolicyRules);
  }

  lemma OneApplied(db: Tables, payload: Tables, done: seq<Table>, r: Tables, t: Table)
    requires Progress(db, payload, done, r)
    requires t == Policies ==> Policies !in done && PolicyRules !in done
    requires t == PolicyRules ==> Policies in done
    ensures var next := RestoreTable(r, payload, t);
            && (next.None? <==> Blocks(db, payload, t))
            && (next.Some? ==> Progress(db, payload, done + [t], next.value))
  {
    if RowsOf(payload, t) == [] {
      forall u | u in db
        ensures Want(db, payload, done + [t], u) == Want(db, payload, done, u)
      {
        WantNext(db, payload, done, t, u);
      }
    } else if t in db {
      if t == Policies {
        PoliciesApplied(db, payload, done, r);
      } else if t == PolicyRules {
        RulesApplied(db, payload, done, r);
      } else {
        OtherReplaced(r, payload, t);
        TableApplied(db, payload, done, r, t);
      }
    }
  }

  ghost predicate DistinctTables(order: seq<Table>) {
    forall i, j | 0 <= i < j < |order| :: order[i] != order[j]
  }

  ghost predicate SomeBlocks(db: Tables, payload: Tables, order: seq<Table>) {
    exists t | t in order :: Blocks(db, payload, t)
  }

  /** The rules never come before the policies, and no table comes twice. */
  ghost predicate PoliciesLead(order: seq<Table>) {
    DistinctTables(order) && forall j | 0 <= j < |order| && order[j] == PolicyRules :: Policies in order[..j]
  }

  lemma LeadStays(done: seq<Table>, t: Table)
    requires PoliciesLead(done + [t])
    ensures PoliciesLead(done) && t !in done
    ensures t == PolicyRules ==> Policies in done
    ensures t == Policies ==> PolicyRules !in done
  {
    var order := done + [t];
    assert order[|done|] == t && order[..|done|] == done;
    forall i, j | 0 <= i < j < |done|
      ensures done[i] != done[j]
    {
      assert order[i] != order[j];
    }
    forall j | 0 <= j < |done| && done[j] == PolicyRules
      ensures Policies in done[..j]
    {
      assert order[j] == PolicyRules && order[..j] == done[..j];
    }
    forall i | 0 <= i < |done|
      ensures done[i] != t
    {
      assert order[i] != order[|done|];
    }
    RulesBringPolicies(done);
  }

  lemma RulesBringPolicies(done: seq<Table>)
    requires PoliciesLead(done)
    ensures PolicyRules in done ==> Policies in done
  {
    if PolicyRules in done {
      var j :| 0 <= j < |done| && done[j] == PolicyRules;
      assert Policies in done[..j];
    }
  }

  lemma {:induction false} PayloadApplied(db: Tables, payload: Tables, order: seq<Table>)
    requires PoliciesLead(order)
    ensures var r := RestoreTables(db, payload, order);
            && (r.None? <==> SomeBlocks(db, payload, order))
            && (r.Some? ==> Progress(db, payload, order, r.value))
  {
    if order != [] {
      var done, t := order[..|order| - 1], order[|order| - 1];
      assert order == done + [t];
      LeadStays(done, t);
      PayloadApplied(db, payload, done);
      assert SomeBlocks(db, payload, order) <==> SomeBlocks(db, payload, done) || Blocks(db, payload, t) by {
        assert forall u :: u in order <==> u in done || u == t;
      }
      var before := RestoreTables(db, payload, done);
      if before.Some? {
        OneApplied(db, payload, done, before.value, t);
      }
    }
  }

  lemma NameOrderLeads()
    ensures PoliciesLead(ALLOWED)
  {
    forall i, j | 0 <= i < j < |ALLOWED|
      ensures ALLOWED[i] != ALLOWED[j]
    {
      PlaceOf(i);
      PlaceOf(j);
    }
    forall j | 0 <= j < |ALLOWED| && ALLOWED[j] == PolicyRules
      ensures Policies in ALLOWED[..j]
    {
      PlaceOf(j);
      assert ALLOWED[..j][16] == Policies;
    }
  }

  lemma PlaceOf(i: nat)
    requires i < |ALLOWED|
    ensures Place(ALLOWED[i]) == i
  {
  }

  /**
   A restore of any payload over any database is refused exactly if a table with rows to
   restore does not exist, or some rule to restore belongs to none of the policies then in
   force. Otherwise every table with rows in the payload gets those rows; if policies were
   restored and rules were not, the rules keep those that belonged to none of the old
   policies; and every other table stays.
   */
  lemma AnyPayloadRestores(db: Tables, payload: Tables)
    ensures var r := RestoreTables(db, payload, ALLOWED);
            && (r.None? <==> exists t: Table | !t.Other? :: Blocks(db, payload, t))
            && (r.Some? ==> r.value.Keys == db.Keys && forall t | t in db ::
                  if !t.Other? && RowsOf(payload, t) != [] then InsertedFrom(payload[t], r.value[t])
                  else if t == PolicyRules && RowsOf(payload, Policies) != []
                  then forall rule :: rule in r.value[t] <==> rule in db[t] && !HasPolicy(rule, RowsOf(db, Policies))
                  else r.value[t] == db[t])
  {
    NameOrder();
    NameOrderLeads();
    PayloadApplied(db, payload, ALLOWED);
    var r := RestoreTables(db, payload, ALLOWED);
    if r.Some? {
      forall t | t in db
        ensures if !t.Other? && RowsOf(payload, t) != [] then InsertedFrom(payload[t], r.value[t])
                else if t == PolicyRules && RowsOf(payload, Policies) != []
                then forall rule :: rule in r.value[t] <==> rule in db[t] && !HasPolicy(rule, RowsOf(db, Policies))
                else r.value[t] == db[t]
      {
        if !t.Other? && RowsOf(payload, t) != [] {
          InsertedRows(payload[t]);
        } else if t == PolicyRules && RowsOf(payload, Policies) != [] {
          forall rule
            ensures rule in r.value[t] <==> rule in db[t] && !HasPolicy(rule, RowsOf(db, Policies))
          {
            SparedMembers(RowsOf(db, PolicyRules), RowsOf(db, Policies), rule);
          }
        }
      }
    }
  }

  /** What blocks a restore, told from the rows. */
  lemma BlockedRows(db: Tables, payload: Tables, t: Table)
    ensures Blocks(db, payload, t) <==>
              && t in payload && payload[t] != []
              && (|| t !in db
                  || (&& t == PolicyRules
                      && exists i | 0 <= i < |payload[t]| :: !HasPolicy(Inserted(payload[t])[i], PoliciesThen(db, payload))))
  {
    if t == PolicyRules && RowsOf(payload, t) != [] {
      var rows := Inserted(payload[t]);
      forall i | 0 <= i < |rows|
        ensures Refers(rows[i], PoliciesThen(db, payload)) <==> HasPolicy(rows[i], PoliciesThen(db, payload))
      {
        HasPolicyRefers(rows[i], PoliciesThen(db, payload));
      }
    }
  }
}
