/** The alert manager over the alerts table. */
module AlertManager {
  import opened Common
  import opened AlertModel
  import AlertOperations

  /** What a status change of one alert says: an unknown id raises, and a change that does not apply returns False. */
  datatype Change = Changed | Unchanged | AlertNotFound

  class Manager {
    var rows: seq<Alert>
    var nextId: int

    ghost predicate Valid()
      reads this
    {
      AlertOperations.Kept(View())
    }

    function View(): State
      reads this
    {
      State(rows, nextId)
    }

    constructor ()
      ensures Valid() && View() == State([], 0)
    {
      rows, nextId := [], 0;
    }

    /** UPDATE ... WHERE id = ..., for a row known by its place. */
    method UpdateRow(place: nat, alert: Alert)
      requires place < |rows| && alert.id == rows[place].id
      requires AlertOperations.UniqueIds(View())
      modifies this`rows
      ensures rows == old(rows)[place := alert]
    {
      var table := rows;
      rows := seq(|table|, i requires 0 <= i < |table| => if table[i].id == alert.id then alert else table[i]);
    }

    method CreateOrUpdateAlert(key: Key, severity: Severity, now: int) returns (alert: Alert)
      requires Valid()
      modifies this
      ensures Valid() && View() == Apply(old(View()), Report(key, severity, now))
      ensures alert in rows && alert.key == key && alert.IsOpen() && alert.severity == severity
    {
      AlertOperations.KeptStep(View(), Report(key, severity, now));
      var found := LatestOpen(rows, key);
      if found.Some? {
        alert := rows[found.value].(severity := severity, lastSeenAt := now);
        UpdateRow(found.value, alert);
        assert rows[found.value] == alert;
        return;
      }
      alert := Alert(nextId, key, severity, Active, now, now);
      nextId := nextId + 1;
      rows := rows + [alert];
    }

    method AutoResolveAlert(key: Key)
      requires Valid()
      modifies this
      ensures Valid() && View() == Apply(old(View()), Clear(key))
    {
      AlertOperations.KeptStep(View(), Clear(key));
      var found := LatestOpen(rows, key);
      if found.None? {
        return;
      }
      UpdateRow(found.value, rows[found.value].(status := Resolved));
    }

    method AcknowledgeAlert(id: int) returns (result: Change)
      requires Valid()
      modifies this
      ensures Valid() && View() == Apply(old(View()), Acknowledge(id))
      ensures result.AlertNotFound? <==> forall i | 0 <= i < |old(rows)| :: old(rows)[i].id != id
      ensures result.Changed? <==> Find(old(rows), id).Some? && Find(old(rows), id).value.status.Active?
    {
      AlertOperations.KeptStep(View(), Acknowledge(id));
      FindNone(rows, id);
      var alert := Find(rows, id);
      if alert.None? {
        return AlertNotFound;
      }
      if alert.value.status != Active {
        return Unchanged;
      }
      rows := WithStatus(rows, id, Acknowledged);
      result := Changed;
    }

    method DismissAlert(id: int) returns (result: Change)
      requires Valid()
      modifies this
      ensures Valid() && View() == Apply(old(View()), Dismiss(id))
      ensures result.AlertNotFound? <==> forall i | 0 <= i < |old(rows)| :: old(rows)[i].id != id
      ensures result.Changed? <==> Find(old(rows), id).Some? && Find(old(rows), id).value.IsOpen()
    {
      AlertOperations.KeptStep(View(), Dismiss(id));
      FindNone(rows, id);
      var alert := Find(rows, id);
      if alert.None? {
        return AlertNotFound;
      }
      if alert.value.status == Dismissed || alert.value.status == Resolved {
        return Unchanged;
      }
      rows := WithStatus(rows, id, Dismissed);
      result := Changed;
    }

    method ResolveAlert(id: int) returns (result: Change)
      requires Valid()
      modifies this
      ensures Valid() && View() == Apply(old(View()), Resolve(id))
      ensures result.AlertNotFound? <==> forall i | 0 <= i < |old(rows)| :: old(rows)[i].id != id
      ensures result.Changed? <==> Find(old(rows), id).Some? && !Find(old(rows), id).value.status.Resolved?
    {
      AlertOperations.KeptStep(View(), Resolve(id));
      FindNone(rows, id);
      var alert := Find(rows, id);
      if alert.None? {
        return AlertNotFound;
      }
      if alert.value.status == Resolved {
        return Unchanged;
      }
      rows := WithStatus(rows, id, Resolved);
      result := Changed;
    }

    method CleanupRetention(cutoff: int) returns (deleted: nat)
      requires Valid()
      modifies this
      ensures Valid() && View() == Apply(old(View()), Cleanup(cutoff))
      ensures deleted + |rows| == |old(rows)|
    {
      AlertOperations.KeptStep(View(), Cleanup(cutoff));
      RetainedIsShorter(rows, cutoff);
      deleted := |rows| - |Retained(rows, cutoff)|;
      rows := Retained(rows, cutoff);
    }
  }

  lemma {:induction false} FindNone(rows: seq<Alert>, id: int)
    ensures Find(rows, id).None? <==> forall i | 0 <= i < |rows| :: rows[i].id != id
  {
    if rows != [] {
      FindNone(rows[1..], id);
      assert forall i | 1 <= i < |rows| :: rows[i] == rows[1..][i - 1];
    }
  }

  lemma {:induction false} RetainedIsShorter(rows: seq<Alert>, cutoff: int)
    ensures |Retained(rows, cutoff)| <= |rows|
  {
    if rows != [] {
      RetainedIsShorter(rows[..|rows| - 1], cutoff);
    }
  }
}
