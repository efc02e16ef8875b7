/** Crash recovery and the lifecycle checks that look for what it should have cleaned up. */
module Recovery {
  import opened Common
  import ActionModel
  import ConsentModel

  // A timestamp that does not parse is None.

  datatype StoredAction = StoredAction(id: int, status: ActionModel.Status, expiresAt: Option<int>)
  {
    predicate IsDue(now: int) {
      (status.Pending? || status.Running?) && expiresAt.Some? && expiresAt.value < now
    }
  }

  datatype Decision = Undecided | Approved | Denied | Expired | Revoked

  datatype Authorization = Authorization(id: int, decision: Decision, expiresAt: Option<int>)
  {
    predicate IsDue(now: int) {
      decision.Approved? && expiresAt.Some? && expiresAt.value < now
    }
  }

  function RecoveredActions(rows: seq<StoredAction>, now: int): (r: seq<StoredAction>)
    ensures |r| == |rows|
  {
    seq(|rows|, i requires 0 <= i < |rows| =>
      if rows[i].IsDue(now) then rows[i].(status := ActionModel.Expired) else rows[i])
  }

  function RecoveredAuthorizations(rows: seq<Authorization>, now: int): (r: seq<Authorization>)
    ensures |r| == |rows|
  {
    seq(|rows|, i requires 0 <= i < |rows| =>
      if rows[i].IsDue(now) then rows[i].(decision := Expired) else rows[i])
  }

  /** What the check on actions reports: malformed rows, and expired ones still PENDING. */
  predicate BadAction(a: StoredAction, now: int) {
    a.expiresAt.None? || (a.expiresAt.value < now && a.status.Pending?)
  }

  predicate BadAuthorization(a: Authorization, now: int) {
    a.expiresAt.None? || (a.expiresAt.value < now && a.decision.Approved?)
  }

  predicate UniqueActions(rows: seq<StoredAction>) {
    forall i, j | 0 <= i < j < |rows| :: rows[i].id != rows[j].id
  }

  predicate UniqueAuthorizations(rows: seq<Authorization>) {
    forall i, j | 0 <= i < j < |rows| :: rows[i].id != rows[j].id
  }

  // ---------------------------------------------------------------------------------------

  class Store {
    var actions: seq<StoredAction>
    var authorizations: seq<Authorization>

    constructor (actions: seq<StoredAction>, authorizations: seq<Authorization>)
      ensures this.actions == actions && this.authorizations == authorizations
    {
      this.actions, this.authorizations := actions, authorizations;
    }

    /** Expire what is due, row by row; the result counts the rows changed. */
    method RecoverActions(now: int) returns (expired: nat)
      requires UniqueActions(actions)
      modifies this`actions
      ensures actions == RecoveredActions(old(actions), now)
      ensures expired == |set i | 0 <= i < |old(actions)|
                                   && old(actions)[i].status in {ActionModel.Pending, ActionModel.Running}
                                   && old(actions)[i].expiresAt.Some? && old(actions)[i].expiresAt.value < now|
    {
      var rows := actions;
      expired := 0;
      ghost var due: set<int> := {};
      for i := 0 to |rows|
        invariant |actions| == |rows|
        invariant forall k | 0 <= k < |rows| ::
                    actions[k] == if k < i then RecoveredActions(rows, now)[k] else rows[k]
        invariant due == set k | 0 <= k < i && rows[k].IsDue(now) :: k
        invariant expired == |due|
      {
        var row := rows[i];
        if row.status.Pending? || row.status.Running? {
          if row.expiresAt.Some? && row.expiresAt.value < now {
            SetStatus(row.id);
            due := due + {i};
            expired := expired + 1;
          }
        }
      }
      assert due == set i | 0 <= i < |rows| && rows[i].status in {ActionModel.Pending, ActionModel.Running}
                            && rows[i].expiresAt.Some? && rows[i].expiresAt.value < now;
    }

    /** UPDATE orion_actions SET status = 'EXPIRED' WHERE action_id = id */
    method SetStatus(id: int)
      modifies this`actions
      ensures |actions| == |old(actions)|
      ensures forall k | 0 <= k < |actions| ::
                actions[k] == if old(actions)[k].id == id then old(actions)[k].(status := ActionModel.Expired)
                              else old(actions)[k]
    {
      var rows := actions;
      actions := seq(|rows|, i requires 0 <= i < |rows| =>
        if rows[i].id == id then rows[i].(status := ActionModel.Expired) else rows[i]);
    }

    method RecoverAuthorizations(now: int) returns (expired: nat)
      requires UniqueAuthorizations(authorizations)
      modifies this`authorizations
      ensures authorizations == RecoveredAuthorizations(old(authorizations), now)
      ensures expired == |set i | 0 <= i < |old(authorizations)| && old(authorizations)[i].decision == Approved
                                   && old(authorizations)[i].expiresAt.Some? && old(authorizations)[i].expiresAt.value < now|
    {
      var rows := authorizations;
      expired := 0;
      ghost var due: set<int> := {};
      for i := 0 to |rows|
        invariant |authorizations| == |rows|
        invariant forall k | 0 <= k < |rows| ::
                    authorizations[k] == if k < i then RecoveredAuthorizations(rows, now)[k] else rows[k]
        invariant due == set k | 0 <= k < i && rows[k].IsDue(now) :: k
        invariant expired == |due|
      {
        var row := rows[i];
        if row.decision.Approved? && row.expiresAt.Some? && row.expiresAt.value < now {
          var table := authorizations;
          authorizations := seq(|table|, k requires 0 <= k < |table| =>
            if table[k].id == row.id then table[k].(decision := Expired) else table[k]);
          due := due + {i};
          expired := expired + 1;
        }
      }
      assert due == set i | 0 <= i < |rows| && rows[i].decision == Approved
                            && rows[i].expiresAt.Some? && rows[i].expiresAt.value < now;
    }

    /** The ids the check reports, in table order; the check is ok when there are none. */
    method CheckActions(now: int) returns (bad: seq<int>)
      ensures bad == [] <==> forall i | 0 <= i < |actions| :: !BadAction(actions[i], now)
      ensures forall id :: id in bad <==>
                exists i | 0 <= i < |actions| :: actions[i].id == id
                  && (actions[i].expiresAt.None? || (actions[i].status.Pending? && actions[i].expiresAt.value < now))
    {
      bad := [];
      for i := 0 to |actions|
        invariant bad == [] <==> forall k | 0 <= k < i :: !BadAction(actions[k], now)
        invariant forall id :: id in bad <==> exists k | 0 <= k < i :: BadAction(actions[k], now) && actions[k].id == id
      {
        ghost var before := bad;
        if actions[i].expiresAt.None? {
          bad := bad + [actions[i].id];
        } else if actions[i].expiresAt.value < now && actions[i].status.Pending? {
          bad := bad + [actions[i].id];
        }
        assert BadAction(actions[i], now) ==> bad == before + [actions[i].id];
      }
    }

    method CheckAuthorizations(now: int) returns (bad: seq<int>)
      ensures bad == [] <==> forall i | 0 <= i < |authorizations| :: !BadAuthorization(authorizations[i], now)
      ensures forall id :: id in bad <==>
                exists i | 0 <= i < |authorizations| :: authorizations[i].id == id
                  && (authorizations[i].expiresAt.None?
                      || (authorizations[i].decision.Approved? && authorizations[i].expiresAt.value < now))
    {
      bad := [];
      for i := 0 to |authorizations|
        invariant bad == [] <==> forall k | 0 <= k < i :: !BadAuthorization(authorizations[k], now)
        invariant forall id :: id in bad <==>
                    exists k | 0 <= k < i :: BadAuthorization(authorizations[k], now) && authorizations[k].id == id
      {
        ghost var before := bad;
        if authorizations[i].expiresAt.None? {
          bad := bad + [authorizations[i].id];
        } else if authorizations[i].expiresAt.value < now && authorizations[i].decision.Approved? {
          bad := bad + [authorizations[i].id];
        }
        assert BadAuthorization(authorizations[i], now) ==> bad == before + [authorizations[i].id];
      }
    }
  }

  // ---------------------------------------------------------------------------------------
  // Recovery and the check

  /**
   After recovery at `now`, the check at any time up to `now` passes exactly if every
   timestamp parses: recovery skips the rows whose timestamp does not, and the check reports
   them. Recovering again changes nothing.
   */
  lemma RecoveryMeetsCheck(rows: seq<StoredAction>, now: int, earlier: int)
    requires earlier <= now
    ensures var r := RecoveredActions(rows, now);
            && ((forall i | 0 <= i < |r| :: !BadAction(r[i], earlier)) <==>
                (forall i | 0 <= i < |rows| :: rows[i].expiresAt.Some?))
            && RecoveredActions(r, now) == r
            && RecoveredActions(r, earlier) == r
  {
    var r := RecoveredActions(rows, now);
    if forall i | 0 <= i < |r| :: !BadAction(r[i], earlier) {
      forall i | 0 <= i < |rows|
        ensures rows[i].expiresAt.Some?
      {
        assert !BadAction(r[i], earlier);
      }
    }
  }

  lemma AuthorizationRecoveryMeetsCheck(rows: seq<Authorization>, now: int, earlier: int)
    requires earlier <= now
    ensures var r := RecoveredAuthorizations(rows, now);
            && ((forall i | 0 <= i < |r| :: !BadAuthorization(r[i], earlier)) <==>
                (forall i | 0 <= i < |rows| :: rows[i].expiresAt.Some?))
            && RecoveredAuthorizations(r, now) == r
            && (forall i | 0 <= i < |rows| && !rows[i].decision.Approved? :: r[i] == rows[i])
  {
    var r := RecoveredAuthorizations(rows, now);
    if forall i | 0 <= i < |r| :: !BadAuthorization(r[i], earlier) {
      forall i | 0 <= i < |rows|
        ensures rows[i].expiresAt.Some?
      {
        assert !BadAuthorization(r[i], earlier);
      }
    }
  }

  /** Recovery expires exactly the rows whose lifetime is over and that wait, run or stand approved. */
  lemma RecoveryAnswers(actions: seq<StoredAction>, authorizations: seq<Authorization>, now: int)
    ensures var r, q := RecoveredActions(actions, now), RecoveredAuthorizations(authorizations, now);
            && (forall i | 0 <= i < |actions| ::
                  r[i] == if actions[i].status in {ActionModel.Pending, ActionModel.Running}
                             && actions[i].expiresAt.Some? && actions[i].expiresAt.value < now
                          then actions[i].(status := ActionModel.Expired) else actions[i])
            && (forall i | 0 <= i < |authorizations| ::
                  q[i] == if authorizations[i].decision == Approved
                             && authorizations[i].expiresAt.Some? && authorizations[i].expiresAt.value < now
                          then authorizations[i].(decision := Expired) else authorizations[i])
  {
  }

  /** A queue row as the recovery reads it. */
  function Stored(rows: seq<ActionModel.Action>): (r: seq<StoredAction>)
    ensures |r| == |rows|
  {
    seq(|rows|, i requires 0 <= i < |rows| => StoredAction(rows[i].id, rows[i].status, Some(rows[i].expiresAt)))
  }

  /** On rows the queue wrote, recovery and the queue's own sweep expire the same actions. */
  lemma RecoveryIsSweep(rows: seq<ActionModel.Action>, now: int)
    ensures RecoveredActions(Stored(rows), now) == Stored(ActionModel.Swept(rows, now))
    ensures ActionModel.Swept(ActionModel.Swept(rows, now), now) == ActionModel.Swept(rows, now)
  {
    assert forall i | 0 <= i < |rows| :: Stored(rows)[i].IsDue(now) <==> rows[i].IsStale(now);
  }

  // ---------------------------------------------------------------------------------------
  // Aegis sessions

  datatype AegisSession = AegisSession(state: string, expiresAt: Option<int>)
  {
    predicate IsPast(now: int) {
      expiresAt.Some? && expiresAt.value < now
    }
  }

  /** The state names that the recovery query looks for. */
  const RECOVERED_STATES := ["INITIALIZED", "CONSENT_GRANTED", "CAPTURING"]

  /** The states that the controller's own expiry pass leaves alone. */
  const ENDED_STATES := ["STOPPED", "EXPIRED", "REVOKED"]

  function RecoveredSession(a: AegisSession, now: int): AegisSession {
    if a.state in RECOVERED_STATES && a.IsPast(now) then a.(state := "EXPIRED") else a
  }

  function RecoveredSessions(rows: seq<AegisSession>, now: int): (r: seq<AegisSession>)
    ensures |r| == |rows|
  {
    seq(|rows|, i requires 0 <= i < |rows| => RecoveredSession(rows[i], now))
  }

  /** A session whose lifetime is over and that has not ended. */
  predicate IsOverdue(a: AegisSession, now: int) {
    a.state !in ENDED_STATES && a.IsPast(now)
  }

  lemma RecoveredAreNotEnded(state: string)
    requires state in RECOVERED_STATES
    ensures state !in ENDED_STATES
  {
    assert state == RECOVERED_STATES[0] || state == RECOVERED_STATES[1] || state == RECOVERED_STATES[2];
    assert |state| >= 9;
    assert forall i | 0 <= i < |ENDED_STATES| :: |ENDED_STATES[i]| == 7;
  }

  lemma ExpiredIsEnded()
    ensures "EXPIRED" in ENDED_STATES && "EXPIRED" !in RECOVERED_STATES
  {
    assert ENDED_STATES[1] == "EXPIRED";
    assert forall i | 0 <= i < |RECOVERED_STATES| :: |RECOVERED_STATES[i]| >= 9;
  }

  /**
   Recovery leaves no session overdue exactly if the query looks for the state of every
   overdue one; it changes no session that has ended, and does its work in one pass.
   */
  lemma AegisRecoveryCompletesExactly(rows: seq<AegisSession>, now: int)
    ensures var r := RecoveredSessions(rows, now);
            && ((forall i | 0 <= i < |r| :: !IsOverdue(r[i], now)) <==>
                (forall i | 0 <= i < |rows| && IsOverdue(rows[i], now) :: rows[i].state in RECOVERED_STATES))
            && (forall i | 0 <= i < |rows| && rows[i].state in ENDED_STATES :: r[i] == rows[i])
            && RecoveredSessions(r, now) == r
  {
    var r := RecoveredSessions(rows, now);
    ExpiredIsEnded();
    forall i | 0 <= i < |rows|
      ensures IsOverdue(r[i], now) <==> IsOverdue(rows[i], now) && rows[i].state !in RECOVERED_STATES
      ensures rows[i].state in ENDED_STATES ==> r[i] == rows[i]
    {
      if rows[i].state in RECOVERED_STATES {
        RecoveredAreNotEnded(rows[i].state);
      }
    }
  }

  // ---------------------------------------------------------------------------------------
  // The sessions of the controller

  function StateName(state: ConsentModel.SessionState): string {
    match state
    case Initialized => "INITIALIZED"
    case ConsentRequired => "SYSTEM_CONSENT_REQUIRED"
    case ConsentGranted => "SYSTEM_CONSENT_GRANTED"
    case ConsentDenied => "SYSTEM_CONSENT_DENIED"
    case Capturing => "CAPTURING"
    case Stopped => "STOPPED"
    case SessionExpired => "EXPIRED"
    case SessionRevoked => "REVOKED"
  }

  /** A session as the registry stores it. */
  function Registered(session: ConsentModel.Session): AegisSession {
    AegisSession(StateName(session.state), session.expiresAt)
  }

  lemma NamesRecovered(state: ConsentModel.SessionState)
    ensures StateName(state) in RECOVERED_STATES <==> state.Initialized? || state.Capturing?
  {
    assert RECOVERED_STATES[0] == "INITIALIZED" && RECOVERED_STATES[2] == "CAPTURING";
    assert |"CONSENT_GRANTED"| == 15;
    assert forall i | 0 <= i < |RECOVERED_STATES| ::
             |RECOVERED_STATES[i]| == 11 || |RECOVERED_STATES[i]| == 15 || |RECOVERED_STATES[i]| == 9;
  }

  lemma NamesEnded(state: ConsentModel.SessionState)
    ensures StateName(state) in ENDED_STATES <==> state.Stopped? || state.SessionExpired? || state.SessionRevoked?
  {
    assert ENDED_STATES[0] == "STOPPED" && ENDED_STATES[1] == "EXPIRED" && ENDED_STATES[2] == "REVOKED";
    assert forall i | 0 <= i < |ENDED_STATES| :: |ENDED_STATES[i]| == 7;
  }

  /**
   What the controller's expiry pass would end, recovery ends exactly if the session was never
   asked for its consent or is marked as capturing: the query has no state of the consent dialog.
   */
  lemma AegisRecoveryReaches(session: ConsentModel.Session, now: int)
    ensures IsOverdue(Registered(session), now) <==> session.IsDue(now)
    ensures RecoveredSession(Registered(session), now) ==
              if session.state in {ConsentModel.Initialized, ConsentModel.Capturing}
                 && session.expiresAt.Some? && session.expiresAt.value < now
              then AegisSession("EXPIRED", session.expiresAt) else Registered(session)
    ensures session.IsDue(now) ==>
              (RecoveredSession(Registered(session), now).state == "EXPIRED"
               <==> session.state.Initialized? || session.state.Capturing?)
  {
    NamesEnded(session.state);
    NamesRecovered(session.state);
    ExpiredIsEnded();
  }
}
