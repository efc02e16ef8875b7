/** The consent gate and the capture controller as the objects the source has. */
module CaptureController {
  import opened Common
  import opened ConsentModel

  class SystemConsentGate {
    const android: bool
    var records: map<nat, Record>
    var bySession: map<string, nat>
    var nextToken: nat

    function View(): Gate
      reads this
    {
      Gate(records, bySession, nextToken)
    }

    constructor (android: bool)
      ensures this.android == android && View() == Init().gate
    {
      this.android := android;
      records, bySession, nextToken := map[], map[], 0;
    }

    method Request(screen: string, expiresAt: Option<int>) returns (outcome: Outcome)
      modifies this
      ensures (View(), outcome) == RequestConsent(android, old(View()), screen, expiresAt)
    {
      if !android {
        return PlatformUnavailable;
      }
      if screen in bySession && bySession[screen] in records {
        var existing := records[bySession[screen]];
        if existing.state == Requested {
          return Done;
        }
      }
      var token := nextToken;
      nextToken := nextToken + 1;
      records := records[token := Record(screen, Requested, expiresAt)];
      bySession := bySession[screen := token];
      outcome := Done;
    }

    method Grant(token: nat) returns (outcome: Outcome)
      modifies this
      ensures (View(), outcome) == GrantConsent(android, old(View()), token)
    {
      if !android {
        return PlatformUnavailable;
      }
      if token !in records {
        return NotFound;
      }
      var record := records[token];
      if record.state == Granted {
        assert records == records[token := record];
        return Done;
      }
      if record.state == Denied || record.state == Revoked {
        return ConsentNotGranted(record.state);
      }
      records := records[token := record.(state := Granted)];
      outcome := Done;
    }

    method Deny(token: nat) returns (outcome: Outcome)
      modifies this
      ensures (View(), outcome) == DenyConsent(android, old(View()), token)
    {
      if !android {
        return PlatformUnavailable;
      }
      if token !in records {
        return NotFound;
      }
      var record := records[token];
      if record.state == Denied {
        assert records == records[token := record];
        return Done;
      }
      records := records[token := record.(state := Denied)];
      outcome := Done;
    }

    method Revoke(token: nat) returns (outcome: Outcome)
      modifies this
      ensures (View(), outcome) == RevokeConsent(android, old(View()), token)
    {
      if !android {
        return PlatformUnavailable;
      }
      if token !in records {
        return NotFound;
      }
      var record := records[token];
      if record.state == Revoked || record.state == Expired {
        return Done;
      }
      records := records[token := record.(state := Revoked)];
      outcome := Done;
    }

    /** Expire due records in order of issue; the result lists their tokens. */
    method ExpireDue(now: int) returns (expired: seq<nat>)
      requires forall token | token in records :: token < nextToken
      modifies this`records
      ensures View() == ExpireConsents(old(View()), now)
      ensures forall token :: token in expired <==> token in old(records) && old(records)[token].IsDue(now)
    {
      expired := [];
      for token := 0 to nextToken
        invariant records.Keys == old(records).Keys
        invariant forall t | t in records ::
                    records[t] == if t < token && old(records)[t].IsDue(now)
                                  then old(records)[t].(state := Expired) else old(records)[t]
        invariant forall t :: t in expired <==> t in old(records) && t < token && old(records)[t].IsDue(now)
      {
        if token in records && records[token].IsDue(now) {
          records := records[token := records[token].(state := Expired)];
          expired := expired + [token];
        }
      }
    }

    function Evaluate(screen: string): ConsentState
      reads this
    {
      ConsentModel.Evaluate(android, View(), screen)
    }
  }

  class AegisController {
    const config: Config
    const gate: SystemConsentGate
    var sessions: map<nat, Session>
    var nextSession: nat
    var pipelines: set<nat>
    var indicator: Option<nat>

    function View(): State
      reads this, gate
    {
      State(gate.View(), sessions, nextSession, pipelines, indicator)
    }

    ghost predicate Valid()
      reads this
    {
      gate.android == config.android && forall aegis | aegis in sessions :: aegis < nextSession
    }

    constructor (config: Config)
      ensures Valid() && this.config == config && fresh(gate) && View() == Init()
    {
      this.config := config;
      gate := new SystemConsentGate(config.android);
      sessions, nextSession, pipelines, indicator := map[], 0, {}, None;
    }

    method SetState(aegis: nat, state: SessionState)
      requires aegis in sessions
      modifies this`sessions
      ensures sessions == old(sessions)[aegis := old(sessions)[aegis].(state := state)]
    {
      sessions := sessions[aegis := sessions[aegis].(state := state)];
    }

    method CreateSession(screen: string, trusted: bool, now: int) returns (outcome: Outcome)
      requires Valid()
      modifies this
      ensures Valid() && (View(), outcome) == Apply(config, old(View()), Create(screen, trusted, now))
    {
      if !trusted {
        return Untrusted;
      }
      sessions := sessions[nextSession := Session(screen, Initialized, Some(now + config.lifetime))];
      nextSession := nextSession + 1;
      outcome := Done;
    }

    method RequestSystemConsent(aegis: nat) returns (outcome: Outcome)
      requires Valid()
      modifies this, gate
      ensures Valid() && (View(), outcome) == Apply(config, old(View()), Request(aegis))
    {
      if aegis !in sessions {
        return NotFound;
      }
      outcome := gate.Request(sessions[aegis].screen, sessions[aegis].expiresAt);
      if outcome.Done? {
        SetState(aegis, ConsentRequired);
      }
    }

    method GrantSystemConsent(aegis: nat, token: nat, now: int) returns (outcome: Outcome)
      requires Valid()
      modifies this, gate
      ensures Valid() && (View(), outcome) == Apply(config, old(View()), Op.Grant(aegis, token, now))
    {
      if aegis !in sessions {
        return NotFound;
      }
      outcome := gate.Grant(token);
      if outcome.Done? {
        SetState(aegis, ConsentGranted);
      }
    }

    method DenySystemConsent(aegis: nat, token: nat) returns (outcome: Outcome)
      requires Valid()
      modifies this, gate
      ensures Valid() && (View(), outcome) == Apply(config, old(View()), Op.Deny(aegis, token))
    {
      if aegis !in sessions {
        return NotFound;
      }
      outcome := gate.Deny(token);
      if outcome.Done? {
        SetState(aegis, ConsentDenied);
      }
    }

    /** `provider` is how the projection provider answers; a failing one raises when the pipeline is started. */
    method StartCapture(aegis: nat, provider: Provider, now: int) returns (outcome: Outcome)
      requires Valid()
      modifies this
      ensures Valid() && (View(), outcome) == Apply(config, old(View()), Start(aegis, provider, now))
    {
      if aegis !in sessions {
        return NotFound;
      }
      var consent := gate.Evaluate(sessions[aegis].screen);
      if consent != Granted {
        return ConsentNotGranted(consent);
      }
      if provider.Unavailable? {
        return PlatformUnavailable;
      }
      SetState(aegis, Capturing);
      if provider.FailsToStart? {
        return ProjectionFailed;
      }
      if indicator.Some? && indicator.value != aegis {
        return IndicatorBusy;
      }
      indicator := Some(aegis);
      pipelines := pipelines + {aegis};
      outcome := Done;
    }

    method StopCapture(aegis: nat, final: SessionState) returns (outcome: Outcome)
      requires Valid()
      modifies this, gate
      ensures Valid() && (View(), outcome) == ApplyStop(config, old(View()), aegis, final)
    {
      if aegis !in sessions {
        return NotFound;
      }
      var screen := sessions[aegis].screen;
      pipelines := pipelines - {aegis};
      indicator := None;
      var consent := gate.Evaluate(screen);
      if consent == Granted {
        var revoked := gate.Revoke(gate.bySession[screen]);
      }
      SetState(aegis, final);
      outcome := Done;
    }

    /** Stop every session whose lifetime is over, in order of creation. */
    method ExpireDue(now: int) returns (expired: seq<nat>)
      requires Valid()
      modifies this, gate
      ensures Valid()
      ensures expired == DueSessions(old(sessions), now, old(nextSession))
      ensures View() == ExpireAll(config, old(View()), expired)
    {
      ghost var start := View();
      expired := [];
      for aegis := 0 to nextSession
        invariant Valid() && nextSession == start.nextSession
        invariant expired == DueSessions(start.sessions, now, aegis)
        invariant forall t | aegis <= t :: (t in sessions <==> t in start.sessions)
                                           && (t in sessions ==> sessions[t] == start.sessions[t])
        invariant View() == ExpireAll(config, start, expired)
      {
        if aegis in sessions && sessions[aegis].IsDue(now) {
          var outcome := StopCapture(aegis, SessionExpired);
          assert (expired + [aegis])[..|expired|] == expired;
          expired := expired + [aegis];
        }
      }
    }
  }

  function DueSessions(sessions: map<nat, Session>, now: int, n: nat): seq<nat> {
    if n == 0 then []
    else DueSessions(sessions, now, n - 1) + if n - 1 in sessions && sessions[n - 1].IsDue(now) then [n - 1] else []
  }

  function ExpireAll(c: Config, s: State, ids: seq<nat>): State {
    if ids == [] then s
    else Apply(c, ExpireAll(c, s, ids[..|ids| - 1]), Expire(ids[|ids| - 1])).0
  }

  /** The sessions listed are those past their lifetime that have not ended, oldest first. */
  lemma {:induction false} DueSessionsAre(sessions: map<nat, Session>, now: int, n: nat)
    ensures forall i, j | 0 <= i < j < |DueSessions(sessions, now, n)| ::
              DueSessions(sessions, now, n)[i] < DueSessions(sessions, now, n)[j]
    ensures forall aegis: nat :: aegis in DueSessions(sessions, now, n) <==>
              && aegis < n && aegis in sessions && sessions[aegis].state !in {Stopped, SessionExpired, SessionRevoked}
              && sessions[aegis].expiresAt.Some? && sessions[aegis].expiresAt.value < now
  {
    if n > 0 {
      DueSessionsAre(sessions, now, n - 1);
      var before := DueSessions(sessions, now, n - 1);
      assert forall i | 0 <= i < |before| :: before[i] in before;
    }
  }

  /** Ending the sessions of a list makes them EXPIRED and takes their pipelines, and leaves every other session alone. */
  lemma {:induction false} ExpireAllEnds(c: Config, s: State, ids: seq<nat>, aegis: nat)
    requires forall i | 0 <= i < |ids| :: ids[i] in s.sessions
    ensures var t := ExpireAll(c, s, ids);
            && t.sessions.Keys == s.sessions.Keys
            && (aegis in s.sessions ==>
                  t.sessions[aegis] == if aegis in ids then s.sessions[aegis].(state := SessionExpired) else s.sessions[aegis])
            && (aegis in t.pipelines <==> aegis in s.pipelines && aegis !in ids)
            && t.indicator == if ids == [] then s.indicator else None
  {
    if ids != [] {
      var n := |ids| - 1;
      ExpireAllEnds(c, s, ids[..n], aegis);
      assert ids == ids[..n] + [ids[n]];
    }
  }
}
