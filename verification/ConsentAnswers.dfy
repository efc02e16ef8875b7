/** What the consent gate and the capture controller answer and leave behind. */
module ConsentAnswers {
  import opened Common
  import opened ConsentModel
  import opened ConsentLaws

  /** The session's screen session has a current token in that state. */
  predicate HasToken(s: State, aegis: nat, state: ConsentState) {
    && aegis in s.sessions && s.sessions[aegis].screen in s.gate.bySession
    && s.gate.bySession[s.sessions[aegis].screen] in s.gate.records
    && s.gate.records[s.gate.bySession[s.sessions[aegis].screen]].state == state
  }

  predicate HasSomeToken(s: State, aegis: nat) {
    && aegis in s.sessions && s.sessions[aegis].screen in s.gate.bySession
    && s.gate.bySession[s.sessions[aegis].screen] in s.gate.records
  }

  /** The session is marked so, and nothing but the gate changes besides. */
  ghost predicate Marked(s: State, t: State, aegis: nat, state: SessionState) {
    && aegis in s.sessions
    && t == s.(gate := t.gate, sessions := s.sessions[aegis := s.sessions[aegis].(state := state)])
  }

  /** A trusted request creates a session that lives for the configured time, numbered in order; an untrusted one nothing. */
  lemma CreateAnswers(c: Config, s: State, screen: string, trusted: bool, now: int)
    ensures var (t, outcome) := Apply(c, s, Create(screen, trusted, now));
            && (outcome.Done? <==> trusted) && (outcome.Untrusted? <==> !trusted)
            && t == if trusted
                    then s.(sessions := s.sessions[s.nextSession := Session(screen, Initialized, Some(now + c.lifetime))],
                            nextSession := s.nextSession + 1)
                    else s
  {
  }

  /**
   A request on Android keeps the current token of the screen session if that is still
   pending; otherwise it issues the next token, pending, with the session's lifetime, and
   makes it the current one. Either way the session is marked.
   */
  lemma RequestAnswers(c: Config, s: State, aegis: nat)
    ensures var (t, outcome) := Apply(c, s, Request(aegis));
            && (outcome.NotFound? <==> aegis !in s.sessions)
            && (outcome.PlatformUnavailable? <==> aegis in s.sessions && !c.android)
            && (outcome.Done? <==> aegis in s.sessions && c.android)
            && (!outcome.Done? ==> t == s)
            && (outcome.Done? ==> Marked(s, t, aegis, ConsentRequired))
            && (outcome.Done? && HasToken(s, aegis, Requested) ==> t.gate == s.gate)
            && (outcome.Done? && !HasToken(s, aegis, Requested) ==>
                  var session, token := s.sessions[aegis], s.gate.nextToken;
                  && t.gate.records == s.gate.records[token := Record(session.screen, Requested, session.expiresAt)]
                  && t.gate.bySession == s.gate.bySession[session.screen := token]
                  && t.gate.nextToken == token + 1)
  {
  }

  /** Only the state of that token's record differs. */
  ghost predicate TokenBecomes(g: Gate, h: Gate, token: nat, state: ConsentState) {
    && token in g.records && h == g.(records := h.records)
    && h.records == g.records[token := g.records[token].(state := state)]
  }

  /**
   The gate's calls on a token. A grant makes any known token GRANTED that was neither denied
   nor revoked; a denial makes any known one DENIED; a revocation makes any known one REVOKED
   that was neither revoked nor expired, and leaves those two.
   */
  lemma GateAnswers(c: Config, s: State, token: nat, now: int)
    requires c.android && token in s.gate.records
    ensures var (t, outcome) := Apply(c, s, GateGrant(token, now));
            var state := s.gate.records[token].state;
            && (outcome == ConsentNotGranted(state) <==> state in {Denied, Revoked})
            && (state !in {Denied, Revoked} ==>
                  outcome.Done? && t == s.(gate := t.gate) && TokenBecomes(s.gate, t.gate, token, Granted))
            && (state in {Denied, Revoked} ==> t == s)
    ensures var (t, outcome) := Apply(c, s, GateDeny(token));
            outcome.Done? && t == s.(gate := t.gate) && TokenBecomes(s.gate, t.gate, token, Denied)
    ensures var (t, outcome) := Apply(c, s, GateRevoke(token));
            var state := s.gate.records[token].state;
            outcome.Done? && t == s.(gate := t.gate)
            && TokenBecomes(s.gate, t.gate, token, if state.Expired? then ConsentState.Expired else Revoked)
  {
    var same := s.gate.records[token := s.gate.records[token]];
    assert same == s.gate.records;
  }

  /** Off Android, and for an unknown token, the gate's calls are refused and change nothing. */
  lemma GateRefuses(c: Config, s: State, op: Op)
    requires op.GateGrant? || op.GateDeny? || op.GateRevoke?
    requires !c.android || op.token !in s.gate.records
    ensures Apply(c, s, op).0 == s
    ensures Apply(c, s, op).1 == if c.android then NotFound else PlatformUnavailable
  {
  }

  /** The gate's expiry pass marks exactly the tokens past their lifetime that were asked for or granted. */
  lemma SweepAnswers(c: Config, s: State, now: int)
    ensures var t := Apply(c, s, GateExpire(now)).0;
            && t == s.(gate := s.gate.(records := t.gate.records)) && t.gate.records.Keys == s.gate.records.Keys
            && forall token | token in s.gate.records ::
                 var record := s.gate.records[token];
                 t.gate.records[token] == if record.state in {Requested, Granted} && record.expiresAt.Some?
                                             && record.expiresAt.value < now
                                          then record.(state := ConsentState.Expired) else record
  {
  }

  /** The controller's grant and denial do to the token what the gate's do, and mark a known session when that is done. */
  lemma DecisionAnswers(c: Config, s: State, aegis: nat, token: nat, now: int)
    requires aegis in s.sessions
    ensures var (t, outcome) := Apply(c, s, Op.Grant(aegis, token, now));
            var (g, decided) := Apply(c, s, GateGrant(token, now));
            && outcome == decided && t.gate == g.gate
            && if outcome.Done? then Marked(s, t, aegis, SessionState.ConsentGranted) else t == s
    ensures var (t, outcome) := Apply(c, s, Op.Deny(aegis, token));
            var (g, decided) := Apply(c, s, GateDeny(token));
            && outcome == decided && t.gate == g.gate
            && if outcome.Done? then Marked(s, t, aegis, ConsentDenied) else t == s
  {
  }

  lemma UnknownSession(c: Config, s: State, op: Op)
    requires op.Request? || op.Grant? || op.Deny? || op.Start? || op.Stop? || op.Expire?
    requires op.aegis !in s.sessions
    ensures Apply(c, s, op) == (s, NotFound)
  {
  }

  /**
   A start is done exactly under a granted current token, with a provider that starts and the
   indicator off or on for this session; it is shown and has its pipeline then. A start the
   gate lets pass with an available provider marks the session even if it fails; no other
   start changes anything.
   */
  lemma StartAnswers(c: Config, s: State, aegis: nat, provider: Provider, now: int)
    requires aegis in s.sessions
    ensures var (t, outcome) := Apply(c, s, Start(aegis, provider, now));
            var granted := c.android && HasToken(s, aegis, Granted);
            var free := s.indicator.None? || s.indicator == Some(aegis);
            && (outcome.ConsentNotGranted? <==> !granted)
            && (forall state | outcome == ConsentNotGranted(state) ::
                  if c.android && HasSomeToken(s, aegis) then HasToken(s, aegis, state) else state == NotRequested)
            && (outcome.PlatformUnavailable? <==> granted && provider == Unavailable)
            && (outcome.ProjectionFailed? <==> granted && provider == FailsToStart)
            && (outcome.IndicatorBusy? <==> granted && provider == Starts && !free)
            && (outcome.Done? <==> granted && provider == Starts && free)
            && t.gate == s.gate
            && (if granted && provider != Unavailable
                then t.sessions == s.sessions[aegis := s.sessions[aegis].(state := Capturing)] else t.sessions == s.sessions)
            && t.nextSession == s.nextSession
            && t.indicator == (if outcome.Done? then Some(aegis) else s.indicator)
            && t.pipelines == s.pipelines + (if outcome.Done? then {aegis} else {})
  {
    assert s.pipelines + {} == s.pipelines;
  }

  /**
   Ending a session, by a stop or by expiry, takes its pipeline, turns the indicator off,
   revokes the current token of its screen session if that is granted, and marks it STOPPED or
   EXPIRED; no other session changes.
   */
  lemma StopAnswers(c: Config, s: State, aegis: nat)
    requires aegis in s.sessions && GateKept(s.gate)
    requires !c.android ==> s.gate.records == map[]
    ensures var (t, outcome) := Apply(c, s, Stop(aegis));
            var (e, expired) := Apply(c, s, Expire(aegis));
            && outcome.Done? && expired.Done?
            && t.pipelines == s.pipelines - {aegis} && t.indicator.None? && t.nextSession == s.nextSession
            && t.sessions == s.sessions[aegis := s.sessions[aegis].(state := Stopped)]
            && e == t.(sessions := s.sessions[aegis := s.sessions[aegis].(state := SessionExpired)])
            && if HasToken(s, aegis, Granted)
               then TokenBecomes(s.gate, t.gate, s.gate.bySession[s.sessions[aegis].screen], Revoked)
               else t.gate == s.gate
  {
  }
}
