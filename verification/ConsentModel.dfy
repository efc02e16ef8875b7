/**
 The system-consent gate under the capture controller, as a state machine. Consent tokens and
 capture-session ids are numbered in order of issue.
 */
module ConsentModel {
  import opened Common

  datatype ConsentState = NotRequested | Requested | Granted | Denied | Revoked | Expired

  datatype Record = Record(session: string, state: ConsentState, expiresAt: Option<int>)  // None: absent or malformed
  {
    predicate IsDue(now: int) {
      expiresAt.Some? && now > expiresAt.value && (state.Granted? || state.Requested?)
    }
  }

  datatype Gate = Gate(records: map<nat, Record>, bySession: map<string, nat>, nextToken: nat)

  datatype SessionState =
    | Initialized | ConsentRequired | ConsentGranted | ConsentDenied
    | Capturing | Stopped | SessionExpired | SessionRevoked

  datatype Session = Session(screen: string, state: SessionState, expiresAt: Option<int>)
  {
    predicate IsDue(now: int) {
      !state.Stopped? && !state.SessionExpired? && !state.SessionRevoked?
      && expiresAt.Some? && now > expiresAt.value
    }
  }

  /** Whether the platform is a real Android companion, and how long a session lives. */
  datatype Config = Config(android: bool, lifetime: nat)

  /** How the projection provider answers a start: not available now, available but raising, or working. */
  datatype Provider = Unavailable | FailsToStart | Starts

  datatype State = State(
    gate: Gate,
    sessions: map<nat, Session>,
    nextSession: nat,
    pipelines: set<nat>,
    indicator: Option<nat>)

  function Init(): State {
    State(Gate(map[], map[], 0), map[], 0, {}, None)
  }

  datatype Outcome =
    | Done | PlatformUnavailable | NotFound | Untrusted
    | ConsentNotGranted(state: ConsentState) | IndicatorBusy | ProjectionFailed

  // ---------------------------------------------------------------------------------------
  // The gate

  function SetRecord(g: Gate, token: nat, state: ConsentState): Gate
    requires token in g.records
  {
    g.(records := g.records[token := g.records[token].(state := state)])
  }

  function RequestConsent(android: bool, g: Gate, screen: string, expiresAt: Option<int>): (Gate, Outcome) {
    if !android then (g, PlatformUnavailable)
    else if screen in g.bySession && g.bySession[screen] in g.records
            && g.records[g.bySession[screen]].state.Requested? then (g, Done)
    else
      (Gate(g.records[g.nextToken := Record(screen, Requested, expiresAt)],
            g.bySession[screen := g.nextToken], g.nextToken + 1), Done)
  }

  function GrantConsent(android: bool, g: Gate, token: nat): (Gate, Outcome) {
    if !android then (g, PlatformUnavailable)
    else if token !in g.records then (g, NotFound)
    else if g.records[token].state.Denied? then (g, ConsentNotGranted(Denied))
    else if g.records[token].state.Revoked? then (g, ConsentNotGranted(Revoked))
    else (SetRecord(g, token, Granted), Done)
  }

  function DenyConsent(android: bool, g: Gate, token: nat): (Gate, Outcome) {
    if !android then (g, PlatformUnavailable)
    else if token !in g.records then (g, NotFound)
    else (SetRecord(g, token, Denied), Done)
  }

  function RevokeConsent(android: bool, g: Gate, token: nat): (Gate, Outcome) {
    if !android then (g, PlatformUnavailable)
    else if token !in g.records then (g, NotFound)
    else if g.records[token].state in {Revoked, Expired} then (g, Done)
    else (SetRecord(g, token, Revoked), Done)
  }

  function ExpireConsents(g: Gate, now: int): Gate {
    g.(records := map token | token in g.records ::
         if g.records[token].IsDue(now) then g.records[token].(state := Expired) else g.records[token])
  }

  /** The state the gate reports for a screen session; capture is allowed in Granted alone. */
  function Evaluate(android: bool, g: Gate, screen: string): ConsentState {
    if !android then NotRequested
    else if screen in g.bySession && g.bySession[screen] in g.records then g.records[g.bySession[screen]].state
    else NotRequested
  }

  // ---------------------------------------------------------------------------------------
  // The controller

  /** Grants and starts read the clock only to record it: neither looks at a lifetime. */
  datatype Op =
    | Create(screen: string, trusted: bool, now: int)
    | Request(aegis: nat)
    | Grant(aegis: nat, token: nat, now: int)
    | Deny(aegis: nat, token: nat)
    | Start(aegis: nat, provider: Provider, now: int)
    | Stop(aegis: nat)
    | Expire(aegis: nat)      // one session found due by the controller's expiry pass
    | GateGrant(token: nat, now: int)   // calls on the gate itself
    | GateDeny(token: nat)
    | GateRevoke(token: nat)
    | GateExpire(now: int)

  function SetSession(s: State, aegis: nat, state: SessionState): State
    requires aegis in s.sessions
  {
    s.(sessions := s.sessions[aegis := s.sessions[aegis].(state := state)])
  }

  function ApplyRequest(c: Config, s: State, aegis: nat): (State, Outcome) {
    if aegis !in s.sessions then (s, NotFound)
    else
      var session := s.sessions[aegis];
      var (g, outcome) := RequestConsent(c.android, s.gate, session.screen, session.expiresAt);
      if outcome.Done? then (SetSession(s.(gate := g), aegis, ConsentRequired), Done) else (s, outcome)
  }

  function ApplyGrant(c: Config, s: State, aegis: nat, token: nat): (State, Outcome) {
    if aegis !in s.sessions then (s, NotFound)
    else
      var (g, outcome) := GrantConsent(c.android, s.gate, token);
      if outcome.Done? then (SetSession(s.(gate := g), aegis, ConsentGranted), Done) else (s, outcome)
  }

  function ApplyDeny(c: Config, s: State, aegis: nat, token: nat): (State, Outcome) {
    if aegis !in s.sessions then (s, NotFound)
    else
      var (g, outcome) := DenyConsent(c.android, s.gate, token);
      if outcome.Done? then (SetSession(s.(gate := g), aegis, ConsentDenied), Done) else (s, outcome)
  }

  /** The session is marked CAPTURING before the projection can fail to start and before the indicator can refuse. */
  function ApplyStart(c: Config, s: State, aegis: nat, provider: Provider): (State, Outcome) {
    if aegis !in s.sessions then (s, NotFound)
    else
      var state := Evaluate(c.android, s.gate, s.sessions[aegis].screen);
      if !state.Granted? then (s, ConsentNotGranted(state))
      else if provider.Unavailable? then (s, PlatformUnavailable)
      else
        var t := SetSession(s, aegis, Capturing);
        if provider.FailsToStart? then (t, ProjectionFailed)
        else if s.indicator.Some? && s.indicator.value != aegis then (t, IndicatorBusy)
        else (t.(indicator := Some(aegis), pipelines := s.pipelines + {aegis}), Done)
  }

  /** Stopping clears the one indicator, whichever session it shows. */
  function ApplyStop(c: Config, s: State, aegis: nat, final: SessionState): (State, Outcome) {
    if aegis !in s.sessions then (s, NotFound)
    else
      var screen := s.sessions[aegis].screen;
      var g := if Evaluate(c.android, s.gate, screen).Granted?
               then RevokeConsent(c.android, s.gate, s.gate.bySession[screen]).0 else s.gate;
      (SetSession(s.(gate := g, indicator := None, pipelines := s.pipelines - {aegis}), aegis, final), Done)
  }

  function ApplyCreate(c: Config, s: State, screen: string, trusted: bool, now: int): (State, Outcome) {
    if !trusted then (s, Untrusted)
    else
      (s.(sessions := s.sessions[s.nextSession := Session(screen, Initialized, Some(now + c.lifetime))],
          nextSession := s.nextSession + 1), Done)
  }

  function OnGate(s: State, result: (Gate, Outcome)): (State, Outcome) {
    (s.(gate := result.0), result.1)
  }

  function Apply(c: Config, s: State, op: Op): (State, Outcome) {
    match op
    case Create(screen, trusted, now) => ApplyCreate(c, s, screen, trusted, now)
    case Request(aegis) => ApplyRequest(c, s, aegis)
    case Grant(aegis, token, _) => ApplyGrant(c, s, aegis, token)
    case Deny(aegis, token) => ApplyDeny(c, s, aegis, token)
    case Start(aegis, provider, _) => ApplyStart(c, s, aegis, provider)
    case Stop(aegis) => ApplyStop(c, s, aegis, Stopped)
    case Expire(aegis) => ApplyStop(c, s, aegis, SessionExpired)
    case GateGrant(token, _) => OnGate(s, GrantConsent(c.android, s.gate, token))
    case GateDeny(token) => OnGate(s, DenyConsent(c.android, s.gate, token))
    case GateRevoke(token) => OnGate(s, RevokeConsent(c.android, s.gate, token))
    case GateExpire(now) => (s.(gate := ExpireConsents(s.gate, now)), Done)
  }

  function At(c: Config, ops: seq<Op>, n: nat): State
    requires n <= |ops|
  {
    if n == 0 then Init() else Apply(c, At(c, ops, n - 1), ops[n - 1]).0
  }

  lemma AtNext(c: Config, ops: seq<Op>, n: nat)
    requires n < |ops|
    ensures At(c, ops, n + 1) == Apply(c, At(c, ops, n), ops[n]).0
  {
  }
}
