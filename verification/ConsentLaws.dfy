/** What the consent gate and the capture controller keep over every run. */
module ConsentLaws {
  import opened Common
  import opened ConsentModel

  /** The lookup of a screen session names its most recent token. */
  ghost predicate GateKept(g: Gate) {
    && (forall token | token in g.records :: token < g.nextToken)
    && (forall screen | screen in g.bySession ::
          g.bySession[screen] in g.records && g.records[g.bySession[screen]].session == screen)
    && (forall token | token in g.records ::
          g.records[token].session in g.bySession && token <= g.bySession[g.records[token].session])
  }

  lemma GateKeptSet(g: Gate, token: nat, state: ConsentState)
    requires GateKept(g) && token in g.records
    ensures GateKept(SetRecord(g, token, state))
  {
  }

  lemma GateKeptRequest(android: bool, g: Gate, screen: string, expiresAt: Option<int>)
    requires GateKept(g)
    ensures GateKept(RequestConsent(android, g, screen, expiresAt).0)
  {
  }

  lemma GateKeptToken(android: bool, g: Gate, token: nat)
    requires GateKept(g)
    ensures GateKept(GrantConsent(android, g, token).0)
    ensures GateKept(DenyConsent(android, g, token).0)
    ensures GateKept(RevokeConsent(android, g, token).0)
  {
    if token in g.records {
      GateKeptSet(g, token, Granted);
      GateKeptSet(g, token, Denied);
      GateKeptSet(g, token, Revoked);
    }
  }

  lemma GateKeptStep(c: Config, s: State, op: Op)
    requires GateKept(s.gate)
    ensures GateKept(Apply(c, s, op).0.gate)
  {
    match op
    case Request(aegis) =>
      if aegis in s.sessions {
        GateKeptRequest(c.android, s.gate, s.sessions[aegis].screen, s.sessions[aegis].expiresAt);
      }
    case Grant(_, token, _) => GateKeptToken(c.android, s.gate, token);
    case Deny(_, token) => GateKeptToken(c.android, s.gate, token);
    case Stop(aegis) => GateKeptStop(c, s, aegis);
    case Expire(aegis) => GateKeptStop(c, s, aegis);
    case GateGrant(token, _) => GateKeptToken(c.android, s.gate, token);
    case GateDeny(token) => GateKeptToken(c.android, s.gate, token);
    case GateRevoke(token) => GateKeptToken(c.android, s.gate, token);
    case GateExpire(now) => GateKeptExpire(s.gate, now);
    case Create(_, _, _) =>
    case Start(_, _, _) =>
  }

  lemma GateKeptExpire(g: Gate, now: int)
    requires GateKept(g)
    ensures GateKept(ExpireConsents(g, now))
  {
  }

  lemma GateKeptStop(c: Config, s: State, aegis: nat)
    requires GateKept(s.gate)
    ensures GateKept(ApplyStop(c, s, aegis, Stopped).0.gate)
    ensures GateKept(ApplyStop(c, s, aegis, SessionExpired).0.gate)
  {
    if aegis in s.sessions && s.sessions[aegis].screen in s.gate.bySession {
      GateKeptToken(c.android, s.gate, s.gate.bySession[s.sessions[aegis].screen]);
    }
  }

  lemma {:induction false} LookupNamesLatest(c: Config, ops: seq<Op>, n: nat)
    requires n <= |ops|
    ensures GateKept(At(c, ops, n).gate)
  {
    if n > 0 {
      LookupNamesLatest(c, ops, n - 1);
      GateKeptStep(c, At(c, ops, n - 1), ops[n - 1]);
    }
  }

  // ---------------------------------------------------------------------------------------
  // Denied and revoked tokens

  predicate Refused(state: ConsentState) {
    state.Denied? || state.Revoked?
  }

  lemma RefusedStep(c: Config, s: State, op: Op, token: nat)
    requires GateKept(s.gate)
    requires token in s.gate.records
    ensures token in Apply(c, s, op).0.gate.records
    ensures Refused(s.gate.records[token].state) ==> Refused(Apply(c, s, op).0.gate.records[token].state)
  {
  }

  /** A token once denied or revoked is never granted again. */
  lemma {:induction false} RefusedForGood(c: Config, ops: seq<Op>, i: nat, j: nat, token: nat)
    requires i <= j <= |ops|
    requires token in At(c, ops, i).gate.records
    requires Refused(At(c, ops, i).gate.records[token].state)
    ensures token in At(c, ops, j).gate.records && Refused(At(c, ops, j).gate.records[token].state)
  {
    if i < j {
      RefusedForGood(c, ops, i, j - 1, token);
      LookupNamesLatest(c, ops, j - 1);
      RefusedStep(c, At(c, ops, j - 1), ops[j - 1], token);
    }
  }

  lemma {:induction false} NoRecordsOffAndroid(c: Config, ops: seq<Op>, n: nat)
    requires n <= |ops| && !c.android
    ensures At(c, ops, n).gate.records == map[]
  {
    if n > 0 {
      NoRecordsOffAndroid(c, ops, n - 1);
    }
  }

  // ---------------------------------------------------------------------------------------
  // No capture after a stop without a new grant

  ghost predicate IsGranted(s: State, screen: string) {
    && screen in s.gate.bySession && s.gate.bySession[screen] in s.gate.records
    && s.gate.records[s.gate.bySession[screen]].state.Granted?
  }

  /** Operation j grants the token. */
  ghost predicate GrantsAt(c: Config, ops: seq<Op>, j: nat, token: nat)
    requires j < |ops|
  {
    && (ops[j].Grant? || ops[j].GateGrant?) && ops[j].token == token
    && token in At(c, ops, j).gate.records && !At(c, ops, j).gate.records[token].state.Granted?
    && token in At(c, ops, j + 1).gate.records && At(c, ops, j + 1).gate.records[token].state.Granted?
  }

  lemma BecomesGranted(c: Config, s: State, op: Op, screen: string)
    requires GateKept(s.gate)
    requires IsGranted(Apply(c, s, op).0, screen) && !IsGranted(s, screen)
    ensures screen in s.gate.bySession
    ensures Apply(c, s, op).0.gate.bySession[screen] == s.gate.bySession[screen]
    ensures (op.Grant? || op.GateGrant?) && op.token == s.gate.bySession[screen]
  {
  }

  lemma StaysLookedUp(c: Config, s: State, op: Op, screen: string)
    requires GateKept(s.gate)
    requires IsGranted(Apply(c, s, op).0, screen) && IsGranted(s, screen)
    ensures Apply(c, s, op).0.gate.bySession[screen] == s.gate.bySession[screen]
  {
  }

  /** If a screen session's consent is granted at n but was not at m, its token was granted in between. */
  lemma {:induction false} GrantedSince(c: Config, ops: seq<Op>, m: nat, n: nat, screen: string) returns (j: nat)
    requires m <= n <= |ops|
    requires !IsGranted(At(c, ops, m), screen) && IsGranted(At(c, ops, n), screen)
    ensures m <= j < n && GrantsAt(c, ops, j, At(c, ops, n).gate.bySession[screen])
  {
    var s := At(c, ops, n - 1);
    LookupNamesLatest(c, ops, n - 1);
    LookupNamesLatest(c, ops, n);
    if IsGranted(s, screen) {
      StaysLookedUp(c, s, ops[n - 1], screen);
      j := GrantedSince(c, ops, m, n - 1, screen);
    } else {
      BecomesGranted(c, s, ops[n - 1], screen);
      j := n - 1;
    }
  }

  lemma StopUngrants(c: Config, s: State, aegis: nat, final: SessionState)
    requires GateKept(s.gate)
    requires aegis in s.sessions
    requires !c.android ==> s.gate.records == map[]
    ensures !IsGranted(ApplyStop(c, s, aegis, final).0, s.sessions[aegis].screen)
  {
  }

  /**
   Between a stop (or expiry) of a capture session and any later successful start for the same
   screen session, that screen session's current token was granted.
   */
  lemma CaptureNeedsFreshGrant(c: Config, ops: seq<Op>, i: nat, k: nat) returns (j: nat)
    requires i < k < |ops|
    requires (ops[i].Stop? || ops[i].Expire?) && ops[i].aegis in At(c, ops, i).sessions
    requires ops[k].Start? && Apply(c, At(c, ops, k), ops[k]).1.Done?
    requires At(c, ops, k).sessions[ops[k].aegis].screen == At(c, ops, i).sessions[ops[i].aegis].screen
    ensures i < j < k
    ensures var screen := At(c, ops, k).sessions[ops[k].aegis].screen;
            screen in At(c, ops, k).gate.bySession && GrantsAt(c, ops, j, At(c, ops, k).gate.bySession[screen])
  {
    var screen := At(c, ops, i).sessions[ops[i].aegis].screen;
    LookupNamesLatest(c, ops, i);
    if !c.android {
      NoRecordsOffAndroid(c, ops, i);
    }
    StopUngrants(c, At(c, ops, i), ops[i].aegis, if ops[i].Stop? then Stopped else SessionExpired);
    assert !IsGranted(At(c, ops, i + 1), screen);
    assert IsGranted(At(c, ops, k), screen);
    j := GrantedSince(c, ops, i + 1, k, screen);
  }
}
