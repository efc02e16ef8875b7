/** Expired consents: what the gate does with them, and when a capture starts under one. */
module ConsentExpiry {
  import opened Common
  import opened ConsentModel
  import opened ConsentLaws

  // ---------------------------------------------------------------------------------------
  // Tokens marked EXPIRED

  /**
   A grant takes effect exactly on a known token, on Android, that was neither denied nor
   revoked: an expired one too.
   */
  lemma GrantTakesEffect(c: Config, s: State, token: nat, now: int)
    ensures var (t, outcome) := Apply(c, s, GateGrant(token, now));
            && (outcome.Done? <==> c.android && token in s.gate.records && !Refused(s.gate.records[token].state))
            && (outcome.Done? ==> t.gate.records[token].state.Granted?)
            && (!outcome.Done? ==> t == s)
  {
  }

  /** The call grants a token that has expired. */
  ghost predicate GrantsExpired(s: State, op: Op) {
    && (op.GateGrant? || (op.Grant? && op.aegis in s.sessions))
    && op.token in s.gate.records && s.gate.records[op.token].state.Expired?
  }

  ghost predicate GrantsExpiredAt(c: Config, ops: seq<Op>, n: nat)
    requires n < |ops|
  {
    GrantsExpired(At(c, ops, n), ops[n])
  }

  predicate Spent(state: ConsentState) {
    Refused(state) || state.Expired?
  }

  lemma SpentStep(c: Config, s: State, op: Op, token: nat)
    requires GateKept(s.gate)
    requires token in s.gate.records && Spent(s.gate.records[token].state)
    requires !GrantsExpired(s, op)
    ensures token in Apply(c, s, op).0.gate.records && Spent(Apply(c, s, op).0.gate.records[token].state)
  {
  }

  lemma SpentNext(c: Config, ops: seq<Op>, n: nat, token: nat)
    requires n < |ops| && !GrantsExpiredAt(c, ops, n)
    requires token in At(c, ops, n).gate.records && Spent(At(c, ops, n).gate.records[token].state)
    ensures token in At(c, ops, n + 1).gate.records && Spent(At(c, ops, n + 1).gate.records[token].state)
  {
    LookupNamesLatest(c, ops, n);
    SpentStep(c, At(c, ops, n), ops[n], token);
  }

  lemma {:induction false} SpentForGood(c: Config, ops: seq<Op>, i: nat, j: nat, token: nat)
    requires i <= j <= |ops|
    requires forall k | 0 <= k < |ops| :: !GrantsExpiredAt(c, ops, k)
    requires token in At(c, ops, i).gate.records && Spent(At(c, ops, i).gate.records[token].state)
    ensures token in At(c, ops, j).gate.records && Spent(At(c, ops, j).gate.records[token].state)
  {
    if i < j {
      SpentForGood(c, ops, i, j - 1, token);
      SpentNext(c, ops, j - 1, token);
    }
  }

  /** From i to j, the token goes from EXPIRED to GRANTED. */
  ghost predicate Revives(c: Config, ops: seq<Op>, i: nat, j: nat, token: nat)
    requires i <= j <= |ops|
  {
    && token in At(c, ops, i).gate.records && At(c, ops, i).gate.records[token].state.Expired?
    && token in At(c, ops, j).gate.records && At(c, ops, j).gate.records[token].state.Granted?
  }

  /**
   In a run no expired token is ever granted again, as documented, exactly if no call grants a
   token while it is expired.
   */
  lemma ExpiryIsFinalExactly(c: Config, ops: seq<Op>)
    ensures (forall i: nat, j: nat, token: nat | i <= j <= |ops| :: !Revives(c, ops, i, j, token))
       <==> (forall k | 0 <= k < |ops| :: !GrantsExpiredAt(c, ops, k))
  {
    if k: nat :| k < |ops| && GrantsExpiredAt(c, ops, k) {
      if !c.android {
        NoRecordsOffAndroid(c, ops, k);
      }
      GrantTakesEffect(c, At(c, ops, k), ops[k].token, ops[k].now);
      assert Revives(c, ops, k, k + 1, ops[k].token);
    } else {
      forall i: nat, j: nat, token: nat | i <= j <= |ops|
        ensures !Revives(c, ops, i, j, token)
      {
        if Revives(c, ops, i, j, token) {
          SpentForGood(c, ops, i, j, token);
        }
      }
    }
  }

  /** The runs below up to the first grant: token 0 is granted, with its lifetime over after 5. */
  lemma GrantedOnce(c: Config, ops: seq<Op>)
    requires c == Config(true, 5) && |ops| >= 3
    requires ops[0] == Create("screen", true, 0) && ops[1] == Request(0) && ops[2].GateGrant? && ops[2].token == 0
    ensures 0 in At(c, ops, 2).gate.records && At(c, ops, 2).gate.records[0].state.Requested?
    ensures At(c, ops, 3).gate == Gate(map[0 := Record("screen", Granted, Some(5))], map["screen" := 0], 1)
    ensures At(c, ops, 3).sessions == map[0 := Session("screen", ConsentRequired, Some(5))]
    ensures At(c, ops, 3).indicator.None?
  {
    AtNext(c, ops, 0);
    AtNext(c, ops, 1);
    AtNext(c, ops, 2);
    assert At(c, ops, 0) == Init();
    assert At(c, ops, 1).sessions == map[0 := Session("screen", Initialized, Some(5))];
    assert At(c, ops, 2).gate == Gate(map[0 := Record("screen", Requested, Some(5))], map["screen" := 0], 1);
    assert At(c, ops, 2).sessions == map[0 := Session("screen", ConsentRequired, Some(5))];
  }

  function RevivingRun(): seq<Op> {
    [Create("screen", true, 0), Request(0), GateGrant(0, 0), GateExpire(6), GateGrant(0, 7), Start(0, Starts, 7)]
  }

  /** A run that captures under a token that was marked EXPIRED and then granted again, without a new request. */
  lemma ExpiredConsentRevives(c: Config)
    requires c == Config(true, 5)
    ensures var ops := RevivingRun();
            && 0 in At(c, ops, 4).gate.records && At(c, ops, 4).gate.records[0].state.Expired?
            && Apply(c, At(c, ops, 5), ops[5]).1.Done?
  {
    var ops := RevivingRun();
    GrantedOnce(c, ops);
    AtNext(c, ops, 3);
    AtNext(c, ops, 4);
  }

  // ---------------------------------------------------------------------------------------
  // Tokens past their lifetime

  predicate HasConsent(s: State, token: nat) {
    token in s.gate.records && s.gate.records[token].state.Granted?
  }

  /** The token's lifetime is over, whether or not anyone has marked it. */
  predicate IsLate(s: State, token: nat, now: int) {
    && token in s.gate.records && s.gate.records[token].expiresAt.Some?
    && s.gate.records[token].expiresAt.value < now
  }

  predicate LooksUp(s: State, aegis: nat, token: nat) {
    && aegis in s.sessions && s.sessions[aegis].screen in s.gate.bySession
    && s.gate.bySession[s.sessions[aegis].screen] == token
  }

  /** The call grants the token: a known one, neither denied nor revoked. */
  predicate GrantsToken(c: Config, s: State, op: Op, token: nat) {
    && c.android && (op.GateGrant? || (op.Grant? && op.aegis in s.sessions)) && op.token == token
    && token in s.gate.records && !Refused(s.gate.records[token].state)
  }

  /** The call takes the token back: a denial, a revocation, or the end of a session that looks it up. */
  predicate RefusesToken(s: State, op: Op, token: nat) {
    || ((op.GateDeny? || op.GateRevoke?) && op.token == token)
    || (op.Deny? && op.aegis in s.sessions && op.token == token)
    || ((op.Stop? || op.Expire?) && LooksUp(s, op.aegis, token))
  }

  /** The call is a sweep of the gate after the token's lifetime. */
  predicate SweepsLate(s: State, op: Op, token: nat) {
    op.GateExpire? && IsLate(s, token, op.now)
  }

  lemma ConsentAfterStop(c: Config, s: State, aegis: nat, final: SessionState, token: nat)
    requires GateKept(s.gate)
    requires !c.android ==> s.gate.records == map[]
    ensures HasConsent(ApplyStop(c, s, aegis, final).0, token) <==> HasConsent(s, token) && !LooksUp(s, aegis, token)
  {
  }

  lemma ConsentAfterGateCall(c: Config, s: State, op: Op, token: nat)
    requires op.GateGrant? || op.GateDeny? || op.GateRevoke? || op.GateExpire?
    requires !c.android ==> s.gate.records == map[]
    ensures HasConsent(Apply(c, s, op).0, token)
       <==> GrantsToken(c, s, op, token)
            || (HasConsent(s, token) && !RefusesToken(s, op, token) && !SweepsLate(s, op, token))
  {
  }

  lemma ConsentAfterOther(c: Config, s: State, op: Op, token: nat)
    requires GateKept(s.gate)
    requires op.Create? || op.Request? || op.Start? || op.Grant? || op.Deny?
    requires !c.android ==> s.gate.records == map[]
    ensures HasConsent(Apply(c, s, op).0, token)
       <==> GrantsToken(c, s, op, token) || (HasConsent(s, token) && !RefusesToken(s, op, token))
  {
  }

  lemma ConsentStep(c: Config, s: State, op: Op, token: nat)
    requires GateKept(s.gate)
    requires !c.android ==> s.gate.records == map[]
    ensures HasConsent(Apply(c, s, op).0, token)
       <==> GrantsToken(c, s, op, token)
            || (HasConsent(s, token) && !RefusesToken(s, op, token) && !SweepsLate(s, op, token))
  {
    match op
    case Stop(aegis) => ConsentAfterStop(c, s, aegis, Stopped, token);
    case Expire(aegis) => ConsentAfterStop(c, s, aegis, SessionExpired, token);
    case GateGrant(_, _) => ConsentAfterGateCall(c, s, op, token);
    case GateDeny(_) => ConsentAfterGateCall(c, s, op, token);
    case GateRevoke(_) => ConsentAfterGateCall(c, s, op, token);
    case GateExpire(_) => ConsentAfterGateCall(c, s, op, token);
    case _ => ConsentAfterOther(c, s, op, token);
  }

  ghost predicate GrantsTokenAt(c: Config, ops: seq<Op>, n: nat, token: nat)
    requires n < |ops|
  {
    GrantsToken(c, At(c, ops, n), ops[n], token)
  }

  ghost predicate EndsAt(c: Config, ops: seq<Op>, n: nat, token: nat)
    requires n < |ops|
  {
    RefusesToken(At(c, ops, n), ops[n], token) || SweepsLate(At(c, ops, n), ops[n], token)
  }

  /** Operation j grants the token, and nothing before k takes it back or sweeps it. */
  ghost predicate GrantStands(c: Config, ops: seq<Op>, j: nat, k: nat, token: nat)
    requires j < k <= |ops|
  {
    GrantsTokenAt(c, ops, j, token) && forall m | j < m < k :: !EndsAt(c, ops, m, token)
  }

  ghost predicate SomeGrantStands(c: Config, ops: seq<Op>, k: nat, token: nat)
    requires k <= |ops|
  {
    exists j: nat | j < k :: GrantStands(c, ops, j, k, token)
  }

  ghost predicate HasConsentAt(c: Config, ops: seq<Op>, n: nat, token: nat)
    requires n <= |ops|
  {
    HasConsent(At(c, ops, n), token)
  }

  lemma {:induction false} ConsentNext(c: Config, ops: seq<Op>, n: nat, token: nat)
    requires n < |ops|
    ensures HasConsentAt(c, ops, n + 1, token)
       <==> GrantsTokenAt(c, ops, n, token) || (HasConsentAt(c, ops, n, token) && !EndsAt(c, ops, n, token))
  {
    LookupNamesLatest(c, ops, n);
    if !c.android {
      NoRecordsOffAndroid(c, ops, n);
    }
    ConsentStep(c, At(c, ops, n), ops[n], token);
  }

  lemma StandsNext(c: Config, ops: seq<Op>, n: nat, token: nat)
    requires n < |ops|
    ensures SomeGrantStands(c, ops, n + 1, token)
       <==> GrantsTokenAt(c, ops, n, token) || (SomeGrantStands(c, ops, n, token) && !EndsAt(c, ops, n, token))
  {
    if GrantsTokenAt(c, ops, n, token) {
      assert GrantStands(c, ops, n, n + 1, token);
    }
    if SomeGrantStands(c, ops, n, token) && !EndsAt(c, ops, n, token) {
      var j: nat :| j < n && GrantStands(c, ops, j, n, token);
      assert GrantStands(c, ops, j, n + 1, token);
    }
    if SomeGrantStands(c, ops, n + 1, token) {
      var j: nat :| j < n + 1 && GrantStands(c, ops, j, n + 1, token);
      if j < n {
        assert GrantStands(c, ops, j, n, token);
      }
    }
  }

  /** A token is granted exactly if its last grant was followed by no refusal and no late sweep. */
  lemma {:induction false} ConsentIsHistory(c: Config, ops: seq<Op>, n: nat, token: nat)
    requires n <= |ops|
    ensures HasConsentAt(c, ops, n, token) <==> SomeGrantStands(c, ops, n, token)
  {
    if n > 0 {
      ConsentIsHistory(c, ops, n - 1, token);
      ConsentNext(c, ops, n - 1, token);
      StandsNext(c, ops, n - 1, token);
    }
  }

  /** Operation k starts a session whose token's lifetime is over. */
  ghost predicate StartsLate(c: Config, ops: seq<Op>, k: nat, token: nat)
    requires k < |ops|
  {
    ops[k].Start? && LooksUp(At(c, ops, k), ops[k].aegis, token) && IsLate(At(c, ops, k), token, ops[k].now)
  }

  /** Operation k is a start that the gate lets pass although the session's token is past its lifetime. */
  ghost predicate LapsedAt(c: Config, ops: seq<Op>, k: nat)
    requires k < |ops|
  {
    var s := At(c, ops, k);
    && ops[k].Start? && ops[k].aegis in s.sessions
    && Evaluate(c.android, s.gate, s.sessions[ops[k].aegis].screen).Granted?
    && IsLate(s, s.gate.bySession[s.sessions[ops[k].aegis].screen], ops[k].now)
  }

  lemma LapsedExactly(c: Config, ops: seq<Op>, k: nat)
    requires k < |ops|
    ensures LapsedAt(c, ops, k) <==> exists token: nat :: StartsLate(c, ops, k, token) && HasConsentAt(c, ops, k, token)
  {
    if !c.android {
      NoRecordsOffAndroid(c, ops, k);
    }
    var s := At(c, ops, k);
    if LapsedAt(c, ops, k) {
      assert StartsLate(c, ops, k, s.gate.bySession[s.sessions[ops[k].aegis].screen]);
    }
  }

  /**
   In a run the gate never lets a start pass under a consent past its lifetime, as documented,
   exactly if every start past the lifetime of its token has, after each grant of that token,
   a refusal of it or a sweep of the gate later than that lifetime. For any clock.
   */
  lemma CaptureIsUnexpiredExactly(c: Config, ops: seq<Op>)
    ensures (forall k | 0 <= k < |ops| :: !LapsedAt(c, ops, k))
       <==> (forall k: nat, token: nat | k < |ops| && StartsLate(c, ops, k, token) ::
               !SomeGrantStands(c, ops, k, token))
  {
    if k: nat :| k < |ops| && LapsedAt(c, ops, k) {
      LapsedExactly(c, ops, k);
      var token: nat :| StartsLate(c, ops, k, token) && HasConsentAt(c, ops, k, token);
      ConsentIsHistory(c, ops, k, token);
    } else {
      forall k: nat, token: nat | k < |ops| && StartsLate(c, ops, k, token)
        ensures !SomeGrantStands(c, ops, k, token)
      {
        LapsedExactly(c, ops, k);
        ConsentIsHistory(c, ops, k, token);
      }
    }
  }

  /** A sweep of the gate directly before a start, by the same clock reading, would be enough. */
  lemma SweptStartIsUnexpired(c: Config, ops: seq<Op>, k: nat)
    requires 0 < k < |ops| && ops[k].Start? && ops[k - 1] == GateExpire(ops[k].now)
    ensures !LapsedAt(c, ops, k)
  {
    LapsedExactly(c, ops, k);
    forall token: nat | StartsLate(c, ops, k, token)
      ensures !HasConsentAt(c, ops, k, token)
    {
      ConsentNext(c, ops, k - 1, token);
    }
  }

  function UnsweptRun(): seq<Op> {
    [Create("screen", true, 0), Request(0), GateGrant(0, 1), Start(0, Starts, 100)]
  }

  /** A run that captures 95 seconds after the lifetime of its consent, though no token is ever marked EXPIRED. */
  lemma UnsweptConsentCaptures(c: Config)
    requires c == Config(true, 5)
    ensures var ops := UnsweptRun();
            && (forall k | 0 <= k < |ops| :: !GrantsExpiredAt(c, ops, k))
            && LapsedAt(c, ops, 3) && Apply(c, At(c, ops, 3), ops[3]).1.Done?
  {
    var ops := UnsweptRun();
    GrantedOnce(c, ops);
    AtNext(c, ops, 0);
    AtNext(c, ops, 1);
    forall k | 0 <= k < |ops|
      ensures !GrantsExpiredAt(c, ops, k)
    {
      if ops[k].GateGrant? {
        assert k == 2;
        assert At(c, ops, 2).gate.records[0].state.Requested?;
      }
    }
  }
}
