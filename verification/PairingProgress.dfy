/** The pairing protocol also gets there: an honest exchange in time ends in trust. */
module PairingProgress {
  import opened Common
  import opened PairingModel
  import opened PairingLaws

  /** A code just issued is accepted while it and the session live, and moves the session on. */
  lemma FreshCodeIsAccepted(c: Config, s: State, sid: string, code: int, now: int)
    requires sid in s.sessions
    requires var session := s.sessions[sid];
             && session.state.VerificationPending? && session.code == Some(code)
             && session.attempts < session.maxAttempts
             && now < session.codeExpiresAt && now < session.expiresAt
    ensures var (t, outcome) := Apply(c, s, Verify(sid, Some(code), now));
            && outcome.Done?
            && t == Put(s, sid, s.sessions[sid].(code := None, state := ChildAuthorizationPending))
  {
  }

  /** After a resend the new code is the one that counts, for a full code lifetime. */
  lemma ResendReplacesCode(c: Config, s: State, sid: string, code: int, sent: int, entered: int, now: int)
    requires Apply(c, s, Resend(sid, code, true, sent)).1.Done?
    requires var session := s.sessions[sid];
             session.attempts < session.maxAttempts && now < sent + c.codeLifetime && now < session.expiresAt
    ensures Apply(c, Apply(c, s, Resend(sid, code, true, sent)).0, Verify(sid, Some(entered), now)).1.Done? <==> entered == code
  {
    var t := Apply(c, s, Resend(sid, code, true, sent)).0;
    if entered == code {
      FreshCodeIsAccepted(c, t, sid, code, now);
    }
  }

  lemma ChallengeIsIssued(c: Config, s: State, sid: string, child: string, nonce: string, now: int)
    requires sid in s.sessions && s.sessions[sid].state.ChildAuthorizationPending? && now < s.sessions[sid].expiresAt
    requires ValidIdentity(child) && nonce !in s.nonces
    ensures var (t, outcome) := Apply(c, s, Challenge(sid, child, nonce, now));
            && outcome.Done?
            && sid in t.sessions && t.sessions[sid] == s.sessions[sid].(child := Some(child))
            && nonce in t.nonces && t.nonces[nonce] == Nonce(sid, child, now + c.nonceLifetime, false)
            && t.trust == s.trust
  {
  }

  lemma ApprovalIsAccepted(c: Config, s: State, sid: string, d: Decision, now: int)
    requires sid in s.sessions && s.sessions[sid].state.ChildAuthorizationPending? && now < s.sessions[sid].expiresAt
    requires d.nonce in s.nonces && s.nonces[d.nonce].session == sid
    requires !s.nonces[d.nonce].used && now < s.nonces[d.nonce].expiresAt
    requires SignatureVerifies(d) && IsApproved(d) && ValidIdentity(d.childId)
    ensures var (t, outcome) := Apply(c, s, Submit(sid, d, now));
            var pair := (s.sessions[sid].parent, d.childId);
            && outcome.Done?
            && t.sessions[sid].state.Paired?
            && t.trust == s.trust[pair := Trust(d.publicKey.value, Active, Version(s, pair) + 1, sid)]
  {
  }

  /**
   From any state, a fresh session whose code is entered in time, whose child is challenged
   with a fresh nonce and signs an approval in time, ends PAIRED with an ACTIVE record of the
   child's key and the next trust version; no other record changes.
   */
  lemma HonestPairing(c: Config, s: State, sid: string, parent: string, code: int, d: Decision,
                      created: int, verified: int, challenged: int, submitted: int)
    requires sid !in s.sessions && d.nonce !in s.nonces && c.maxAttempts > 0
    requires IsParent(parent) && ValidIdentity(d.childId)
    requires verified < created + c.codeLifetime
    requires verified < created + c.sessionLifetime && challenged < created + c.sessionLifetime
    requires submitted < created + c.sessionLifetime && submitted < challenged + c.nonceLifetime
    requires SignatureVerifies(d) && IsApproved(d)
    ensures var s1 := Apply(c, s, Create(sid, parent, None, code, true, created)).0;
            var s2 := Apply(c, s1, Verify(sid, Some(code), verified)).0;
            var s3 := Apply(c, s2, Challenge(sid, d.childId, d.nonce, challenged)).0;
            var (t, outcome) := Apply(c, s3, Submit(sid, d, submitted));
            var pair := (parent, d.childId);
            && outcome.Done?
            && sid in t.sessions && t.sessions[sid].state.Paired?
            && t.trust == s.trust[pair := Trust(d.publicKey.value, Active, Version(s, pair) + 1, sid)]
  {
    var s1 := Apply(c, s, Create(sid, parent, None, code, true, created)).0;
    FreshCodeIsAccepted(c, s1, sid, code, verified);
    var s2 := Apply(c, s1, Verify(sid, Some(code), verified)).0;
    ChallengeIsIssued(c, s2, sid, d.childId, d.nonce, challenged);
    var s3 := Apply(c, s2, Challenge(sid, d.childId, d.nonce, challenged)).0;
    ApprovalIsAccepted(c, s3, sid, d, submitted);
  }

  // ---------------------------------------------------------------------------------------
  // A finished session rewritten

  const PARENT := "GM-P-00000000"
  const CHILD := "GM-C-00000000"

  function Approval(): Decision {
    Decision("APPROVE", "a", PARENT, CHILD, "n", Some(7), Signature(7, Payload("a", PARENT, CHILD, "n", "APPROVE")))
  }

  /** Session a pairs; session b, started for the same child, is cancelled; then trust is revoked. */
  function RevokedRun(): seq<Op> {
    [Create("a", PARENT, None, 1, true, 0), Verify("a", Some(1), 0), Challenge("a", CHILD, "n", 0),
     Submit("a", Approval(), 0),
     Create("b", PARENT, Some(CHILD), 2, true, 0), Cancel("b"), Revoke(PARENT, CHILD)]
  }

  lemma IdentitiesAreValid()
    ensures IsParent(PARENT) && IsChild(CHILD)
  {
  }

  lemma ApprovalIsSigned()
    ensures SignatureVerifies(Approval()) && IsApproved(Approval())
  {
    assert Upper("APPROVE") == "APPROVE";
  }

  lemma AtNext(c: Config, ops: seq<Op>, n: nat)
    requires n < |ops|
    ensures At(c, ops, n + 1) == Apply(c, At(c, ops, n), ops[n]).0
  {
  }

  lemma NotCreated(c: Config, s: State, op: Op, sid: string)
    requires sid !in s.sessions && !(op.Create? && op.sid == sid)
    ensures sid !in Apply(c, s, op).0.sessions
  {
  }

  ghost predicate ConfigAllows(c: Config) {
    c.maxAttempts > 0 && c.sessionLifetime > 0 && c.codeLifetime > 0 && c.nonceLifetime > 0
  }

  lemma SecondIsAbsent(c: Config)
    ensures "b" !in At(c, RevokedRun(), 4).sessions
  {
    var ops := RevokedRun();
    for k := 0 to 4
      invariant "b" !in At(c, ops, k).sessions
    {
      AtNext(c, ops, k);
      NotCreated(c, At(c, ops, k), ops[k], "b");
    }
  }

  lemma FirstPairs(c: Config)
    requires ConfigAllows(c)
    ensures (PARENT, CHILD) in At(c, RevokedRun(), 4).trust
  {
    IdentitiesAreValid();
    ApprovalIsSigned();
    HonestPairing(c, Init(), "a", PARENT, 1, Approval(), 0, 0, 0, 0);
    FourSteps(c, RevokedRun());
  }

  lemma FourSteps(c: Config, ops: seq<Op>)
    requires |ops| >= 4
    ensures At(c, ops, 4) == Apply(c, Apply(c, Apply(c, Apply(c, Init(), ops[0]).0, ops[1]).0, ops[2]).0, ops[3]).0
  {
    AtNext(c, ops, 0);
    AtNext(c, ops, 1);
    AtNext(c, ops, 2);
    AtNext(c, ops, 3);
  }

  lemma SecondIsCancelled(c: Config, s: State)
    requires "b" !in s.sessions
    ensures var t := Apply(c, Apply(c, s, Create("b", PARENT, Some(CHILD), 2, true, 0)).0, Cancel("b")).0;
            && t.trust == s.trust && "b" in t.sessions
            && t.sessions["b"].state.Cancelled? && t.sessions["b"].parent == PARENT && t.sessions["b"].child == Some(CHILD)
  {
    IdentitiesAreValid();
  }

  /** A run whose revocation turns a session that the parent had cancelled into a revoked one. */
  lemma RevokeRewritesCancelled(c: Config)
    requires ConfigAllows(c)
    ensures var ops := RevokedRun();
            && "b" in At(c, ops, 6).sessions && At(c, ops, 6).sessions["b"].state.Cancelled?
            && "b" in At(c, ops, 7).sessions && At(c, ops, 7).sessions["b"].state == PairingState.Revoked
  {
    var ops := RevokedRun();
    FirstPairs(c);
    SecondIsAbsent(c);
    AtNext(c, ops, 4);
    AtNext(c, ops, 5);
    AtNext(c, ops, 6);
    SecondIsCancelled(c, At(c, ops, 4));
  }

  // ---------------------------------------------------------------------------------------
  // A code kept after the last attempt

  function ExhaustedRun(): seq<Op> {
    [Create("a", PARENT, None, 1, true, 0), Verify("a", Some(2), 0)]
  }

  /** A run whose only attempt is wrong: the session is EXPIRED and still holds its code. */
  lemma ExhaustedCodeStays(c: Config)
    requires ConfigAllows(c) && c.maxAttempts == 1
    ensures RunsOut(At(c, ExhaustedRun(), 1), ExhaustedRun()[1], "a")
    ensures "a" in At(c, ExhaustedRun(), 2).sessions
    ensures At(c, ExhaustedRun(), 2).sessions["a"].state.Expired? && At(c, ExhaustedRun(), 2).sessions["a"].code == Some(1)
  {
    IdentitiesAreValid();
    AtNext(c, ExhaustedRun(), 0);
    AtNext(c, ExhaustedRun(), 1);
  }
}
