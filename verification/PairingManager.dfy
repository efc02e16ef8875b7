/** The pairing and trust managers over their three tables, step by step as the source does it. */
module PairingManager {
  import opened Common
  import opened PairingModel

  class Manager {
    const config: Config
    var sessions: map<string, Session>
    var nonces: map<string, Nonce>
    var trust: map<(string, string), Trust>

    function View(): State
      reads this
    {
      State(sessions, nonces, trust)
    }

    constructor (config: Config)
      ensures this.config == config && View() == Init()
    {
      this.config := config;
      sessions, nonces, trust := map[], map[], map[];
    }

    method UpdateSession(sid: string, session: Session)
      modifies this`sessions
      ensures sessions == old(sessions)[sid := session]
    {
      sessions := sessions[sid := session];
    }

    method CreateSession(sid: string, parent: string, target: Option<string>, code: int, delivered: bool, now: int)
      returns (outcome: Outcome)
      modifies this
      ensures (View(), outcome) == Apply(config, old(View()), Create(sid, parent, target, code, delivered, now))
    {
      if !ValidIdentity(parent) || !IsParent(parent) {
        return InvalidInput;
      }
      if target.Some? && target.value != "" {
        if !ValidIdentity(target.value) || !IsChild(target.value) {
          return InvalidInput;
        }
      }
      if sid in sessions {
        return Conflict;
      }
      var session := Session(parent, target, Created, now, now + config.sessionLifetime,
                             0, config.maxAttempts, 0, now, Some(code), now + config.codeLifetime);
      UpdateSession(sid, session);
      if !delivered {
        UpdateSession(sid, session.(state := Cancelled));
        assert sessions == old(sessions)[sid := session.(state := Cancelled)];
        return DeliveryFailed;
      }
      assert ValidTransition(session.state, VerificationPending);
      UpdateSession(sid, session.(state := VerificationPending));
      assert sessions == old(sessions)[sid := session.(state := VerificationPending)];
      outcome := Done;
    }

    method ResendOtp(sid: string, code: int, delivered: bool, now: int) returns (outcome: Outcome)
      modifies this
      ensures (View(), outcome) == Apply(config, old(View()), Resend(sid, code, delivered, now))
    {
      if sid !in sessions {
        return NotFound;
      }
      var session := sessions[sid];
      if session.IsExpired(now) {
        if !ValidTransition(session.state, Expired) {
          return WrongState;
        }
        UpdateSession(sid, session.(state := Expired));
        return SessionExpired;
      }
      if session.state != Created && session.state != VerificationPending {
        return WrongState;
      }
      var elapsed := now - session.lastResendAt;
      if elapsed < config.cooldown {
        return RateLimited;
      }
      session := session.(code := Some(code), codeExpiresAt := now + config.codeLifetime);
      session := session.(resends := session.resends + 1, lastResendAt := now);
      session := session.(state := VerificationPending);
      if !delivered {
        return DeliveryFailed;
      }
      UpdateSession(sid, session);
      outcome := Done;
    }

    method VerifyOtp(sid: string, entered: Option<int>, now: int) returns (outcome: Outcome)
      modifies this
      ensures (View(), outcome) == Apply(config, old(View()), Verify(sid, entered, now))
    {
      if sid !in sessions {
        return NotFound;
      }
      var session := sessions[sid];
      if session.IsExpired(now) {
        UpdateSession(sid, session.(state := Expired));
        return SessionExpired;
      }
      if session.state != VerificationPending {
        return WrongState;
      }
      if session.attempts >= session.maxAttempts {
        UpdateSession(sid, session.(state := Expired));
        return AttemptsExceeded;
      }
      if session.IsCodeExpired(now) {
        UpdateSession(sid, session.(attempts := session.attempts + 1));
        return CodeExpired;
      }
      if entered.None? {
        return InvalidInput;
      }
      if session.code != entered {
        session := session.(attempts := session.attempts + 1);
        if session.attempts >= session.maxAttempts {
          UpdateSession(sid, session.(state := Expired));
          return AttemptsExceeded;
        }
        UpdateSession(sid, session);
        return WrongCode;
      }
      session := session.(code := None);
      assert ValidTransition(session.state, Verified);
      session := session.(state := Verified);
      assert ValidTransition(session.state, ChildAuthorizationPending);
      session := session.(state := ChildAuthorizationPending);
      UpdateSession(sid, session);
      outcome := Done;
    }

    method CreateAuthorizationChallenge(sid: string, child: string, nonce: string, now: int) returns (outcome: Outcome)
      modifies this
      ensures (View(), outcome) == Apply(config, old(View()), Challenge(sid, child, nonce, now))
    {
      if sid !in sessions {
        return NotFound;
      }
      var session := sessions[sid];
      if session.IsExpired(now) {
        UpdateSession(sid, session.(state := Expired));
        return SessionExpired;
      }
      if session.state != ChildAuthorizationPending {
        return WrongState;
      }
      if !ValidIdentity(child) {
        return InvalidInput;
      }
      if nonce in nonces {
        return Conflict;
      }
      nonces := nonces[nonce := Nonce(sid, child, now + config.nonceLifetime, false)];
      UpdateSession(sid, session.(child := Some(child)));
      outcome := Done;
    }

    /** Look the nonce up by itself and the session, then mark it used. */
    method ValidateAndConsumeNonce(nonce: string, sid: string, now: int) returns (outcome: Outcome)
      modifies this`nonces
      ensures outcome.Done? <==>
              nonce in old(nonces) && old(nonces)[nonce].session == sid
              && !old(nonces)[nonce].used && now < old(nonces)[nonce].expiresAt
      ensures outcome.ReplayedNonce? <==>
              nonce in old(nonces) && old(nonces)[nonce].session == sid && old(nonces)[nonce].used
      ensures outcome in {Done, ReplayedNonce, InvalidNonce}
      ensures nonces == if outcome.Done? then old(nonces)[nonce := old(nonces)[nonce].(used := true)] else old(nonces)
    {
      if nonce !in nonces || nonces[nonce].session != sid {
        return InvalidNonce;
      }
      var row := nonces[nonce];
      if row.used {
        return ReplayedNonce;
      }
      if now >= row.expiresAt {
        return InvalidNonce;
      }
      nonces := nonces[nonce := row.(used := true)];
      outcome := Done;
    }

    method SubmitChildAuthorization(sid: string, decision: Decision, now: int) returns (outcome: Outcome)
      modifies this
      ensures (View(), outcome) == Apply(config, old(View()), Submit(sid, decision, now))
    {
      if sid !in sessions {
        return NotFound;
      }
      var session := sessions[sid];
      if session.IsExpired(now) {
        UpdateSession(sid, session.(state := Expired));
        return SessionExpired;
      }
      if session.state != ChildAuthorizationPending {
        return WrongState;
      }
      var consumed := ValidateAndConsumeNonce(decision.nonce, sid, now);
      if !consumed.Done? {
        return consumed;
      }
      if !SignatureVerifies(decision) {
        return BadSignature;
      }
      session := session.(child := Some(decision.childId));
      if !IsApproved(decision) {
        assert ValidTransition(session.state, Denied);
        UpdateSession(sid, session.(state := Denied));
        return DeniedByChild;
      }
      assert ValidTransition(session.state, Authorized);
      assert ValidTransition(Authorized, TrustEstablished) && ValidTransition(TrustEstablished, Paired);
      UpdateSession(sid, session.(state := Paired));
      outcome := EstablishTrust(session.parent, decision.childId, decision.publicKey.value, sid);
    }

    method EstablishTrust(local: string, remote: string, key: int, sid: string) returns (outcome: Outcome)
      modifies this`trust
      ensures (View(), outcome) == PairingModel.EstablishTrust(old(View()), local, remote, key, sid)
    {
      if !ValidIdentity(remote) {
        return InvalidRemoteIdentity;
      }
      var pair := (local, remote);
      if pair in trust {
        trust := trust[pair := Trust(key, Active, trust[pair].version + 1, sid)];
      } else {
        trust := trust[pair := Trust(key, Active, 1, sid)];
      }
      outcome := Done;
    }

    method CancelSession(sid: string) returns (outcome: Outcome)
      modifies this
      ensures (View(), outcome) == Apply(config, old(View()), Cancel(sid))
    {
      if sid !in sessions {
        return NotFound;
      }
      var session := sessions[sid];
      if Dead(session.state) {
        return AlreadyOver;
      }
      UpdateSession(sid, session.(state := Cancelled));
      outcome := Done;
    }

    method RevokeTrust(local: string, remote: string) returns (outcome: Outcome)
      modifies this
      ensures (View(), outcome) == Apply(config, old(View()), Revoke(local, remote))
    {
      var pair := (local, remote);
      if pair !in trust {
        return NotFound;
      }
      trust := trust[pair := trust[pair].(status := TrustStatus.Revoked)];
      sessions := map sid | sid in sessions ::
        if RevokeHits(sessions[sid], local, remote)
        then sessions[sid].(state := PairingState.Revoked) else sessions[sid];
      outcome := Done;
    }

    /** Whether the device may be used: an unknown or revoked one is refused. */
    method VerifyDeviceTrust(local: string, remote: string) returns (trusted: bool)
      ensures trusted <==> (local, remote) in trust && trust[(local, remote)].status == Active
    {
      var pair := (local, remote);
      if pair !in trust {
        return false;
      }
      if trust[pair].status == TrustStatus.Revoked {
        return false;
      }
      trusted := true;
    }
  }
}
