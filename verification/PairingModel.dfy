/**
 The pairing protocol: one-time code, child challenge, signed decision, trust record.

 Clock readings, one-time codes, nonces and session ids are inputs of each operation. A code
 verifier stands for the code it hashes, and a signature for its key and payload.
 */
module PairingModel {
  import opened Common

  datatype PairingState =
    | Unconfigured | Initiated | AwaitingVerification
    | Created | VerificationPending | Verified | ChildAuthorizationPending
    | Authorized | TrustEstablished | Paired
    | Denied | Rejected | Expired | Cancelled | Revoked

  /** The transition table; a state it does not list has no way out. */
  predicate ValidTransition(current: PairingState, target: PairingState) {
    current == target ||
    match current
    case Created => target in {VerificationPending, Cancelled, Expired}
    case VerificationPending => target in {Verified, Cancelled, Expired}
    case Verified => target in {ChildAuthorizationPending, Cancelled, Expired}
    case ChildAuthorizationPending => target in {Authorized, Denied, Cancelled, Expired}
    case Authorized => target in {TrustEstablished, Cancelled, Expired}
    case TrustEstablished => target in {Paired, PairingState.Revoked}
    case Paired => target == PairingState.Revoked
    case _ => false
  }

  predicate Dead(st: PairingState) {
    st in {Denied, Expired, Cancelled, PairingState.Revoked}
  }

  // ---------------------------------------------------------------------------------------
  // Identities and signed decisions

  predicate IsHex(c: char) {
    '0' <= c <= '9' || 'A' <= c <= 'F'
  }

  /** GM-P-XXXXXXXX or GM-C-XXXXXXXX, eight upper-case hexadecimal digits. */
  predicate ValidIdentity(id: string) {
    && |id| == 13
    && id[..3] == "GM-" && (id[3] == 'P' || id[3] == 'C') && id[4] == '-'
    && forall k | 5 <= k < 13 :: IsHex(id[k])
  }

  predicate IsParent(id: string) {
    ValidIdentity(id) && id[3] == 'P'
  }

  predicate IsChild(id: string) {
    ValidIdentity(id) && id[3] == 'C'
  }

  datatype Signature = Signature(signer: int, payload: string)

  datatype Decision = Decision(
    decision: string,
    sessionId: string,
    parentId: string,
    childId: string,
    nonce: string,
    publicKey: Option<int>,   // None when the PEM text does not parse
    signature: Signature)

  function Payload(sessionId: string, parentId: string, childId: string, nonce: string, decision: string): string {
    "GM-AUTH-V1:" + sessionId + ":" + parentId + ":" + childId + ":" + nonce + ":" + decision
  }

  predicate SignatureVerifies(d: Decision) {
    && d.publicKey.Some?
    && d.signature == Signature(d.publicKey.value, Payload(d.sessionId, d.parentId, d.childId, d.nonce, d.decision))
  }

  function Upper(s: string): string {
    seq(|s|, i requires 0 <= i < |s| => if 'a' <= s[i] <= 'z' then s[i] - 'a' + 'A' else s[i])
  }

  predicate IsApproved(d: Decision) {
    Upper(d.decision) == "APPROVE"
  }

  // ---------------------------------------------------------------------------------------
  // Tables

  datatype Config = Config(sessionLifetime: nat, codeLifetime: nat, cooldown: nat, maxAttempts: nat, nonceLifetime: nat)

  datatype Session = Session(
    parent: string,
    child: Option<string>,
    state: PairingState,
    createdAt: int,
    expiresAt: int,
    attempts: nat,
    maxAttempts: nat,
    resends: nat,
    lastResendAt: int,
    code: Option<int>,
    codeExpiresAt: int)
  {
    predicate IsExpired(now: int) {
      now >= expiresAt
    }

    predicate IsCodeExpired(now: int) {
      now >= codeExpiresAt
    }
  }

  datatype Nonce = Nonce(session: string, child: string, expiresAt: int, used: bool)

  datatype TrustStatus = Active | Revoked

  datatype Trust = Trust(publicKey: int, status: TrustStatus, version: nat, session: string)

  datatype State = State(
    sessions: map<string, Session>,
    nonces: map<string, Nonce>,
    trust: map<(string, string), Trust>)

  function Init(): State {
    State(map[], map[], map[])
  }

  datatype Op =
    | Create(sid: string, parent: string, target: Option<string>, code: int, delivered: bool, now: int)
    | Resend(sid: string, code: int, delivered: bool, now: int)
    | Verify(sid: string, entered: Option<int>, now: int)   // None: not six digits
    | Challenge(sid: string, child: string, nonce: string, now: int)
    | Submit(sid: string, decision: Decision, now: int)
    | Cancel(sid: string)
    | Revoke(local: string, remote: string)

  datatype Outcome =
    | Done | AlreadyOver | NotFound | InvalidInput | Conflict
    | SessionExpired | WrongState | RateLimited | DeliveryFailed
    | AttemptsExceeded | CodeExpired | WrongCode
    | InvalidNonce | ReplayedNonce | BadSignature | DeniedByChild | InvalidRemoteIdentity

  function Put(s: State, sid: string, session: Session): State {
    s.(sessions := s.sessions[sid := session])
  }

  function ApplyCreate(c: Config, s: State, op: Op): (State, Outcome)
    requires op.Create?
  {
    if !IsParent(op.parent) then (s, InvalidInput)
    else if op.target.Some? && op.target.value != "" && !IsChild(op.target.value) then (s, InvalidInput)
    else if op.sid in s.sessions then (s, Conflict)
    else
      var session := Session(op.parent, op.target, if op.delivered then VerificationPending else Cancelled,
                             op.now, op.now + c.sessionLifetime, 0, c.maxAttempts, 0, op.now,
                             Some(op.code), op.now + c.codeLifetime);
      (Put(s, op.sid, session), if op.delivered then Done else DeliveryFailed)
  }

  function ApplyResend(c: Config, s: State, op: Op): (State, Outcome)
    requires op.Resend?
  {
    if op.sid !in s.sessions then (s, NotFound)
    else
      var session := s.sessions[op.sid];
      if session.IsExpired(op.now) then
        if ValidTransition(session.state, Expired) then
          (Put(s, op.sid, session.(state := Expired)), SessionExpired)
        else (s, WrongState)
      else if session.state != Created && session.state != VerificationPending then (s, WrongState)
      else if op.now - session.lastResendAt < c.cooldown then (s, RateLimited)
      else if !op.delivered then (s, DeliveryFailed)
      else
        (Put(s, op.sid, session.(code := Some(op.code), codeExpiresAt := op.now + c.codeLifetime,
                                 resends := session.resends + 1, lastResendAt := op.now,
                                 state := VerificationPending)), Done)
  }

  function ApplyVerify(s: State, op: Op): (State, Outcome)
    requires op.Verify?
  {
    if op.sid !in s.sessions then (s, NotFound)
    else
      var session := s.sessions[op.sid];
      if session.IsExpired(op.now) then (Put(s, op.sid, session.(state := Expired)), SessionExpired)
      else if session.state != VerificationPending then (s, WrongState)
      else if session.attempts >= session.maxAttempts then
        (Put(s, op.sid, session.(state := Expired)), AttemptsExceeded)
      else if session.IsCodeExpired(op.now) then
        (Put(s, op.sid, session.(attempts := session.attempts + 1)), CodeExpired)
      else if op.entered.None? then (s, InvalidInput)
      else if session.code != op.entered then
        var tried := session.(attempts := session.attempts + 1);
        if tried.attempts >= tried.maxAttempts then
          (Put(s, op.sid, tried.(state := Expired)), AttemptsExceeded)
        else (Put(s, op.sid, tried), WrongCode)
      else
        (Put(s, op.sid, session.(code := None, state := ChildAuthorizationPending)), Done)
  }

  function ApplyChallenge(c: Config, s: State, op: Op): (State, Outcome)
    requires op.Challenge?
  {
    if op.sid !in s.sessions then (s, NotFound)
    else
      var session := s.sessions[op.sid];
      if session.IsExpired(op.now) then (Put(s, op.sid, session.(state := Expired)), SessionExpired)
      else if session.state != ChildAuthorizationPending then (s, WrongState)
      else if !ValidIdentity(op.child) then (s, InvalidInput)
      else if op.nonce in s.nonces then (s, Conflict)
      else
        var row := Nonce(op.sid, op.child, op.now + c.nonceLifetime, false);
        (Put(s, op.sid, session.(child := Some(op.child))).(nonces := s.nonces[op.nonce := row]), Done)
  }

  /** The nonce is consumed before the signature is looked at. */
  function ApplySubmit(s: State, op: Op): (State, Outcome)
    requires op.Submit?
  {
    var d := op.decision;
    if op.sid !in s.sessions then (s, NotFound)
    else
      var session := s.sessions[op.sid];
      if session.IsExpired(op.now) then (Put(s, op.sid, session.(state := Expired)), SessionExpired)
      else if session.state != ChildAuthorizationPending then (s, WrongState)
      else if d.nonce !in s.nonces || s.nonces[d.nonce].session != op.sid then (s, InvalidNonce)
      else if s.nonces[d.nonce].used then (s, ReplayedNonce)
      else if op.now >= s.nonces[d.nonce].expiresAt then (s, InvalidNonce)
      else
        var t := s.(nonces := s.nonces[d.nonce := s.nonces[d.nonce].(used := true)]);
        if !SignatureVerifies(d) then (t, BadSignature)
        else if !IsApproved(d) then
          (Put(t, op.sid, session.(child := Some(d.childId), state := Denied)), DeniedByChild)
        else
          EstablishTrust(Put(t, op.sid, session.(child := Some(d.childId), state := Paired)),
                         session.parent, d.childId, d.publicKey.value, op.sid)
  }

  function EstablishTrust(s: State, local: string, remote: string, key: int, sid: string): (State, Outcome) {
    if !ValidIdentity(remote) then (s, InvalidRemoteIdentity)
    else
      var pair := (local, remote);
      var version := if pair in s.trust then s.trust[pair].version + 1 else 1;
      (s.(trust := s.trust[pair := Trust(key, Active, version, sid)]), Done)
  }

  function ApplyCancel(s: State, op: Op): (State, Outcome)
    requires op.Cancel?
  {
    if op.sid !in s.sessions then (s, NotFound)
    else if Dead(s.sessions[op.sid].state) then (s, AlreadyOver)
    else (Put(s, op.sid, s.sessions[op.sid].(state := Cancelled)), Done)
  }

  /**
   The WHERE clause as SQL reads it: AND binds tighter than OR, so the exclusion of finished
   sessions applies only to those where the two identities are swapped.
   */
  predicate RevokeHits(session: Session, local: string, remote: string) {
    || (session.parent == local && session.child == Some(remote))
    || (session.parent == remote && session.child == Some(local) && !Dead(session.state))
  }

  function ApplyRevoke(s: State, op: Op): (State, Outcome)
    requires op.Revoke?
  {
    var pair := (op.local, op.remote);
    if pair !in s.trust then (s, NotFound)
    else
      (s.(trust := s.trust[pair := s.trust[pair].(status := TrustStatus.Revoked)],
          sessions := map sid | sid in s.sessions ::
            if RevokeHits(s.sessions[sid], op.local, op.remote)
            then s.sessions[sid].(state := PairingState.Revoked) else s.sessions[sid]), Done)
  }

  function Apply(c: Config, s: State, op: Op): (State, Outcome) {
    match op
    case Create(_, _, _, _, _, _) => ApplyCreate(c, s, op)
    case Resend(_, _, _, _) => ApplyResend(c, s, op)
    case Verify(_, _, _) => ApplyVerify(s, op)
    case Challenge(_, _, _, _) => ApplyChallenge(c, s, op)
    case Submit(_, _, _) => ApplySubmit(s, op)
    case Cancel(_) => ApplyCancel(s, op)
    case Revoke(_, _) => ApplyRevoke(s, op)
  }

  /** The tables after the first n operations. */
  function At(c: Config, ops: seq<Op>, n: nat): State
    requires n <= |ops|
  {
    if n == 0 then Init() else Apply(c, At(c, ops, n - 1), ops[n - 1]).0
  }
}
