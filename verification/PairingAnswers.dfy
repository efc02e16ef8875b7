/** What each pairing operation answers and leaves behind, told from the calls and the clock. */
module PairingAnswers {
  import opened Common
  import opened PairingModel
  import opened PairingLaws

  // ---------------------------------------------------------------------------------------
  // Trust

  predicate NamesPair(op: Op, pair: (string, string)) {
    op.Revoke? && (op.local, op.remote) == pair
  }

  /** Revoking a known pair leaves its record revoked with all else kept, and every other record as it was. */
  lemma RevokeRevokes(c: Config, s: State, local: string, remote: string)
    ensures var (t, outcome) := Apply(c, s, Revoke(local, remote));
            && (outcome.Done? <==> (local, remote) in s.trust)
            && (!outcome.Done? ==> outcome.NotFound? && t == s)
            && t.trust.Keys == s.trust.Keys && t.nonces == s.nonces
            && forall pair | pair in s.trust ::
                 && t.trust[pair].publicKey == s.trust[pair].publicKey
                 && t.trust[pair].version == s.trust[pair].version
                 && t.trust[pair].session == s.trust[pair].session
                 && t.trust[pair].status == if pair == (local, remote) then TrustStatus.Revoked else s.trust[pair].status
  {
  }

  /**
   A revocation of a known pair makes every session of that parent with that child REVOKED,
   finished or not, and every unfinished one with the two swapped; no other session changes.
   */
  lemma RevokeEndsSessions(c: Config, s: State, local: string, remote: string, sid: string)
    requires (local, remote) in s.trust && sid in s.sessions
    ensures var t := Apply(c, s, Revoke(local, remote)).0;
            && t.sessions.Keys == s.sessions.Keys
            && t.sessions[sid].(state := s.sessions[sid].state) == s.sessions[sid]
            && var before := s.sessions[sid];
               t.sessions[sid].state ==
                 if before.parent == local && before.child == Some(remote) then PairingState.Revoked
                 else if before.parent == remote && before.child == Some(local)
                         && before.state !in {Denied, PairingState.Expired, Cancelled} then PairingState.Revoked
                 else before.state
  {
  }

  /** Operation i pairs, and the child's identity is well formed. */
  ghost predicate TrustsAt(c: Config, ops: seq<Op>, i: nat, pair: (string, string))
    requires i < |ops|
  {
    PairsAt(c, ops, i, pair) && ValidIdentity(pair.1)
  }

  /** What a step does to the record of a pair. */
  lemma RecordStep(c: Config, ops: seq<Op>, n: nat, pair: (string, string))
    requires n < |ops|
    ensures var s, t := At(c, ops, n), At(c, ops, n + 1);
            if TrustsAt(c, ops, n, pair)
            then && ops[n].decision.publicKey.Some? && pair in t.trust
                 && t.trust[pair].publicKey == ops[n].decision.publicKey.value
                 && t.trust[pair].session == ops[n].sid && t.trust[pair].status.Active?
            else && (pair in t.trust <==> pair in s.trust)
                 && (pair in s.trust ==> t.trust[pair].publicKey == s.trust[pair].publicKey
                                         && t.trust[pair].session == s.trust[pair].session)
                 && (pair in s.trust ==> (t.trust[pair].status.Active? <==>
                                          s.trust[pair].status.Active? && !NamesPair(ops[n], pair)))
  {
    var s, op := At(c, ops, n), ops[n];
    assert At(c, ops, n + 1) == Apply(c, s, op).0;
    if op.Submit? && op.sid in s.sessions {
      SessionStep(c, s, op, op.sid);
    }
  }

  /** Operation i was the last before n to pair the two, and their record shows it. */
  ghost predicate ShowsPairing(c: Config, ops: seq<Op>, i: nat, n: nat, pair: (string, string))
    requires i < n <= |ops|
  {
    var t := At(c, ops, n);
    && TrustsAt(c, ops, i, pair) && pair in t.trust
    && Some(t.trust[pair].publicKey) == ops[i].decision.publicKey && t.trust[pair].session == ops[i].sid
    && (t.trust[pair].status.Active? <==> forall m | i < m < n :: !NamesPair(ops[m], pair))
    && forall m | i < m < n :: !TrustsAt(c, ops, m, pair)
  }

  ghost predicate NeverPaired(c: Config, ops: seq<Op>, n: nat, pair: (string, string))
    requires n <= |ops|
  {
    pair !in At(c, ops, n).trust && forall m | 0 <= m < n :: !TrustsAt(c, ops, m, pair)
  }

  lemma NowPaired(c: Config, ops: seq<Op>, n: nat, pair: (string, string))
    requires n < |ops| && TrustsAt(c, ops, n, pair)
    ensures ShowsPairing(c, ops, n, n + 1, pair)
  {
    RecordStep(c, ops, n, pair);
  }

  lemma StillPaired(c: Config, ops: seq<Op>, i: nat, n: nat, pair: (string, string))
    requires i < n < |ops| && ShowsPairing(c, ops, i, n, pair) && !TrustsAt(c, ops, n, pair)
    ensures ShowsPairing(c, ops, i, n + 1, pair)
  {
    RecordStep(c, ops, n, pair);
  }

  lemma StillUnpaired(c: Config, ops: seq<Op>, n: nat, pair: (string, string))
    requires n < |ops| && NeverPaired(c, ops, n, pair) && !TrustsAt(c, ops, n, pair)
    ensures NeverPaired(c, ops, n + 1, pair)
  {
    RecordStep(c, ops, n, pair);
  }

  /**
   A pair without a record was never paired; a record holds the key and the session of the
   last pairing, and is ACTIVE exactly if no revocation has named the pair since.
   */
  lemma {:induction false} TrustIsLastPairing(c: Config, ops: seq<Op>, n: nat, pair: (string, string)) returns (i: nat)
    requires n <= |ops|
    ensures NeverPaired(c, ops, n, pair) || (i < n && ShowsPairing(c, ops, i, n, pair))
  {
    i := 0;
    if n > 0 {
      i := TrustIsLastPairing(c, ops, n - 1, pair);
      if TrustsAt(c, ops, n - 1, pair) {
        i := n - 1;
        NowPaired(c, ops, i, pair);
      } else if NeverPaired(c, ops, n - 1, pair) {
        StillUnpaired(c, ops, n - 1, pair);
      } else {
        StillPaired(c, ops, i, n - 1, pair);
      }
    }
  }

  ghost predicate StandsTrusted(c: Config, ops: seq<Op>, i: nat, n: nat, pair: (string, string))
    requires i < n <= |ops|
  {
    TrustsAt(c, ops, i, pair) && forall m | i < m < n :: !NamesPair(ops[m], pair)
  }

  /** A pair is ACTIVE exactly if some operation paired it with a well-formed child and none since has revoked it. */
  lemma ActiveIsHistory(c: Config, ops: seq<Op>, n: nat, pair: (string, string))
    requires n <= |ops|
    ensures pair in At(c, ops, n).trust && At(c, ops, n).trust[pair].status.Active?
       <==> exists i: nat | i < n :: StandsTrusted(c, ops, i, n, pair)
  {
    var last := TrustIsLastPairing(c, ops, n, pair);
    if !NeverPaired(c, ops, n, pair) {
      if At(c, ops, n).trust[pair].status.Active? {
        assert StandsTrusted(c, ops, last, n, pair);
      }
      if i: nat :| i < n && StandsTrusted(c, ops, i, n, pair) {
        assert i <= last;
      }
    }
  }

  // ---------------------------------------------------------------------------------------
  // Resends

  /** The session may be sent a new code: it is live and awaits one, and the cooldown is over. */
  predicate MayResend(c: Config, s: State, sid: string, now: int) {
    && sid in s.sessions
    && now < s.sessions[sid].expiresAt
    && s.sessions[sid].state in {Created, VerificationPending}
    && s.sessions[sid].lastResendAt + c.cooldown <= now
  }

  ghost predicate ResentAt(c: Config, ops: seq<Op>, i: nat, sid: string)
    requires i < |ops|
  {
    ops[i].Resend? && ops[i].sid == sid && Apply(c, At(c, ops, i), ops[i]).1.Done?
  }

  ghost predicate CreatedAt(c: Config, ops: seq<Op>, i: nat, sid: string)
    requires i < |ops|
  {
    ops[i].Create? && ops[i].sid == sid && sid !in At(c, ops, i).sessions && sid in At(c, ops, i + 1).sessions
  }

  /** Operation i sent the session a code. */
  ghost predicate SentAt(c: Config, ops: seq<Op>, i: nat, sid: string)
    requires i < |ops|
  {
    CreatedAt(c, ops, i, sid) || ResentAt(c, ops, i, sid)
  }

  ghost function ResendCount(c: Config, ops: seq<Op>, n: nat, sid: string): nat
    requires n <= |ops|
  {
    if n == 0 then 0 else ResendCount(c, ops, n - 1, sid) + if ResentAt(c, ops, n - 1, sid) then 1 else 0
  }

  /** A resend is done exactly under those conditions; it then counts, restarts the cooldown and renews the code. */
  lemma ResendAnswers(c: Config, s: State, op: Op, sid: string)
    requires op.Resend? && op.sid == sid
    ensures var (t, outcome) := Apply(c, s, op);
            && (outcome.Done? <==> op.delivered && MayResend(c, s, sid, op.now))
            && (outcome.DeliveryFailed? <==> !op.delivered && MayResend(c, s, sid, op.now))
            && (outcome.NotFound? <==> sid !in s.sessions)
            && outcome in {Done, DeliveryFailed, NotFound, SessionExpired, WrongState, RateLimited}
            && (outcome.SessionExpired? ==> t == Put(s, sid, s.sessions[sid].(state := PairingState.Expired)))
            && (outcome.Done? ==> t == Put(s, sid, s.sessions[sid].(
                  code := Some(op.code), codeExpiresAt := op.now + c.codeLifetime, state := VerificationPending,
                  resends := s.sessions[sid].resends + 1, lastResendAt := op.now)))
            && (!outcome.Done? && !outcome.SessionExpired? ==> t == s)
    ensures sid in s.sessions ==>
              var outcome, session := Apply(c, s, op).1, s.sessions[sid];
              && (outcome.RateLimited? <==> && op.now < session.expiresAt && session.state in {Created, VerificationPending}
                                            && op.now < session.lastResendAt + c.cooldown)
              && (outcome.SessionExpired? <==>
                    && session.expiresAt <= op.now
                    && session.state in {Created, VerificationPending, Verified, ChildAuthorizationPending, Authorized,
                                         PairingState.Expired})
  {
  }

  lemma ResendStep(c: Config, s: State, op: Op, sid: string)
    requires sid in s.sessions
    ensures var (t, outcome) := Apply(c, s, op);
            && sid in t.sessions
            && if op.Resend? && op.sid == sid && outcome.Done?
               then && t.sessions[sid].resends == s.sessions[sid].resends + 1
                    && t.sessions[sid].lastResendAt == op.now
                    && s.sessions[sid].lastResendAt + c.cooldown <= op.now
               else && t.sessions[sid].resends == s.sessions[sid].resends
                    && t.sessions[sid].lastResendAt == s.sessions[sid].lastResendAt
  {
  }

  lemma UnknownBefore(c: Config, ops: seq<Op>, n: nat, sid: string)
    requires n < |ops| && sid !in At(c, ops, n + 1).sessions
    ensures sid !in At(c, ops, n).sessions && !SentAt(c, ops, n, sid) && !MissesAt(c, ops, n, sid)
  {
    assert At(c, ops, n + 1) == Apply(c, At(c, ops, n), ops[n]).0;
    if ops[n].Resend? && ops[n].sid == sid {
      ResendAnswers(c, At(c, ops, n), ops[n], sid);
    }
  }

  lemma {:induction false} UnknownSentNothing(c: Config, ops: seq<Op>, n: nat, sid: string)
    requires n <= |ops| && sid !in At(c, ops, n).sessions
    ensures forall i | 0 <= i < n :: !SentAt(c, ops, i, sid)
    ensures ResendCount(c, ops, n, sid) == 0 && MissCount(c, ops, n, sid) == 0
    decreases n
  {
    if n > 0 {
      UnknownBefore(c, ops, n - 1, sid);
      UnknownSentNothing(c, ops, n - 1, sid);
    }
  }

  lemma NewSession(c: Config, ops: seq<Op>, n: nat, sid: string)
    requires n < |ops| && sid !in At(c, ops, n).sessions && sid in At(c, ops, n + 1).sessions
    ensures CreatedAt(c, ops, n, sid) && !ResentAt(c, ops, n, sid)
    ensures At(c, ops, n + 1).sessions[sid].resends == 0
    ensures At(c, ops, n + 1).sessions[sid].lastResendAt == ops[n].now
    ensures At(c, ops, n + 1).sessions[sid].createdAt == ops[n].now
  {
    SessionAppears(c, At(c, ops, n), ops[n], sid);
  }

  /** A session's counter is the number of its resends, and its last one the clock of the last code sent. */
  lemma {:induction false} ResendsAreCounted(c: Config, ops: seq<Op>, n: nat, sid: string) returns (i: nat)
    requires n <= |ops| && sid in At(c, ops, n).sessions
    ensures At(c, ops, n).sessions[sid].resends == ResendCount(c, ops, n, sid)
    ensures i < n && SentAt(c, ops, i, sid) && ops[i].now == At(c, ops, n).sessions[sid].lastResendAt
    ensures forall k | i < k < n :: !SentAt(c, ops, k, sid)
  {
    if sid in At(c, ops, n - 1).sessions {
      i := ResendsAreCounted(c, ops, n - 1, sid);
      ResendStep(c, At(c, ops, n - 1), ops[n - 1], sid);
      if ResentAt(c, ops, n - 1, sid) {
        i := n - 1;
      }
    } else {
      UnknownSentNothing(c, ops, n - 1, sid);
      NewSession(c, ops, n - 1, sid);
      i := n - 1;
    }
  }

  lemma ResendFindsSession(c: Config, ops: seq<Op>, i: nat, sid: string)
    requires i < |ops| && ResentAt(c, ops, i, sid)
    ensures sid in At(c, ops, i).sessions
    ensures At(c, ops, i).sessions[sid].lastResendAt + c.cooldown <= ops[i].now
  {
    ResendAnswers(c, At(c, ops, i), ops[i], sid);
  }

  /** Two codes sent to one session, at its creation or later, are at least a cooldown apart, for any clock. */
  lemma {:induction false} CodesAreApart(c: Config, ops: seq<Op>, i: nat, j: nat, sid: string)
    requires i < j < |ops|
    requires SentAt(c, ops, i, sid) && ResentAt(c, ops, j, sid)
    ensures ops[i].now + c.cooldown <= ops[j].now
    decreases j
  {
    ResendFindsSession(c, ops, j, sid);
    var k := ResendsAreCounted(c, ops, j, sid);
    assert i <= k;
    if i < k {
      if CreatedAt(c, ops, k, sid) {
        KnownStays(c, ops, i, k, sid);
      }
      CodesAreApart(c, ops, i, k, sid);
    }
  }

  lemma KnownStays(c: Config, ops: seq<Op>, i: nat, k: nat, sid: string)
    requires i < k < |ops| && SentAt(c, ops, i, sid)
    ensures sid in At(c, ops, k).sessions
  {
    if ResentAt(c, ops, i, sid) {
      ResendFindsSession(c, ops, i, sid);
      SessionStays(c, ops, i, k, sid);
    } else {
      SessionStays(c, ops, i + 1, k, sid);
    }
  }

  /** The resends of one session, each a cooldown apart, all fit into its lifetime. */
  lemma ResendsAreFew(c: Config, ops: seq<Op>, n: nat, sid: string)
    requires n <= |ops| && sid in At(c, ops, n).sessions
    ensures c.sessionLifetime > 0 ==> ResendCount(c, ops, n, sid) * c.cooldown < c.sessionLifetime
  {
    var i := ResendsAreCounted(c, ops, n, sid);
    ResendRate(c, ops, n, sid);
  }

  // ---------------------------------------------------------------------------------------
  // Identities and decisions

  /** An identity is GM-P- or GM-C- and eight upper-case hexadecimal digits. */
  lemma IdentityFormat(id: string)
    ensures IsParent(id) <==> |id| == 13 && id[..5] == "GM-P-" && forall k | 5 <= k < 13 :: id[k] in "0123456789ABCDEF"
    ensures IsChild(id) <==> |id| == 13 && id[..5] == "GM-C-" && forall k | 5 <= k < 13 :: id[k] in "0123456789ABCDEF"
    ensures ValidIdentity(id) <==> IsParent(id) || IsChild(id)
  {
    forall ch: char
      ensures IsHex(ch) <==> ch in "0123456789ABCDEF"
    {
      HexDigits(ch);
    }
    if |id| == 13 {
      assert id[..5] == id[..3] + [id[3]] + [id[4]];
      assert id[..3] == id[..5][..3] && id[3] == id[..5][3] && id[4] == id[..5][4];
      assert "GM-P-" == "GM-" + ['P'] + ['-'] && "GM-C-" == "GM-" + ['C'] + ['-'];
    }
  }

  lemma HexDigits(ch: char)
    ensures IsHex(ch) <==> ch in "0123456789ABCDEF"
  {
    var digits := "0123456789ABCDEF";
    if '0' <= ch <= '9' {
      assert digits[ch as int - '0' as int] == ch;
    } else if 'A' <= ch <= 'F' {
      assert digits[ch as int - 'A' as int + 10] == ch;
    }
  }

  /** A decision approves exactly if it is the word APPROVE in any mixture of cases. */
  lemma ApprovalWords(d: Decision)
    ensures IsApproved(d) <==> |d.decision| == 7 && forall k | 0 <= k < 7 ::
                                 d.decision[k] == "APPROVE"[k] || d.decision[k] == "approve"[k]
  {
    var up := Upper(d.decision);
    if |d.decision| == 7 {
      assert forall k | 0 <= k < 7 :: "APPROVE"[k] == "approve"[k] - 'a' + 'A';
      forall k | 0 <= k < 7
        ensures up[k] == "APPROVE"[k] <==> d.decision[k] == "APPROVE"[k] || d.decision[k] == "approve"[k]
      {
      }
      if forall k | 0 <= k < 7 :: up[k] == "APPROVE"[k] {
        assert up == "APPROVE";
      }
    }
  }

  // ---------------------------------------------------------------------------------------
  // Creation

  predicate MayCreate(s: State, sid: string, parent: string, target: Option<string>) {
    && IsParent(parent) && sid !in s.sessions
    && (target.None? || target.value == "" || IsChild(target.value))
  }

  /** A session is created exactly for a parent, a child if any, and a new id; undelivered, it is created CANCELLED. */
  lemma CreateAnswers(c: Config, s: State, sid: string, parent: string, target: Option<string>, code: int,
                      delivered: bool, now: int)
    ensures var (t, outcome) := Apply(c, s, Create(sid, parent, target, code, delivered, now));
            && (outcome.Done? <==> MayCreate(s, sid, parent, target) && delivered)
            && (outcome.DeliveryFailed? <==> MayCreate(s, sid, parent, target) && !delivered)
            && (outcome.Conflict? || outcome.InvalidInput? <==> !MayCreate(s, sid, parent, target))
            && (outcome.Conflict? ==> sid in s.sessions)
            && if MayCreate(s, sid, parent, target)
               then t == Put(s, sid, Session(parent, target, if delivered then VerificationPending else Cancelled, now,
                                             now + c.sessionLifetime, 0, c.maxAttempts, 0, now, Some(code), now + c.codeLifetime))
               else t == s
  {
  }

  lemma OriginStays(c: Config, s: State, op: Op, sid: string)
    requires sid in s.sessions
    ensures var t := Apply(c, s, op).0;
            && sid in t.sessions
            && t.sessions[sid].parent == s.sessions[sid].parent && t.sessions[sid].createdAt == s.sessions[sid].createdAt
            && t.sessions[sid].expiresAt == s.sessions[sid].expiresAt
            && t.sessions[sid].maxAttempts == s.sessions[sid].maxAttempts
  {
  }

  /** A session keeps the parent, the start and the end it was created with. */
  lemma {:induction false} SessionKeepsOrigin(c: Config, ops: seq<Op>, n: nat, sid: string) returns (i: nat)
    requires n <= |ops| && sid in At(c, ops, n).sessions
    ensures i < n && CreatedAt(c, ops, i, sid)
    ensures var session := At(c, ops, n).sessions[sid];
            && session.parent == ops[i].parent && IsParent(session.parent) && session.createdAt == ops[i].now
            && session.expiresAt == ops[i].now + c.sessionLifetime && session.maxAttempts == c.maxAttempts
  {
    if sid in At(c, ops, n - 1).sessions {
      i := SessionKeepsOrigin(c, ops, n - 1, sid);
      OriginStays(c, At(c, ops, n - 1), ops[n - 1], sid);
    } else {
      i := n - 1;
      NewSession(c, ops, n - 1, sid);
      SessionAppears(c, At(c, ops, n - 1), ops[n - 1], sid);
    }
  }

  // ---------------------------------------------------------------------------------------
  // Verification

  /** The session is live and its code can still be tried. */
  predicate AwaitsCode(session: Session, now: int) {
    now < session.expiresAt && session.state.VerificationPending? && session.attempts < session.maxAttempts
  }

  /** The call costs the session an attempt: its code has expired, or another one was entered. */
  predicate Misses(session: Session, op: Op)
    requires op.Verify?
  {
    AwaitsCode(session, op.now)
    && (session.codeExpiresAt <= op.now || (op.entered.Some? && op.entered != session.code))
  }

  lemma UnknownSession(c: Config, s: State, sid: string, entered: Option<int>, now: int)
    requires sid !in s.sessions
    ensures Apply(c, s, Verify(sid, entered, now)) == (s, NotFound)
  {
  }

  /** What entering a code answers. */
  lemma VerifyAnswers(c: Config, s: State, sid: string, entered: Option<int>, now: int)
    requires sid in s.sessions
    ensures var op := Verify(sid, entered, now);
            var outcome, before := Apply(c, s, op).1, s.sessions[sid];
            && (outcome.SessionExpired? <==> before.expiresAt <= now)
            && (outcome.WrongState? <==> now < before.expiresAt && !before.state.VerificationPending?)
            && (outcome.CodeExpired? <==> AwaitsCode(before, now) && before.codeExpiresAt <= now)
            && (outcome.InvalidInput? <==> AwaitsCode(before, now) && now < before.codeExpiresAt && entered.None?)
            && (outcome.WrongCode? || (outcome.AttemptsExceeded? && before.attempts < before.maxAttempts) <==>
                  Misses(before, op) && now < before.codeExpiresAt)
            && (outcome.WrongCode? ==> before.attempts + 1 < before.maxAttempts)
            && (outcome.AttemptsExceeded? ==> before.maxAttempts <= before.attempts + 1)
            && (outcome.Done? <==> AwaitsCode(before, now) && now < before.codeExpiresAt
                                   && entered.Some? && entered == before.code)
  {
  }

  /** What entering a code leaves behind: a miss costs an attempt, a match the code; nothing else changes but the state. */
  lemma VerifyLeaves(c: Config, s: State, sid: string, entered: Option<int>, now: int)
    requires sid in s.sessions
    ensures var op := Verify(sid, entered, now);
            var (t, outcome) := Apply(c, s, op);
            var before := s.sessions[sid];
            t == Put(s, sid, before.(
              attempts := before.attempts + (if Misses(before, op) then 1 else 0),
              code := if outcome.Done? then None else before.code,
              state := if outcome.Done? then ChildAuthorizationPending
                       else if outcome.SessionExpired? || outcome.AttemptsExceeded? then PairingState.Expired
                       else before.state))
  {
    assert s.sessions[sid := s.sessions[sid]] == s.sessions;
  }

  ghost predicate MissesAt(c: Config, ops: seq<Op>, i: nat, sid: string)
    requires i < |ops|
  {
    ops[i].Verify? && ops[i].sid == sid && sid in At(c, ops, i).sessions && Misses(At(c, ops, i).sessions[sid], ops[i])
  }

  ghost function MissCount(c: Config, ops: seq<Op>, n: nat, sid: string): nat
    requires n <= |ops|
  {
    if n == 0 then 0 else MissCount(c, ops, n - 1, sid) + if MissesAt(c, ops, n - 1, sid) then 1 else 0
  }

  lemma AttemptStep(c: Config, s: State, op: Op, sid: string)
    requires sid in s.sessions
    ensures sid in Apply(c, s, op).0.sessions
    ensures Apply(c, s, op).0.sessions[sid].attempts
         == s.sessions[sid].attempts + if op.Verify? && op.sid == sid && Misses(s.sessions[sid], op) then 1 else 0
  {
  }

  /** A session's attempts are its misses, however often its code is resent. */
  lemma {:induction false} AttemptsAreMisses(c: Config, ops: seq<Op>, n: nat, sid: string)
    requires n <= |ops| && sid in At(c, ops, n).sessions
    ensures At(c, ops, n).sessions[sid].attempts == MissCount(c, ops, n, sid)
  {
    if sid in At(c, ops, n - 1).sessions {
      AttemptsAreMisses(c, ops, n - 1, sid);
      AttemptStep(c, At(c, ops, n - 1), ops[n - 1], sid);
    } else {
      UnknownSentNothing(c, ops, n - 1, sid);
      SessionAppears(c, At(c, ops, n - 1), ops[n - 1], sid);
    }
  }

  // ---------------------------------------------------------------------------------------
  // Authorization

  predicate AwaitsChild(s: State, sid: string, now: int) {
    sid in s.sessions && now < s.sessions[sid].expiresAt && s.sessions[sid].state.ChildAuthorizationPending?
  }

  /** A challenge is issued exactly to a session that awaits its child, for a well-formed child and a new nonce. */
  lemma ChallengeAnswers(c: Config, s: State, sid: string, child: string, nonce: string, now: int)
    ensures var (t, outcome) := Apply(c, s, Challenge(sid, child, nonce, now));
            && (outcome.Done? <==> AwaitsChild(s, sid, now) && ValidIdentity(child) && nonce !in s.nonces)
            && (outcome.NotFound? <==> sid !in s.sessions)
            && (outcome.SessionExpired? <==> sid in s.sessions && s.sessions[sid].expiresAt <= now)
            && (outcome.WrongState? <==> sid in s.sessions && now < s.sessions[sid].expiresAt && !AwaitsChild(s, sid, now))
            && (outcome.InvalidInput? <==> AwaitsChild(s, sid, now) && !ValidIdentity(child))
            && (outcome.Conflict? <==> AwaitsChild(s, sid, now) && ValidIdentity(child) && nonce in s.nonces)
            && (outcome.Done? ==> t == Put(s, sid, s.sessions[sid].(child := Some(child))).(
                                         nonces := s.nonces[nonce := Nonce(sid, child, now + c.nonceLifetime, false)]))
            && (outcome.SessionExpired? ==> t == Put(s, sid, s.sessions[sid].(state := PairingState.Expired)))
            && (!outcome.Done? && !outcome.SessionExpired? ==> t == s)
  {
  }

  /** The submission consumes its nonce: issued for the waiting session, unused and in time. */
  predicate Consumes(s: State, sid: string, d: Decision, now: int) {
    && AwaitsChild(s, sid, now)
    && d.nonce in s.nonces && s.nonces[d.nonce].session == sid
    && !s.nonces[d.nonce].used && now < s.nonces[d.nonce].expiresAt
  }

  /** The key signed the decision as it stands. */
  predicate IsSigned(d: Decision) {
    && d.publicKey.Some? && d.signature.signer == d.publicKey.value
    && d.signature.payload == "GM-AUTH-V1:" + d.sessionId + ":" + d.parentId + ":" + d.childId + ":" + d.nonce + ":" + d.decision
  }

  /** What a submission answers. */
  lemma SubmitAnswers(c: Config, s: State, sid: string, d: Decision, now: int)
    ensures var outcome := Apply(c, s, Submit(sid, d, now)).1;
            && (outcome.NotFound? <==> sid !in s.sessions)
            && (outcome.SessionExpired? <==> sid in s.sessions && s.sessions[sid].expiresAt <= now)
            && (outcome.WrongState? <==> sid in s.sessions && now < s.sessions[sid].expiresAt && !AwaitsChild(s, sid, now))
            && (outcome.ReplayedNonce? <==> AwaitsChild(s, sid, now) && d.nonce in s.nonces
                                            && s.nonces[d.nonce].session == sid && s.nonces[d.nonce].used)
            && (outcome.InvalidNonce? || outcome.ReplayedNonce? <==> AwaitsChild(s, sid, now) && !Consumes(s, sid, d, now))
            && (outcome.BadSignature? <==> Consumes(s, sid, d, now) && !IsSigned(d))
            && (outcome.DeniedByChild? <==> Consumes(s, sid, d, now) && IsSigned(d) && !IsApproved(d))
            && (outcome.InvalidRemoteIdentity? <==>
                  Consumes(s, sid, d, now) && IsSigned(d) && IsApproved(d) && !ValidIdentity(d.childId))
            && (outcome.Done? <==> Consumes(s, sid, d, now) && IsSigned(d) && IsApproved(d) && ValidIdentity(d.childId))
  {
  }

  /**
   What a submission leaves behind: a consumed nonce is used; a signed decision ends the
   session, DENIED or PAIRED as the child decides, with the child that decided.
   */
  lemma SubmitLeaves(c: Config, s: State, sid: string, d: Decision, now: int)
    requires sid in s.sessions
    ensures var (t, outcome) := Apply(c, s, Submit(sid, d, now));
            var decided := Consumes(s, sid, d, now) && IsSigned(d);
            && t.sessions == s.sessions[sid := s.sessions[sid].(
                 child := if decided then Some(d.childId) else s.sessions[sid].child,
                 state := if s.sessions[sid].expiresAt <= now then PairingState.Expired
                          else if decided then if IsApproved(d) then Paired else Denied
                          else s.sessions[sid].state)]
            && t.nonces == (if Consumes(s, sid, d, now) then s.nonces[d.nonce := s.nonces[d.nonce].(used := true)]
                            else s.nonces)
            && (!outcome.Done? ==> t.trust == s.trust)
  {
    assert s.sessions[sid := s.sessions[sid]] == s.sessions;
  }

  /** A session is cancelled exactly if it is known and in none of the four states that end one for good. */
  lemma CancelAnswers(c: Config, s: State, sid: string)
    ensures var (t, outcome) := Apply(c, s, Cancel(sid));
            && (outcome.NotFound? <==> sid !in s.sessions)
            && (outcome.Done? <==> sid in s.sessions
                                   && s.sessions[sid].state !in {Denied, PairingState.Expired, Cancelled, PairingState.Revoked})
            && (outcome.Done? || outcome.NotFound? || outcome.AlreadyOver?)
            && t == if outcome.Done? then Put(s, sid, s.sessions[sid].(state := Cancelled)) else s
  {
  }

  // ---------------------------------------------------------------------------------------
  // The transition table

  /** The way of a pairing that succeeds. */
  const WAY: seq<PairingState> :=
    [Created, VerificationPending, Verified, ChildAuthorizationPending, Authorized, TrustEstablished, Paired]

  /**
   The table allows staying, the next stage of a pairing, cancelling and expiring up to the
   child's approval, the child's denial, and revoking what was trusted; nothing else.
   */
  lemma TransitionsAre(current: PairingState, target: PairingState)
    ensures ValidTransition(current, target) <==>
              || current == target
              || (exists k | 0 <= k < 6 :: current == WAY[k] && target == WAY[k + 1])
              || (current in WAY[..5] && target in {Cancelled, PairingState.Expired})
              || (current == ChildAuthorizationPending && target == Denied)
              || (current in {TrustEstablished, Paired} && target == PairingState.Revoked)
  {
    assert WAY[0] == Created && WAY[1] == VerificationPending && WAY[2] == Verified;
    assert WAY[3] == ChildAuthorizationPending && WAY[4] == Authorized && WAY[5] == TrustEstablished && WAY[6] == Paired;
    assert WAY[..5] == [Created, VerificationPending, Verified, ChildAuthorizationPending, Authorized];
  }
}
