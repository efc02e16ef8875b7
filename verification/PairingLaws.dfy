/** What the pairing protocol keeps over every run. */
module PairingLaws {
  import opened Common
  import opened PairingModel

  // ---------------------------------------------------------------------------------------
  // One step, seen by one session, nonce or trust record

  /** Where a session can still go once a code has been accepted. */
  predicate PastCode(st: PairingState) {
    st.ChildAuthorizationPending? || st.Paired? || Dead(st)
  }

  predicate Settled(st: PairingState) {
    st.Paired? || Dead(st)
  }

  /** The states sessions really take. */
  predicate InUse(st: PairingState) {
    st.VerificationPending? || PastCode(st)
  }

  /** What no operation does to a session. */
  ghost predicate Advances(s: State, t: State, sid: string) {
    sid in s.sessions ==>
      sid in t.sessions &&
      var before, after := s.sessions[sid], t.sessions[sid];
      && after.parent == before.parent
      && after.maxAttempts == before.maxAttempts
      && before.attempts <= after.attempts
      && (Dead(before.state) ==> Dead(after.state))
      && (Settled(before.state) ==> Settled(after.state))
      && (PastCode(before.state) ==> PastCode(after.state))
      && (InUse(before.state) ==> InUse(after.state))
  }

  lemma CodeOpsAdvance(c: Config, s: State, op: Op, sid: string)
    ensures op.Create? ==> Advances(s, ApplyCreate(c, s, op).0, sid)
    ensures op.Resend? ==> Advances(s, ApplyResend(c, s, op).0, sid)
    ensures op.Verify? ==> Advances(s, ApplyVerify(s, op).0, sid)
  {
  }

  lemma ChildOpsAdvance(c: Config, s: State, op: Op, sid: string)
    ensures op.Challenge? ==> Advances(s, ApplyChallenge(c, s, op).0, sid)
    ensures op.Submit? ==> Advances(s, ApplySubmit(s, op).0, sid)
  {
  }

  lemma SessionStep(c: Config, s: State, op: Op, sid: string)
    requires sid in s.sessions
    ensures sid in Apply(c, s, op).0.sessions && Advances(s, Apply(c, s, op).0, sid)
  {
    CodeOpsAdvance(c, s, op, sid);
    ChildOpsAdvance(c, s, op, sid);
  }

  lemma SessionAppears(c: Config, s: State, op: Op, sid: string)
    requires sid !in s.sessions && sid in Apply(c, s, op).0.sessions
    ensures op.Create? && op.sid == sid
    ensures var session := Apply(c, s, op).0.sessions[sid];
            && (session.state.VerificationPending? || session.state.Cancelled?)
            && session.attempts == 0 && session.resends == 0 && session.maxAttempts == c.maxAttempts
            && session.lastResendAt == session.createdAt
            && session.expiresAt == session.createdAt + c.sessionLifetime
  {
  }

  lemma {:induction false} SessionStays(c: Config, ops: seq<Op>, i: nat, j: nat, sid: string)
    requires i <= j <= |ops|
    requires sid in At(c, ops, i).sessions
    ensures sid in At(c, ops, j).sessions
    ensures var before, after := At(c, ops, i).sessions[sid], At(c, ops, j).sessions[sid];
            && after.parent == before.parent
            && before.attempts <= after.attempts
            && (Dead(before.state) ==> Dead(after.state))
            && (Settled(before.state) ==> Settled(after.state))
            && (PastCode(before.state) ==> PastCode(after.state))
  {
    if i < j {
      SessionStays(c, ops, i, j - 1, sid);
      SessionStep(c, At(c, ops, j - 1), ops[j - 1], sid);
    }
  }

  /** {DENIED, EXPIRED, CANCELLED, REVOKED}, and that set with PAIRED, are never left. */
  lemma {:induction false} DeadStatesAreClosed(c: Config, ops: seq<Op>, i: nat, j: nat, sid: string)
    requires i <= j <= |ops|
    requires sid in At(c, ops, i).sessions
    ensures sid in At(c, ops, j).sessions
    ensures Dead(At(c, ops, i).sessions[sid].state) ==> Dead(At(c, ops, j).sessions[sid].state)
    ensures Settled(At(c, ops, i).sessions[sid].state) ==> Settled(At(c, ops, j).sessions[sid].state)
  {
    SessionStays(c, ops, i, j, sid);
  }

  // ---------------------------------------------------------------------------------------
  // One verdict a session

  /** Operation i moves the session into `st`. */
  ghost predicate EntersAt(c: Config, ops: seq<Op>, i: nat, sid: string, st: PairingState)
    requires i < |ops|
  {
    && (sid in At(c, ops, i).sessions ==> At(c, ops, i).sessions[sid].state != st)
    && sid in At(c, ops, i + 1).sessions
    && At(c, ops, i + 1).sessions[sid].state == st
  }

  lemma VerdictStep(c: Config, s: State, op: Op, sid: string)
    requires sid in Apply(c, s, op).0.sessions
    requires Apply(c, s, op).0.sessions[sid].state in {Paired, Denied}
    requires sid in s.sessions ==> s.sessions[sid].state != Apply(c, s, op).0.sessions[sid].state
    ensures op.Submit? && op.sid == sid
    ensures sid in s.sessions && s.sessions[sid].state.ChildAuthorizationPending?
  {
  }

  lemma VerdictFromWaiting(c: Config, ops: seq<Op>, i: nat, sid: string, st: PairingState)
    requires i < |ops|
    requires st in {Paired, Denied}
    requires EntersAt(c, ops, i, sid, st)
    ensures sid in At(c, ops, i).sessions && At(c, ops, i).sessions[sid].state.ChildAuthorizationPending?
    ensures Settled(At(c, ops, i + 1).sessions[sid].state)
  {
    assert At(c, ops, i + 1) == Apply(c, At(c, ops, i), ops[i]).0;
    VerdictStep(c, At(c, ops, i), ops[i], sid);
  }

  /** A session reaches PAIRED or DENIED at most once in its life, and not both. */
  lemma {:induction false} OneVerdict(c: Config, ops: seq<Op>, i: nat, j: nat, sid: string,
                                      first: PairingState, second: PairingState)
    requires i <= j < |ops|
    requires first in {Paired, Denied} && second in {Paired, Denied}
    ensures EntersAt(c, ops, i, sid, first) && EntersAt(c, ops, j, sid, second) ==> i == j && first == second
  {
    if EntersAt(c, ops, i, sid, first) && EntersAt(c, ops, j, sid, second) {
      VerdictFromWaiting(c, ops, j, sid, second);
      if i < j {
        NotWaitingAfter(c, ops, i, j, sid, first);
      }
    }
  }

  lemma NotWaitingAfter(c: Config, ops: seq<Op>, i: nat, j: nat, sid: string, state: PairingState)
    requires i < j < |ops|
    requires state in {Paired, Denied} && EntersAt(c, ops, i, sid, state)
    ensures sid in At(c, ops, j).sessions && !At(c, ops, j).sessions[sid].state.ChildAuthorizationPending?
  {
    VerdictFromWaiting(c, ops, i, sid, state);
    SettledStays(c, ops, i + 1, j, sid);
  }

  lemma {:induction false} SettledStays(c: Config, ops: seq<Op>, i: nat, j: nat, sid: string)
    requires i <= j <= |ops|
    requires sid in At(c, ops, i).sessions && Settled(At(c, ops, i).sessions[sid].state)
    ensures sid in At(c, ops, j).sessions && !At(c, ops, j).sessions[sid].state.ChildAuthorizationPending?
  {
    DeadStatesAreClosed(c, ops, i, j, sid);
  }

  // ---------------------------------------------------------------------------------------
  // Nonces

  lemma NonceStep(c: Config, s: State, op: Op, nonce: string)
    requires nonce in s.nonces
    ensures var t := Apply(c, s, op).0;
            nonce in t.nonces &&
            var before, after := s.nonces[nonce], t.nonces[nonce];
            && after == before.(used := after.used)
            && (before.used ==> after.used)
            && (after.used && !before.used ==>
                  && op.Submit? && op.decision.nonce == nonce && op.sid == before.session
                  && op.now < before.expiresAt)
  {
  }

  lemma {:induction false} NonceStays(c: Config, ops: seq<Op>, i: nat, j: nat, nonce: string)
    requires i <= j <= |ops|
    requires nonce in At(c, ops, i).nonces
    ensures nonce in At(c, ops, j).nonces
    ensures At(c, ops, j).nonces[nonce] == At(c, ops, i).nonces[nonce].(used := At(c, ops, j).nonces[nonce].used)
    ensures At(c, ops, i).nonces[nonce].used ==> At(c, ops, j).nonces[nonce].used
  {
    if i < j {
      NonceStays(c, ops, i, j - 1, nonce);
      NonceStep(c, At(c, ops, j - 1), ops[j - 1], nonce);
    }
  }

  ghost predicate ConsumedAt(c: Config, ops: seq<Op>, i: nat, nonce: string)
    requires i < |ops|
  {
    && nonce in At(c, ops, i).nonces && !At(c, ops, i).nonces[nonce].used
    && nonce in At(c, ops, i + 1).nonces && At(c, ops, i + 1).nonces[nonce].used
  }

  /** A nonce is consumed at most once, by a submission for its own session before it expires. */
  lemma NonceConsumedOnce(c: Config, ops: seq<Op>, i: nat, j: nat, nonce: string)
    requires i <= j < |ops|
    requires ConsumedAt(c, ops, i, nonce) && ConsumedAt(c, ops, j, nonce)
    ensures i == j
    ensures var row := At(c, ops, i).nonces[nonce];
            && ops[i].Submit? && ops[i].decision.nonce == nonce
            && ops[i].sid == row.session && ops[i].now < row.expiresAt
  {
    NonceStep(c, At(c, ops, i), ops[i], nonce);
    if i < j {
      NonceStays(c, ops, i + 1, j, nonce);
    }
  }

  // ---------------------------------------------------------------------------------------
  // Safety: where an active trust record comes from

  /** Operation i entered the session's current code, in time and within the attempts. */
  predicate MatchesCode(s: State, op: Op, sid: string) {
    && op.Verify? && op.sid == sid
    && sid in s.sessions
    && s.sessions[sid].state.VerificationPending?
    && op.entered.Some? && s.sessions[sid].code == op.entered
    && op.now < s.sessions[sid].codeExpiresAt && op.now < s.sessions[sid].expiresAt
    && s.sessions[sid].attempts < s.sessions[sid].maxAttempts
  }

  ghost predicate CodeMatchedAt(c: Config, ops: seq<Op>, i: nat, sid: string)
    requires i < |ops|
  {
    MatchesCode(At(c, ops, i), ops[i], sid)
  }

  /** Operation j issued the nonce for the session, which was waiting for its child. */
  ghost predicate NonceIssuedAt(c: Config, ops: seq<Op>, j: nat, sid: string, nonce: string)
    requires j < |ops|
  {
    var s := At(c, ops, j);
    && ops[j].Challenge? && ops[j].sid == sid && ops[j].nonce == nonce
    && nonce !in s.nonces
    && sid in s.sessions && s.sessions[sid].state.ChildAuthorizationPending?
    && ops[j].now < s.sessions[sid].expiresAt
  }

  lemma CodeStep(c: Config, s: State, op: Op, sid: string)
    requires sid in s.sessions ==> InUse(s.sessions[sid].state)
    requires sid in Apply(c, s, op).0.sessions
    requires Apply(c, s, op).0.sessions[sid].state.ChildAuthorizationPending?
    requires sid in s.sessions ==> !s.sessions[sid].state.ChildAuthorizationPending?
    ensures op.Verify? && op.sid == sid && sid in s.sessions
    ensures s.sessions[sid].state.VerificationPending?
    ensures op.entered.Some? && s.sessions[sid].code == op.entered
    ensures op.now < s.sessions[sid].codeExpiresAt && op.now < s.sessions[sid].expiresAt
    ensures s.sessions[sid].attempts < s.sessions[sid].maxAttempts
  {
  }

  lemma {:induction false} StatesInUse(c: Config, ops: seq<Op>, n: nat, sid: string)
    requires n <= |ops|
    requires sid in At(c, ops, n).sessions
    ensures InUse(At(c, ops, n).sessions[sid].state)
  {
    if n > 0 {
      var s := At(c, ops, n - 1);
      if sid in s.sessions {
        StatesInUse(c, ops, n - 1, sid);
        SessionStep(c, s, ops[n - 1], sid);
      } else {
        SessionAppears(c, s, ops[n - 1], sid);
      }
    }
  }

  /** A session that waits for its child has had its code entered. */
  lemma {:induction false} WaitingHadCode(c: Config, ops: seq<Op>, n: nat, sid: string) returns (i: nat)
    requires n <= |ops|
    requires sid in At(c, ops, n).sessions
    requires At(c, ops, n).sessions[sid].state.ChildAuthorizationPending?
    ensures i < n && CodeMatchedAt(c, ops, i, sid)
  {
    var s := At(c, ops, n - 1);
    if sid in s.sessions && s.sessions[sid].state.ChildAuthorizationPending? {
      i := WaitingHadCode(c, ops, n - 1, sid);
    } else {
      if sid in s.sessions {
        StatesInUse(c, ops, n - 1, sid);
      }
      CodeStep(c, s, ops[n - 1], sid);
      i := n - 1;
    }
  }

  lemma NonceAppears(c: Config, s: State, op: Op, nonce: string)
    requires nonce !in s.nonces && nonce in Apply(c, s, op).0.nonces
    ensures op.Challenge? && op.nonce == nonce
    ensures op.sid in s.sessions && s.sessions[op.sid].state.ChildAuthorizationPending?
    ensures op.now < s.sessions[op.sid].expiresAt
    ensures Apply(c, s, op).0.nonces[nonce] == Nonce(op.sid, op.child, op.now + c.nonceLifetime, false)
  {
  }

  /** Every nonce row was issued for its session and still carries what it was issued with. */
  lemma {:induction false} NonceWasIssued(c: Config, ops: seq<Op>, n: nat, nonce: string) returns (j: nat)
    requires n <= |ops|
    requires nonce in At(c, ops, n).nonces
    ensures j < n && NonceIssuedAt(c, ops, j, At(c, ops, n).nonces[nonce].session, nonce)
    ensures At(c, ops, n).nonces[nonce].expiresAt == ops[j].now + c.nonceLifetime
  {
    var s := At(c, ops, n - 1);
    if nonce in s.nonces {
      j := NonceWasIssued(c, ops, n - 1, nonce);
      NonceStep(c, s, ops[n - 1], nonce);
    } else {
      NonceAppears(c, s, ops[n - 1], nonce);
      j := n - 1;
    }
  }

  /** What a step that touches a trust record and leaves it active must be. */
  lemma TrustStep(c: Config, s: State, op: Op, pair: (string, string))
    requires var t := Apply(c, s, op).0;
             && pair in t.trust && t.trust[pair].status.Active?
             && (pair in s.trust ==> s.trust[pair] != t.trust[pair])
    ensures op.Submit?
    ensures var d := op.decision;
            && op.sid in s.sessions && s.sessions[op.sid].state.ChildAuthorizationPending?
            && op.now < s.sessions[op.sid].expiresAt
            && d.nonce in s.nonces && s.nonces[d.nonce].session == op.sid
            && !s.nonces[d.nonce].used && op.now < s.nonces[d.nonce].expiresAt
            && SignatureVerifies(d) && IsApproved(d)
            && pair == (s.sessions[op.sid].parent, d.childId)
            && Apply(c, s, op).0.trust[pair].publicKey == d.publicKey.value
            && Apply(c, s, op).0.trust[pair].session == op.sid
            && Apply(c, s, op).0.nonces[d.nonce].used
  {
  }

  /**
   Pairing safety: whenever operation k leaves a trust record active that was not already
   there unchanged, operation k submits an approving, validly signed decision of the remote
   identity for a live session, consuming a nonce that was unused and in time; that nonce was
   issued for the same session at an earlier operation j; and still earlier, at i, the
   session's current code was entered in time.
   */
  lemma PairingSafety(c: Config, ops: seq<Op>, k: nat, pair: (string, string)) returns (i: nat, j: nat)
    requires k < |ops|
    requires pair in At(c, ops, k + 1).trust && At(c, ops, k + 1).trust[pair].status.Active?
    requires pair in At(c, ops, k).trust ==> At(c, ops, k).trust[pair] != At(c, ops, k + 1).trust[pair]
    ensures ops[k].Submit? && i < j < k
    ensures CodeMatchedAt(c, ops, i, ops[k].sid)
    ensures NonceIssuedAt(c, ops, j, ops[k].sid, ops[k].decision.nonce)
    ensures ops[k].now < ops[j].now + c.nonceLifetime
    ensures ConsumedAt(c, ops, k, ops[k].decision.nonce)
    ensures SignatureVerifies(ops[k].decision) && IsApproved(ops[k].decision)
    ensures ops[k].sid in At(c, ops, k).sessions
    ensures ops[k].now < At(c, ops, k).sessions[ops[k].sid].expiresAt
    ensures pair == (At(c, ops, k).sessions[ops[k].sid].parent, ops[k].decision.childId)
    ensures At(c, ops, k + 1).trust[pair].publicKey == ops[k].decision.publicKey.value
  {
    var s := At(c, ops, k);
    TrustStep(c, s, ops[k], pair);
    j := NonceWasIssued(c, ops, k, ops[k].decision.nonce);
    i := WaitingHadCode(c, ops, j, ops[k].sid);
  }

  // ---------------------------------------------------------------------------------------
  // Counting pairings

  /** Operation i pairs a session of parent `p` with child `ch`. */
  ghost predicate PairsAt(c: Config, ops: seq<Op>, i: nat, pair: (string, string))
    requires i < |ops|
  {
    && ops[i].Submit?
    && EntersAt(c, ops, i, ops[i].sid, Paired)
    && At(c, ops, i + 1).sessions[ops[i].sid].parent == pair.0
    && ops[i].decision.childId == pair.1
  }

  ghost function Pairings(c: Config, ops: seq<Op>, n: nat, pair: (string, string)): nat
    requires n <= |ops|
  {
    if n == 0 then 0 else Pairings(c, ops, n - 1, pair) + if PairsAt(c, ops, n - 1, pair) then 1 else 0
  }

  /** The version of a trust record, 0 when there is none. */
  function Version(s: State, pair: (string, string)): nat {
    if pair in s.trust then s.trust[pair].version else 0
  }

  lemma VersionStep(c: Config, ops: seq<Op>, i: nat, pair: (string, string))
    requires i < |ops|
    ensures Version(At(c, ops, i + 1), pair)
         == Version(At(c, ops, i), pair) + if PairsAt(c, ops, i, pair) && ValidIdentity(pair.1) then 1 else 0
    ensures pair in At(c, ops, i + 1).trust
       <==> pair in At(c, ops, i).trust || (PairsAt(c, ops, i, pair) && ValidIdentity(pair.1))
  {
    var s, op := At(c, ops, i), ops[i];
    assert At(c, ops, i + 1) == Apply(c, s, op).0;
    if op.Submit? && op.sid in s.sessions {
      SessionStep(c, s, op, op.sid);
    }
  }

  ghost predicate VersionCounts(c: Config, ops: seq<Op>, n: nat, pair: (string, string))
    requires n <= |ops|
  {
    && Version(At(c, ops, n), pair) == (if ValidIdentity(pair.1) then Pairings(c, ops, n, pair) else 0)
    && (pair in At(c, ops, n).trust <==> ValidIdentity(pair.1) && Pairings(c, ops, n, pair) > 0)
  }

  lemma VersionNext(c: Config, ops: seq<Op>, n: nat, pair: (string, string))
    requires n < |ops| && VersionCounts(c, ops, n, pair)
    ensures VersionCounts(c, ops, n + 1, pair)
  {
    VersionStep(c, ops, n, pair);
    assert Pairings(c, ops, n + 1, pair) == Pairings(c, ops, n, pair) + if PairsAt(c, ops, n, pair) then 1 else 0;
  }

  lemma {:induction false} VersionCounted(c: Config, ops: seq<Op>, n: nat, pair: (string, string))
    requires n <= |ops|
    ensures VersionCounts(c, ops, n, pair)
  {
    if n > 0 {
      VersionCounted(c, ops, n - 1, pair);
      VersionNext(c, ops, n - 1, pair);
    }
  }

  /**
   A trust record's version is the number of times a session of that parent was paired with
   that child; a malformed child identity can be paired but never gets a record.
   */
  lemma {:induction false} VersionCountsPairings(c: Config, ops: seq<Op>, n: nat, pair: (string, string))
    requires n <= |ops|
    ensures Version(At(c, ops, n), pair) == if ValidIdentity(pair.1) then Pairings(c, ops, n, pair) else 0
    ensures pair in At(c, ops, n).trust <==> ValidIdentity(pair.1) && Pairings(c, ops, n, pair) > 0
  {
    VersionCounted(c, ops, n, pair);
  }

  // ---------------------------------------------------------------------------------------
  // The budget of code comparisons

  /** Operation i gets as far as comparing the entered code. */
  ghost predicate ComparesAt(c: Config, ops: seq<Op>, i: nat, sid: string)
    requires i < |ops|
  {
    var s := At(c, ops, i);
    && ops[i].Verify? && ops[i].sid == sid && ops[i].entered.Some?
    && sid in s.sessions
    && s.sessions[sid].state.VerificationPending?
    && !s.sessions[sid].IsExpired(ops[i].now)
    && s.sessions[sid].attempts < s.sessions[sid].maxAttempts
    && !s.sessions[sid].IsCodeExpired(ops[i].now)
  }

  ghost function Comparisons(c: Config, ops: seq<Op>, n: nat, sid: string): nat
    requires n <= |ops|
  {
    if n == 0 then 0 else Comparisons(c, ops, n - 1, sid) + if ComparesAt(c, ops, n - 1, sid) then 1 else 0
  }

  ghost predicate WithinBudget(c: Config, s: State, comparisons: nat, sid: string) {
    if sid !in s.sessions then comparisons == 0
    else
      var session := s.sessions[sid];
      && session.attempts <= session.maxAttempts == c.maxAttempts
      && comparisons <= session.maxAttempts
      && (session.state.VerificationPending? ==> comparisons <= session.attempts)
      && InUse(session.state)
  }

  lemma OtherOpsSpendNothing(c: Config, s: State, op: Op, sid: string, k: nat)
    requires WithinBudget(c, s, k, sid) && sid in s.sessions
    requires !op.Verify?
    ensures WithinBudget(c, Apply(c, s, op).0, k, sid)
  {
    SessionStep(c, s, op, sid);
  }

  lemma VerifySpends(c: Config, ops: seq<Op>, i: nat, sid: string, k: nat)
    requires i < |ops| && ops[i].Verify?
    requires WithinBudget(c, At(c, ops, i), k, sid) && sid in At(c, ops, i).sessions
    ensures WithinBudget(c, ApplyVerify(At(c, ops, i), ops[i]).0, k + if ComparesAt(c, ops, i, sid) then 1 else 0, sid)
  {
  }

  lemma {:induction false} BudgetStep(c: Config, ops: seq<Op>, i: nat, sid: string, k: nat)
    requires i < |ops|
    requires WithinBudget(c, At(c, ops, i), k, sid)
    ensures WithinBudget(c, At(c, ops, i + 1), k + if ComparesAt(c, ops, i, sid) then 1 else 0, sid)
  {
    var s := At(c, ops, i);
    if sid !in s.sessions {
      if sid in At(c, ops, i + 1).sessions {
        SessionAppears(c, s, ops[i], sid);
      }
    } else if ops[i].Verify? {
      VerifySpends(c, ops, i, sid, k);
    } else {
      OtherOpsSpendNothing(c, s, ops[i], sid, k);
    }
  }

  lemma {:induction false} BudgetKept(c: Config, ops: seq<Op>, n: nat, sid: string)
    requires n <= |ops|
    ensures WithinBudget(c, At(c, ops, n), Comparisons(c, ops, n, sid), sid)
  {
    if n > 0 {
      BudgetKept(c, ops, n - 1, sid);
      BudgetStep(c, ops, n - 1, sid, Comparisons(c, ops, n - 1, sid));
    }
  }

  /** However often codes are resent, a session sees at most max_attempts comparisons. */
  lemma ComparisonBudget(c: Config, ops: seq<Op>, sid: string)
    ensures Comparisons(c, ops, |ops|, sid) <= c.maxAttempts
    ensures sid in At(c, ops, |ops|).sessions ==> At(c, ops, |ops|).sessions[sid].attempts <= c.maxAttempts
  {
    BudgetKept(c, ops, |ops|, sid);
  }

  /** No comparison follows one that succeeded. */
  lemma NoneAfterSuccess(c: Config, ops: seq<Op>, i: nat, j: nat, sid: string)
    requires i < j < |ops|
    requires CodeMatchedAt(c, ops, i, sid)
    ensures !ComparesAt(c, ops, j, sid)
  {
    assert At(c, ops, i + 1) == Apply(c, At(c, ops, i), ops[i]).0;
    SessionStays(c, ops, i + 1, j, sid);
  }

  /** A session without a code is past the code check, where no resend reaches it. */
  ghost predicate CodeSpent(session: Session) {
    InUse(session.state) && (session.code.None? ==> PastCode(session.state))
  }

  lemma CodeSpentStep(c: Config, s: State, op: Op, sid: string)
    requires sid in s.sessions && CodeSpent(s.sessions[sid])
    ensures sid in Apply(c, s, op).0.sessions && CodeSpent(Apply(c, s, op).0.sessions[sid])
    ensures Apply(c, s, op).0.sessions[sid].code.None? <==> s.sessions[sid].code.None? || MatchesCode(s, op, sid)
  {
  }

  ghost predicate SomeCodeMatched(c: Config, ops: seq<Op>, n: nat, sid: string)
    requires n <= |ops|
  {
    exists i: nat | i < n :: CodeMatchedAt(c, ops, i, sid)
  }

  lemma MatchedNext(c: Config, ops: seq<Op>, n: nat, sid: string)
    requires n < |ops|
    ensures SomeCodeMatched(c, ops, n + 1, sid) <==> SomeCodeMatched(c, ops, n, sid) || CodeMatchedAt(c, ops, n, sid)
  {
  }

  lemma {:induction false} UnknownHasNoMatch(c: Config, ops: seq<Op>, n: nat, sid: string)
    requires n <= |ops| && sid !in At(c, ops, n).sessions
    ensures !SomeCodeMatched(c, ops, n, sid)
  {
    forall i: nat | i < n
      ensures !CodeMatchedAt(c, ops, i, sid)
    {
      if sid in At(c, ops, i).sessions {
        SessionStays(c, ops, i, n, sid);
      }
    }
  }

  lemma {:induction false} CodeSpentNext(c: Config, ops: seq<Op>, n: nat, sid: string)
    requires n < |ops| && sid in At(c, ops, n).sessions
    requires CodeSpent(At(c, ops, n).sessions[sid])
    ensures sid in At(c, ops, n + 1).sessions && CodeSpent(At(c, ops, n + 1).sessions[sid])
    ensures At(c, ops, n + 1).sessions[sid].code.None?
       <==> At(c, ops, n).sessions[sid].code.None? || CodeMatchedAt(c, ops, n, sid)
  {
    CodeSpentStep(c, At(c, ops, n), ops[n], sid);
  }

  lemma NewHasCode(c: Config, ops: seq<Op>, n: nat, sid: string)
    requires n < |ops| && sid !in At(c, ops, n).sessions && sid in At(c, ops, n + 1).sessions
    ensures At(c, ops, n + 1).sessions[sid].code.Some? && CodeSpent(At(c, ops, n + 1).sessions[sid])
    ensures !CodeMatchedAt(c, ops, n, sid)
  {
    SessionAppears(c, At(c, ops, n), ops[n], sid);
  }

  /** A session holds no code exactly if one was accepted: a code is gone once accepted, and only then. */
  lemma {:induction false} CodeIsSingleUse(c: Config, ops: seq<Op>, n: nat, sid: string)
    requires n <= |ops|
    requires sid in At(c, ops, n).sessions
    ensures CodeSpent(At(c, ops, n).sessions[sid])
    ensures At(c, ops, n).sessions[sid].code.None? <==> SomeCodeMatched(c, ops, n, sid)
  {
    if n > 0 {
      MatchedNext(c, ops, n - 1, sid);
      if sid in At(c, ops, n - 1).sessions {
        CodeIsSingleUse(c, ops, n - 1, sid);
        CodeSpentNext(c, ops, n - 1, sid);
      } else {
        UnknownHasNoMatch(c, ops, n - 1, sid);
        NewHasCode(c, ops, n - 1, sid);
      }
    }
  }

  /** The verification that takes a session's last attempt, or comes when none is left. */
  predicate RunsOut(s: State, op: Op, sid: string) {
    && op.Verify? && op.sid == sid && sid in s.sessions
    && var session := s.sessions[sid];
       && session.state.VerificationPending? && !session.IsExpired(op.now)
       && (|| session.attempts >= session.maxAttempts
           || (&& !session.IsCodeExpired(op.now) && op.entered.Some? && session.code != op.entered
               && session.attempts + 1 >= session.maxAttempts))
  }

  lemma RunsOutExactly(c: Config, s: State, op: Op, sid: string)
    requires op.Verify? && op.sid == sid
    ensures Apply(c, s, op).1.AttemptsExceeded? <==> RunsOut(s, op, sid)
    ensures RunsOut(s, op, sid) ==> sid in Apply(c, s, op).0.sessions && Apply(c, s, op).0.sessions[sid].state.Expired?
                                    && Apply(c, s, op).0.sessions[sid].code == s.sessions[sid].code
  {
  }

  /** Running out of attempts leaves the code where it was, for good. */
  lemma {:induction false} ExhaustionKeepsCode(c: Config, ops: seq<Op>, i: nat, n: nat, sid: string)
    requires i < n <= |ops| && RunsOut(At(c, ops, i), ops[i], sid)
    ensures sid in At(c, ops, n).sessions && Dead(At(c, ops, n).sessions[sid].state)
    ensures At(c, ops, n).sessions[sid].code.Some?
  {
    if n == i + 1 {
      CodeIsSingleUse(c, ops, i, sid);
      RunsOutExactly(c, At(c, ops, i), ops[i], sid);
    } else {
      ExhaustionKeepsCode(c, ops, i, n - 1, sid);
      CodeIsSingleUse(c, ops, n - 1, sid);
      CodeSpentNext(c, ops, n - 1, sid);
      SessionStep(c, At(c, ops, n - 1), ops[n - 1], sid);
    }
  }

  /** Operation i ends the code check of the session, by a match or by running out of attempts. */
  ghost predicate EndsCodeCheckAt(c: Config, ops: seq<Op>, i: nat, sid: string)
    requires i < |ops|
  {
    CodeMatchedAt(c, ops, i, sid) || RunsOut(At(c, ops, i), ops[i], sid)
  }

  ghost predicate CodeGoneAt(c: Config, ops: seq<Op>, n: nat, sid: string)
    requires n <= |ops|
  {
    sid in At(c, ops, n).sessions && At(c, ops, n).sessions[sid].code.None?
  }

  ghost predicate RunsOutAt(c: Config, ops: seq<Op>, i: nat, sid: string)
    requires i < |ops|
  {
    RunsOut(At(c, ops, i), ops[i], sid)
  }

  /**
   In a run the code is cleared whenever its check ends, by success or by exhaustion as
   documented, exactly if no verification runs out of attempts.
   */
  lemma CodeIsClearedExactly(c: Config, ops: seq<Op>)
    ensures (forall i: nat, sid: string | i < |ops| && EndsCodeCheckAt(c, ops, i, sid) :: CodeGoneAt(c, ops, i + 1, sid))
       <==> (forall i: nat, sid: string | i < |ops| :: !RunsOutAt(c, ops, i, sid))
  {
    if i: nat, sid: string :| i < |ops| && RunsOutAt(c, ops, i, sid) {
      ExhaustionKeepsCode(c, ops, i, i + 1, sid);
      assert EndsCodeCheckAt(c, ops, i, sid) && !CodeGoneAt(c, ops, i + 1, sid);
    } else {
      forall i: nat, sid: string | i < |ops| && EndsCodeCheckAt(c, ops, i, sid)
        ensures CodeGoneAt(c, ops, i + 1, sid)
      {
        assert !RunsOutAt(c, ops, i, sid);
        CodeIsSingleUse(c, ops, i, sid);
        CodeSpentNext(c, ops, i, sid);
      }
    }
  }

  // ---------------------------------------------------------------------------------------
  // The rate of resends

  ghost predicate Paced(c: Config, session: Session) {
    && session.resends * c.cooldown <= session.lastResendAt - session.createdAt
    && session.expiresAt == session.createdAt + c.sessionLifetime
    && (session.lastResendAt == session.createdAt || session.lastResendAt < session.expiresAt)
  }

  /** An operation resends at most once, and then a cooldown after the last time and before the session ends. */
  lemma PaceChanges(c: Config, s: State, op: Op, sid: string)
    requires sid in s.sessions
    ensures sid in Apply(c, s, op).0.sessions
    ensures var before, after := s.sessions[sid], Apply(c, s, op).0.sessions[sid];
            && after.createdAt == before.createdAt && after.expiresAt == before.expiresAt
            && (|| (after.resends == before.resends && after.lastResendAt == before.lastResendAt)
                || (after.resends == before.resends + 1
                    && before.lastResendAt + c.cooldown <= after.lastResendAt < before.expiresAt))
  {
  }

  lemma PacedStep(c: Config, s: State, op: Op, sid: string)
    requires sid in s.sessions && Paced(c, s.sessions[sid])
    ensures sid in Apply(c, s, op).0.sessions && Paced(c, Apply(c, s, op).0.sessions[sid])
  {
    PaceChanges(c, s, op, sid);
    OneMoreResend(c, s.sessions[sid].resends);
  }

  lemma OneMoreResend(c: Config, n: nat)
    ensures (n + 1) * c.cooldown == n * c.cooldown + c.cooldown
  {
  }

  /** Resends are at least a cooldown apart and stop with the session, for any clock. */
  lemma {:induction false} ResendRate(c: Config, ops: seq<Op>, n: nat, sid: string)
    requires n <= |ops|
    requires sid in At(c, ops, n).sessions
    ensures Paced(c, At(c, ops, n).sessions[sid])
    ensures c.sessionLifetime > 0 ==> At(c, ops, n).sessions[sid].resends * c.cooldown < c.sessionLifetime
  {
    if n > 0 {
      if sid in At(c, ops, n - 1).sessions {
        ResendRate(c, ops, n - 1, sid);
        PacedStep(c, At(c, ops, n - 1), ops[n - 1], sid);
      } else {
        SessionAppears(c, At(c, ops, n - 1), ops[n - 1], sid);
      }
    }
  }

  // ---------------------------------------------------------------------------------------
  // Revoking trust

  /** Revoking trust rewrites a finished session exactly when the caller is its parent. */
  lemma RevokeRewritesFinished(c: Config, s: State, local: string, remote: string, sid: string)
    requires (local, remote) in s.trust
    requires sid in s.sessions && Dead(s.sessions[sid].state) && !s.sessions[sid].state.Revoked?
    ensures Apply(c, s, Revoke(local, remote)).0.sessions[sid] != s.sessions[sid]
       <==> s.sessions[sid].parent == local && s.sessions[sid].child == Some(remote)
  {
  }

  // ---------------------------------------------------------------------------------------
  // What a signature covers

  lemma ColonComesNoSooner(a: string, x: string, b: string, y: string)
    requires ':' !in b
    requires a + ":" + x == b + ":" + y
    ensures |b| <= |a|
  {
    assert (a + ":" + x)[|a|] == ':';
    assert forall k | 0 <= k < |b| :: (b + ":" + y)[k] == b[k];
  }

  lemma FirstColonSplits(a: string, x: string, b: string, y: string)
    requires ':' !in a && ':' !in b
    requires a + ":" + x == b + ":" + y
    ensures a == b && x == y
  {
    ColonComesNoSooner(a, x, b, y);
    ColonComesNoSooner(b, y, a, x);
    var s := a + ":" + x;
    assert s[..|a|] == a && s[|a| + 1..] == x;
    var t := b + ":" + y;
    assert t[..|b|] == b && t[|b| + 1..] == y;
  }

  function AfterParent(d: Decision): string {
    d.childId + ":" + (d.nonce + ":" + d.decision)
  }

  function AfterSession(d: Decision): string {
    d.parentId + ":" + AfterParent(d)
  }

  function AfterPrefix(d: Decision): string {
    d.sessionId + ":" + AfterSession(d)
  }

  lemma PayloadSplits(d: Decision)
    ensures Payload(d.sessionId, d.parentId, d.childId, d.nonce, d.decision) == "GM-AUTH-V1" + ":" + AfterPrefix(d)
  {
  }

  /** Fields without a colon are bound by the signed payload: equal payloads, equal fields. */
  lemma PayloadBinds(d: Decision, e: Decision)
    requires ':' !in d.sessionId + d.parentId + d.childId + d.nonce
    requires ':' !in e.sessionId + e.parentId + e.childId + e.nonce
    requires Payload(d.sessionId, d.parentId, d.childId, d.nonce, d.decision)
          == Payload(e.sessionId, e.parentId, e.childId, e.nonce, e.decision)
    ensures d.sessionId == e.sessionId && d.parentId == e.parentId && d.childId == e.childId
    ensures d.nonce == e.nonce && d.decision == e.decision
  {
    PayloadSplits(d);
    PayloadSplits(e);
    FirstColonSplits("GM-AUTH-V1", AfterPrefix(d), "GM-AUTH-V1", AfterPrefix(e));
    FirstColonSplits(d.sessionId, AfterSession(d), e.sessionId, AfterSession(e));
    FirstColonSplits(d.parentId, AfterParent(d), e.parentId, AfterParent(e));
    FirstColonSplits(d.childId, d.nonce + ":" + d.decision, e.childId, e.nonce + ":" + e.decision);
    FirstColonSplits(d.nonce, d.decision, e.nonce, e.decision);
  }
}
