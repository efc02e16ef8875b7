/** The visible indicator, running pipelines and the consents behind them, over every run. */
module CaptureIndicator {
  import opened Common
  import opened ConsentModel
  import opened ConsentLaws
  import opened ConsentExpiry

  // ---------------------------------------------------------------------------------------
  // The visible indicator

  /** Every running pipeline is shown by the indicator. */
  ghost predicate Visible(s: State) {
    forall aegis | aegis in s.pipelines :: s.indicator == Some(aegis)
  }

  /** The call stops a session while another one has a running pipeline. */
  ghost predicate StopsBeside(s: State, op: Op) {
    (op.Stop? || op.Expire?) && op.aegis in s.sessions && !(s.pipelines <= {op.aegis})
  }

  /** A call hides a running pipeline exactly if it stops a session beside it. */
  lemma StopKeepsVisibleExactly(c: Config, s: State, op: Op)
    requires Visible(s)
    ensures Visible(Apply(c, s, op).0) <==> !StopsBeside(s, op)
  {
    if (op.Stop? || op.Expire?) && op.aegis in s.sessions {
      assert Apply(c, s, op).0.pipelines == s.pipelines - {op.aegis};
    }
  }

  ghost predicate VisibleAt(c: Config, ops: seq<Op>, n: nat)
    requires n <= |ops|
  {
    Visible(At(c, ops, n))
  }

  ghost predicate StopsBesideAt(c: Config, ops: seq<Op>, n: nat)
    requires n < |ops|
  {
    StopsBeside(At(c, ops, n), ops[n])
  }

  lemma VisibleNext(c: Config, ops: seq<Op>, n: nat)
    requires n < |ops| && VisibleAt(c, ops, n)
    ensures VisibleAt(c, ops, n + 1) <==> !StopsBesideAt(c, ops, n)
  {
    StopKeepsVisibleExactly(c, At(c, ops, n), ops[n]);
  }

  /** In a run every running pipeline is always shown exactly if no call stops a session beside one. */
  lemma {:induction false} CaptureIsVisibleExactly(c: Config, ops: seq<Op>, n: nat)
    requires n <= |ops|
    ensures (forall k | 0 <= k <= n :: VisibleAt(c, ops, k)) <==> (forall k | 0 <= k < n :: !StopsBesideAt(c, ops, k))
  {
    if n > 0 {
      CaptureIsVisibleExactly(c, ops, n - 1);
      if VisibleAt(c, ops, n - 1) {
        VisibleNext(c, ops, n - 1);
      }
    } else {
      assert VisibleAt(c, ops, 0);
    }
  }

  /** The indicator never shows a session that has no running pipeline. */
  lemma {:induction false} IndicatorIsTruthful(c: Config, ops: seq<Op>, n: nat)
    requires n <= |ops|
    ensures At(c, ops, n).indicator.Some? ==> At(c, ops, n).indicator.value in At(c, ops, n).pipelines
  {
    if n > 0 {
      IndicatorIsTruthful(c, ops, n - 1);
    }
  }

  predicate IsCapturing(s: State, aegis: nat) {
    aegis in s.sessions && s.sessions[aegis].state.Capturing?
  }

  /** Every session in the capturing phase is shown by the indicator. */
  ghost predicate Shown(s: State) {
    forall aegis: nat | IsCapturing(s, aegis) :: s.indicator == Some(aegis)
  }

  /** A start that marks its session as capturing: the gate lets it pass and the provider is available. */
  predicate MarksCapturing(c: Config, s: State, op: Op) {
    && op.Start? && op.aegis in s.sessions && !op.provider.Unavailable?
    && Evaluate(c.android, s.gate, s.sessions[op.aegis].screen).Granted?
  }

  /**
   A start that marks a session which the indicator does not show, and then fails: because
   the indicator shows another session, or because the projection does not start.
   */
  predicate IsHiddenStart(c: Config, s: State, op: Op) {
    MarksCapturing(c, s, op) && s.indicator != Some(op.aegis) && (s.indicator.Some? || op.provider.FailsToStart?)
  }

  /** The call stops a session while another one is in the capturing phase. */
  ghost predicate StopsBesideCapture(s: State, op: Op) {
    (op.Stop? || op.Expire?) && op.aegis in s.sessions && exists other: nat | IsCapturing(s, other) :: other != op.aegis
  }

  lemma StopShowsExactly(c: Config, s: State, aegis: nat, final: SessionState)
    requires Shown(s) && aegis in s.sessions && !final.Capturing?
    ensures Shown(ApplyStop(c, s, aegis, final).0) <==> forall other: nat | IsCapturing(s, other) :: other == aegis
  {
    var t := ApplyStop(c, s, aegis, final).0;
    forall other: nat
      ensures IsCapturing(t, other) <==> IsCapturing(s, other) && other != aegis
    {
    }
  }

  /**
   A call leaves a capturing session unshown exactly if it is a start of a session not shown
   that finds the indicator busy or whose projection fails, or a stop beside another capturing
   session.
   */
  lemma StaysShownExactly(c: Config, s: State, op: Op)
    requires Shown(s)
    ensures Shown(Apply(c, s, op).0) <==> !IsHiddenStart(c, s, op) && !StopsBesideCapture(s, op)
  {
    var t := Apply(c, s, op).0;
    if (op.Stop? || op.Expire?) && op.aegis in s.sessions {
      StopShowsExactly(c, s, op.aegis, if op.Stop? then Stopped else SessionExpired);
    } else if IsHiddenStart(c, s, op) {
      assert IsCapturing(t, op.aegis);
    } else {
      forall other: nat | IsCapturing(t, other)
        ensures t.indicator == Some(other)
      {
        assert IsCapturing(s, other) || (op.Start? && other == op.aegis);
      }
    }
  }

  ghost predicate ShownAt(c: Config, ops: seq<Op>, n: nat)
    requires n <= |ops|
  {
    Shown(At(c, ops, n))
  }

  ghost predicate UnshowsAt(c: Config, ops: seq<Op>, n: nat)
    requires n < |ops|
  {
    IsHiddenStart(c, At(c, ops, n), ops[n]) || StopsBesideCapture(At(c, ops, n), ops[n])
  }

  lemma ShownNext(c: Config, ops: seq<Op>, n: nat)
    requires n < |ops| && ShownAt(c, ops, n)
    ensures ShownAt(c, ops, n + 1) <==> !UnshowsAt(c, ops, n)
  {
    StaysShownExactly(c, At(c, ops, n), ops[n]);
  }

  /**
   In a run every capturing session is always shown exactly if no start of a session not shown
   finds the indicator busy or fails to start the projection, and no stop falls beside another
   capturing session.
   */
  lemma {:induction false} CapturingIsShownExactly(c: Config, ops: seq<Op>, n: nat)
    requires n <= |ops|
    ensures (forall k | 0 <= k <= n :: ShownAt(c, ops, k)) <==> (forall k | 0 <= k < n :: !UnshowsAt(c, ops, k))
  {
    if n > 0 {
      CapturingIsShownExactly(c, ops, n - 1);
      if ShownAt(c, ops, n - 1) {
        ShownNext(c, ops, n - 1);
      }
    } else {
      assert ShownAt(c, ops, 0);
    }
  }

  // ---------------------------------------------------------------------------------------
  // The consents behind running pipelines

  ghost predicate Kept(c: Config, s: State) {
    && GateKept(s.gate)
    && (!c.android ==> s.gate.records == map[])
    && (forall aegis | aegis in s.sessions :: aegis < s.nextSession)
    && (forall aegis | aegis in s.pipelines :: aegis in s.sessions)
  }

  lemma SessionsKeptStep(c: Config, s: State, op: Op)
    requires forall aegis | aegis in s.sessions :: aegis < s.nextSession
    requires forall aegis | aegis in s.pipelines :: aegis in s.sessions
    ensures var t := Apply(c, s, op).0;
            && (forall aegis | aegis in t.sessions :: aegis < t.nextSession)
            && (forall aegis | aegis in t.pipelines :: aegis in t.sessions)
  {
  }

  lemma {:induction false} KeptRun(c: Config, ops: seq<Op>, n: nat)
    requires n <= |ops|
    ensures Kept(c, At(c, ops, n))
  {
    LookupNamesLatest(c, ops, n);
    if !c.android {
      NoRecordsOffAndroid(c, ops, n);
    }
    if n > 0 {
      KeptRun(c, ops, n - 1);
      SessionsKeptStep(c, At(c, ops, n - 1), ops[n - 1]);
    }
  }

  /** The session's screen session has a current token that is GRANTED. */
  ghost predicate IsCovered(s: State, aegis: nat) {
    aegis in s.sessions && IsGranted(s, s.sessions[aegis].screen)
  }

  /** Every running pipeline has its consent. */
  ghost predicate Covered(s: State) {
    forall aegis | aegis in s.pipelines :: IsCovered(s, aegis)
  }

  /**
   The call refuses the token of a session, sweeps it after its lifetime, or replaces it by a
   new request for the same screen session; other than by ending that very session.
   */
  ghost predicate TakesConsent(s: State, op: Op, aegis: nat) {
    exists token: nat | LooksUp(s, aegis, token) ::
      || (RefusesToken(s, op, token) && !((op.Stop? || op.Expire?) && op.aegis == aegis))
      || SweepsLate(s, op, token)
      || (op.Request? && LooksUp(s, op.aegis, token))
  }

  lemma ScreensStay(c: Config, s: State, op: Op, aegis: nat)
    requires Kept(c, s) && aegis in s.sessions
    ensures var t := Apply(c, s, op).0;
            aegis in t.sessions && t.sessions[aegis].screen == s.sessions[aegis].screen
  {
  }

  /** What a call does to the current token of a session that has its consent. */
  lemma CoverStep(c: Config, s: State, op: Op, aegis: nat)
    requires Kept(c, s) && IsCovered(s, aegis)
    requires !((op.Stop? || op.Expire?) && op.aegis == aegis)
    ensures IsCovered(Apply(c, s, op).0, aegis) <==> !TakesConsent(s, op, aegis)
  {
    ScreensStay(c, s, op, aegis);
    var screen := s.sessions[aegis].screen;
    var token := s.gate.bySession[screen];
    assert LooksUp(s, aegis, token);
    ConsentStep(c, s, op, token);
    if op.Request? {
      RequestReplaces(c, s, op.aegis, aegis);
    } else {
      LookupStays(c, s, op, screen);
    }
  }

  lemma LookupStays(c: Config, s: State, op: Op, screen: string)
    requires !op.Request?
    ensures Apply(c, s, op).0.gate.bySession == s.gate.bySession
  {
  }

  lemma RequestReplaces(c: Config, s: State, asking: nat, aegis: nat)
    requires Kept(c, s) && IsCovered(s, aegis)
    ensures IsCovered(Apply(c, s, Request(asking)).0, aegis)
       <==> !(asking in s.sessions && s.sessions[asking].screen == s.sessions[aegis].screen)
  {
  }

  lemma PipelinesAfter(c: Config, s: State, op: Op, aegis: nat)
    requires Kept(c, s)
    ensures var t := Apply(c, s, op).0;
            aegis in t.pipelines <==>
            || (aegis in s.pipelines && !((op.Stop? || op.Expire?) && op.aegis == aegis))
            || (op.Start? && op.aegis == aegis && Apply(c, s, op).1.Done?)
  {
  }

  lemma StartedIsCovered(c: Config, s: State, op: Op)
    requires op.Start? && Apply(c, s, op).1.Done?
    ensures IsCovered(Apply(c, s, op).0, op.aegis)
  {
  }

  /** A call leaves a pipeline without its consent exactly if it takes the consent of a session with a pipeline. */
  lemma StaysCoveredExactly(c: Config, s: State, op: Op)
    requires Kept(c, s) && Covered(s)
    ensures Covered(Apply(c, s, op).0) <==> forall aegis | aegis in s.pipelines :: !TakesConsent(s, op, aegis)
  {
    var t := Apply(c, s, op).0;
    forall aegis | aegis in s.pipelines && !((op.Stop? || op.Expire?) && op.aegis == aegis)
      ensures aegis in t.pipelines && (IsCovered(t, aegis) <==> !TakesConsent(s, op, aegis))
    {
      PipelinesAfter(c, s, op, aegis);
      CoverStep(c, s, op, aegis);
    }
    forall aegis | aegis in t.pipelines && aegis !in s.pipelines
      ensures IsCovered(t, aegis)
    {
      PipelinesAfter(c, s, op, aegis);
      StartedIsCovered(c, s, op);
    }
    forall aegis | aegis in s.pipelines && (op.Stop? || op.Expire?) && op.aegis == aegis
      ensures aegis !in t.pipelines && !TakesConsent(s, op, aegis)
    {
      PipelinesAfter(c, s, op, aegis);
    }
  }

  ghost predicate CoveredAt(c: Config, ops: seq<Op>, n: nat)
    requires n <= |ops|
  {
    Covered(At(c, ops, n))
  }

  ghost predicate TakesConsentAt(c: Config, ops: seq<Op>, n: nat)
    requires n < |ops|
  {
    exists aegis | aegis in At(c, ops, n).pipelines :: TakesConsent(At(c, ops, n), ops[n], aegis)
  }

  lemma CoveredNext(c: Config, ops: seq<Op>, n: nat)
    requires n < |ops| && CoveredAt(c, ops, n)
    ensures CoveredAt(c, ops, n + 1) <==> !TakesConsentAt(c, ops, n)
  {
    KeptRun(c, ops, n);
    StaysCoveredExactly(c, At(c, ops, n), ops[n]);
  }

  /**
   In a run every running pipeline always has a granted consent, as documented, exactly if no
   call refuses, sweeps or replaces the token of a session with a running pipeline.
   */
  lemma {:induction false} CaptureIsCoveredExactly(c: Config, ops: seq<Op>, n: nat)
    requires n <= |ops|
    ensures (forall k | 0 <= k <= n :: CoveredAt(c, ops, k)) <==> (forall k | 0 <= k < n :: !TakesConsentAt(c, ops, k))
  {
    if n > 0 {
      CaptureIsCoveredExactly(c, ops, n - 1);
      if CoveredAt(c, ops, n - 1) {
        CoveredNext(c, ops, n - 1);
      }
    } else {
      assert CoveredAt(c, ops, 0);
    }
  }

  // ---------------------------------------------------------------------------------------
  // Runs that fail

  /** The first four calls of the runs below: session 0 has a granted consent. */
  function Granting(): seq<Op> {
    [Create("a", true, 0), Create("b", true, 0), Request(0), GateGrant(0, 0)]
  }

  lemma GrantingRun(c: Config, ops: seq<Op>)
    requires c == Config(true, 5)
    requires |ops| >= 4 && ops[..4] == Granting()
    ensures var s := At(c, ops, 4);
            && s.gate == Gate(map[0 := Record("a", Granted, Some(5))], map["a" := 0], 1)
            && s.sessions == map[0 := Session("a", ConsentRequired, Some(5)), 1 := Session("b", Initialized, Some(5))]
            && s.pipelines == {} && s.indicator.None?
  {
    assert forall k | 0 <= k < 4 :: ops[k] == ops[..4][k];
    AtNext(c, ops, 0);
    AtNext(c, ops, 1);
    AtNext(c, ops, 2);
    AtNext(c, ops, 3);
    assert At(c, ops, 1).sessions == map[0 := Session("a", Initialized, Some(5))];
    assert At(c, ops, 2).sessions
        == map[0 := Session("a", Initialized, Some(5)), 1 := Session("b", Initialized, Some(5))];
    assert At(c, ops, 3).gate == Gate(map[0 := Record("a", Requested, Some(5))], map["a" := 0], 1);
  }

  /** A run that hides a running pipeline: another session, which never captured, is stopped. */
  lemma StopHidesCapture(c: Config, ops: seq<Op>)
    requires c == Config(true, 5)
    requires ops == Granting() + [Start(0, Starts, 0), Stop(1)]
    ensures At(c, ops, 6).pipelines == {0} && At(c, ops, 6).indicator.None? && IsCapturing(At(c, ops, 6), 0)
  {
    GrantingRun(c, ops);
    AtNext(c, ops, 4);
    AtNext(c, ops, 5);
    assert At(c, ops, 5).pipelines == {0};
    assert {0} - {1} == {0};
  }

  /** A run without a stop or a busy indicator, whose capturing session is not shown: the projection failed to start. */
  lemma FailedStartHidesCapture(c: Config, ops: seq<Op>)
    requires c == Config(true, 5)
    requires ops == Granting() + [Start(0, FailsToStart, 0)]
    ensures Apply(c, At(c, ops, 4), ops[4]).1.ProjectionFailed?
    ensures At(c, ops, 4).indicator.None? && At(c, ops, 5).indicator.None? && IsCapturing(At(c, ops, 5), 0)
  {
    GrantingRun(c, ops);
    AtNext(c, ops, 4);
  }

  /** A run whose pipeline outlives its consent: the gate revokes the token in use. */
  lemma RevokedCaptureContinues(c: Config, ops: seq<Op>)
    requires c == Config(true, 5)
    requires ops == Granting() + [Start(0, Starts, 0), GateRevoke(0)]
    ensures At(c, ops, 6).pipelines == {0} && !IsCovered(At(c, ops, 6), 0) && IsCapturing(At(c, ops, 6), 0)
  {
    GrantingRun(c, ops);
    AtNext(c, ops, 4);
    AtNext(c, ops, 5);
    assert At(c, ops, 5).pipelines == {0};
  }

  /** A run in which no stop falls beside a running pipeline, and which ends with a capturing session unshown. */
  lemma BusyStartHidesCapture(c: Config, ops: seq<Op>)
    requires c == Config(true, 5)
    requires ops == Granting() + [Request(1), GateGrant(1, 0), Start(0, Starts, 0), Start(1, Starts, 0), Stop(0)]
    ensures forall k | 0 <= k < |ops| :: !StopsBesideAt(c, ops, k)
    ensures IsCapturing(At(c, ops, 9), 1) && At(c, ops, 9).indicator.None? && At(c, ops, 9).pipelines == {}
  {
    GrantingRun(c, ops);
    AtNext(c, ops, 4);
    AtNext(c, ops, 5);
    BothGranted(c, At(c, ops, 4), At(c, ops, 6));
    AtNext(c, ops, 6);
    AtNext(c, ops, 7);
    AtNext(c, ops, 8);
    OneIsBusy(c, At(c, ops, 6), At(c, ops, 8));
    forall k | 0 <= k < |ops|
      ensures !StopsBesideAt(c, ops, k)
    {
      if ops[k].Stop? {
        assert k == 8;
      }
    }
  }

  lemma BothGranted(c: Config, s: State, t: State)
    requires c == Config(true, 5)
    requires s.gate == Gate(map[0 := Record("a", Granted, Some(5))], map["a" := 0], 1)
    requires s.sessions == map[0 := Session("a", ConsentRequired, Some(5)), 1 := Session("b", Initialized, Some(5))]
    requires t == Apply(c, Apply(c, s, Request(1)).0, GateGrant(1, 0)).0
    ensures t.gate.bySession == map["a" := 0, "b" := 1]
    ensures t.gate.records == map[0 := Record("a", Granted, Some(5)), 1 := Record("b", Granted, Some(5))]
    ensures t.sessions == map[0 := Session("a", ConsentRequired, Some(5)), 1 := Session("b", ConsentRequired, Some(5))]
    ensures t.pipelines == s.pipelines && t.indicator == s.indicator
  {
    var u := Apply(c, s, Request(1)).0;
    assert u.gate.records == map[0 := Record("a", Granted, Some(5)), 1 := Record("b", Requested, Some(5))];
  }

  lemma OneIsBusy(c: Config, s: State, t: State)
    requires c == Config(true, 5)
    requires s.gate.bySession == map["a" := 0, "b" := 1]
    requires s.gate.records == map[0 := Record("a", Granted, Some(5)), 1 := Record("b", Granted, Some(5))]
    requires s.sessions == map[0 := Session("a", ConsentRequired, Some(5)), 1 := Session("b", ConsentRequired, Some(5))]
    requires s.pipelines == {} && s.indicator.None?
    requires t == Apply(c, Apply(c, s, Start(0, Starts, 0)).0, Start(1, Starts, 0)).0
    ensures t.indicator == Some(0) && t.pipelines == {0} && 0 in t.sessions && IsCapturing(t, 1)
  {
    var u := Apply(c, s, Start(0, Starts, 0)).0;
    assert u.indicator == Some(0) && u.pipelines == {0};
  }
}
