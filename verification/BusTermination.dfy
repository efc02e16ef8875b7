/** Draining the bus ends, whatever the handlers do. */
module BusTermination {
  import opened BusModel
  import opened BusLaws
  import Common
  import StableSort

  lemma HasMember(ids: set<int>)
    requires ids != {}
    ensures exists id :: id in ids
  {
    var id := Common.AnyMember(ids);
    assert id in ids;
  }

  /** The sum over `ids` of the retries each has left. */
  ghost function RetriesLeft(c: Config, retries: map<int, nat>, ids: set<int>): int
    requires ids <= retries.Keys
  {
    if ids == {} then 0
    else
      HasMember(ids);
      var id :| id in ids;
      c.maxRetries - retries[id] + RetriesLeft(c, retries, ids - {id})
  }

  /** The id that RetriesLeft takes out of `ids`. */
  lemma Chosen(c: Config, retries: map<int, nat>, ids: set<int>) returns (id: int)
    requires ids != {} && ids <= retries.Keys
    ensures id in ids
    ensures RetriesLeft(c, retries, ids) == c.maxRetries - retries[id] + RetriesLeft(c, retries, ids - {id})
  {
    HasMember(ids);
    id :| id in ids
      && RetriesLeft(c, retries, ids) == c.maxRetries - retries[id] + RetriesLeft(c, retries, ids - {id});
  }

  lemma {:induction false} TakeOut(c: Config, retries: map<int, nat>, ids: set<int>, id: int)
    requires ids <= retries.Keys && id in ids
    ensures RetriesLeft(c, retries, ids)
         == c.maxRetries - retries[id] + RetriesLeft(c, retries, ids - {id})
  {
    var first := Chosen(c, retries, ids);
    if first != id {
      TakeOut(c, retries, ids - {first}, id);
      TakeOut(c, retries, ids - {id}, first);
      assert ids - {first} - {id} == ids - {id} - {first};
    }
  }

  lemma {:induction false} SameLeft(c: Config, r: map<int, nat>, t: map<int, nat>, ids: set<int>)
    requires ids <= r.Keys && ids <= t.Keys
    requires forall id | id in ids :: r[id] == t[id]
    ensures RetriesLeft(c, r, ids) == RetriesLeft(c, t, ids)
  {
    if ids != {} {
      var id := Common.AnyMember(ids);
      TakeOut(c, r, ids, id);
      TakeOut(c, t, ids, id);
      SameLeft(c, r, t, ids - {id});
    }
  }

  lemma SpendOne(c: Config, r: map<int, nat>, id: int)
    requires id in r
    ensures var t := r[id := r[id] + 1];
            RetriesLeft(c, t, t.Keys) == RetriesLeft(c, r, r.Keys) - 1
  {
    var t := r[id := r[id] + 1];
    assert t.Keys == r.Keys;
    TakeOut(c, r, r.Keys, id);
    TakeOut(c, t, t.Keys, id);
    SameLeft(c, r, t, r.Keys - {id});
  }

  lemma {:induction false} LeftIsNatural(c: Config, r: map<int, nat>, ids: set<int>)
    requires ids <= r.Keys
    requires forall id | id in ids :: r[id] <= c.maxRetries
    ensures RetriesLeft(c, r, ids) >= 0
  {
    if ids != {} {
      var id := Common.AnyMember(ids);
      TakeOut(c, r, ids, id);
      LeftIsNatural(c, r, ids - {id});
    }
  }

  ghost function Measure(c: Config, s: State): int {
    |s.queue| + |s.inFlight| + RetriesLeft(c, s.retries, s.retries.Keys)
  }

  /** Deliveries brought to an end so far. */
  function Ended(s: State): nat {
    |s.delivered| + |s.unhandled|
  }

  ghost predicate Kept(c: Config, s: State) {
    forall id :: Ledger(c, s, id)
  }

  lemma MeasureIsNatural(c: Config, s: State)
    requires Kept(c, s)
    ensures Measure(c, s) >= |s.queue| + |s.inFlight|
  {
    forall id | id in s.retries
      ensures s.retries[id] <= c.maxRetries
    {
      assert Ledger(c, s, id);
    }
    LeftIsNatural(c, s.retries, s.retries.Keys);
  }

  lemma RaiseDoesNotGrow(c: Config, s: State)
    requires ValidConfig(c)
    requires Kept(c, s)
    ensures Measure(c, ApplyHandlerRaises(c, s)) <= Measure(c, s)
  {
    if s.inFlight != [] {
      var e := s.inFlight[0];
      assert Ledger(c, s, e.id);
      InFlightIsKnown(c, s);
      if s.retries[e.id] < c.maxRetries {
        SpendOne(c, s.retries, e.id);
        var t := ApplyHandlerRaises(c, s);
        assert t.retries == s.retries[e.id := s.retries[e.id] + 1];
        assert |t.queue| <= |s.queue| + 1 && t.inFlight == s.inFlight;
      }
    }
  }

  lemma StepKeeps(c: Config, s: State, step: Step)
    requires ValidConfig(c)
    requires Kept(c, s)
    ensures Kept(c, Apply(c, s, step))
  {
    forall id
      ensures Ledger(c, Apply(c, s, step), id)
    {
      assert Ledger(c, s, id);
      assert s.inFlight != [] ==> Ledger(c, s, s.inFlight[0].id);
      LedgerStep(c, s, step, id);
    }
  }

  lemma StepWorksOff(c: Config, s: State, step: Step)
    requires ValidConfig(c)
    requires Kept(c, s)
    requires !step.Publish?
    ensures Ended(Apply(c, s, step)) + Measure(c, Apply(c, s, step)) <= Ended(s) + Measure(c, s)
  {
    match step
    case Snapshot =>
      var sorted := StableSort.Sort(EventKey, s.queue);
      assert ApplySnapshot(s).inFlight == sorted + s.inFlight;
    case HandlerRaises => RaiseDoesNotGrow(c, s);
    case Finish(_) =>
  }

  /**
   Without new publishes every delivery lowers the measure, even if every handler always
   raises: the deliveries still to come number at most the measure.
   */
  lemma {:induction false} DeliveriesAreBounded(c: Config, s: State, steps: seq<Step>)
    requires ValidConfig(c)
    requires Kept(c, s)
    requires forall k | 0 <= k < |steps| :: !steps[k].Publish?
    ensures Kept(c, Run(c, s, steps))
    ensures Ended(Run(c, s, steps)) + Measure(c, Run(c, s, steps)) <= Ended(s) + Measure(c, s)
  {
    if steps != [] {
      var before := steps[..|steps| - 1];
      DeliveriesAreBounded(c, s, before);
      StepKeeps(c, Run(c, s, before), steps[|steps| - 1]);
      StepWorksOff(c, Run(c, s, before), steps[|steps| - 1]);
    }
  }

  // ---------------------------------------------------------------------------------------
  // Whole drains

  lemma RaiseKeepsInFlight(c: Config, s: State)
    requires ValidConfig(c)
    ensures ApplyHandlerRaises(c, s).inFlight == s.inFlight
    ensures Ended(ApplyHandlerRaises(c, s)) == Ended(s)
  {
  }

  lemma {:induction false} RaisesKeepInFlight(c: Config, s: State, verdicts: seq<bool>)
    requires ValidConfig(c)
    ensures var t := Run(c, s, RaiseSteps(verdicts));
            t.inFlight == s.inFlight && Ended(t) == Ended(s)
  {
    if verdicts != [] {
      var before := verdicts[..|verdicts| - 1];
      RaisesKeepInFlight(c, s, before);
      if verdicts[|verdicts| - 1] {
        assert RaiseSteps(verdicts) == RaiseSteps(before);
      } else {
        RunOne(c, s, RaiseSteps(before), HandlerRaises);
        RaiseKeepsInFlight(c, Run(c, s, RaiseSteps(before)));
      }
    }
  }

  lemma DeliveryPops(c: Config, s: State, verdicts: seq<bool>)
    requires ValidConfig(c)
    requires s.inFlight != []
    ensures var t := Run(c, s, DeliverySteps(verdicts));
            t.inFlight == s.inFlight[1..] && Ended(t) == Ended(s) + 1
  {
    RaisesKeepInFlight(c, s, verdicts);
    RunOne(c, s, RaiseSteps(verdicts), Finish(verdicts != []));
  }

  lemma {:induction false} DeliveriesPop(c: Config, s: State, outcomes: nat -> seq<bool>, n: nat)
    requires ValidConfig(c)
    requires n <= |s.inFlight|
    ensures var t := Run(c, s, Deliveries(outcomes, n));
            t.inFlight == s.inFlight[n..] && Ended(t) == Ended(s) + n
  {
    if n > 0 {
      DeliveriesPop(c, s, outcomes, n - 1);
      var t := Run(c, s, Deliveries(outcomes, n - 1));
      DeliveryPops(c, t, outcomes(n - 1));
      RunConcat(c, s, Deliveries(outcomes, n - 1), DeliverySteps(outcomes(n - 1)));
    }
  }

  predicate Delivers(step: Step) {
    step.HandlerRaises? || step.Finish?
  }

  lemma {:induction false} RaisesPublishNothing(verdicts: seq<bool>)
    ensures forall k | 0 <= k < |RaiseSteps(verdicts)| :: RaiseSteps(verdicts)[k] == HandlerRaises
  {
    if verdicts != [] {
      RaisesPublishNothing(verdicts[..|verdicts| - 1]);
    }
  }

  lemma {:induction false} DeliveriesOnlyDeliver(outcomes: nat -> seq<bool>, n: nat)
    ensures forall k | 0 <= k < |Deliveries(outcomes, n)| :: Delivers(Deliveries(outcomes, n)[k])
  {
    if n > 0 {
      DeliveriesOnlyDeliver(outcomes, n - 1);
      RaisesPublishNothing(outcomes(n - 1));
    }
  }

  function Drain(c: Config, s: State, outcomes: nat -> seq<bool>): State
    requires ValidConfig(c)
  {
    Run(c, s, DrainSteps(outcomes, |s.queue|))
  }

  /** A drain of an idle bus delivers everything it found queued and leaves nothing in flight. */
  lemma DrainDeliversAll(c: Config, s: State, outcomes: nat -> seq<bool>)
    requires ValidConfig(c)
    requires Kept(c, s) && s.inFlight == []
    ensures var t := Drain(c, s, outcomes);
            && Kept(c, t) && t.inFlight == []
            && Ended(t) == Ended(s) + |s.queue|
            && Measure(c, t) <= Measure(c, s) - |s.queue|
  {
    var n := |s.queue|;
    var u := Apply(c, s, Snapshot);
    assert [] + [Snapshot] == [Snapshot];
    RunOne(c, s, [], Snapshot);
    RunConcat(c, s, [Snapshot], Deliveries(outcomes, n));
    assert u.inFlight == StableSort.Sort(EventKey, s.queue);
    DeliveriesPop(c, u, outcomes, n);
    DeliveriesOnlyDeliver(outcomes, n);
    DeliveriesAreBounded(c, s, DrainSteps(outcomes, n));
  }

  function Drains(c: Config, s: State, outcomes: nat -> nat -> seq<bool>, rounds: nat): State
    requires ValidConfig(c)
  {
    if rounds == 0 then s else Drain(c, Drains(c, s, outcomes, rounds - 1), outcomes(rounds - 1))
  }

  lemma {:induction false} DrainsProgress(c: Config, s: State, outcomes: nat -> nat -> seq<bool>, rounds: nat)
    requires ValidConfig(c)
    requires Kept(c, s) && s.inFlight == []
    ensures var t := Drains(c, s, outcomes, rounds);
            && Kept(c, t) && t.inFlight == []
            && (t.queue == [] || Measure(c, t) <= Measure(c, s) - rounds)
            && Ended(t) + Measure(c, t) <= Ended(s) + Measure(c, s)
  {
    if rounds > 0 {
      DrainsProgress(c, s, outcomes, rounds - 1);
      var u := Drains(c, s, outcomes, rounds - 1);
      DrainDeliversAll(c, u, outcomes(rounds - 1));
      if u.queue == [] {
        EmptyDrain(c, u, outcomes(rounds - 1));
      }
    }
  }

  lemma EmptyDrain(c: Config, s: State, outcomes: nat -> seq<bool>)
    requires ValidConfig(c) && s.queue == []
    ensures Drain(c, s, outcomes).queue == []
  {
    assert DrainSteps(outcomes, 0) == [] + [Snapshot];
    RunOne(c, s, [], Snapshot);
  }

  // ---------------------------------------------------------------------------------------
  // How many drains it takes

  /** Every queued event was retried at least `waiting` times, and every event in flight at least `flying` times. */
  ghost predicate Tried(s: State, waiting: int, flying: int) {
    && (forall e | e in s.queue :: Lookup(s.retries, e.id) >= waiting)
    && (forall e | e in s.inFlight :: Lookup(s.retries, e.id) >= flying)
  }

  lemma TriedRaise(c: Config, s: State, k: int)
    requires ValidConfig(c)
    requires Tried(s, k, k - 1)
    ensures Tried(ApplyHandlerRaises(c, s), k, k - 1)
  {
    if s.inFlight != [] {
      var e := s.inFlight[0];
      assert e in s.inFlight;
      var t := ApplyHandlerRaises(c, s);
      if Lookup(s.retries, e.id) < c.maxRetries {
        assert t.retries == s.retries[e.id := Lookup(s.retries, e.id) + 1];
        assert forall f | f in t.queue :: f in s.queue || f == e;
      }
    }
  }

  lemma {:induction false} TriedRun(c: Config, s: State, steps: seq<Step>, k: int)
    requires ValidConfig(c)
    requires Tried(s, k, k - 1)
    requires forall i | 0 <= i < |steps| :: Delivers(steps[i])
    ensures Tried(Run(c, s, steps), k, k - 1)
  {
    if steps != [] {
      var before := steps[..|steps| - 1];
      TriedRun(c, s, before, k);
      var u := Run(c, s, before);
      if steps[|steps| - 1].HandlerRaises? {
        TriedRaise(c, u, k);
      } else {
        assert Run(c, s, steps) == ApplyFinish(u, steps[|steps| - 1].handled);
      }
    }
  }

  /** What is queued after a drain was queued before it and has been retried once more. */
  lemma TriedDrain(c: Config, s: State, outcomes: nat -> seq<bool>, k: int)
    requires ValidConfig(c)
    requires s.inFlight == [] && Tried(s, k - 1, 0)
    ensures Tried(Drain(c, s, outcomes), k, k - 1)
  {
    var n := |s.queue|;
    var u := Apply(c, s, Snapshot);
    assert [] + [Snapshot] == [Snapshot];
    RunOne(c, s, [], Snapshot);
    RunConcat(c, s, [Snapshot], Deliveries(outcomes, n));
    assert u.inFlight == StableSort.Sort(EventKey, s.queue);
    forall e | e in u.inFlight
      ensures Lookup(u.retries, e.id) >= k - 1
    {
      assert e in multiset(s.queue);
    }
    DeliveriesOnlyDeliver(outcomes, n);
    TriedRun(c, u, Deliveries(outcomes, n), k);
  }

  lemma {:induction false} TriedDrains(c: Config, s: State, outcomes: nat -> nat -> seq<bool>, rounds: nat)
    requires ValidConfig(c)
    requires Kept(c, s) && s.inFlight == []
    ensures Tried(Drains(c, s, outcomes, rounds), rounds, 0)
  {
    if rounds > 0 {
      DrainsProgress(c, s, outcomes, rounds - 1);
      TriedDrains(c, s, outcomes, rounds - 1);
      TriedDrain(c, Drains(c, s, outcomes, rounds - 1), outcomes(rounds - 1), rounds);
    }
  }

  lemma TriedWithinLimit(c: Config, s: State, k: nat)
    requires Kept(c, s) && Tried(s, k, 0)
    ensures s.queue == [] || k <= c.maxRetries
  {
    if s.queue != [] {
      assert s.queue[0] in s.queue;
      assert Ledger(c, s, s.queue[0].id);
    }
  }

  /**
   One drain more than the retry limit, or as many as the measure, empty the queue of any
   reachable idle bus, however long it is and whatever the handlers do; and all the
   deliveries together number at most the measure.
   */
  lemma DrainsEmptyTheQueue(c: Config, steps: seq<Step>, outcomes: nat -> nat -> seq<bool>, rounds: nat)
    requires ValidConfig(c)
    requires Run(c, Init(), steps).inFlight == []
    requires rounds > c.maxRetries || rounds >= Measure(c, Run(c, Init(), steps))
    ensures Drains(c, Run(c, Init(), steps), outcomes, rounds).queue == []
    ensures Ended(Drains(c, Run(c, Init(), steps), outcomes, rounds))
         <= Ended(Run(c, Init(), steps)) + Measure(c, Run(c, Init(), steps))
  {
    var s := Run(c, Init(), steps);
    forall id
      ensures Ledger(c, s, id)
    {
      RetryLedger(c, steps, id);
    }
    DrainsProgress(c, s, outcomes, rounds);
    var t := Drains(c, s, outcomes, rounds);
    MeasureIsNatural(c, t);
    if rounds > c.maxRetries {
      TriedDrains(c, s, outcomes, rounds);
      TriedWithinLimit(c, t, rounds);
    }
  }

  function AlwaysRaises(): nat -> nat -> seq<bool> {
    round => n => [false]
  }

  lemma StubbornDrain(c: Config, s: State, round: nat)
    requires ValidConfig(c) && |s.queue| == 1
    ensures Drain(c, s, AlwaysRaises()(round)) == Run(c, s, [Snapshot, HandlerRaises, Finish(true)])
  {
    var f := AlwaysRaises()(round);
    assert f(0) == [false];
    assert RaiseSteps([]) == [] && [false][..0] == [];
    assert RaiseSteps([false]) == [HandlerRaises];
    assert Deliveries(f, 0) == [] && Deliveries(f, 1) == [] + DeliverySteps(f(0));
    assert DrainSteps(f, 1) == [Snapshot, HandlerRaises, Finish(true)];
  }

  lemma StubbornDrainWaits(c: Config, s: State, round: nat, d: nat)
    requires ValidConfig(c)
    requires Waiting(s, round, d) && round < c.maxRetries
    ensures Waiting(Drain(c, s, AlwaysRaises()(round)), round + 1, d + 1)
  {
    StubbornDrain(c, s, round);
    RoundDelivers(c, s, round, d);
  }

  /** With a handler that always raises, one event outlasts maxRetries drains. */
  lemma {:induction false} StubbornDrains(c: Config, s: State, k: nat, d: nat)
    requires ValidConfig(c)
    requires Waiting(s, 0, d) && k <= c.maxRetries
    ensures Waiting(Drains(c, s, AlwaysRaises(), k), k, d + k)
  {
    if k > 0 {
      StubbornDrains(c, s, k - 1, d);
      StubbornDrainWaits(c, Drains(c, s, AlwaysRaises(), k - 1), k - 1, d + k - 1);
    }
  }

  /**
   So many drains empty the queue of every reachable idle bus, whatever the handlers do,
   exactly if they outnumber the retries.
   */
  lemma DrainsNeededExactly(c: Config, rounds: nat)
    requires ValidConfig(c)
    ensures (forall steps: seq<Step>, outcomes: nat -> nat -> seq<bool> | Run(c, Init(), steps).inFlight == [] ::
               Drains(c, Run(c, Init(), steps), outcomes, rounds).queue == [])
       <==> rounds > c.maxRetries
  {
    if rounds > c.maxRetries {
      forall steps: seq<Step>, outcomes: nat -> nat -> seq<bool> | Run(c, Init(), steps).inFlight == []
        ensures Drains(c, Run(c, Init(), steps), outcomes, rounds).queue == []
      {
        DrainsEmptyTheQueue(c, steps, outcomes, rounds);
      }
    } else {
      OpeningWaits(c);
      StubbornDrains(c, Run(c, Init(), Opening(c)), rounds, Base(c) - 1);
      assert Drains(c, Run(c, Init(), Opening(c)), AlwaysRaises(), rounds).queue != [];
    }
  }
}
