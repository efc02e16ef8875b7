/** When an event is delivered after a later one of its device. */
module BusOvertaking {
  import opened BusModel
  import opened BusLaws
  import opened BusOrder
  import StableSort

  /** No event comes after a later one of its device; repeats are allowed. */
  ghost predicate NoneOvertaken(s: seq<Event>) {
    forall i, j | 0 <= i < j < |s| :: s[i].device == s[j].device ==> s[i].sequence <= s[j].sequence
  }

  ghost predicate NotAfter(s: seq<Event>, e: Event) {
    forall i | 0 <= i < |s| :: s[i].device == e.device ==> s[i].sequence <= e.sequence
  }

  lemma OvertakenAppend(s: seq<Event>, e: Event)
    ensures NoneOvertaken(s + [e]) <==> NoneOvertaken(s) && NotAfter(s, e)
  {
    var t := s + [e];
    if NoneOvertaken(t) {
      assert forall i, j | 0 <= i < j < |s| :: t[i] == s[i] && t[j] == s[j];
      assert forall i | 0 <= i < |s| :: t[i] == s[i] && t[|s|] == e;
    }
  }

  /**
   A queue of one, one delivery at a time: what was delivered, what is being delivered and
   what waits is in order, all of it numbered.
   */
  ghost predicate InStep(s: State) {
    && |s.inFlight| <= 1 && |s.queue| <= 1
    && NoneOvertaken(s.delivered)
    && (forall e | e in s.inFlight + s.queue :: NotAfter(s.delivered, e))
    && (forall f, q | f in s.inFlight && q in s.queue :: f.device == q.device ==> f.sequence <= q.sequence)
    && (forall e | e in s.delivered + s.inFlight + s.queue :: e.sequence <= Lookup(s.lastSequence, e.device))
  }

  lemma PublishToOne(c: Config, s: State, id: int, device: int)
    requires c.capacity == 1 && !c.deterministic && |s.queue| <= 1
    requires id !in s.seen
    ensures var e := Event(id, device, Lookup(s.lastSequence, device) + 1);
            var t := ApplyPublish(c, s, id, device);
            && t.inFlight == s.inFlight && t.delivered == s.delivered
            && t.lastSequence == s.lastSequence[device := e.sequence]
            && (t.queue == [e] || t.queue == s.queue)
  {
  }

  lemma NumberedLater(s: State, e: Event)
    requires InStep(s) && e.sequence == Lookup(s.lastSequence, e.device) + 1
    ensures NotAfter(s.delivered, e)
    ensures forall f | f in s.inFlight :: f.device == e.device ==> f.sequence <= e.sequence
  {
    forall i | 0 <= i < |s.delivered|
      ensures s.delivered[i].device == e.device ==> s.delivered[i].sequence <= e.sequence
    {
      assert s.delivered[i] in s.delivered + s.inFlight + s.queue;
    }
  }

  /** The next event of its device may wait behind what is in flight; the last number counts on either way. */
  lemma InStepWith(s: State, e: Event, t: State)
    requires InStep(s) && e.sequence == Lookup(s.lastSequence, e.device) + 1
    requires t.inFlight == s.inFlight && t.delivered == s.delivered
    requires t.lastSequence == s.lastSequence[e.device := e.sequence]
    requires t.queue == [e] || t.queue == s.queue
    ensures InStep(t)
  {
    NumberedLater(s, e);
    forall f | f in t.delivered + t.inFlight + t.queue
      ensures f.sequence <= Lookup(t.lastSequence, f.device)
    {
      assert f == e || f in s.delivered + s.inFlight + s.queue;
    }
    forall f | f in t.inFlight + t.queue
      ensures NotAfter(t.delivered, f)
    {
      assert f == e || f in s.inFlight + s.queue;
    }
  }

  lemma {:induction false} InStepPublish(c: Config, s: State, id: int, device: int)
    requires c.capacity == 1 && !c.deterministic
    requires InStep(s)
    ensures InStep(ApplyPublish(c, s, id, device))
  {
    if id !in s.seen {
      PublishToOne(c, s, id, device);
      InStepWith(s, Event(id, device, Lookup(s.lastSequence, device) + 1), ApplyPublish(c, s, id, device));
    }
  }

  lemma InStepSnapshot(s: State)
    requires InStep(s) && s.inFlight == []
    ensures InStep(ApplySnapshot(s))
  {
    var t := ApplySnapshot(s);
    assert s.queue == [] || s.queue == [s.queue[0]];
    assert t.inFlight == s.queue by {
      assert s.queue != [] ==> s.queue[1..] == [];
      assert StableSort.Sort(EventKey, s.queue) == s.queue;
    }
  }

  lemma RaiseOfOne(c: Config, s: State)
    requires c.capacity == 1 && |s.queue| <= 1
    requires s.inFlight != []
    ensures var t := ApplyHandlerRaises(c, s);
            && t.inFlight == s.inFlight && t.delivered == s.delivered && t.lastSequence == s.lastSequence
            && (t.queue == s.queue || t.queue == [s.inFlight[0]])
  {
  }

  lemma {:induction false} InStepRaise(c: Config, s: State)
    requires c.capacity == 1
    requires InStep(s)
    ensures InStep(ApplyHandlerRaises(c, s))
  {
    if s.inFlight != [] {
      RaiseOfOne(c, s);
      assert s.inFlight == [s.inFlight[0]];
      assert s.inFlight[0] in s.inFlight + s.queue && s.inFlight[0] in s.delivered + s.inFlight + s.queue;
    }
  }

  lemma {:induction false} InStepFinish(s: State, handled: bool)
    requires InStep(s)
    ensures InStep(ApplyFinish(s, handled))
  {
    if s.inFlight != [] {
      var e := s.inFlight[0];
      assert e in s.inFlight + s.queue;
      OvertakenAppend(s.delivered, e);
      var t := ApplyFinish(s, handled);
      assert t.inFlight == [];
      forall q | q in t.queue
        ensures NotAfter(t.delivered, q)
      {
        assert q in s.inFlight + s.queue;
      }
    }
  }

  lemma {:induction false} InStepRun(c: Config, steps: seq<Step>)
    requires c.capacity == 1 && !c.deterministic
    requires Serial(c, Init(), steps)
    ensures InStep(Run(c, Init(), steps))
  {
    if steps != [] {
      var before, last := steps[..|steps| - 1], steps[|steps| - 1];
      InStepRun(c, before);
      var s := Run(c, Init(), before);
      match last
      case Publish(id, device) => InStepPublish(c, s, id, device);
      case Snapshot => InStepSnapshot(s);
      case HandlerRaises => InStepRaise(c, s);
      case Finish(handled) => InStepFinish(s, handled);
    }
  }

  // ---------------------------------------------------------------------------------------
  // Runs that overtake

  lemma SerialNext(c: Config, steps: seq<Step>, step: Step)
    requires ValidConfig(c)
    requires Serial(c, Init(), steps)
    requires step.Snapshot? ==> Run(c, Init(), steps).inFlight == []
    ensures Serial(c, Init(), steps + [step])
    ensures Run(c, Init(), steps + [step]) == Apply(c, Run(c, Init(), steps), step)
  {
    assert (steps + [step])[..|steps|] == steps;
    RunOne(c, Init(), steps, step);
  }

  const FIRST := Event(0, 0, 1)
  const SECOND := Event(1, 0, 2)

  ghost predicate Shows(s: State, queue: seq<Event>, inFlight: seq<Event>, delivered: seq<Event>) {
    s.queue == queue && s.inFlight == inFlight && s.delivered == delivered
  }

  lemma FinishShows(c: Config, s: State, queue: seq<Event>, e: Event, rest: seq<Event>, delivered: seq<Event>)
    requires ValidConfig(c) && Shows(s, queue, [e] + rest, delivered)
    ensures Shows(Apply(c, s, Finish(true)), queue, rest, delivered + [e])
  {
    assert ([e] + rest)[1..] == rest;
  }

  lemma SnapshotShows(c: Config, s: State, queue: seq<Event>, delivered: seq<Event>)
    requires ValidConfig(c) && Shows(s, queue, [], delivered)
    requires queue == [FIRST] || queue == [FIRST, SECOND]
    ensures Shows(Apply(c, s, Snapshot), [], queue, delivered)
    ensures Apply(c, s, Snapshot).retries == s.retries
  {
    assert queue[1..] == [] || (queue[1..] == [SECOND] && [SECOND][1..] == []);
    assert StableSort.Sort(EventKey, [SECOND]) == [SECOND];
    assert StableSort.Sort(EventKey, queue) == queue;
    assert queue + [] == queue;
  }

  lemma RaiseShows(c: Config, s: State, inFlight: seq<Event>, delivered: seq<Event>)
    requires ValidConfig(c) && Shows(s, [], inFlight, delivered)
    requires inFlight != [] && Lookup(s.retries, inFlight[0].id) < c.maxRetries
    ensures Shows(Apply(c, s, HandlerRaises), [inFlight[0]], inFlight, delivered)
  {
  }

  lemma TwoPublished(c: Config, s: State)
    requires ValidConfig(c) && !c.deterministic && c.capacity > 1
    requires s == Apply(c, Apply(c, Init(), Publish(0, 0)), Publish(1, 0))
    ensures Shows(s, [FIRST, SECOND], [], []) && s.retries == map[0 := 0, 1 := 0]
  {
    var t := Apply(c, Init(), Publish(0, 0));
    FirstPublish(c);
    assert t.lastSequence == map[0 := 1];
  }

  /** A handler raises once on the first of two queued events: its retry is delivered after the second. */
  lemma RetryOvertakes(c: Config) returns (steps: seq<Step>)
    requires ValidConfig(c) && !c.deterministic && c.maxRetries > 0 && c.capacity > 1
    ensures Serial(c, Init(), steps)
    ensures Run(c, Init(), steps).delivered == [FIRST, SECOND, FIRST]
  {
    steps := [];
    SerialNext(c, steps, Publish(0, 0));
    steps := steps + [Publish(0, 0)];
    SerialNext(c, steps, Publish(1, 0));
    steps := steps + [Publish(1, 0)];
    TwoPublished(c, Run(c, Init(), steps));
    SnapshotShows(c, Run(c, Init(), steps), [FIRST, SECOND], []);
    SerialNext(c, steps, Snapshot);
    steps := steps + [Snapshot];
    RaiseShows(c, Run(c, Init(), steps), [FIRST, SECOND], []);
    SerialNext(c, steps, HandlerRaises);
    steps := steps + [HandlerRaises];
    assert [FIRST, SECOND] == [FIRST] + [SECOND];
    FinishShows(c, Run(c, Init(), steps), [FIRST], FIRST, [SECOND], []);
    SerialNext(c, steps, Finish(true));
    steps := steps + [Finish(true)];
    assert [SECOND] == [SECOND] + [];
    FinishShows(c, Run(c, Init(), steps), [FIRST], SECOND, [], [FIRST]);
    SerialNext(c, steps, Finish(true));
    steps := DeliverLast(c, steps + [Finish(true)], [FIRST, SECOND]);
  }

  /** A drain of the first event alone. */
  lemma DeliverLast(c: Config, steps: seq<Step>, delivered: seq<Event>) returns (more: seq<Step>)
    requires ValidConfig(c) && Serial(c, Init(), steps)
    requires Shows(Run(c, Init(), steps), [FIRST], [], delivered)
    ensures Serial(c, Init(), more)
    ensures Run(c, Init(), more).delivered == delivered + [FIRST]
  {
    SnapshotShows(c, Run(c, Init(), steps), [FIRST], delivered);
    SerialNext(c, steps, Snapshot);
    more := steps + [Snapshot];
    assert [FIRST] == [FIRST] + [];
    FinishShows(c, Run(c, Init(), more), [], FIRST, [], delivered);
    SerialNext(c, more, Finish(true));
    more := more + [Finish(true)];
  }

  lemma NestedPublish(c: Config, s: State)
    requires ValidConfig(c) && c.deterministic
    requires Shows(s, [], [FIRST], [FIRST]) && s.seen == {0} && s.lastSequence == map[0 := 1]
    ensures Shows(Apply(c, s, Publish(1, 0)), [SECOND], [SECOND, FIRST], [FIRST])
  {
    assert [SECOND] + [FIRST] == [SECOND, FIRST];
  }

  lemma FirstIsDrained(c: Config, steps: seq<Step>, s: State)
    requires ValidConfig(c) && c.deterministic
    requires steps == [] + [Publish(0, 0)] + [Finish(true)] + [Snapshot]
    requires s == Run(c, Init(), steps)
    ensures Serial(c, Init(), steps)
    ensures Shows(s, [], [FIRST], [FIRST]) && s.seen == {0} && s.lastSequence == map[0 := 1]
  {
    FirstPublish(c);
    SerialNext(c, [], Publish(0, 0));
    var one := [] + [Publish(0, 0)];
    assert [FIRST] == [FIRST] + [];
    FinishShows(c, Run(c, Init(), one), [FIRST], FIRST, [], []);
    SerialNext(c, one, Finish(true));
    var two := one + [Finish(true)];
    SnapshotShows(c, Run(c, Init(), two), [FIRST], [FIRST]);
    SerialNext(c, two, Snapshot);
  }

  /** Published by the handler of the first event's second delivery, the second event is delivered before that ends. */
  lemma NestedOvertakes(c: Config) returns (steps: seq<Step>)
    requires ValidConfig(c) && c.deterministic
    ensures Serial(c, Init(), steps)
    ensures Run(c, Init(), steps).delivered == [FIRST, SECOND, FIRST]
  {
    steps := [] + [Publish(0, 0)] + [Finish(true)] + [Snapshot];
    var s := Run(c, Init(), steps);
    FirstIsDrained(c, steps, s);
    NestedPublish(c, s);
    SerialNext(c, steps, Publish(1, 0));
    steps := steps + [Publish(1, 0)];
    assert [SECOND, FIRST] == [SECOND] + [FIRST];
    FinishShows(c, Run(c, Init(), steps), [SECOND], SECOND, [FIRST], [FIRST]);
    SerialNext(c, steps, Finish(true));
    steps := steps + [Finish(true)];
    assert [FIRST] == [FIRST] + [];
    FinishShows(c, Run(c, Init(), steps), [SECOND], FIRST, [], [FIRST] + [SECOND]);
    SerialNext(c, steps, Finish(true));
    steps := steps + [Finish(true)];
  }

  /** With retries off, the strict order holds and rules overtaking out. */
  lemma NoRetryNoneOvertaken(c: Config, steps: seq<Step>)
    requires ValidConfig(c) && !c.deterministic && c.maxRetries == 0
    requires Serial(c, Init(), steps)
    ensures NoneOvertaken(Run(c, Init(), steps).delivered)
  {
    OrderHoldsExactly(c);
  }

  /**
   No event is ever delivered after a later one of its device, in any run with one drainer,
   exactly if the bus is asynchronous and either allows no retry or holds one event at most.
   */
  lemma NoneOvertakenExactly(c: Config)
    requires ValidConfig(c)
    ensures (forall steps: seq<Step> | Serial(c, Init(), steps) :: NoneOvertaken(Run(c, Init(), steps).delivered))
       <==> !c.deterministic && (c.maxRetries == 0 || c.capacity == 1)
  {
    if !c.deterministic && (c.maxRetries == 0 || c.capacity == 1) {
      forall steps: seq<Step> | Serial(c, Init(), steps)
        ensures NoneOvertaken(Run(c, Init(), steps).delivered)
      {
        if c.maxRetries == 0 {
          NoRetryNoneOvertaken(c, steps);
        } else {
          InStepRun(c, steps);
        }
      }
    } else {
      var steps;
      if c.deterministic {
        steps := NestedOvertakes(c);
      } else {
        steps := RetryOvertakes(c);
      }
      var d := Run(c, Init(), steps).delivered;
      assert d[1] == SECOND && d[2] == FIRST;
      assert !NoneOvertaken(d);
    }
  }
}
