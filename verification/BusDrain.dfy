/** What publishes and drains answer, told from the calls alone. */
module BusDrain {
  import opened BusModel
  import opened BusLaws
  import opened BusTermination
  import StableSort

  // ---------------------------------------------------------------------------------------
  // The order of a drain

  /** By device, and by sequence number within a device. */
  ghost predicate InDeliveryOrder(s: seq<Event>) {
    forall i, j | 0 <= i < j < |s| ::
      s[i].device <= s[j].device && (s[i].device == s[j].device ==> s[i].sequence <= s[j].sequence)
  }

  /** A snapshot empties the queue into flight, ordered by device and sequence, and touches nothing else. */
  lemma SnapshotIsOrdered(c: Config, s: State) returns (taken: seq<Event>)
    requires ValidConfig(c)
    ensures multiset(taken) == multiset(s.queue) && |taken| == |s.queue| && InDeliveryOrder(taken)
    ensures Apply(c, s, Snapshot) == s.(queue := [], offered := [], inFlight := taken + s.inFlight)
  {
    taken := StableSort.Sort(EventKey, s.queue);
    StableSort.SortIsStable(EventKey, s.queue, (0, 0));
    forall i, j | 0 <= i < j < |taken|
      ensures taken[i].device <= taken[j].device
      ensures taken[i].device == taken[j].device ==> taken[i].sequence <= taken[j].sequence
    {
      assert !StableSort.Before(EventKey(taken[j]), EventKey(taken[i]));
    }
  }

  /** Of the first n events, those whose delivery found a handler, or found none. */
  function Picked(events: seq<Event>, outcomes: nat -> seq<bool>, n: nat, handled: bool): (r: seq<Event>)
    requires n <= |events|
  {
    if n == 0 then []
    else Picked(events, outcomes, n - 1, handled) + if (outcomes(n - 1) != []) == handled then [events[n - 1]] else []
  }

  lemma {:induction false} AllPicked(events: seq<Event>, outcomes: nat -> seq<bool>, n: nat)
    requires n <= |events|
    requires forall k: nat | k < n :: outcomes(k) != []
    ensures Picked(events, outcomes, n, true) == events[..n] && Picked(events, outcomes, n, false) == []
  {
    if n > 0 {
      AllPicked(events, outcomes, n - 1);
      assert events[..n] == events[..n - 1] + [events[n - 1]];
    }
  }

  lemma RaiseDeliversNothing(c: Config, s: State)
    requires ValidConfig(c)
    ensures var t := ApplyHandlerRaises(c, s);
            t.inFlight == s.inFlight && t.delivered == s.delivered && t.unhandled == s.unhandled
  {
  }

  lemma {:induction false} RaisesDeliverNothing(c: Config, s: State, verdicts: seq<bool>)
    requires ValidConfig(c)
    ensures var t := Run(c, s, RaiseSteps(verdicts));
            t.inFlight == s.inFlight && t.delivered == s.delivered && t.unhandled == s.unhandled
  {
    if verdicts != [] {
      var before := verdicts[..|verdicts| - 1];
      RaisesDeliverNothing(c, s, before);
      if verdicts[|verdicts| - 1] {
        assert RaiseSteps(verdicts) == RaiseSteps(before);
      } else {
        RunOne(c, s, RaiseSteps(before), HandlerRaises);
        RaiseDeliversNothing(c, Run(c, s, RaiseSteps(before)));
      }
    }
  }

  lemma OneDelivery(c: Config, s: State, verdicts: seq<bool>)
    requires ValidConfig(c)
    requires s.inFlight != []
    ensures var t := Run(c, s, DeliverySteps(verdicts));
            && t.inFlight == s.inFlight[1..]
            && t.delivered == s.delivered + (if verdicts != [] then [s.inFlight[0]] else [])
            && t.unhandled == s.unhandled + (if verdicts == [] then [s.inFlight[0]] else [])
  {
    RaisesDeliverNothing(c, s, verdicts);
    RunOne(c, s, RaiseSteps(verdicts), Finish(verdicts != []));
    FinishMoves(Run(c, s, RaiseSteps(verdicts)), verdicts != []);
  }

  /** After the first n deliveries of what was in flight: where each event has gone. */
  ghost predicate HasPicked(s: State, t: State, outcomes: nat -> seq<bool>, n: nat)
    requires n <= |s.inFlight|
  {
    && t.inFlight == s.inFlight[n..]
    && t.delivered == s.delivered + Picked(s.inFlight, outcomes, n, true)
    && t.unhandled == s.unhandled + Picked(s.inFlight, outcomes, n, false)
  }

  lemma OneMorePicked(c: Config, s: State, t: State, outcomes: nat -> seq<bool>, n: nat)
    requires ValidConfig(c)
    requires n < |s.inFlight| && HasPicked(s, t, outcomes, n)
    ensures HasPicked(s, Run(c, t, DeliverySteps(outcomes(n))), outcomes, n + 1)
  {
    assert t.inFlight[0] == s.inFlight[n] && t.inFlight[1..] == s.inFlight[n + 1..];
    OneDelivery(c, t, outcomes(n));
    assert Picked(s.inFlight, outcomes, n + 1, true)
        == Picked(s.inFlight, outcomes, n, true) + if outcomes(n) != [] then [s.inFlight[n]] else [];
    assert Picked(s.inFlight, outcomes, n + 1, false)
        == Picked(s.inFlight, outcomes, n, false) + if outcomes(n) == [] then [s.inFlight[n]] else [];
  }

  lemma NothingPicked(s: State, outcomes: nat -> seq<bool>)
    ensures HasPicked(s, s, outcomes, 0)
  {
  }

  lemma PicksNext(c: Config, s: State, outcomes: nat -> seq<bool>, k: nat)
    requires ValidConfig(c)
    requires k < |s.inFlight| && HasPicked(s, Run(c, s, Deliveries(outcomes, k)), outcomes, k)
    ensures HasPicked(s, Run(c, s, Deliveries(outcomes, k + 1)), outcomes, k + 1)
  {
    ghost var t := Run(c, s, Deliveries(outcomes, k));
    DeliveriesNext(c, s, outcomes, k);
    OneMorePicked(c, s, t, outcomes, k);
  }

  lemma {:induction false} DeliveriesPick(c: Config, s: State, outcomes: nat -> seq<bool>, n: nat)
    requires ValidConfig(c)
    requires n <= |s.inFlight|
    ensures HasPicked(s, Run(c, s, Deliveries(outcomes, n)), outcomes, n)
  {
    if n == 0 {
      assert Run(c, s, Deliveries(outcomes, 0)) == s;
      NothingPicked(s, outcomes);
    } else {
      DeliveriesPick(c, s, outcomes, n - 1);
      PicksNext(c, s, outcomes, n - 1);
    }
  }

  /**
   A drain of an idle bus takes what was queued by device and sequence, and each event ends
   delivered if its delivery found a handler and unhandled if it found none, in that order.
   */
  lemma DrainIsOrdered(c: Config, s: State, outcomes: nat -> seq<bool>) returns (taken: seq<Event>)
    requires ValidConfig(c)
    requires s.inFlight == []
    ensures multiset(taken) == multiset(s.queue) && InDeliveryOrder(taken)
    ensures Drain(c, s, outcomes).delivered == s.delivered + Picked(taken, outcomes, |taken|, true)
    ensures Drain(c, s, outcomes).unhandled == s.unhandled + Picked(taken, outcomes, |taken|, false)
  {
    taken := SnapshotIsOrdered(c, s);
    var n := |s.queue|;
    assert [] + [Snapshot] == [Snapshot];
    RunOne(c, s, [], Snapshot);
    RunConcat(c, s, [Snapshot], Deliveries(outcomes, n));
    assert taken + s.inFlight == taken;
    DeliveriesPick(c, Apply(c, s, Snapshot), outcomes, n);
  }

  /** What a drain appended is what was queued, by device and sequence. */
  ghost predicate AppendedInOrder(queue: seq<Event>, before: seq<Event>, after: seq<Event>) {
    before <= after && multiset(after[|before|..]) == multiset(queue) && InDeliveryOrder(after[|before|..])
  }

  /** With a handler for every event, a drain delivers all that was queued, by device and sequence. */
  lemma HandledDrainIsOrdered(c: Config, s: State, outcomes: nat -> seq<bool>)
    requires ValidConfig(c)
    requires s.inFlight == []
    requires forall k: nat | k < |s.queue| :: outcomes(k) != []
    ensures AppendedInOrder(s.queue, s.delivered, Drain(c, s, outcomes).delivered)
    ensures Drain(c, s, outcomes).unhandled == s.unhandled
  {
    var taken := DrainIsOrdered(c, s, outcomes);
    assert |taken| == |multiset(taken)| == |s.queue|;
    AllPicked(taken, outcomes, |taken|);
    assert taken[..|taken|] == taken;
    assert (s.delivered + taken)[|s.delivered|..] == taken;
  }

  /** How many of the handlers raise. */
  function Raising(verdicts: seq<bool>): nat {
    if verdicts == [] then 0 else Raising(verdicts[..|verdicts| - 1]) + if verdicts[|verdicts| - 1] then 0 else 1
  }

  /** One delivery counts a failure of its event for each handler that raises. */
  lemma {:induction false} DeliveryFailures(c: Config, s: State, verdicts: seq<bool>)
    requires ValidConfig(c)
    requires s.inFlight != []
    ensures var t := Run(c, s, RaiseSteps(verdicts));
            && t.inFlight == s.inFlight
            && t.failures == s.failures + seq(Raising(verdicts), i => s.inFlight[0])
    ensures Run(c, s, DeliverySteps(verdicts)).failures == Run(c, s, RaiseSteps(verdicts)).failures
  {
    RunOne(c, s, RaiseSteps(verdicts), Finish(verdicts != []));
    if verdicts != [] {
      var before := verdicts[..|verdicts| - 1];
      DeliveryFailures(c, s, before);
      var t := Run(c, s, RaiseSteps(before));
      if verdicts[|verdicts| - 1] {
        assert RaiseSteps(verdicts) == RaiseSteps(before);
      } else {
        RunOne(c, s, RaiseSteps(before), HandlerRaises);
        RaiseAnswers(c, t);
      }
    }
  }

  // ---------------------------------------------------------------------------------------
  // Publishes

  ghost predicate Published(steps: seq<Step>, id: int) {
    exists k | 0 <= k < |steps| :: steps[k].Publish? && steps[k].id == id
  }

  /** The number of publishes for the device of an id not published before. */
  ghost function FirstPublishes(steps: seq<Step>, device: int): nat {
    if steps == [] then 0
    else
      var before, last := steps[..|steps| - 1], steps[|steps| - 1];
      FirstPublishes(before, device)
      + if last.Publish? && last.device == device && !Published(before, last.id) then 1 else 0
  }

  lemma PublishMarks(c: Config, s: State, id: int, device: int)
    requires ValidConfig(c)
    ensures var t := ApplyPublish(c, s, id, device);
            && t.seen == s.seen + {id}
            && t.lastSequence == if id in s.seen then s.lastSequence
                                 else s.lastSequence[device := Lookup(s.lastSequence, device) + 1]
  {
    if id in s.seen {
      assert s.seen + {id} == s.seen;
    }
  }

  lemma OthersMarkNothing(c: Config, s: State, step: Step)
    requires ValidConfig(c) && !step.Publish?
    ensures Apply(c, s, step).seen == s.seen && Apply(c, s, step).lastSequence == s.lastSequence
  {
  }

  lemma PublishedNext(steps: seq<Step>, id: int)
    requires steps != []
    ensures var last := steps[|steps| - 1];
            Published(steps, id) <==> Published(steps[..|steps| - 1], id) || (last.Publish? && last.id == id)
  {
    var before := steps[..|steps| - 1];
    if Published(before, id) {
      var k :| 0 <= k < |before| && before[k].Publish? && before[k].id == id;
      assert steps[k] == before[k];
    }
    if Published(steps, id) {
      var k :| 0 <= k < |steps| && steps[k].Publish? && steps[k].id == id;
      if k < |before| {
        assert before[k] == steps[k];
      }
    }
  }

  /** The bus remembers exactly the ids published, taken in or not, and numbers each device's first publishes. */
  lemma {:induction false} PublishesAreKnown(c: Config, steps: seq<Step>, id: int, device: int)
    requires ValidConfig(c)
    ensures id in Run(c, Init(), steps).seen <==> Published(steps, id)
    ensures Lookup(Run(c, Init(), steps).lastSequence, device) == FirstPublishes(steps, device)
  {
    if steps != [] {
      var before, last := steps[..|steps| - 1], steps[|steps| - 1];
      PublishesAreKnown(c, before, id, device);
      PublishedNext(steps, id);
      if last.Publish? {
        PublishesAreKnown(c, before, last.id, device);
        PublishMarks(c, Run(c, Init(), before), last.id, last.device);
      } else {
        OthersMarkNothing(c, Run(c, Init(), before), last);
      }
    }
  }

  lemma KnownPublish(c: Config, s: State, id: int, device: int)
    requires ValidConfig(c) && id in s.seen
    ensures Apply(c, s, Publish(id, device)) == s
  {
  }

  lemma NewPublish(c: Config, s: State, e: Event)
    requires ValidConfig(c)
    requires e.id !in s.seen && e.sequence == Lookup(s.lastSequence, e.device) + 1
    ensures var t := Apply(c, s, Publish(e.id, e.device));
            if |s.queue| < c.capacity || c.policy == DropOldest
            then && t.queue != [] && t.queue[|t.queue| - 1] == e
                 && t.inFlight == (if c.deterministic then [e] else []) + s.inFlight
                 && t.turnedAway == s.turnedAway
            else t.queue == s.queue && t.inFlight == s.inFlight && t.turnedAway == s.turnedAway + [e]
  {
    assert [] + s.inFlight == s.inFlight;
  }

  /**
   After any run, publishing an id published before changes nothing. A new id gets its
   device's next number; if there is room, or the oldest may go, it joins the queue's end, and
   a deterministic bus delivers it first; otherwise it is turned away.
   */
  lemma PublishAnswers(c: Config, steps: seq<Step>, s: State, id: int, device: int)
    requires ValidConfig(c) && s == Run(c, Init(), steps)
    ensures var t, e := Apply(c, s, Publish(id, device)), Event(id, device, FirstPublishes(steps, device) + 1);
            if Published(steps, id) then t == s
            else if |s.queue| < c.capacity || c.policy == DropOldest
            then && t.queue != [] && t.queue[|t.queue| - 1] == e
                 && t.inFlight == (if c.deterministic then [e] else []) + s.inFlight
                 && t.turnedAway == s.turnedAway
            else t.queue == s.queue && t.inFlight == s.inFlight && t.turnedAway == s.turnedAway + [e]
  {
    PublishesAreKnown(c, steps, id, device);
    if Published(steps, id) {
      KnownPublish(c, s, id, device);
    } else {
      NewPublish(c, s, Event(id, device, FirstPublishes(steps, device) + 1));
    }
  }

  /**
   A handler failure is counted against the delivery in progress. While the event has retries
   left, that very event joins the queue's end again, unless the queue is full and keeps its
   oldest; then, or with no retry left, the queue stays and the copy is given up.
   */
  lemma RaiseAnswers(c: Config, s: State)
    requires ValidConfig(c) && s.inFlight != []
    ensures var t, e := Apply(c, s, HandlerRaises), s.inFlight[0];
            var retried := Lookup(s.retries, e.id) < c.maxRetries;
            && t.inFlight == s.inFlight && t.failures == s.failures + [e]
            && Lookup(t.retries, e.id) == Lookup(s.retries, e.id) + (if retried then 1 else 0)
            && if retried && (|s.queue| < c.capacity || c.policy == DropOldest)
               then t.queue != [] && t.queue[|t.queue| - 1] == e && t.refused == s.refused && t.abandoned == s.abandoned
               else && t.queue == s.queue
                    && t.refused == s.refused + (if retried then [e] else [])
                    && t.abandoned == s.abandoned + (if retried then [] else [e])
  {
  }
}
