/** The event bus as the object the source has, each method tied to steps of the model. */
module EventBus {
  import opened BusModel
  import BusDrain
  import BusTermination
  import StableSort

  function PublishSteps(c: Config, accepted: bool, id: int, device: int, verdicts: seq<bool>): seq<Step> {
    [BusModel.Publish(id, device)] + if accepted && c.deterministic then DeliverySteps(verdicts) else []
  }

  lemma EvictTwice(s: State, n: nat)
    requires n < |s.queue|
    ensures Evict(Evict(s, n), 1) == Evict(s, n + 1)
  {
    assert s.queue[..n] + s.queue[n..][..1] == s.queue[..n + 1];
    assert s.evicted + s.queue[..n] + s.queue[n..][..1] == s.evicted + s.queue[..n + 1];
  }

  lemma RaiseStepsNext(c: Config, s: State, verdicts: seq<bool>, i: nat)
    requires ValidConfig(c)
    requires i < |verdicts|
    ensures Run(c, s, RaiseSteps(verdicts[..i + 1]))
         == var t := Run(c, s, RaiseSteps(verdicts[..i]));
            if verdicts[i] then t else Apply(c, t, HandlerRaises)
  {
    assert verdicts[..i + 1][..i] == verdicts[..i];
    if verdicts[i] {
      assert RaiseSteps(verdicts[..i + 1]) == RaiseSteps(verdicts[..i]);
    } else {
      RunOne(c, s, RaiseSteps(verdicts[..i]), HandlerRaises);
    }
  }

  class OrionEventBus {
    const config: Config

    var queue: seq<Event>
    var seenEventIds: set<int>
    var perDeviceSequences: map<int, nat>
    var retryCounts: map<int, nat>
    var droppedCount: nat
    var processedCount: nat
    var failedCount: nat

    ghost var inFlight: seq<Event>
    ghost var delivered: seq<Event>
    ghost var unhandled: seq<Event>
    ghost var evicted: seq<Event>
    ghost var refused: seq<Event>
    ghost var turnedAway: seq<Event>
    ghost var failures: seq<Event>
    ghost var abandoned: seq<Event>
    ghost var offered: seq<Event>

    ghost function View(): State
      reads this
    {
      State(queue, inFlight, seenEventIds, perDeviceSequences, retryCounts,
            processedCount, droppedCount, failedCount,
            delivered, unhandled, evicted, refused, turnedAway, failures, abandoned, offered)
    }

    constructor (config: Config)
      requires ValidConfig(config)
      ensures this.config == config && View() == Init()
    {
      this.config := config;
      queue, inFlight := [], [];
      seenEventIds, perDeviceSequences, retryCounts := {}, map[], map[];
      droppedCount, processedCount, failedCount := 0, 0, 0;
      delivered, unhandled, evicted, refused, turnedAway := [], [], [], [], [];
      failures, abandoned, offered := [], [], [];
    }

    /** `verdicts` says of each registered handler whether it returns or raises. */
    method Publish(id: int, device: int, verdicts: seq<bool>) returns (accepted: bool)
      requires ValidConfig(config)
      modifies this
      ensures accepted <==> id !in old(seenEventIds) && (|old(queue)| < config.capacity || config.policy == DropOldest)
      ensures View() == Run(config, old(View()), PublishSteps(config, accepted, id, device, verdicts))
      ensures inFlight == old(inFlight)
      ensures var delivers := accepted && config.deterministic;
              var event := Event(id, device, Lookup(old(perDeviceSequences), device) + 1);
              && delivered == old(delivered) + (if delivers && verdicts != [] then [event] else [])
              && unhandled == old(unhandled) + (if delivers && verdicts == [] then [event] else [])
    {
      ghost var start := View();
      ghost var step := BusModel.Publish(id, device);
      RunOne(config, start, [], step);
      assert [] + [step] == [step];
      assert [step] + [] == [step];
      var event;
      accepted, event := TakeIn(id, device);
      if accepted && config.deterministic {
        DeliverDirectly(start, [step], event, verdicts);
      }
    }

    /** Deliver an event that a publish has just taken in. */
    method DeliverDirectly(ghost start: State, ghost steps: seq<Step>, event: Event, verdicts: seq<bool>)
      requires ValidConfig(config)
      requires inFlight != [] && inFlight[0] == event
      requires View() == Run(config, start, steps)
      modifies this
      ensures View() == Run(config, start, steps + DeliverySteps(verdicts))
      ensures inFlight == old(inFlight)[1..]
      ensures delivered == old(delivered) + (if verdicts != [] then [event] else [])
      ensures unhandled == old(unhandled) + (if verdicts == [] then [event] else [])
    {
      DeliverOne(event, verdicts);
      RunConcat(config, start, steps, DeliverySteps(verdicts));
    }

    /** The part of a publish that runs under the lock. */
    method TakeIn(id: int, device: int) returns (accepted: bool, event: Event)
      requires ValidConfig(config)
      modifies this
      ensures accepted <==> id !in old(seenEventIds) && (|old(queue)| < config.capacity || config.policy == DropOldest)
      ensures event == Event(id, device, Lookup(old(perDeviceSequences), device) + 1)
      ensures inFlight == (if accepted && config.deterministic then [event] else []) + old(inFlight)
      ensures delivered == old(delivered) && unhandled == old(unhandled)
      ensures View() == ApplyPublish(config, old(View()), id, device)
    {
      event := Event(id, device, Lookup(perDeviceSequences, device) + 1);
      if id in seenEventIds {
        return false, event;
      }
      accepted := Offer(event);
    }

    /** Number a new event and queue it, or turn it away. */
    method Offer(event: Event) returns (room: bool)
      requires ValidConfig(config)
      requires event.id !in seenEventIds && event.sequence == Lookup(perDeviceSequences, event.device) + 1
      modifies this
      ensures room <==> |old(queue)| < config.capacity || config.policy == DropOldest
      ensures inFlight == (if room && config.deterministic then [event] else []) + old(inFlight)
      ensures delivered == old(delivered) && unhandled == old(unhandled)
      ensures View() == ApplyPublish(config, old(View()), event.id, event.device)
    {
      Number(event);
      room := MakeRoom();
      if room {
        Append(event);
      } else {
        TurnAway(event);
      }
    }

    method Number(event: Event)
      modifies this
      ensures var s := old(View());
              View() == s.(lastSequence := s.lastSequence[event.device := event.sequence], offered := s.offered + [event])
    {
      perDeviceSequences := perDeviceSequences[event.device := event.sequence];
      offered := offered + [event];
    }

    /** A full queue that keeps its oldest events remembers the id and does not take the event. */
    method TurnAway(event: Event)
      modifies this
      ensures var s := old(View());
              View() == s.(seen := s.seen + {event.id}, turnedAway := s.turnedAway + [event],
                           dropped := if config.policy == DropNewest then s.dropped + 1 else s.dropped)
    {
      if config.policy == DropNewest {
        droppedCount := droppedCount + 1;
      }
      seenEventIds := seenEventIds + {event.id};
      turnedAway := turnedAway + [event];
    }

    /** Bound the queue: evict the oldest until there is room, or report that there is none. */
    method MakeRoom() returns (room: bool)
      requires ValidConfig(config)
      modifies this
      ensures room <==> |old(queue)| < config.capacity || config.policy == DropOldest
      ensures View() == if |old(queue)| < config.capacity || !room then old(View())
                        else Evict(old(View()), |old(queue)| - config.capacity + 1)
    {
      ghost var start := View();
      assert Evict(start, 0) == start by {
        assert start.queue[0..] == start.queue && start.evicted + start.queue[..0] == start.evicted;
      }
      while |queue| >= config.capacity
        invariant |queue| <= |start.queue|
        invariant |queue| == |start.queue| || (config.policy == DropOldest && |queue| >= config.capacity - 1)
        invariant View() == Evict(start, |start.queue| - |queue|)
      {
        if config.policy != DropOldest {
          return false;
        }
        EvictTwice(start, |start.queue| - |queue|);
        PopLeft();
      }
      room := true;
    }

    method PopLeft()
      requires queue != []
      modifies this
      ensures View() == Evict(old(View()), 1)
      ensures inFlight == old(inFlight)
    {
      evicted := evicted + queue[..1];
      queue := queue[1..];
      droppedCount := droppedCount + 1;
    }

    method Append(event: Event)
      modifies this
      ensures View() == Accept(config, old(View()), event)
    {
      ghost var start := View();
      queue := queue + [event];
      seenEventIds := seenEventIds + {event.id};
      if event.id !in retryCounts {
        retryCounts := retryCounts[event.id := 0];
      }
      inFlight := if config.deterministic then [event] + inFlight else inFlight;
      assert retryCounts == start.retries[event.id := Lookup(start.retries, event.id)];
    }

    method DeliverOne(event: Event, verdicts: seq<bool>)
      requires ValidConfig(config)
      requires inFlight != [] && inFlight[0] == event
      modifies this
      ensures View() == Run(config, old(View()), DeliverySteps(verdicts))
      ensures inFlight == old(inFlight)[1..]
      ensures delivered == old(delivered) + (if verdicts != [] then [event] else [])
      ensures unhandled == old(unhandled) + (if verdicts == [] then [event] else [])
    {
      ghost var start := View();
      CallHandlers(event, verdicts);
      RunOne(config, start, RaiseSteps(verdicts), Finish(verdicts != []));
      inFlight := inFlight[1..];
      if verdicts == [] {
        unhandled := unhandled + [event];
        return;
      }
      processedCount := processedCount + 1;
      delivered := delivered + [event];
    }

    /** Call the handlers in registration order; one that raises does not stop the others. */
    method CallHandlers(event: Event, verdicts: seq<bool>)
      requires ValidConfig(config)
      requires inFlight != [] && inFlight[0] == event
      modifies this
      ensures View() == Run(config, old(View()), RaiseSteps(verdicts))
      ensures inFlight == old(inFlight)
      ensures delivered == old(delivered) && unhandled == old(unhandled)
    {
      ghost var start := View();
      ghost var now := start;
      for i := 0 to |verdicts|
        invariant inFlight == start.inFlight
        invariant delivered == start.delivered && unhandled == start.unhandled
        invariant View() == now == Run(config, start, RaiseSteps(verdicts[..i]))
      {
        RaiseStepsNext(config, start, verdicts, i);
        if !verdicts[i] {
          HandleFailure(event);
          now := View();
        }
      }
      assert verdicts[..|verdicts|] == verdicts;
    }

    /** The except branches of a delivery: count the failure and retry within the budget. */
    method HandleFailure(event: Event)
      requires ValidConfig(config)
      requires inFlight != [] && inFlight[0] == event
      modifies this
      ensures View() == ApplyHandlerRaises(config, old(View()))
      ensures inFlight == old(inFlight)
      ensures delivered == old(delivered) && unhandled == old(unhandled)
    {
      CountFailure(event);
      var attempts := Lookup(retryCounts, event.id);
      if attempts < config.maxRetries {
        Retry(event, attempts);
      } else {
        GiveUp(event);
      }
    }

    method CountFailure(event: Event)
      modifies this
      ensures var s := old(View());
              View() == s.(failed := s.failed + 1, failures := s.failures + [event])
    {
      failures := failures + [event];
      failedCount := failedCount + 1;
    }

    method Retry(event: Event, attempts: nat)
      requires ValidConfig(config)
      modifies this
      ensures var s := old(View());
              View() == EnqueueForRetry(config, s.(retries := s.retries[event.id := attempts + 1]), event)
      ensures inFlight == old(inFlight)
      ensures delivered == old(delivered) && unhandled == old(unhandled)
    {
      retryCounts := retryCounts[event.id := attempts + 1];
      Requeue(event);
    }

    method GiveUp(event: Event)
      modifies this
      ensures var s := old(View());
              View() == s.(dropped := s.dropped + 1, abandoned := s.abandoned + [event])
    {
      droppedCount := droppedCount + 1;
      abandoned := abandoned + [event];
    }

    method Requeue(event: Event)
      requires ValidConfig(config)
      modifies this
      ensures View() == EnqueueForRetry(config, old(View()), event)
      ensures inFlight == old(inFlight)
      ensures delivered == old(delivered) && unhandled == old(unhandled)
    {
      offered := offered + [event];
      if |queue| >= config.capacity {
        if config.policy == DropOldest {
          PopLeft();
        } else {
          droppedCount := droppedCount + 1;
          refused := refused + [event];
          return;
        }
      }
      queue := queue + [event];
    }

    /** `outcomes(k)` are the handlers' verdicts on the k-th event of this drain. */
    method DeliverPending(outcomes: nat -> seq<bool>) returns (count: nat)
      requires ValidConfig(config)
      modifies this
      ensures count == |old(queue)|
      ensures View() == Run(config, old(View()), DrainSteps(outcomes, |old(queue)|))
      ensures inFlight == old(inFlight)
      ensures old(inFlight) == [] && (forall k: nat | k < |old(queue)| :: outcomes(k) != []) ==>
                BusDrain.AppendedInOrder(old(queue), old(delivered), delivered)
    {
      ghost var start := View();
      var snapshot := queue;
      queue := [];
      snapshot := StableSort.Sort(EventKey, snapshot);
      offered, inFlight := [], snapshot + inFlight;
      ghost var after := View();
      assert after == Apply(config, start, Snapshot);
      RunOne(config, start, [], Snapshot);
      assert [] + [Snapshot] == [Snapshot];
      count := DeliverSnapshot(snapshot, outcomes);
      RunConcat(config, start, [Snapshot], Deliveries(outcomes, |snapshot|));
      assert View() == BusTermination.Drain(config, start, outcomes);
      if start.inFlight == [] && forall k: nat | k < |start.queue| :: outcomes(k) != [] {
        BusDrain.HandledDrainIsOrdered(config, start, outcomes);
      }
    }

    method DeliverSnapshot(snapshot: seq<Event>, outcomes: nat -> seq<bool>) returns (count: nat)
      requires ValidConfig(config)
      requires snapshot <= inFlight
      modifies this
      ensures count == |snapshot|
      ensures View() == Run(config, old(View()), Deliveries(outcomes, |snapshot|))
      ensures inFlight == old(inFlight)[|snapshot|..]
    {
      ghost var start := View();
      count := 0;
      while count < |snapshot|
        invariant count <= |snapshot|
        invariant inFlight == start.inFlight[count..]
        invariant View() == Run(config, start, Deliveries(outcomes, count))
      {
        assert inFlight[0] == snapshot[count];
        DeliverNext(start, snapshot[count], outcomes, count);
        count := count + 1;
      }
    }

    method DeliverNext(ghost start: State, event: Event, outcomes: nat -> seq<bool>, k: nat)
      requires ValidConfig(config)
      requires inFlight != [] && inFlight[0] == event
      requires View() == Run(config, start, Deliveries(outcomes, k))
      modifies this
      ensures View() == Run(config, start, Deliveries(outcomes, k + 1))
      ensures inFlight == old(inFlight)[1..]
    {
      DeliverOne(event, outcomes(k));
      DeliveriesNext(config, start, outcomes, k);
    }
  }
}
