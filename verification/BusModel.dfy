/**
 The Orion event bus as a state machine over its atomic steps.

 A delivery in progress sits on a stack of events in flight: the drain pushes its sorted
 snapshot, a deterministic publish pushes the event it delivers directly, and every
 delivery works on the top. Publishes may fall between any two steps.
 */
module BusModel {
  import StableSort

  datatype Backpressure = DropOldest | DropNewest | Reject

  datatype Config = Config(capacity: nat, maxRetries: nat, policy: Backpressure, deterministic: bool)

  predicate ValidConfig(c: Config) {
    c.capacity > 0
  }

  datatype Event = Event(id: int, device: int, sequence: nat)

  /** The bus's own fields, followed by the history of what happened to each copy of an event. */
  datatype State = State(
    queue: seq<Event>,
    inFlight: seq<Event>,
    seen: set<int>,
    lastSequence: map<int, nat>,
    retries: map<int, nat>,
    processed: nat,
    dropped: nat,
    failed: nat,
    // history
    delivered: seq<Event>,   // deliveries completed with at least one handler
    unhandled: seq<Event>,   // deliveries completed with no handler registered
    evicted: seq<Event>,     // copies pushed out of a full queue
    refused: seq<Event>,     // retry copies that a full queue did not take
    turnedAway: seq<Event>,  // publishes that a full queue did not take
    failures: seq<Event>,    // handler failures, one entry each
    abandoned: seq<Event>,   // handler failures that found no retry left
    offered: seq<Event>)     // entries offered to the queue since it was last emptied

  function Init(): State {
    State([], [], {}, map[], map[], 0, 0, 0, [], [], [], [], [], [], [], [])
  }

  datatype Step =
    | Publish(id: int, device: int)
    | Snapshot
    | HandlerRaises
    | Finish(handled: bool)

  function Lookup(m: map<int, nat>, k: int): nat {
    if k in m then m[k] else 0
  }

  function EventKey(e: Event): (int, int) {
    (e.device, e.sequence)
  }

  function Copies(s: seq<Event>, id: int): nat {
    if s == [] then 0 else Copies(s[..|s| - 1], id) + if s[|s| - 1].id == id then 1 else 0
  }

  function Accept(c: Config, s: State, e: Event): State {
    s.(queue := s.queue + [e],
       seen := s.seen + {e.id},
       retries := s.retries[e.id := Lookup(s.retries, e.id)],
       inFlight := if c.deterministic then [e] + s.inFlight else s.inFlight)
  }

  /** Drop the `n` oldest queued events. */
  function Evict(s: State, n: nat): State
    requires n <= |s.queue|
  {
    s.(queue := s.queue[n..], evicted := s.evicted + s.queue[..n], dropped := s.dropped + n)
  }

  function ApplyPublish(c: Config, s: State, id: int, device: int): State
    requires ValidConfig(c)
  {
    if id in s.seen then s
    else
      var e := Event(id, device, Lookup(s.lastSequence, device) + 1);
      var t := s.(lastSequence := s.lastSequence[device := e.sequence], offered := s.offered + [e]);
      if |t.queue| < c.capacity then Accept(c, t, e)
      else match c.policy
        case DropOldest => Accept(c, Evict(t, |t.queue| - c.capacity + 1), e)
        case DropNewest =>
          t.(seen := t.seen + {id}, dropped := t.dropped + 1, turnedAway := t.turnedAway + [e])
        case Reject =>
          t.(seen := t.seen + {id}, turnedAway := t.turnedAway + [e])
  }

  function ApplySnapshot(s: State): State {
    s.(queue := [], offered := [], inFlight := StableSort.Sort(EventKey, s.queue) + s.inFlight)
  }

  function EnqueueForRetry(c: Config, s: State, e: Event): State
    requires ValidConfig(c)
  {
    var t := s.(offered := s.offered + [e]);
    if |t.queue| < c.capacity then t.(queue := t.queue + [e])
    else if c.policy == DropOldest then
      var u := Evict(t, 1);
      u.(queue := u.queue + [e])
    else t.(dropped := t.dropped + 1, refused := t.refused + [e])
  }

  function ApplyHandlerRaises(c: Config, s: State): State
    requires ValidConfig(c)
  {
    if s.inFlight == [] then s
    else
      var e := s.inFlight[0];
      var t := s.(failed := s.failed + 1, failures := s.failures + [e]);
      var attempts := Lookup(t.retries, e.id);
      if attempts < c.maxRetries then
        EnqueueForRetry(c, t.(retries := t.retries[e.id := attempts + 1]), e)
      else t.(dropped := t.dropped + 1, abandoned := t.abandoned + [e])
  }

  function ApplyFinish(s: State, handled: bool): State {
    if s.inFlight == [] then s
    else
      var t := s.(inFlight := s.inFlight[1..]);
      if handled then t.(processed := t.processed + 1, delivered := t.delivered + [s.inFlight[0]])
      else t.(unhandled := t.unhandled + [s.inFlight[0]])
  }

  function Apply(c: Config, s: State, step: Step): State
    requires ValidConfig(c)
  {
    match step
    case Publish(id, device) => ApplyPublish(c, s, id, device)
    case Snapshot => ApplySnapshot(s)
    case HandlerRaises => ApplyHandlerRaises(c, s)
    case Finish(handled) => ApplyFinish(s, handled)
  }

  function Run(c: Config, s: State, steps: seq<Step>): State
    requires ValidConfig(c)
  {
    if steps == [] then s
    else Apply(c, Run(c, s, steps[..|steps| - 1]), steps[|steps| - 1])
  }

  lemma RunOne(c: Config, s: State, steps: seq<Step>, step: Step)
    requires ValidConfig(c)
    ensures Run(c, s, steps + [step]) == Apply(c, Run(c, s, steps), step)
  {
    assert (steps + [step])[..|steps|] == steps;
  }

  lemma {:induction false} RunConcat(c: Config, s: State, a: seq<Step>, b: seq<Step>)
    requires ValidConfig(c)
    ensures Run(c, s, a + b) == Run(c, Run(c, s, a), b)
  {
    if b == [] {
      assert a + b == a;
    } else {
      var before := b[..|b| - 1];
      RunConcat(c, s, a, before);
      RunLast(c, s, a + b);
      RunLast(c, Run(c, s, a), b);
      assert (a + b)[..|a + b| - 1] == a + before;
    }
  }

  lemma RunLast(c: Config, s: State, steps: seq<Step>)
    requires ValidConfig(c) && steps != []
    ensures Run(c, s, steps) == Apply(c, Run(c, s, steps[..|steps| - 1]), steps[|steps| - 1])
  {
  }

  /** What one delivery does, given each handler's verdict in registration order. */
  function DeliverySteps(verdicts: seq<bool>): seq<Step> {
    RaiseSteps(verdicts) + [Finish(verdicts != [])]
  }

  function RaiseSteps(verdicts: seq<bool>): seq<Step> {
    if verdicts == [] then []
    else RaiseSteps(verdicts[..|verdicts| - 1]) + if verdicts[|verdicts| - 1] then [] else [HandlerRaises]
  }

  /** The deliveries numbered 0 to n - 1 of a drain, one after another. */
  function Deliveries(outcomes: nat -> seq<bool>, n: nat): seq<Step> {
    if n == 0 then [] else Deliveries(outcomes, n - 1) + DeliverySteps(outcomes(n - 1))
  }

  lemma DeliveriesNext(c: Config, s: State, outcomes: nat -> seq<bool>, k: nat)
    requires ValidConfig(c)
    ensures Run(c, s, Deliveries(outcomes, k + 1))
         == Run(c, Run(c, s, Deliveries(outcomes, k)), DeliverySteps(outcomes(k)))
  {
    RunConcat(c, s, Deliveries(outcomes, k), DeliverySteps(outcomes(k)));
  }

  /** One call of deliver_pending on a queue of n events. */
  function DrainSteps(outcomes: nat -> seq<bool>, n: nat): seq<Step> {
    [Snapshot] + Deliveries(outcomes, n)
  }
}
