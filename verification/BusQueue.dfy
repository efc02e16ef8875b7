/** The bus's bounded queue and its counters against independent definitions. */
module BusQueue {
  import opened BusModel
  import opened BusLaws

  function LastN(s: seq<Event>, n: nat): seq<Event> {
    if |s| <= n then s else s[|s| - n..]
  }

  function FirstN(s: seq<Event>, n: nat): seq<Event> {
    if |s| <= n then s else s[..n]
  }

  ghost predicate Window(c: Config, s: State) {
    s.queue == if c.policy == DropOldest then LastN(s.offered, c.capacity) else FirstN(s.offered, c.capacity)
  }

  lemma OfferToLast(q: seq<Event>, o: seq<Event>, n: nat, e: Event)
    requires n > 0
    requires q == LastN(o, n)
    ensures LastN(o + [e], n) == if |q| < n then q + [e] else q[1..] + [e]
  {
  }

  lemma OfferToFirst(q: seq<Event>, o: seq<Event>, n: nat, e: Event)
    requires n > 0
    requires q == FirstN(o, n)
    ensures FirstN(o + [e], n) == if |q| < n then q + [e] else q
  {
  }

  /** Between drains the queue is a window over the publishes and retries offered to it. */
  lemma {:induction false} QueueIsWindow(c: Config, steps: seq<Step>)
    requires ValidConfig(c)
    ensures Window(c, Run(c, Init(), steps))
    ensures |Run(c, Init(), steps).queue| <= c.capacity
  {
    if steps != [] {
      var last := steps[|steps| - 1];
      QueueIsWindow(c, steps[..|steps| - 1]);
      WindowStep(c, Run(c, Init(), steps[..|steps| - 1]), last);
    }
  }

  lemma PublishQueue(c: Config, s: State, id: int, device: int)
    requires ValidConfig(c)
    requires |s.queue| <= c.capacity
    ensures var e := Event(id, device, Lookup(s.lastSequence, device) + 1);
            var t := ApplyPublish(c, s, id, device);
            if id in s.seen then t == s
            else
              && t.offered == s.offered + [e]
              && t.queue == if |s.queue| < c.capacity then s.queue + [e]
                            else if c.policy == DropOldest then s.queue[1..] + [e] else s.queue
  {
  }

  lemma WindowPublish(c: Config, s: State, id: int, device: int)
    requires ValidConfig(c)
    requires Window(c, s)
    ensures Window(c, ApplyPublish(c, s, id, device))
  {
    var e := Event(id, device, Lookup(s.lastSequence, device) + 1);
    PublishQueue(c, s, id, device);
    if c.policy == DropOldest {
      OfferToLast(s.queue, s.offered, c.capacity, e);
    } else {
      OfferToFirst(s.queue, s.offered, c.capacity, e);
    }
  }

  lemma WindowRetry(c: Config, s: State, e: Event)
    requires ValidConfig(c)
    requires Window(c, s)
    ensures Window(c, EnqueueForRetry(c, s, e))
  {
    if c.policy == DropOldest {
      OfferToLast(s.queue, s.offered, c.capacity, e);
    } else {
      OfferToFirst(s.queue, s.offered, c.capacity, e);
    }
  }

  lemma WindowStep(c: Config, s: State, step: Step)
    requires ValidConfig(c)
    requires Window(c, s)
    ensures Window(c, Apply(c, s, step))
  {
    match step
    case Publish(id, device) => WindowPublish(c, s, id, device);
    case HandlerRaises =>
      if s.inFlight != [] {
        var e := s.inFlight[0];
        var t := s.(failed := s.failed + 1, failures := s.failures + [e]);
        WindowRetry(c, t.(retries := t.retries[e.id := Lookup(t.retries, e.id) + 1]), e);
      }
    case Snapshot =>
    case Finish(_) =>
  }

  // ---------------------------------------------------------------------------------------

  /** The counters are the lengths of the histories. */
  ghost predicate Counted(c: Config, s: State) {
    && s.processed == |s.delivered|
    && s.failed == |s.failures|
    && s.dropped == |s.evicted| + |s.refused| + |s.abandoned|
                    + if c.policy == DropNewest then |s.turnedAway| else 0
  }

  /** An event's retries are its handler failures, up to the budget; the rest were abandoned. */
  ghost predicate RetriesCounted(c: Config, retries: map<int, nat>, failures: seq<Event>, abandoned: seq<Event>, id: int) {
    var f := Copies(failures, id);
    && Lookup(retries, id) == (if f <= c.maxRetries then f else c.maxRetries)
    && Copies(abandoned, id) == f - Lookup(retries, id)
  }

  lemma FailureIsCounted(c: Config, retries: map<int, nat>, failures: seq<Event>, abandoned: seq<Event>, e: Event, id: int)
    requires RetriesCounted(c, retries, failures, abandoned, id)
    ensures var attempts := Lookup(retries, e.id);
            if attempts < c.maxRetries then
              RetriesCounted(c, retries[e.id := attempts + 1], failures + [e], abandoned, id)
            else RetriesCounted(c, retries, failures + [e], abandoned + [e], id)
  {
    CopiesAppend(failures, e, id);
    CopiesAppend(abandoned, e, id);
  }

  lemma CountedStep(c: Config, s: State, step: Step)
    requires ValidConfig(c)
    requires Counted(c, s)
    ensures Counted(c, Apply(c, s, step))
  {
  }

  lemma RaiseFields(c: Config, s: State)
    requires ValidConfig(c)
    requires s.inFlight != []
    ensures var t := ApplyHandlerRaises(c, s);
            var e := s.inFlight[0];
            var attempts := Lookup(s.retries, e.id);
            && t.failures == s.failures + [e]
            && t.retries == (if attempts < c.maxRetries then s.retries[e.id := attempts + 1] else s.retries)
            && t.abandoned == if attempts < c.maxRetries then s.abandoned else s.abandoned + [e]
  {
  }

  lemma {:induction false} RetriesCountedStep(c: Config, s: State, step: Step, id: int)
    requires ValidConfig(c)
    requires RetriesCounted(c, s.retries, s.failures, s.abandoned, id)
    ensures var t := Apply(c, s, step); RetriesCounted(c, t.retries, t.failures, t.abandoned, id)
  {
    if step.HandlerRaises? && s.inFlight != [] {
      RaiseFields(c, s);
      FailureIsCounted(c, s.retries, s.failures, s.abandoned, s.inFlight[0], id);
    }
  }

  lemma {:induction false} MetricsAreExact(c: Config, steps: seq<Step>, id: int)
    requires ValidConfig(c)
    ensures Counted(c, Run(c, Init(), steps))
    ensures var s := Run(c, Init(), steps); RetriesCounted(c, s.retries, s.failures, s.abandoned, id)
  {
    if steps != [] {
      var s := Run(c, Init(), steps[..|steps| - 1]);
      MetricsAreExact(c, steps[..|steps| - 1], id);
      CountedStep(c, s, steps[|steps| - 1]);
      RetriesCountedStep(c, s, steps[|steps| - 1], id);
    }
  }
}
