/** What the event bus keeps over every run. */
module BusLaws {
  import opened BusModel
  import StableSort

  // ---------------------------------------------------------------------------------------
  // Counting copies

  lemma {:induction false} CopiesConcat(a: seq<Event>, b: seq<Event>, id: int)
    ensures Copies(a + b, id) == Copies(a, id) + Copies(b, id)
  {
    if b == [] {
      assert a + b == a;
    } else {
      CopiesConcat(a, b[..|b| - 1], id);
      assert (a + b)[..|a + b| - 1] == a + b[..|b| - 1];
    }
  }

  lemma CopiesAppend(a: seq<Event>, e: Event, id: int)
    ensures Copies(a + [e], id) == Copies(a, id) + if e.id == id then 1 else 0
  {
    assert (a + [e])[..|a|] == a;
  }

  lemma CopiesHead(s: seq<Event>, id: int)
    requires s != []
    ensures Copies(s, id) == (if s[0].id == id then 1 else 0) + Copies(s[1..], id)
  {
    assert s == [s[0]] + s[1..];
    CopiesConcat([s[0]], s[1..], id);
    CopiesAppend([], s[0], id);
    assert [] + [s[0]] == [s[0]];
  }

  lemma CopiesSplit(s: seq<Event>, n: nat, id: int)
    requires n <= |s|
    ensures Copies(s, id) == Copies(s[..n], id) + Copies(s[n..], id)
  {
    assert s == s[..n] + s[n..];
    CopiesConcat(s[..n], s[n..], id);
  }

  lemma {:induction false} CopiesInsert(x: Event, s: seq<Event>, id: int)
    ensures Copies(StableSort.Insert(EventKey, x, s), id) == Copies([x] + s, id)
  {
    CopiesHead([x] + s, id);
    assert ([x] + s)[1..] == s;
    if s != [] && StableSort.Before(EventKey(s[0]), EventKey(x)) {
      CopiesInsert(x, s[1..], id);
      var r := StableSort.Insert(EventKey, x, s[1..]);
      CopiesHead([s[0]] + r, id);
      assert ([s[0]] + r)[1..] == r;
      CopiesHead([x] + s[1..], id);
      assert ([x] + s[1..])[1..] == s[1..];
      CopiesHead(s, id);
    }
  }

  lemma {:induction false} CopiesSort(s: seq<Event>, id: int)
    ensures Copies(StableSort.Sort(EventKey, s), id) == Copies(s, id)
  {
    if s != [] {
      var t := StableSort.Sort(EventKey, s[1..]);
      CopiesSort(s[1..], id);
      CopiesInsert(s[0], t, id);
      CopiesHead([s[0]] + t, id);
      assert ([s[0]] + t)[1..] == t;
      CopiesHead(s, id);
    }
  }

  // ---------------------------------------------------------------------------------------
  // The retry ledger

  /** Copies an accepted event starts with: a deterministic publish both queues it and delivers it. */
  function Base(c: Config): nat {
    if c.deterministic then 2 else 1
  }

  function AllCopies(s: State, id: int): nat {
    Copies(s.queue, id) + Copies(s.inFlight, id) + Copies(s.delivered, id) + Copies(s.unhandled, id)
    + Copies(s.evicted, id) + Copies(s.refused, id)
  }

  ghost predicate Ledger(c: Config, s: State, id: int) {
    && (id in s.retries ==> id in s.seen && s.retries[id] <= c.maxRetries)
    && AllCopies(s, id) == if id in s.retries then Base(c) + s.retries[id] else 0
  }

  lemma LedgerEvict(c: Config, s: State, n: nat, id: int)
    requires n <= |s.queue|
    ensures Ledger(c, Evict(s, n), id) <==> Ledger(c, s, id)
  {
    CopiesSplit(s.queue, n, id);
    CopiesConcat(s.evicted, s.queue[..n], id);
  }

  lemma LedgerAccept(c: Config, s: State, e: Event, id: int)
    requires Ledger(c, s, id)
    requires e.id !in s.seen
    ensures Ledger(c, Accept(c, s, e), id)
  {
    var t := Accept(c, s, e);
    CopiesAppend(s.queue, e, id);
    if c.deterministic {
      CopiesHead(t.inFlight, id);
      assert t.inFlight[1..] == s.inFlight;
    }
    if e.id == id {
      assert t.retries[id] == 0 && AllCopies(s, id) == 0;
    } else {
      assert id in t.retries <==> id in s.retries;
    }
  }

  lemma LedgerTakeIn(c: Config, s: State, e: Event, id: int)
    requires ValidConfig(c)
    requires Ledger(c, s, id) && e.id !in s.seen
    requires |s.queue| >= c.capacity
    ensures Ledger(c, Accept(c, Evict(s, |s.queue| - c.capacity + 1), e), id)
  {
    var n := |s.queue| - c.capacity + 1;
    LedgerEvict(c, s, n, id);
    LedgerAccept(c, Evict(s, n), e, id);
  }

  function Numbered(s: State, e: Event): State {
    s.(lastSequence := s.lastSequence[e.device := e.sequence], offered := s.offered + [e])
  }

  lemma LedgerNumbered(c: Config, s: State, e: Event, id: int)
    requires Ledger(c, s, id)
    ensures Ledger(c, Numbered(s, e), id)
  {
  }

  lemma LedgerTurnedAway(c: Config, s: State, e: Event, lost: nat, id: int)
    requires Ledger(c, s, id)
    ensures Ledger(c, s.(seen := s.seen + {e.id}, dropped := lost, turnedAway := s.turnedAway + [e]), id)
  {
  }

  /** What a publish of a new event comes to. */
  lemma PublishCases(c: Config, s: State, e: Event)
    requires ValidConfig(c)
    requires e.id !in s.seen && e.sequence == Lookup(s.lastSequence, e.device) + 1
    ensures ApplyPublish(c, s, e.id, e.device) ==
            var t := Numbered(s, e);
            if |t.queue| < c.capacity then Accept(c, t, e)
            else if c.policy == DropOldest then Accept(c, Evict(t, |t.queue| - c.capacity + 1), e)
            else t.(seen := t.seen + {e.id}, turnedAway := t.turnedAway + [e],
                    dropped := if c.policy == DropNewest then t.dropped + 1 else t.dropped)
  {
  }

  lemma LedgerPublish(c: Config, s: State, newId: int, device: int, id: int)
    requires ValidConfig(c)
    requires Ledger(c, s, id)
    ensures Ledger(c, ApplyPublish(c, s, newId, device), id)
  {
    if newId !in s.seen {
      var e := Event(newId, device, Lookup(s.lastSequence, device) + 1);
      PublishCases(c, s, e);
      LedgerNew(c, s, e, ApplyPublish(c, s, newId, device), id);
    }
  }

  lemma LedgerNew(c: Config, s: State, e: Event, r: State, id: int)
    requires ValidConfig(c)
    requires Ledger(c, s, id) && e.id !in s.seen
    requires r ==
             var t := Numbered(s, e);
             if |t.queue| < c.capacity then Accept(c, t, e)
             else if c.policy == DropOldest then Accept(c, Evict(t, |t.queue| - c.capacity + 1), e)
             else t.(seen := t.seen + {e.id}, turnedAway := t.turnedAway + [e],
                     dropped := if c.policy == DropNewest then t.dropped + 1 else t.dropped)
    ensures Ledger(c, r, id)
  {
    var t := Numbered(s, e);
    LedgerNumbered(c, s, e, id);
    if |t.queue| < c.capacity {
      LedgerAccept(c, t, e, id);
    } else if c.policy == DropOldest {
      LedgerTakeIn(c, t, e, id);
    } else {
      LedgerTurnedAway(c, t, e, r.dropped, id);
    }
  }

  /** A retry copy joins the queue, in the place of the oldest if that is full, or is refused. */
  ghost predicate Requeued(s: State, r: State, e: Event) {
    || (r.queue == s.queue + [e] && r.evicted == s.evicted && r.refused == s.refused)
    || (s.queue != [] && r.queue == s.queue[1..] + [e] && r.evicted == s.evicted + s.queue[..1] && r.refused == s.refused)
    || (r.queue == s.queue && r.evicted == s.evicted && r.refused == s.refused + [e])
  }

  lemma RequeueCopies(s: State, r: State, e: Event, id: int)
    requires Requeued(s, r, e)
    ensures Copies(r.queue, id) + Copies(r.evicted, id) + Copies(r.refused, id)
         == Copies(s.queue, id) + Copies(s.evicted, id) + Copies(s.refused, id) + if e.id == id then 1 else 0
  {
    CopiesAppend(s.queue, e, id);
    CopiesAppend(s.refused, e, id);
    if s.queue != [] {
      CopiesSplit(s.queue, 1, id);
      CopiesConcat(s.evicted, s.queue[..1], id);
      CopiesAppend(s.queue[1..], e, id);
    }
  }

  lemma RaiseRequeues(c: Config, s: State)
    requires ValidConfig(c)
    requires s.inFlight != [] && s.inFlight[0].id in s.retries
    ensures var e, r := s.inFlight[0], ApplyHandlerRaises(c, s);
            && r.inFlight == s.inFlight && r.delivered == s.delivered && r.unhandled == s.unhandled && r.seen == s.seen
            && if s.retries[e.id] < c.maxRetries
               then r.retries == s.retries[e.id := s.retries[e.id] + 1] && Requeued(s, r, e)
               else r.retries == s.retries && r.queue == s.queue && r.evicted == s.evicted && r.refused == s.refused
  {
  }

  lemma InFlightIsKnown(c: Config, s: State)
    requires s.inFlight != [] && Ledger(c, s, s.inFlight[0].id)
    ensures s.inFlight[0].id in s.retries
  {
    CopiesHead(s.inFlight, s.inFlight[0].id);
  }

  lemma LedgerSnapshot(c: Config, s: State, id: int)
    requires Ledger(c, s, id)
    ensures Ledger(c, ApplySnapshot(s), id)
  {
    var sorted := StableSort.Sort(EventKey, s.queue);
    CopiesSort(s.queue, id);
    CopiesConcat(sorted, s.inFlight, id);
    var t := ApplySnapshot(s);
    assert t.inFlight == sorted + s.inFlight && t.queue == [];
  }

  /** One more copy, on the strength of one more retry. */
  lemma LedgerRetry(c: Config, s: State, r: State, e: Event, id: int)
    requires Ledger(c, s, id)
    requires e.id in s.retries && s.retries[e.id] < c.maxRetries
    requires r.retries == s.retries[e.id := s.retries[e.id] + 1] && r.seen == s.seen
    requires r.inFlight == s.inFlight && r.delivered == s.delivered && r.unhandled == s.unhandled
    requires Requeued(s, r, e)
    ensures Ledger(c, r, id)
  {
    RequeueCopies(s, r, e, id);
  }

  lemma {:induction false} LedgerHandlerRaises(c: Config, s: State, id: int)
    requires ValidConfig(c)
    requires Ledger(c, s, id)
    requires s.inFlight != [] ==> Ledger(c, s, s.inFlight[0].id)
    ensures Ledger(c, ApplyHandlerRaises(c, s), id)
  {
    if s.inFlight != [] {
      var e := s.inFlight[0];
      InFlightIsKnown(c, s);
      RaiseRequeues(c, s);
      if s.retries[e.id] < c.maxRetries {
        LedgerRetry(c, s, ApplyHandlerRaises(c, s), e, id);
      }
    }
  }

  lemma FinishMoves(s: State, handled: bool)
    requires s.inFlight != []
    ensures var r := ApplyFinish(s, handled);
            && r.queue == s.queue && r.evicted == s.evicted && r.refused == s.refused
            && r.retries == s.retries && r.seen == s.seen && r.inFlight == s.inFlight[1..]
            && if handled then r.delivered == s.delivered + [s.inFlight[0]] && r.unhandled == s.unhandled
               else r.delivered == s.delivered && r.unhandled == s.unhandled + [s.inFlight[0]]
  {
  }

  lemma LedgerFinish(c: Config, s: State, handled: bool, id: int)
    requires Ledger(c, s, id)
    ensures Ledger(c, ApplyFinish(s, handled), id)
  {
    if s.inFlight != [] {
      FinishMoves(s, handled);
      CopiesHead(s.inFlight, id);
      if handled {
        CopiesAppend(s.delivered, s.inFlight[0], id);
      } else {
        CopiesAppend(s.unhandled, s.inFlight[0], id);
      }
    }
  }

  lemma {:induction false} LedgerStep(c: Config, s: State, step: Step, id: int)
    requires ValidConfig(c)
    requires s.inFlight != [] ==> Ledger(c, s, s.inFlight[0].id)
    requires Ledger(c, s, id)
    ensures Ledger(c, Apply(c, s, step), id)
  {
    match step
    case Publish(newId, device) => LedgerPublish(c, s, newId, device, id);
    case Snapshot => LedgerSnapshot(c, s, id);
    case HandlerRaises => LedgerHandlerRaises(c, s, id);
    case Finish(handled) => LedgerFinish(c, s, handled, id);
  }

  /** Every copy of an event is accounted for: one (two if deterministic) plus one per retry granted. */
  lemma {:induction false} RetryLedger(c: Config, steps: seq<Step>, id: int)
    requires ValidConfig(c)
    ensures Ledger(c, Run(c, Init(), steps), id)
  {
    if steps != [] {
      var before := steps[..|steps| - 1];
      var s := Run(c, Init(), before);
      RetryLedger(c, before, id);
      if s.inFlight != [] {
        RetryLedger(c, before, s.inFlight[0].id);
      }
      LedgerStep(c, s, steps[|steps| - 1], id);
    }
  }

  // ---------------------------------------------------------------------------------------
  // How often an event is delivered

  /** One retry round: take the snapshot, let the only handler raise, finish. */
  function RetryRounds(k: nat): seq<Step> {
    if k == 0 then [] else RetryRounds(k - 1) + [Snapshot, HandlerRaises, Finish(true)]
  }

  /** A run in which event 0 is delivered as often as any event ever can be. */
  function WorstRun(c: Config): seq<Step> {
    Opening(c) + RetryRounds(c.maxRetries) + [Snapshot, Finish(true)]
  }

  lemma RunThree(c: Config, s: State, a: Step, b: Step, d: Step)
    requires ValidConfig(c)
    ensures Run(c, s, [a, b, d]) == Apply(c, Apply(c, Apply(c, s, a), b), d)
  {
    assert [a, b, d][..2] == [a, b] && [a, b][..1] == [a] && [a][..0] == [];
    RunLast(c, s, [a, b, d]);
    RunLast(c, s, [a, b]);
    RunLast(c, s, [a]);
  }

  /** Event 0 alone waits in the queue, with k retries spent and d deliveries made. */
  ghost predicate Waiting(s: State, k: nat, d: nat) {
    && s.queue == [Event(0, 0, 1)]
    && s.inFlight == []
    && s.seen == {0}
    && s.retries == map[0 := k]
    && Copies(s.delivered, 0) == |s.delivered| == d
    && (forall e | e in s.delivered :: e == Event(0, 0, 1))
  }

  lemma SnapshotOfOne(c: Config, s: State, k: nat, d: nat)
    requires ValidConfig(c)
    requires Waiting(s, k, d)
    ensures Apply(c, s, Snapshot) == s.(queue := [], offered := [], inFlight := [Event(0, 0, 1)])
  {
    var one := s.queue;
    assert one[1..] == [];
    assert StableSort.Sort(EventKey, one) == one;
    assert one + s.inFlight == one;
  }

  lemma RetryQueuesAgain(c: Config, s: State, k: nat)
    requires ValidConfig(c)
    requires s.queue == [] && s.inFlight == [Event(0, 0, 1)] && s.retries == map[0 := k]
    requires k < c.maxRetries
    ensures var t := Apply(c, s, HandlerRaises);
            && t.queue == [Event(0, 0, 1)] && t.inFlight == s.inFlight && t.seen == s.seen
            && t.retries == map[0 := k + 1] && t.delivered == s.delivered
  {
    assert s.retries[0 := k + 1] == map[0 := k + 1];
  }

  lemma RoundDelivers(c: Config, s: State, k: nat, d: nat)
    requires ValidConfig(c)
    requires Waiting(s, k, d)
    requires k < c.maxRetries
    ensures Waiting(Run(c, s, [Snapshot, HandlerRaises, Finish(true)]), k + 1, d + 1)
  {
    RunThree(c, s, Snapshot, HandlerRaises, Finish(true));
    SnapshotOfOne(c, s, k, d);
    RetryQueuesAgain(c, Apply(c, s, Snapshot), k);
    CopiesAppend(s.delivered, Event(0, 0, 1), 0);
  }

  lemma {:induction false} RoundsDeliver(c: Config, s: State, k: nat, d: nat)
    requires ValidConfig(c)
    requires Waiting(s, 0, d)
    requires k <= c.maxRetries
    ensures Waiting(Run(c, s, RetryRounds(k)), k, d + k)
  {
    if k > 0 {
      RoundsDeliver(c, s, k - 1, d);
      RoundDelivers(c, Run(c, s, RetryRounds(k - 1)), k - 1, d + k - 1);
      RunConcat(c, s, RetryRounds(k - 1), [Snapshot, HandlerRaises, Finish(true)]);
    }
  }

  function Opening(c: Config): seq<Step> {
    [Publish(0, 0)] + if c.deterministic then [Finish(true)] else []
  }

  lemma FirstPublish(c: Config)
    requires ValidConfig(c)
    ensures var t := Apply(c, Init(), Publish(0, 0));
            && t.queue == [Event(0, 0, 1)] && t.seen == {0} && t.retries == map[0 := 0] && t.delivered == []
            && t.inFlight == if c.deterministic then [Event(0, 0, 1)] else []
  {
    var e := Event(0, 0, 1);
    assert [] + [e] == [e] && [e] + [] == [e];
  }

  lemma OpeningRuns(c: Config)
    requires ValidConfig(c)
    ensures var t := Apply(c, Init(), Publish(0, 0));
            Run(c, Init(), Opening(c)) == if c.deterministic then Apply(c, t, Finish(true)) else t
  {
    assert [] + [Publish(0, 0)] == [Publish(0, 0)];
    RunOne(c, Init(), [], Publish(0, 0));
    if c.deterministic {
      RunOne(c, Init(), [Publish(0, 0)], Finish(true));
    } else {
      assert [Publish(0, 0)] + [] == [Publish(0, 0)];
    }
  }

  lemma OpeningWaits(c: Config)
    requires ValidConfig(c)
    ensures Waiting(Run(c, Init(), Opening(c)), 0, Base(c) - 1)
  {
    FirstPublish(c);
    OpeningRuns(c);
    CopiesAppend([], Event(0, 0, 1), 0);
    assert [] + [Event(0, 0, 1)] == [Event(0, 0, 1)];
  }

  lemma BeforeTheLast(c: Config, s: State)
    requires ValidConfig(c)
    requires s == Run(c, Init(), Opening(c) + RetryRounds(c.maxRetries))
    ensures Waiting(s, c.maxRetries, Base(c) - 1 + c.maxRetries)
    ensures Run(c, Init(), WorstRun(c)) == Apply(c, Apply(c, s, Snapshot), Finish(true))
  {
    var before := Opening(c) + RetryRounds(c.maxRetries);
    OpeningWaits(c);
    RoundsDeliver(c, Run(c, Init(), Opening(c)), c.maxRetries, Base(c) - 1);
    RunConcat(c, Init(), Opening(c), RetryRounds(c.maxRetries));
    assert WorstRun(c) == (before + [Snapshot]) + [Finish(true)];
    RunOne(c, Init(), before, Snapshot);
    RunOne(c, Init(), before + [Snapshot], Finish(true));
  }

  lemma LastDelivers(c: Config, s: State, k: nat, d: nat)
    requires ValidConfig(c)
    requires Waiting(s, k, d)
    ensures var out := Apply(c, Apply(c, s, Snapshot), Finish(true)).delivered;
            Copies(out, 0) == |out| == d + 1 && forall e | e in out :: e == Event(0, 0, 1)
  {
    SnapshotOfOne(c, s, k, d);
    CopiesAppend(s.delivered, Event(0, 0, 1), 0);
  }

  lemma {:induction false} WorstRunDelivers(c: Config)
    requires ValidConfig(c)
    ensures Copies(Run(c, Init(), WorstRun(c)).delivered, 0) == Base(c) + c.maxRetries
    ensures |Run(c, Init(), WorstRun(c)).delivered| == Base(c) + c.maxRetries
    ensures forall e | e in Run(c, Init(), WorstRun(c)).delivered :: e == Event(0, 0, 1)
  {
    var s := Run(c, Init(), Opening(c) + RetryRounds(c.maxRetries));
    BeforeTheLast(c, s);
    LastDelivers(c, s, c.maxRetries, Base(c) - 1 + c.maxRetries);
  }

  /**
   The exact delivery bound. With `n == 1` this is the documented "at most once": it holds of
   every run just when the bus is asynchronous and allows no retry.
   */
  lemma DeliveryBoundIsExact(c: Config, n: nat)
    requires ValidConfig(c)
    ensures (forall steps: seq<Step>, id: int :: Copies(Run(c, Init(), steps).delivered, id) <= n)
       <==> Base(c) + c.maxRetries <= n
  {
    WorstRunDelivers(c);
    assert Copies(Run(c, Init(), WorstRun(c)).delivered, 0) == Base(c) + c.maxRetries;
    forall steps: seq<Step>, id: int
      ensures Copies(Run(c, Init(), steps).delivered, id) <= Base(c) + c.maxRetries
    {
      RetryLedger(c, steps, id);
    }
  }

  lemma AtMostOnceExactly(c: Config)
    requires ValidConfig(c)
    ensures (forall steps: seq<Step>, id: int :: Copies(Run(c, Init(), steps).delivered, id) <= 1)
       <==> !c.deterministic && c.maxRetries == 0
  {
    DeliveryBoundIsExact(c, 1);
  }
}
