/** Per-device delivery order over whole runs of the event bus. */
module BusOrder {
  import opened BusModel
  import opened BusLaws
  import StableSort

  /** Events of one device appear in strictly increasing sequence order. */
  ghost predicate PerDeviceIncreasing(s: seq<Event>) {
    forall i, j | 0 <= i < j < |s| :: s[i].device == s[j].device ==> s[i].sequence < s[j].sequence
  }

  ghost predicate Precedes(a: seq<Event>, b: seq<Event>) {
    forall x, y | x in a && y in b :: x.device == y.device ==> x.sequence < y.sequence
  }

  lemma IncreasingConcat(a: seq<Event>, b: seq<Event>)
    ensures PerDeviceIncreasing(a + b)
       <==> PerDeviceIncreasing(a) && PerDeviceIncreasing(b) && Precedes(a, b)
  {
    var s := a + b;
    if PerDeviceIncreasing(s) {
      forall i, j | 0 <= i < j < |a|
        ensures a[i].device == a[j].device ==> a[i].sequence < a[j].sequence
      {
        assert s[i] == a[i] && s[j] == a[j];
      }
      forall i, j | 0 <= i < j < |b|
        ensures b[i].device == b[j].device ==> b[i].sequence < b[j].sequence
      {
        assert s[|a| + i] == b[i] && s[|a| + j] == b[j];
      }
      forall x, y | x in a && y in b
        ensures x.device == y.device ==> x.sequence < y.sequence
      {
        var i :| 0 <= i < |a| && a[i] == x;
        var j :| 0 <= j < |b| && b[j] == y;
        assert s[i] == x && s[|a| + j] == y;
      }
    }
    if PerDeviceIncreasing(a) && PerDeviceIncreasing(b) && Precedes(a, b) {
      forall i, j | 0 <= i < j < |s|
        ensures s[i].device == s[j].device ==> s[i].sequence < s[j].sequence
      {
        if i < |a| <= j {
          assert s[i] in a && s[j] in b;
        }
      }
    }
  }

  lemma {:induction false} InsertKeepsOrder(x: Event, t: seq<Event>)
    requires PerDeviceIncreasing(t)
    requires Precedes([x], t)
    ensures PerDeviceIncreasing(StableSort.Insert(EventKey, x, t))
  {
    assert x in [x];
    if t != [] && StableSort.Before(EventKey(t[0]), EventKey(x)) {
      var rest := StableSort.Insert(EventKey, x, t[1..]);
      assert t == [t[0]] + t[1..];
      IncreasingConcat([t[0]], t[1..]);
      InsertKeepsOrder(x, t[1..]);
      forall y | y in rest
        ensures t[0].device == y.device ==> t[0].sequence < y.sequence
      {
        StableSort.InsertMember(EventKey, x, t[1..], y);
      }
      IncreasingConcat([t[0]], rest);
    } else {
      IncreasingConcat([x], t);
    }
  }

  lemma {:induction false} SortMembers(s: seq<Event>, y: Event)
    ensures y in StableSort.Sort(EventKey, s) <==> y in s
  {
    assert y in StableSort.Sort(EventKey, s) <==> y in multiset(StableSort.Sort(EventKey, s));
    assert y in s <==> y in multiset(s);
  }

  lemma {:induction false} SortKeepsOrder(s: seq<Event>)
    requires PerDeviceIncreasing(s)
    ensures PerDeviceIncreasing(StableSort.Sort(EventKey, s))
  {
    if s != [] {
      assert s == [s[0]] + s[1..];
      IncreasingConcat([s[0]], s[1..]);
      SortKeepsOrder(s[1..]);
      var t := StableSort.Sort(EventKey, s[1..]);
      forall y | y in t
        ensures s[0].device == y.device ==> s[0].sequence < y.sequence
      {
        SortMembers(s[1..], y);
      }
      InsertKeepsOrder(s[0], t);
    }
  }

  /** Dropping the entries from `from` up to `to` keeps the order of the rest. */
  lemma CutKeepsOrder(a: seq<Event>, b: seq<Event>, d: seq<Event>)
    requires PerDeviceIncreasing(a + b + d)
    ensures PerDeviceIncreasing(a + d)
  {
    IncreasingConcat(a + b, d);
    IncreasingConcat(a, b);
    forall x, y | x in a && y in d
      ensures x.device == y.device ==> x.sequence < y.sequence
    {
      assert x in a + b;
    }
    IncreasingConcat(a, d);
  }

  // ---------------------------------------------------------------------------------------

  /** What has been delivered, then what is in flight, then what waits. */
  function Trace(s: State): seq<Event> {
    s.delivered + s.inFlight + s.queue
  }

  ghost predicate Numbered(s: State, t: seq<Event>) {
    forall e | e in t :: e.sequence <= Lookup(s.lastSequence, e.device)
  }

  ghost predicate Ordered(s: State) {
    PerDeviceIncreasing(Trace(s)) && Numbered(s, Trace(s))
  }

  ghost predicate NoRetryGranted(s: State) {
    forall id | id in s.retries :: s.retries[id] == 0
  }

  lemma RetriesOnlyGrow(c: Config, s: State, step: Step, id: int)
    requires ValidConfig(c)
    requires id in s.retries
    ensures id in Apply(c, s, step).retries && s.retries[id] <= Apply(c, s, step).retries[id]
  {
  }

  /** What stays of the trace when the `n` oldest queued events are dropped. */
  function Kept(s: State, n: nat): seq<Event>
    requires n <= |s.queue|
  {
    s.delivered + s.inFlight + s.queue[n..]
  }

  lemma KeptIsOrdered(s: State, n: nat)
    requires n <= |s.queue|
    requires Ordered(s)
    ensures PerDeviceIncreasing(Kept(s, n)) && Numbered(s, Kept(s, n))
  {
    var front := s.delivered + s.inFlight;
    assert s.queue == s.queue[..n] + s.queue[n..];
    assert Trace(s) == front + s.queue[..n] + s.queue[n..];
    CutKeepsOrder(front, s.queue[..n], s.queue[n..]);
    assert forall x | x in Kept(s, n) :: x in Trace(s);
  }

  lemma NextIsOrdered(s: State, n: nat, e: Event, t: State)
    requires n <= |s.queue|
    requires PerDeviceIncreasing(Kept(s, n)) && Numbered(s, Kept(s, n))
    requires e.sequence == Lookup(s.lastSequence, e.device) + 1
    requires t.lastSequence == s.lastSequence[e.device := e.sequence]
    requires t.delivered == s.delivered && t.inFlight == s.inFlight && t.queue == s.queue[n..] + [e]
    ensures Ordered(t)
  {
    assert Trace(t) == Kept(s, n) + [e];
    IncreasingConcat(Kept(s, n), [e]);
  }

  lemma OrderedPublish(c: Config, s: State, id: int, device: int)
    requires ValidConfig(c) && !c.deterministic
    requires Ordered(s)
    ensures Ordered(ApplyPublish(c, s, id, device))
  {
    if id !in s.seen {
      var e := Event(id, device, Lookup(s.lastSequence, device) + 1);
      var t := ApplyPublish(c, s, id, device);
      if |s.queue| < c.capacity {
        assert s.queue[0..] == s.queue;
        KeptIsOrdered(s, 0);
        NextIsOrdered(s, 0, e, t);
      } else if c.policy == DropOldest {
        var n := |s.queue| - c.capacity + 1;
        KeptIsOrdered(s, n);
        NextIsOrdered(s, n, e, t);
      } else {
        assert Trace(t) == Trace(s);
      }
    }
  }

  lemma OrderedSnapshot(s: State)
    requires s.inFlight == []
    requires Ordered(s)
    ensures Ordered(ApplySnapshot(s))
  {
    var sorted := StableSort.Sort(EventKey, s.queue);
    assert Trace(s) == s.delivered + s.queue;
    assert Trace(ApplySnapshot(s)) == s.delivered + sorted;
    IncreasingConcat(s.delivered, s.queue);
    SortKeepsOrder(s.queue);
    forall y | y in sorted
      ensures y in s.queue
    {
      SortMembers(s.queue, y);
    }
    IncreasingConcat(s.delivered, sorted);
  }

  lemma OrderedFinish(s: State, handled: bool)
    requires Ordered(s)
    ensures Ordered(ApplyFinish(s, handled))
  {
    if s.inFlight != [] {
      var t := ApplyFinish(s, handled);
      var front, rest := [s.inFlight[0]], s.inFlight[1..];
      assert s.inFlight == front + rest;
      assert Trace(s) == s.delivered + front + (rest + s.queue);
      if handled {
        assert Trace(t) == Trace(s);
      } else {
        CutKeepsOrder(s.delivered, front, rest + s.queue);
        assert Trace(t) == s.delivered + (rest + s.queue);
        assert forall x | x in Trace(t) :: x in Trace(s);
      }
    }
  }

  lemma GrantShows(c: Config, s: State)
    requires ValidConfig(c)
    requires s.inFlight != [] && Lookup(s.retries, s.inFlight[0].id) < c.maxRetries
    ensures !NoRetryGranted(Apply(c, s, HandlerRaises))
  {
    var t := Apply(c, s, HandlerRaises);
    var id := s.inFlight[0].id;
    assert id in t.retries && t.retries[id] > 0;
  }

  lemma {:induction false} OrderedStep(c: Config, s: State, step: Step)
    requires ValidConfig(c) && !c.deterministic
    requires Ordered(s)
    requires step.Snapshot? ==> s.inFlight == []
    requires NoRetryGranted(Apply(c, s, step))
    ensures Ordered(Apply(c, s, step))
  {
    match step
    case Publish(id, device) => OrderedPublish(c, s, id, device);
    case Snapshot => OrderedSnapshot(s);
    case HandlerRaises =>
      if s.inFlight != [] {
        if Lookup(s.retries, s.inFlight[0].id) < c.maxRetries {
          GrantShows(c, s);
        } else {
          assert Trace(Apply(c, s, step)) == Trace(s);
        }
      }
    case Finish(handled) => OrderedFinish(s, handled);
  }

  /** One drainer: a snapshot is taken only when the previous one has been worked off. */
  ghost predicate Serial(c: Config, s: State, steps: seq<Step>)
    requires ValidConfig(c)
  {
    steps == [] ||
    (var before := steps[..|steps| - 1];
     Serial(c, s, before) && (steps[|steps| - 1].Snapshot? ==> Run(c, s, before).inFlight == []))
  }

  lemma {:induction false} SerialConcat(c: Config, s: State, a: seq<Step>, b: seq<Step>)
    requires ValidConfig(c)
    requires Serial(c, s, a) && Serial(c, Run(c, s, a), b)
    ensures Serial(c, s, a + b)
  {
    if b == [] {
      assert a + b == a;
    } else {
      var last := |b| - 1;
      SerialConcat(c, s, a, b[..last]);
      RunConcat(c, s, a, b[..last]);
      assert (a + b)[..|a + b| - 1] == a + b[..last];
    }
  }

  lemma {:induction false} OrderedRun(c: Config, steps: seq<Step>)
    requires ValidConfig(c) && !c.deterministic
    requires Serial(c, Init(), steps)
    requires NoRetryGranted(Run(c, Init(), steps))
    ensures Ordered(Run(c, Init(), steps))
  {
    if steps != [] {
      var before, last := steps[..|steps| - 1], steps[|steps| - 1];
      var s := Run(c, Init(), before);
      forall id | id in s.retries
        ensures s.retries[id] == 0
      {
        RetriesOnlyGrow(c, s, last, id);
      }
      OrderedRun(c, before);
      OrderedStep(c, s, last);
    }
  }

  /**
   With one drainer and no retry granted, an asynchronous bus delivers each device's events in
   strictly increasing sequence order and no event twice, whatever the interleaving of
   publishes, evictions and drains.
   */
  lemma DeliveredInOrder(c: Config, steps: seq<Step>)
    requires ValidConfig(c) && !c.deterministic
    requires Serial(c, Init(), steps)
    requires NoRetryGranted(Run(c, Init(), steps))
    ensures PerDeviceIncreasing(Run(c, Init(), steps).delivered)
    ensures forall id :: Copies(Run(c, Init(), steps).delivered, id) <= 1
  {
    var s := Run(c, Init(), steps);
    OrderedRun(c, steps);
    assert Trace(s) == s.delivered + (s.inFlight + s.queue);
    IncreasingConcat(s.delivered, s.inFlight + s.queue);
    forall id
      ensures Copies(s.delivered, id) <= 1
    {
      RetryLedger(c, steps, id);
    }
  }

  lemma SerialOne(c: Config, s: State, step: Step)
    requires ValidConfig(c)
    requires step.Snapshot? ==> s.inFlight == []
    ensures Serial(c, s, [step])
    ensures Run(c, s, [step]) == Apply(c, s, step)
  {
    assert [step][..0] == [];
    assert Serial(c, s, []);
    assert [] + [step] == [step];
    RunOne(c, s, [], step);
  }

  lemma RoundIsSerial(c: Config, s: State, k: nat, d: nat)
    requires ValidConfig(c)
    requires Waiting(s, k, d)
    ensures Serial(c, s, [Snapshot, HandlerRaises, Finish(true)])
  {
    SerialOne(c, s, Snapshot);
    var u := Run(c, s, [Snapshot]);
    SerialOne(c, u, HandlerRaises);
    SerialConcat(c, s, [Snapshot], [HandlerRaises]);
    SerialOne(c, Run(c, s, [Snapshot] + [HandlerRaises]), Finish(true));
    SerialConcat(c, s, [Snapshot] + [HandlerRaises], [Finish(true)]);
    assert [Snapshot] + [HandlerRaises] + [Finish(true)] == [Snapshot, HandlerRaises, Finish(true)];
  }

  lemma {:induction false} RoundsAreSerial(c: Config, s: State, k: nat, d: nat)
    requires ValidConfig(c)
    requires Waiting(s, 0, d)
    requires k <= c.maxRetries
    ensures Serial(c, s, RetryRounds(k))
  {
    if k > 0 {
      RoundsAreSerial(c, s, k - 1, d);
      RoundsDeliver(c, s, k - 1, d);
      RoundIsSerial(c, Run(c, s, RetryRounds(k - 1)), k - 1, d + k - 1);
      SerialConcat(c, s, RetryRounds(k - 1), [Snapshot, HandlerRaises, Finish(true)]);
    }
  }

  lemma WorstRunIsSerial(c: Config)
    requires ValidConfig(c)
    ensures Serial(c, Init(), WorstRun(c))
  {
    SerialOne(c, Init(), Publish(0, 0));
    SerialOne(c, Run(c, Init(), [Publish(0, 0)]), Finish(true));
    SerialConcat(c, Init(), [Publish(0, 0)], [Finish(true)]);
    assert [Publish(0, 0)] + [] == [Publish(0, 0)];
    var open, rounds := Opening(c), RetryRounds(c.maxRetries);
    OpeningWaits(c);
    var s := Run(c, Init(), open);
    RoundsAreSerial(c, s, c.maxRetries, Base(c) - 1);
    RoundsDeliver(c, s, c.maxRetries, Base(c) - 1);
    SerialConcat(c, Init(), open, rounds);
    RunConcat(c, Init(), open, rounds);
    var t := Run(c, Init(), open + rounds);
    SerialOne(c, t, Snapshot);
    SerialOne(c, Run(c, t, [Snapshot]), Finish(true));
    SerialConcat(c, t, [Snapshot], [Finish(true)]);
    assert [Snapshot] + [Finish(true)] == [Snapshot, Finish(true)];
    SerialConcat(c, Init(), open + rounds, [Snapshot, Finish(true)]);
  }

  /**
   The documented per-device order holds of every run with one drainer just when the bus is
   asynchronous and allows no retry.
   */
  lemma OrderHoldsExactly(c: Config)
    requires ValidConfig(c)
    ensures (forall steps: seq<Step> | Serial(c, Init(), steps) ::
               PerDeviceIncreasing(Run(c, Init(), steps).delivered))
       <==> !c.deterministic && c.maxRetries == 0
  {
    if !c.deterministic && c.maxRetries == 0 {
      forall steps: seq<Step> | Serial(c, Init(), steps)
        ensures PerDeviceIncreasing(Run(c, Init(), steps).delivered)
      {
        var s := Run(c, Init(), steps);
        forall id | id in s.retries
          ensures s.retries[id] == 0
        {
          RetryLedger(c, steps, id);
        }
        DeliveredInOrder(c, steps);
      }
    } else {
      WorstRunIsSerial(c);
      WorstRunDelivers(c);
      var d := Run(c, Init(), WorstRun(c)).delivered;
      assert d[0] in d && d[1] in d;
      assert !PerDeviceIncreasing(d);
    }
  }
}
