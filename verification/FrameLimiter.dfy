/** The frame-rate limiter of the capture pipeline, in exact arithmetic. */
module FrameLimiter {
  import opened Common

  const SLACK: real := 0.000000001

  function MinInterval(maxFps: nat): real
    requires maxFps > 0
  {
    1.0 / maxFps as real
  }

  predicate Allows(maxFps: nat, last: Option<real>, now: real)
    requires maxFps > 0
  {
    last.None? || now - last.value + SLACK >= MinInterval(maxFps)
  }

  function LastOf(s: seq<real>): Option<real> {
    if s == [] then None else Some(s[|s| - 1])
  }

  /** The accepted times of a stream that starts at a reset. */
  function Accepted(maxFps: nat, clock: seq<real>): seq<real>
    requires maxFps > 0
  {
    if clock == [] then []
    else
      var before := Accepted(maxFps, clock[..|clock| - 1]);
      var now := clock[|clock| - 1];
      if Allows(maxFps, LastOf(before), now) then before + [now] else before
  }

  /** The least time between two accepted frames. */
  function Gap(maxFps: nat): real
    requires maxFps > 0
  {
    MinInterval(maxFps) - SLACK
  }

  lemma GapIsPositive(maxFps: nat)
    requires 0 < maxFps < 1_000_000_000
    ensures Gap(maxFps) > 0.0
  {
    var f := maxFps as real;
    assert SLACK * f < 1.0;
    assert SLACK == SLACK * f / f;
  }

  lemma {:induction false} NeighboursAreApart(maxFps: nat, clock: seq<real>, i: nat)
    requires maxFps > 0
    requires i + 1 < |Accepted(maxFps, clock)|
    ensures Accepted(maxFps, clock)[i + 1] - Accepted(maxFps, clock)[i] >= Gap(maxFps)
  {
    var before := Accepted(maxFps, clock[..|clock| - 1]);
    if i + 1 < |before| {
      NeighboursAreApart(maxFps, clock[..|clock| - 1], i);
    }
  }

  lemma StepMultiple(n: int, g: real)
    ensures (n + 1) as real * g == n as real * g + g
  {
    assert (n + 1) as real == n as real + 1.0;
  }

  /** Any two accepted frames are at least their distance in frames times the gap apart, for any clock. */
  lemma {:induction false} FramesAreSpaced(maxFps: nat, clock: seq<real>, i: nat, j: nat)
    requires maxFps > 0
    requires i <= j < |Accepted(maxFps, clock)|
    ensures Accepted(maxFps, clock)[j] - Accepted(maxFps, clock)[i] >= (j - i) as real * Gap(maxFps)
    ensures Gap(maxFps) == 1.0 / maxFps as real - 0.000000001
    decreases j - i
  {
    if i < j {
      FramesAreSpaced(maxFps, clock, i, j - 1);
      NeighboursAreApart(maxFps, clock, j - 1);
      StepMultiple(j - 1 - i, Gap(maxFps));
    }
  }

  /** Frames i to j, all accepted within a window of length `w`, number at most 1 + w / gap. */
  lemma {:induction false} WindowHoldsFew(maxFps: nat, clock: seq<real>, i: nat, j: nat, w: real)
    requires 0 < maxFps < 1_000_000_000
    requires i <= j < |Accepted(maxFps, clock)|
    requires Accepted(maxFps, clock)[j] - Accepted(maxFps, clock)[i] <= w
    ensures Gap(maxFps) > 0.0
    ensures (j - i + 1) as real <= 1.0 + w / Gap(maxFps)
  {
    GapIsPositive(maxFps);
    FramesAreSpaced(maxFps, clock, i, j);
    var g, n := Gap(maxFps), (j - i) as real;
    assert n * g <= w;
    DivideBy(n, g, w);
  }

  lemma DivideBy(n: real, g: real, w: real)
    requires g > 0.0 && n * g <= w
    ensures n <= w / g
  {
    assert n == n * g / g;
  }

  /** The limiter drops no frame it could take: a refused one came too soon after the last accepted. */
  lemma RefusedCameTooSoon(maxFps: nat, clock: seq<real>, now: real)
    requires maxFps > 0
    ensures Accepted(maxFps, clock + [now]) == Accepted(maxFps, clock)
       <==> Accepted(maxFps, clock) != []
            && now < Accepted(maxFps, clock)[|Accepted(maxFps, clock)| - 1] + (1.0 / maxFps as real - 0.000000001)
  {
    assert (clock + [now])[..|clock|] == clock;
  }

  class Limiter {
    const maxFps: nat
    var lastAcceptedAt: Option<real>
    ghost var clock: seq<real>  // the times offered since the last reset

    ghost predicate Valid()
      reads this
    {
      maxFps > 0 && lastAcceptedAt == LastOf(Accepted(maxFps, clock))
    }

    constructor (maxFps: nat)
      requires maxFps > 0
      ensures Valid() && this.maxFps == maxFps && clock == []
    {
      this.maxFps := maxFps;
      lastAcceptedAt, clock := None, [];
    }

    method Allow(now: real) returns (accepted: bool)
      requires Valid()
      modifies this
      ensures Valid() && clock == old(clock) + [now]
      ensures Accepted(maxFps, clock) == Accepted(maxFps, old(clock)) + if accepted then [now] else []
    {
      assert (clock + [now])[..|clock|] == clock;
      clock := clock + [now];
      if lastAcceptedAt.None? {
        lastAcceptedAt := Some(now);
        return true;
      }
      var elapsed := now - lastAcceptedAt.value;
      if elapsed + SLACK >= MinInterval(maxFps) {
        lastAcceptedAt := Some(now);
        return true;
      }
      accepted := false;
    }

    method Reset()
      requires Valid()
      modifies this
      ensures Valid() && clock == []
    {
      lastAcceptedAt, clock := None, [];
    }
  }
}
