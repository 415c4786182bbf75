/**
 * Day 6, Lanternfish: a fish spawns every 7 days and a newborn waits 9.
 * Instead of tracking fish, the solver keeps a 9-slot ring of counts and
 * on day `d` adds the spawning fish, `fish[d % 9]`, to slot `(d + 7) % 9`.
 */
module Lanternfish {
  import opened Options
  import opened Text

  const Cycle: nat := 9

  /** `parse`: the first input line, comma-separated `u8` timers; any bad piece fails. */
  function ParseTimers(line: string): (r: Option<seq<nat>>)
    ensures r.Some? ==> forall i :: 0 <= i < |r.value| ==> r.value[i] < U8
    ensures r.Some? ==> |r.value| == |Split(line, ",")|
  {
    ParseAll(Split(line, ","), U8)
  }

  // ---------------------------------------------------------------------
  // Histogram
  // ---------------------------------------------------------------------

  function Count(timers: seq<nat>, t: nat): nat
  {
    if timers == [] then 0 else Count(timers[..|timers| - 1], t) + (if timers[|timers| - 1] == t then 1 else 0)
  }

  function Sum(s: seq<nat>): nat
  {
    SumFrom(s, 0)
  }

  function SumFrom(s: seq<nat>, i: nat): nat
    requires i <= |s|
    decreases |s| - i
  {
    if i == |s| then 0 else s[i] + SumFrom(s, i + 1)
  }

  /** Adding `v` to one entry adds `v` to the total. */
  lemma {:induction false} SumUpdate(s: seq<nat>, x: nat, v: nat, i: nat)
    requires x < |s| && i <= |s|
    ensures SumFrom(s[x := s[x] + v], i) == SumFrom(s, i) + (if i <= x then v else 0)
    decreases |s| - i
  {
    if i < |s| {
      SumUpdate(s, x, v, i + 1);
    }
  }

  predicate Timers(timers: seq<nat>)
  {
    forall i :: 0 <= i < |timers| ==> timers[i] < Cycle
  }

  /** The counts of timers 0 to 8. */
  function Histogram(timers: seq<nat>): (h: seq<nat>)
    ensures |h| == Cycle && forall t :: 0 <= t < Cycle ==> h[t] == Count(timers, t)
  {
    seq(Cycle, t requires 0 <= t => Count(timers, t))
  }

  lemma SumNine(h: seq<nat>)
    requires |h| == Cycle
    ensures Sum(h) == h[0] + h[1] + h[2] + h[3] + h[4] + h[5] + h[6] + h[7] + h[8]
  {
    assert SumFrom(h, 9) == 0;
    assert SumFrom(h, 8) == h[8];
    assert SumFrom(h, 7) == h[7] + SumFrom(h, 8);
    assert SumFrom(h, 6) == h[6] + SumFrom(h, 7);
    assert SumFrom(h, 5) == h[5] + SumFrom(h, 6);
    assert SumFrom(h, 4) == h[4] + SumFrom(h, 5);
    assert SumFrom(h, 3) == h[3] + SumFrom(h, 4);
    assert SumFrom(h, 2) == h[2] + SumFrom(h, 3);
    assert SumFrom(h, 1) == h[1] + SumFrom(h, 2);
  }

  /** Every timer is counted exactly once. */
  lemma {:induction false} HistogramTotal(timers: seq<nat>)
    requires Timers(timers)
    ensures Sum(Histogram(timers)) == |timers|
  {
    if timers == [] {
      SumNine(Histogram(timers));
    } else {
      var front := timers[..|timers| - 1];
      HistogramTotal(front);
      var x := timers[|timers| - 1];
      var hf := Histogram(front);
      assert Histogram(timers) == hf[x := hf[x] + 1];
      SumUpdate(hf, x, 1, 0);
    }
  }

  /** The counting loop of `main`: `fish[x] += 1` for every timer, on a fresh ring. */
  method CountTimers(timers: seq<nat>) returns (fish: array<nat>)
    requires Timers(timers)
    ensures fresh(fish) && fish[..] == Histogram(timers)
  {
    fish := new nat[Cycle](_ => 0);
    for i := 0 to |timers|
      invariant forall t :: 0 <= t < Cycle ==> fish[t] == Count(timers[..i], t)
    {
      assert timers[..i + 1][..i] == timers[..i];
      fish[timers[i]] := fish[timers[i]] + 1;
    }
    assert timers[..|timers|] == timers;
  }

  // ---------------------------------------------------------------------
  // The ring and what it stands for
  // ---------------------------------------------------------------------

  /** Slot `(k + t) % 9` of the ring, for `k` and `t` below 9. */
  function Slot(k: nat, t: nat): nat
    requires k < Cycle && t < Cycle
  {
    if k + t < Cycle then k + t else k + t - Cycle
  }

  lemma SlotMod(d: nat, t: nat)
    requires t < Cycle
    ensures (d + t) % Cycle == Slot(d % Cycle, t)
  {
    var k := d % Cycle;
    assert d == (d / Cycle) * Cycle + k;
    if k + t < Cycle {
      assert d + t == (d / Cycle) * Cycle + (k + t);
    } else {
      assert d + t == (d / Cycle + 1) * Cycle + (k + t - Cycle);
    }
  }

  /** Day `d` on the ring: only slot `(d + 7) % 9` changes, gaining the spawners. */
  function RingDay(ring: seq<nat>, d: nat): (r: seq<nat>)
    requires |ring| == Cycle
    ensures |r| == Cycle
    ensures r[(d + 7) % Cycle] == ring[(d + 7) % Cycle] + ring[d % Cycle]
    ensures forall t :: 0 <= t < Cycle && t != (d + 7) % Cycle ==> r[t] == ring[t]
  {
    ring[(d + 7) % Cycle := ring[(d + 7) % Cycle] + ring[d % Cycle]]
  }

  /** The ring after the first `days` days. */
  function RingAfter(h: seq<nat>, days: nat): (r: seq<nat>)
    requires |h| == Cycle
    ensures |r| == Cycle
  {
    if days == 0 then h else RingDay(RingAfter(h, days - 1), days - 1)
  }

  /**
   * A day in the lanternfish's own terms, on a histogram indexed by timer:
   * every timer drops by one, fish at 0 restart at 6 and each adds a newborn at 8.
   */
  function Generation(h: seq<nat>): (g: seq<nat>)
    requires |h| == Cycle
    ensures |g| == Cycle
  {
    [h[1], h[2], h[3], h[4], h[5], h[6], h[7] + h[0], h[8], h[0]]
  }

  function Generations(h: seq<nat>, days: nat): (g: seq<nat>)
    requires |h| == Cycle
    ensures |g| == Cycle
  {
    if days == 0 then h else Generation(Generations(h, days - 1))
  }

  /** The total grows each day by the number of spawners and never shrinks. */
  lemma RingDayTotal(ring: seq<nat>, d: nat)
    requires |ring| == Cycle
    ensures Sum(RingDay(ring, d)) == Sum(ring) + ring[d % Cycle]
    ensures Sum(RingDay(ring, d)) >= Sum(ring)
  {
    SumUpdate(ring, (d + 7) % Cycle, ring[d % Cycle], 0);
  }

  /** The ring's offset moves on by one slot a day. */
  lemma NextOffset(e: nat)
    ensures (e + 1) % Cycle == (if e % Cycle == 8 then 0 else e % Cycle + 1)
    ensures (e + 7) % Cycle == Slot(e % Cycle, 7)
    ensures e % Cycle == Slot(e % Cycle, 0)
  {
    SlotMod(e, 1);
    SlotMod(e, 7);
    SlotMod(e, 0);
  }

  /** One day on a ring at offset `k` is one generation of the histogram it stands for. */
  lemma RingStepIsGeneration(r: seq<nat>, g: seq<nat>, k: nat, k': nat)
    requires |r| == Cycle && |g| == Cycle && k < Cycle
    requires k' == (if k == 8 then 0 else k + 1)
    requires forall t :: 0 <= t < Cycle ==> r[Slot(k, t)] == g[t]
    ensures forall t :: 0 <= t < Cycle ==>
      r[Slot(k, 7) := r[Slot(k, 7)] + r[Slot(k, 0)]][Slot(k', t)] == Generation(g)[t]
  {
    var r' := r[Slot(k, 7) := r[Slot(k, 7)] + r[Slot(k, 0)]];
    var g' := Generation(g);
    forall t | 0 <= t < Cycle
      ensures r'[Slot(k', t)] == g'[t]
    {
      if t == 6 {
        assert Slot(k', t) == Slot(k, 7);
        assert r[Slot(k, 0)] == g[0] && r[Slot(k, 7)] == g[7];
      } else if t == 8 {
        assert Slot(k', t) == Slot(k, 0) != Slot(k, 7);
        assert r[Slot(k, 0)] == g[0];
      } else {
        assert Slot(k', t) == Slot(k, t + 1) != Slot(k, 7);
        assert r[Slot(k, t + 1)] == g[t + 1];
      }
    }
  }

  /**
   * After `d` days slot `(d + t) % 9` of the ring holds the fish whose
   * timer is `t`: the ring is the lanternfish histogram, rotated.
   */
  lemma {:induction false} RingIsRotatedHistogram(h: seq<nat>, d: nat)
    requires |h| == Cycle
    ensures forall t :: 0 <= t < Cycle ==> RingAfter(h, d)[Slot(d % Cycle, t)] == Generations(h, d)[t]
  {
    if d > 0 {
      var e := d - 1;
      RingIsRotatedHistogram(h, e);
      NextOffset(e);
      var r := RingAfter(h, e);
      RingStepIsGeneration(r, Generations(h, e), e % Cycle, d % Cycle);
      assert RingAfter(h, d) == r[Slot(e % Cycle, 7) := r[Slot(e % Cycle, 7)] + r[Slot(e % Cycle, 0)]];
    }
  }

  /** Rotation keeps the total, so the ring's total is the number of fish. */
  lemma RingTotal(h: seq<nat>, d: nat)
    requires |h| == Cycle
    ensures Sum(RingAfter(h, d)) == Sum(Generations(h, d))
  {
    RingIsRotatedHistogram(h, d);
    var r := RingAfter(h, d);
    var g := Generations(h, d);
    SumNine(r);
    SumNine(g);
    RotationTotal(r, g, d % Cycle);
  }

  /** A ring read from offset `k` has the same total as the histogram it stands for. */
  lemma RotationTotal(r: seq<nat>, g: seq<nat>, k: nat)
    requires |r| == Cycle && |g| == Cycle && k < Cycle
    requires forall t :: 0 <= t < Cycle ==> r[Slot(k, t)] == g[t]
    ensures r[0] + r[1] + r[2] + r[3] + r[4] + r[5] + r[6] + r[7] + r[8]
      == g[0] + g[1] + g[2] + g[3] + g[4] + g[5] + g[6] + g[7] + g[8]
  {
    assert r[Slot(k, 0)] == g[0] && r[Slot(k, 1)] == g[1] && r[Slot(k, 2)] == g[2];
    assert r[Slot(k, 3)] == g[3] && r[Slot(k, 4)] == g[4] && r[Slot(k, 5)] == g[5];
    assert r[Slot(k, 6)] == g[6] && r[Slot(k, 7)] == g[7] && r[Slot(k, 8)] == g[8];
  }

  // ---------------------------------------------------------------------
  // One fish at a time
  // ---------------------------------------------------------------------

  /** How many fish one fish with timer `t` has become after `days` days (itself included). */
  function Descendants(t: nat, days: nat): nat
    decreases days
  {
    if days == 0 then 1
    else if t == 0 then Descendants(6, days - 1) + Descendants(8, days - 1)
    else Descendants(t - 1, days - 1)
  }

  /** What each timer's fish become in `days` days. */
  function Weights(days: nat): (w: seq<nat>)
    ensures |w| == Cycle
  {
    seq(Cycle, t requires 0 <= t => Descendants(t, days))
  }

  function Dot(a: seq<nat>, b: seq<nat>): nat
    requires |a| == |b|
  {
    DotFrom(a, b, 0)
  }

  function DotFrom(a: seq<nat>, b: seq<nat>, i: nat): nat
    requires |a| == |b| && i <= |a|
    decreases |a| - i
  {
    if i == |a| then 0 else a[i] * b[i] + DotFrom(a, b, i + 1)
  }

  lemma DotNine(a: seq<nat>, b: seq<nat>)
    requires |a| == Cycle && |b| == Cycle
    ensures Dot(a, b) == a[0] * b[0] + a[1] * b[1] + a[2] * b[2] + a[3] * b[3] + a[4] * b[4]
      + a[5] * b[5] + a[6] * b[6] + a[7] * b[7] + a[8] * b[8]
  {
    assert DotFrom(a, b, 9) == 0;
    assert DotFrom(a, b, 8) == a[8] * b[8];
    assert DotFrom(a, b, 7) == a[7] * b[7] + DotFrom(a, b, 8);
    assert DotFrom(a, b, 6) == a[6] * b[6] + DotFrom(a, b, 7);
    assert DotFrom(a, b, 5) == a[5] * b[5] + DotFrom(a, b, 6);
    assert DotFrom(a, b, 4) == a[4] * b[4] + DotFrom(a, b, 5);
    assert DotFrom(a, b, 3) == a[3] * b[3] + DotFrom(a, b, 4);
    assert DotFrom(a, b, 2) == a[2] * b[2] + DotFrom(a, b, 3);
    assert DotFrom(a, b, 1) == a[1] * b[1] + DotFrom(a, b, 2);
  }

  /** One more fish with timer `x` adds what that fish becomes. */
  lemma {:induction false} DotIncrement(a: seq<nat>, b: seq<nat>, x: nat, i: nat)
    requires |a| == |b| && x < |a| && i <= |a|
    ensures DotFrom(a[x := a[x] + 1], b, i) == DotFrom(a, b, i) + (if i <= x then b[x] else 0)
    decreases |a| - i
  {
    if i < |a| {
      DotIncrement(a, b, x, i + 1);
      if i == x {
        assert (a[x] + 1) * b[x] == a[x] * b[x] + b[x];
      }
    }
  }

  function GenerationsFirst(h: seq<nat>, days: nat): (g: seq<nat>)
    requires |h| == Cycle
    ensures |g| == Cycle
    decreases days
  {
    if days == 0 then h else GenerationsFirst(Generation(h), days - 1)
  }

  lemma {:induction false} GenerationsCommute(h: seq<nat>, days: nat)
    requires |h| == Cycle
    ensures GenerationsFirst(h, days) == Generations(h, days)
  {
    if days > 0 {
      GenerationsCommute(h, days - 1);
      GenerationsFirstLast(h, days - 1);
    }
  }

  lemma {:induction false} GenerationsFirstLast(h: seq<nat>, days: nat)
    requires |h| == Cycle
    ensures GenerationsFirst(h, days + 1) == Generation(GenerationsFirst(h, days))
    decreases days
  {
    if days > 0 {
      GenerationsFirstLast(Generation(h), days - 1);
    }
  }

  /** The weights one day later: a fish at 0 becomes one at 6 and one at 8, any other moves down. */
  function Shift(w: seq<nat>): (v: seq<nat>)
    requires |w| == Cycle
    ensures |v| == Cycle
  {
    [w[6] + w[8], w[0], w[1], w[2], w[3], w[4], w[5], w[6], w[7]]
  }

  lemma Distribute(a: nat, b: nat, c: nat)
    ensures (a + b) * c == a * c + b * c
  {
  }

  lemma DotGeneration(h: seq<nat>, w: seq<nat>)
    requires |h| == Cycle && |w| == Cycle
    ensures Dot(Generation(h), w) == Dot(h, Shift(w))
  {
    var g, v := Generation(h), Shift(w);
    DotNine(g, w);
    DotNine(h, v);
    Distribute(h[7], h[0], w[6]);
    Distribute(w[6], w[8], h[0]);
    assert h[0] * v[0] == h[0] * w[6] + h[0] * w[8];
    assert g[6] * w[6] == h[7] * w[6] + h[0] * w[6];
  }

  lemma WeightedStep(h: seq<nat>, days: nat)
    requires |h| == Cycle
    ensures Dot(Generation(h), Weights(days)) == Dot(h, Weights(days + 1))
  {
    assert Weights(days + 1) == Shift(Weights(days));
    DotGeneration(h, Weights(days));
  }

  /** The histogram's total after `days` days counts every initial fish's descendants. */
  lemma {:induction false} GenerationsTotal(h: seq<nat>, days: nat)
    requires |h| == Cycle
    ensures Sum(GenerationsFirst(h, days)) == Dot(h, Weights(days))
    decreases days
  {
    if days == 0 {
      SumNine(h);
      DotNine(h, Weights(0));
    } else {
      GenerationsTotal(Generation(h), days - 1);
      WeightedStep(h, days - 1);
    }
  }

  function AllDescendants(timers: seq<nat>, days: nat): nat
  {
    if timers == [] then 0 else AllDescendants(timers[..|timers| - 1], days) + Descendants(timers[|timers| - 1], days)
  }

  lemma {:induction false} HistogramWeighted(timers: seq<nat>, days: nat)
    requires Timers(timers)
    ensures Dot(Histogram(timers), Weights(days)) == AllDescendants(timers, days)
  {
    if timers == [] {
      DotNine(Histogram(timers), Weights(days));
    } else {
      var front := timers[..|timers| - 1];
      HistogramWeighted(front, days);
      var x := timers[|timers| - 1];
      var hf := Histogram(front);
      assert Histogram(timers) == hf[x := hf[x] + 1];
      DotIncrement(hf, Weights(days), x, 0);
    }
  }

  /** The ring's total after `days` days is the number of fish the input's fish have become. */
  lemma RingCountsFish(timers: seq<nat>, days: nat)
    requires Timers(timers)
    ensures Sum(RingAfter(Histogram(timers), days)) == AllDescendants(timers, days)
  {
    var h := Histogram(timers);
    RingTotal(h, days);
    GenerationsCommute(h, days);
    GenerationsTotal(h, days);
    HistogramWeighted(timers, days);
  }

  // ---------------------------------------------------------------------
  // main
  // ---------------------------------------------------------------------

  method Total(fish: array<nat>) returns (n: nat)
    ensures n == Sum(fish[..])
  {
    n := 0;
    for i := 0 to fish.Length
      invariant n + SumFrom(fish[..], i) == Sum(fish[..])
    {
      n := n + fish[i];
    }
  }

  /** The 256-day loop, reading part 1 off on day 80. */
  method Simulate(timers: seq<nat>) returns (part1: nat, part2: nat)
    requires Timers(timers)
    ensures part1 == Sum(RingAfter(Histogram(timers), 80))
    ensures part2 == Sum(RingAfter(Histogram(timers), 256))
  {
    var fish := CountTimers(timers);
    ghost var h := fish[..];
    part1 := 0;
    for day := 0 to 256
      invariant fish[..] == RingAfter(h, day)
      invariant day > 80 ==> part1 == Sum(RingAfter(h, 80))
    {
      if day == 80 {
        part1 := Total(fish);
      }
      ghost var before := fish[..];
      var spawn, parents := day % Cycle, (day + 7) % Cycle;
      fish[parents] := fish[parents] + fish[spawn];
      assert fish[..] == RingDay(before, day);
    }
    part2 := Total(fish);
  }

  /** Both answers count lanternfish: each input fish together with all its descendants. */
  method Solve(timers: seq<nat>) returns (part1: nat, part2: nat)
    requires Timers(timers)
    ensures part1 == AllDescendants(timers, 80)
    ensures part2 == AllDescendants(timers, 256)
  {
    part1, part2 := Simulate(timers);
    RingCountsFish(timers, 80);
    RingCountsFish(timers, 256);
  }
}
