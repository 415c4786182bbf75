/**
 * Day 17, Trick Shot: a probe launched from (0, 0) with a whole-number
 * velocity moves in steps. Each step adds the velocity to the position,
 * drags the horizontal velocity one towards zero and lets gravity take one
 * from the vertical velocity. A launch counts when some step lands the
 * probe inside the target box. Part 1 is the highest point any hitting
 * launch reaches, part 2 the number of hitting launches, over horizontal
 * velocities 1 to the box's right edge and vertical velocities -100 to 99.
 */
module TrickShot {

  /** The target box, both bounds inclusive. */
  datatype Range = Range(xStart: int, xEnd: int, yStart: int, yEnd: int)

  /** The values of a probe's fields. */
  datatype ProbeState = ProbeState(x: int, y: int, xVel: int, yVel: int, peak: int)

  // ---------------------------------------------------------------------
  // Motion
  // ---------------------------------------------------------------------

  /** What `step` makes of the fields: move, raise the peak to the new height, drag, fall. */
  function Next(s: ProbeState): (n: ProbeState)
  {
    var y := s.y + s.yVel;
    ProbeState(s.x + s.xVel, y, if s.xVel > 0 then s.xVel - 1 else if s.xVel < 0 then s.xVel + 1 else 0,
               s.yVel - 1, if s.peak < y then y else s.peak)
  }

  /** The state after `n` steps. */
  function Steps(s: ProbeState, n: nat): ProbeState
    decreases n
  {
    if n == 0 then s else Steps(Next(s), n - 1)
  }

  /** `fire`'s loop condition: short of the box's right edge and above its bottom. */
  predicate Flying(s: ProbeState, t: Range)
  {
    s.x < t.xEnd && s.y > t.yStart
  }

  predicate Inside(s: ProbeState, t: Range)
  {
    t.xStart <= s.x <= t.xEnd && t.yStart <= s.y <= t.yEnd
  }

  /** `0 + 1 + ... + n`. */
  function Tri(n: nat): nat
  {
    if n == 0 then 0 else n + Tri(n - 1)
  }

  /** The highest the probe will still get: while rising it climbs `yVel + (yVel - 1) + ... + 1` more. */
  function Height(s: ProbeState): int
  {
    s.y + if s.yVel >= 0 then Tri(s.yVel) else 0
  }

  /** A step keeps the height to come while the probe rises, and lowers it once the probe falls. */
  lemma NextHeight(s: ProbeState)
    ensures s.yVel >= 0 ==> Height(Next(s)) == Height(s)
    ensures s.yVel < 0 ==> Height(Next(s)) < Height(s)
    ensures Height(s) >= s.y
  {
  }

  /** How `fire`'s loop ends, as a measure: the height still to come, then the rising velocity. */
  function Rising(s: ProbeState): nat
  {
    if s.yVel >= 0 then s.yVel + 1 else 0
  }

  /**
   * `fire` on a probe in state `s`: whether it hits the box, and its state
   * when the loop stops, at the first step inside the box or once the
   * probe is past the box's right edge or not above its bottom.
   */
  function Run(s: ProbeState, t: Range): (bool, ProbeState)
    decreases Height(s) - t.yStart, Rising(s)
  {
    if !Flying(s, t) then (false, s)
    else
      var n := Next(s);
      NextHeight(s);
      if Inside(n, t) then (true, n) else Run(n, t)
  }

  /** The number of steps `fire` takes. */
  function RunLength(s: ProbeState, t: Range): nat
    decreases Height(s) - t.yStart, Rising(s)
  {
    if !Flying(s, t) then 0
    else
      NextHeight(s);
      if Inside(Next(s), t) then 1 else 1 + RunLength(Next(s), t)
  }

  /** Hitting at step `n`: still flying before each of the first `n` steps, inside the box after them. */
  predicate HitAt(s: ProbeState, t: Range, n: nat)
  {
    n >= 1 && Inside(Steps(s, n), t) && forall k :: 0 <= k < n ==> Flying(Steps(s, k), t)
  }

  // ---------------------------------------------------------------------
  // Probe
  // ---------------------------------------------------------------------

  class Probe {
    var x: int
    var y: int
    var xVel: int
    var yVel: int
    var peak: int

    constructor (x: int, y: int, xVel: int, yVel: int, peak: int)
      ensures State() == ProbeState(x, y, xVel, yVel, peak)
    {
      this.x, this.y, this.xVel, this.yVel, this.peak := x, y, xVel, yVel, peak;
    }

    function State(): ProbeState
      reads this
    {
      ProbeState(x, y, xVel, yVel, peak)
    }

    /** `step`. */
    method Step()
      modifies this
      ensures State() == Next(old(State()))
    {
      x := x + xVel;
      y := y + yVel;
      if peak < y {
        peak := y;
      }
      if xVel > 0 {
        xVel := xVel - 1;
      } else if xVel < 0 {
        xVel := xVel + 1;
      }
      yVel := yVel - 1;
    }

    /** `fire`: step while flying, and report a hit at the first step inside the box. */
    method Fire(target: Range) returns (hit: bool)
      modifies this
      ensures (hit, State()) == Run(old(State()), target)
    {
      while x < target.xEnd && y > target.yStart
        invariant Run(State(), target) == Run(old(State()), target)
        decreases Height(State()) - target.yStart, Rising(State())
      {
        NextHeight(State());
        Step();
        if target.xStart <= x <= target.xEnd && target.yStart <= y <= target.yEnd {
          return true;
        }
      }
      return false;
    }
  }

  // ---------------------------------------------------------------------
  // Properties of the motion
  // ---------------------------------------------------------------------

  /** `fire` hits exactly when some step lands in the box with the probe flying before every step up to it. */
  lemma {:induction false} RunHits(s: ProbeState, t: Range)
    ensures Run(s, t).0 <==> exists n :: HitAt(s, t, n)
    decreases Height(s) - t.yStart, Rising(s)
  {
    if Run(s, t).0 {
      RunHitAt(s, t);
    } else {
      forall n | HitAt(s, t, n) ensures false {
        HitRuns(s, t, n);
      }
    }
  }

  /** A hit reported by `fire` comes after `RunLength` steps. */
  lemma {:induction false} RunHitAt(s: ProbeState, t: Range)
    requires Run(s, t).0
    ensures HitAt(s, t, RunLength(s, t))
    decreases Height(s) - t.yStart, Rising(s)
  {
    NextHeight(s);
    var n := RunLength(s, t);
    if !Inside(Next(s), t) {
      RunHitAt(Next(s), t);
      forall k | 0 <= k < n ensures Flying(Steps(s, k), t) {
        if k > 0 {
          assert Steps(s, k) == Steps(Next(s), k - 1);
        }
      }
    }
  }

  /** A hit at any step makes `fire` report one. */
  lemma {:induction false} HitRuns(s: ProbeState, t: Range, n: nat)
    requires HitAt(s, t, n)
    ensures Run(s, t).0
    decreases n
  {
    assert Flying(Steps(s, 0), t);
    NextHeight(s);
    if !Inside(Next(s), t) {
      assert n != 1 by {
        assert Steps(s, 1) == Steps(Next(s), 0);
      }
      forall k | 0 <= k < n - 1 ensures Flying(Steps(Next(s), k), t) {
        assert Flying(Steps(s, k + 1), t);
      }
      HitRuns(Next(s), t, n - 1);
    }
  }

  /** `fire` stops in the state after `RunLength` steps. */
  lemma {:induction false} RunSteps(s: ProbeState, t: Range)
    ensures Run(s, t).1 == Steps(s, RunLength(s, t))
    decreases Height(s) - t.yStart, Rising(s)
  {
    if Flying(s, t) && !Inside(Next(s), t) {
      NextHeight(s);
      RunSteps(Next(s), t);
    }
  }

  /** The peak after `n` steps is the highest of the start's peak and every height reached on the way. */
  lemma {:induction false} PeakSteps(s: ProbeState, n: nat)
    ensures Steps(s, n).peak >= s.peak
    ensures forall k :: 1 <= k <= n ==> Steps(s, k).y <= Steps(s, n).peak
    ensures Steps(s, n).peak == s.peak || exists k :: 1 <= k <= n && Steps(s, k).y == Steps(s, n).peak
    decreases n
  {
    if n > 0 {
      var m := Next(s);
      PeakSteps(m, n - 1);
      forall k | 1 <= k <= n ensures Steps(s, k).y <= Steps(s, n).peak {
        assert Steps(s, k) == Steps(m, k - 1);
        if k == 1 {
          assert Steps(m, 0) == m;
        }
      }
      if Steps(s, n).peak != s.peak {
        if Steps(m, n - 1).peak == m.peak {
          assert Steps(s, 1) == m;
        } else {
          var k :| 1 <= k <= n - 1 && Steps(m, k).y == Steps(m, n - 1).peak;
          assert Steps(s, k + 1) == Steps(m, k);
        }
      }
    }
  }

  /** Gravity: after `n` steps the vertical velocity has lost `n`, and the height is `y + n * (yVel + 1) - Tri(n)`. */
  lemma {:induction false} FallSteps(s: ProbeState, n: nat)
    ensures Steps(s, n).yVel == s.yVel - n
    ensures Steps(s, n).y + Tri(n) == s.y + n * (s.yVel + 1)
    decreases n
  {
    if n > 0 {
      FallSteps(Next(s), n - 1);
      assert (n - 1) * (s.yVel - 1 + 1) + s.yVel + n == n * (s.yVel + 1);
    }
  }

  /** Drag: a probe thrown forwards with `v` slows by one a step, then stands still at `x + Tri(v)`. */
  lemma {:induction false} DragSteps(s: ProbeState, n: nat)
    requires s.xVel >= 0
    ensures Steps(s, n).xVel == if n <= s.xVel then s.xVel - n else 0
    ensures n >= s.xVel ==> Steps(s, n).x == s.x + Tri(s.xVel)
    decreases n
  {
    if n > 0 {
      DragSteps(Next(s), n - 1);
      if s.xVel == 0 {
        StillSteps(s, n);
      }
    }
  }

  /** With no horizontal velocity the probe keeps its `x`. */
  lemma {:induction false} StillSteps(s: ProbeState, n: nat)
    requires s.xVel == 0
    ensures Steps(s, n).x == s.x && Steps(s, n).xVel == 0
    decreases n
  {
    if n > 0 {
      StillSteps(Next(s), n - 1);
    }
  }

  // ---------------------------------------------------------------------
  // find_probes_for_y and main
  // ---------------------------------------------------------------------

  /** A probe launched from the origin with the given velocity and peak 0. */
  function Launch(xVel: int, yVel: int): ProbeState
  {
    ProbeState(0, 0, xVel, yVel, 0)
  }

  /** The number of horizontal velocities `find_probes_for_y` tries: `1..x_end`. */
  function Speeds(t: Range): nat
  {
    if t.xEnd > 0 then t.xEnd else 0
  }

  /** How many of the horizontal velocities `1..n` hit with vertical velocity `y`. */
  function Hits(y: int, t: Range, n: nat): nat
  {
    if n == 0 then 0 else Hits(y, t, n - 1) + if Run(Launch(n, y), t).0 then 1 else 0
  }

  /** The highest peak of those hitting launches, at least 0. */
  function Peak(y: int, t: Range, n: nat): int
  {
    if n == 0 then 0
    else
      var r := Run(Launch(n, y), t);
      var p := Peak(y, t, n - 1);
      if r.0 && r.1.peak > p then r.1.peak else p
  }

  /** The horizontal velocities `1..n` that hit. */
  function HitSet(y: int, t: Range, n: nat): set<int>
  {
    set v | 1 <= v <= n && Run(Launch(v, y), t).0
  }

  /** `Hits` counts the hitting velocities, so it is at most `n`. */
  lemma {:induction false} HitsCount(y: int, t: Range, n: nat)
    ensures Hits(y, t, n) == |HitSet(y, t, n)| <= n
    decreases n
  {
    if n > 0 {
      HitsCount(y, t, n - 1);
      HitSetNext(y, t, n);
    }
  }

  /** Velocity `n` joins the hitting velocities below it if it hits. */
  lemma HitSetNext(y: int, t: Range, n: nat)
    requires n > 0
    ensures n !in HitSet(y, t, n - 1)
    ensures HitSet(y, t, n) == HitSet(y, t, n - 1) + if Run(Launch(n, y), t).0 then {n} else {}
  {
  }

  /** `Peak` is the best peak of a hitting launch, or 0 if none does better. */
  lemma {:induction false} PeakBest(y: int, t: Range, n: nat)
    ensures Peak(y, t, n) >= 0
    ensures forall v :: 1 <= v <= n && Run(Launch(v, y), t).0 ==> Run(Launch(v, y), t).1.peak <= Peak(y, t, n)
    ensures Peak(y, t, n) == 0 || exists v :: 1 <= v <= n && Run(Launch(v, y), t).0 && Run(Launch(v, y), t).1.peak == Peak(y, t, n)
    decreases n
  {
    if n > 0 {
      PeakBest(y, t, n - 1);
    }
  }

  /** `find_probes_for_y`: the best peak and the number of hits over horizontal velocities `1..x_end`. */
  method FindProbesForY(y: int, range: Range) returns (peak: int, count: nat)
    ensures peak == Peak(y, range, Speeds(range)) && count == Hits(y, range, Speeds(range))
  {
    var xVel := 0;
    peak, count := 0, 0;
    while xVel < range.xEnd
      invariant 0 <= xVel <= Speeds(range)
      invariant peak == Peak(y, range, xVel) && count == Hits(y, range, xVel)
    {
      xVel := xVel + 1;
      var probe := new Probe(0, 0, xVel, y, 0);
      var hit := probe.Fire(range);
      if hit {
        count := count + 1;
        if probe.peak > peak {
          peak := probe.peak;
        }
      }
    }
  }

  /** The best peak over vertical velocities `lo..hi - 1`, at least -1. */
  function BestPeak(t: Range, lo: int, hi: int): int
    decreases hi - lo
  {
    if hi <= lo then -1
    else
      var p := Peak(hi - 1, t, Speeds(t));
      var b := BestPeak(t, lo, hi - 1);
      if p > b then p else b
  }

  /** The number of hits over vertical velocities `lo..hi - 1`. */
  function AllHits(t: Range, lo: int, hi: int): nat
    decreases hi - lo
  {
    if hi <= lo then 0 else AllHits(t, lo, hi - 1) + Hits(hi - 1, t, Speeds(t))
  }

  /** `BestPeak` is at least every vertical velocity's peak ... */
  lemma {:induction false} BestPeakBound(t: Range, lo: int, hi: int)
    ensures forall y :: lo <= y < hi ==> Peak(y, t, Speeds(t)) <= BestPeak(t, lo, hi)
    decreases hi - lo
  {
    if lo < hi {
      BestPeakBound(t, lo, hi - 1);
    }
  }

  /** ... and is one of them, unless there are none. */
  lemma {:induction false} BestPeakReached(t: Range, lo: int, hi: int)
    ensures BestPeak(t, lo, hi) == -1 || exists y :: lo <= y < hi && Peak(y, t, Speeds(t)) == BestPeak(t, lo, hi)
    decreases hi - lo
  {
    if lo < hi {
      BestPeakReached(t, lo, hi - 1);
      var y := hi - 1;
      if Peak(y, t, Speeds(t)) > BestPeak(t, lo, y) {
        assert exists w :: lo <= w < hi && Peak(w, t, Speeds(t)) == BestPeak(t, lo, hi);
      } else if BestPeak(t, lo, y) != -1 {
        var z :| lo <= z < y && Peak(z, t, Speeds(t)) == BestPeak(t, lo, y);
        assert lo <= z < hi && Peak(z, t, Speeds(t)) == BestPeak(t, lo, hi);
      }
    }
  }

  /** The target of the puzzle input, written into `main`. */
  const Target := Range(244, 303, -91, -54)

  /** `main`: the best peak and the total number of hits for vertical velocities -100 to 99. */
  method Solve(target: Range) returns (part1: int, part2: nat)
    ensures part1 == BestPeak(target, -100, 100) && part2 == AllHits(target, -100, 100)
  {
    part1, part2 := -1, 0;
    var yVel := -100;
    while yVel < 100
      invariant -100 <= yVel <= 100
      invariant part1 == BestPeak(target, -100, yVel) && part2 == AllHits(target, -100, yVel)
    {
      var peak, newCount := FindProbesForY(yVel, target);
      if peak > part1 {
        part1 := peak;
      }
      part2 := part2 + newCount;
      yVel := yVel + 1;
    }
  }
}
