/**
 * Day 1, Sonar Sweep: count how often a depth reading (or a sum of three
 * consecutive readings) is larger than the one before it.
 */
module SonarSweep {

  /** `xs.iter().zip(ys.iter())`: pairs up elements until the shorter side runs out. */
  function Zip(xs: seq<int>, ys: seq<int>): (r: seq<(int, int)>)
    ensures |r| == if |xs| < |ys| then |xs| else |ys|
    ensures forall i :: 0 <= i < |r| ==> r[i] == (xs[i], ys[i])
  {
    if xs == [] || ys == [] then [] else [(xs[0], ys[0])] + Zip(xs[1..], ys[1..])
  }

  /** `iter().skip(n)`: drops the first `n` elements, or all of them. */
  function Skip(xs: seq<int>, n: nat): (r: seq<int>)
    ensures |xs| <= n ==> r == []
    ensures n < |xs| ==> r == xs[n..]
  {
    if |xs| <= n then [] else xs[n..]
  }

  /** `.filter(|(x, y)| x < y).count()` over a sequence of pairs. */
  function CountRising(pairs: seq<(int, int)>): (n: nat)
    ensures n <= |pairs|
  {
    if pairs == [] then 0
    else CountRising(pairs[..|pairs| - 1]) + (if pairs[|pairs| - 1].0 < pairs[|pairs| - 1].1 then 1 else 0)
  }

  /** An index-based reference: the number of `i < k` with `d[i] < d[i + gap]`. */
  function RisesWithin(d: seq<int>, gap: nat, k: nat): nat
    requires k + gap <= |d|
  {
    if k == 0 then 0 else RisesWithin(d, gap, k - 1) + (if d[k - 1] < d[k - 1 + gap] then 1 else 0)
  }

  /** Part 1: the number of readings larger than the previous one. */
  function Part1(depths: seq<int>): (n: nat)
    requires |depths| > 0
    ensures n <= |depths| - 1
  {
    CountRising(Zip(depths, Skip(depths, 1)))
  }

  /** The sums of every three consecutive readings. */
  function Windows(depths: seq<int>): (w: seq<int>)
    ensures |w| == if |depths| < 2 then 0 else |depths| - 2
    ensures forall i {:trigger w[i]} :: 0 <= i < |w| ==> w[i] == depths[i] + depths[i + 1] + depths[i + 2]
  {
    var triplets := Zip(depths, Skip(depths, 1));
    var thirds := Skip(depths, 2);
    seq(if |triplets| < |thirds| then |triplets| else |thirds|, i requires 0 <= i < |triplets| && i < |thirds| => triplets[i].0 + triplets[i].1 + thirds[i])
  }

  /** Part 2: the number of three-reading windows larger than the previous one. */
  function Part2(depths: seq<int>): (n: nat)
    requires |depths| > 0
    ensures n <= if |depths| < 4 then 0 else |depths| - 3
  {
    var w := Windows(depths);
    CountRising(Zip(w, Skip(w, 1)))
  }

  lemma {:induction false} CountRisingShifted(d: seq<int>, gap: nat, k: nat)
    requires gap <= |d| && k + gap <= |d|
    ensures CountRising(Zip(d, Skip(d, gap))[..k]) == RisesWithin(d, gap, k)
  {
    var z := Zip(d, Skip(d, gap));
    if k > 0 {
      CountRisingShifted(d, gap, k - 1);
      assert z[..k][..k - 1] == z[..k - 1];
      if gap < |d| {
        assert z[k - 1] == (d[k - 1], d[k - 1 + gap]);
      }
    }
  }

  lemma CountRisingAll(d: seq<int>)
    requires |d| > 0
    ensures CountRising(Zip(d, Skip(d, 1))) == RisesWithin(d, 1, |d| - 1)
  {
    var z := Zip(d, Skip(d, 1));
    CountRisingShifted(d, 1, |d| - 1);
    assert z[..|d| - 1] == z;
  }

  /** Part 1 counts exactly the positions `i` with `d[i] < d[i + 1]`. */
  lemma Part1Counts(depths: seq<int>)
    requires |depths| > 0
    ensures Part1(depths) == RisesWithin(depths, 1, |depths| - 1)
  {
    CountRisingAll(depths);
  }

  lemma {:induction false} RisesWindows(d: seq<int>, w: seq<int>, k: nat)
    requires |d| >= 3 && |w| == |d| - 2 && k + 3 <= |d|
    requires forall i {:trigger w[i]} :: 0 <= i < |w| ==> w[i] == d[i] + d[i + 1] + d[i + 2]
    ensures RisesWithin(w, 1, k) == RisesWithin(d, 3, k)
  {
    if k > 0 {
      RisesWindows(d, w, k - 1);
      assert w[k - 1] == d[k - 1] + d[k] + d[k + 1];
      assert w[k] == d[k] + d[k + 1] + d[k + 2];
    }
  }

  /**
   * Two overlapping windows share two readings, so part 2 counts exactly the
   * positions `i` with `d[i] < d[i + 3]`.
   */
  lemma Part2Counts(depths: seq<int>)
    requires |depths| >= 3
    ensures Part2(depths) == RisesWithin(depths, 3, |depths| - 3)
  {
    var w := Windows(depths);
    CountRisingAll(w);
    RisesWindows(depths, w, |depths| - 3);
  }
}
