/**
 * Day 3, Binary Diagnostic: gamma and epsilon rates from the most common bit
 * in each position, and the oxygen and CO2 ratings found by repeatedly
 * keeping the reports that match the most (least) common bit.
 */
module BinaryDiagnostic {

  function Pow2(x: nat): (p: nat)
    ensures p >= 1
  {
    if x == 0 then 1 else 2 * Pow2(x - 1)
  }

  /** Bit `x` of `v`, as `v & (1 << x) > 0` reads it. */
  function Bit(v: nat, x: nat): (b: nat)
    ensures b < 2
  {
    if x == 0 then v % 2 else Bit(v / 2, x - 1)
  }

  /** How many reports have bit `x` set. */
  function OnesCount(f: seq<nat>, x: nat): (n: nat)
    ensures n <= |f|
  {
    if f == [] then 0 else OnesCount(f[..|f| - 1], x) + Bit(f[|f| - 1], x)
  }

  /** The reports whose bit `x` equals `bit`, in their original order. */
  function Keep(f: seq<nat>, x: nat, bit: nat): (r: seq<nat>)
    ensures |r| <= |f|
    ensures forall v :: v in r ==> v in f && Bit(v, x) == bit
  {
    if f == [] then []
    else Keep(f[..|f| - 1], x, bit) + (if Bit(f[|f| - 1], x) == bit then [f[|f| - 1]] else [])
  }

  /** The bit a rating keeps: the most common one (ties to 1) for oxygen, the least common (ties to 0) for CO2. */
  function Criterion(f: seq<nat>, x: nat, oxygen: bool): nat
  {
    if OnesCount(f, x) * 2 >= |f| then (if oxygen then 1 else 0) else (if oxygen then 0 else 1)
  }

  /**
   * The rating the loop computes: filter on bit `k - 1`, then `k - 2`, ...;
   * the first time exactly one report survives it is the rating, and 0 if
   * that never happens.
   */
  function RatingFrom(f: seq<nat>, k: nat, oxygen: bool): nat
    decreases k
  {
    if k == 0 then 0
    else
      var f' := Keep(f, k - 1, Criterion(f, k - 1, oxygen));
      if |f'| == 1 then f'[0] else RatingFrom(f', k - 1, oxygen)
  }

  /** `get_oxygen_generator_rating`. */
  method OxygenGeneratorRating(reports: seq<nat>, diagLen: nat) returns (r: nat)
    ensures r == RatingFrom(reports, diagLen, true)
  {
    var filter := reports;
    var k := diagLen;
    while k > 0
      invariant RatingFrom(reports, diagLen, true) == RatingFrom(filter, k, true)
    {
      var x := k - 1;
      var onesCount := OnesCount(filter, x);
      var onesCommon := if onesCount * 2 >= |filter| then 1 else 0;
      filter := Keep(filter, x, onesCommon);
      if |filter| == 1 {
        return filter[0];
      }
      k := k - 1;
    }
    return 0;
  }

  /** `get_co2_scrubber_rating`. */
  method Co2ScrubberRating(reports: seq<nat>, diagLen: nat) returns (r: nat)
    ensures r == RatingFrom(reports, diagLen, false)
  {
    var filter := reports;
    var k := diagLen;
    while k > 0
      invariant RatingFrom(reports, diagLen, false) == RatingFrom(filter, k, false)
    {
      var x := k - 1;
      var onesCount := OnesCount(filter, x);
      var onesUncommon := if onesCount * 2 >= |filter| then 0 else 1;
      filter := Keep(filter, x, onesUncommon);
      if |filter| == 1 {
        return filter[0];
      }
      k := k - 1;
    }
    return 0;
  }

  /** The reports kept on a bit are exactly as many as carry that bit. */
  lemma {:induction false} KeepSize(f: seq<nat>, x: nat)
    ensures |Keep(f, x, 1)| == OnesCount(f, x)
    ensures |Keep(f, x, 0)| == |f| - OnesCount(f, x)
  {
    if f != [] {
      KeepSize(f[..|f| - 1], x);
    }
  }

  /** Oxygen keeps at least half of the reports, CO2 at most half. */
  lemma CriterionShare(f: seq<nat>, x: nat)
    ensures 2 * |Keep(f, x, Criterion(f, x, true))| >= |f|
    ensures 2 * |Keep(f, x, Criterion(f, x, false))| <= |f|
  {
    KeepSize(f, x);
  }

  /** A rating is either 0 or one of the reports. */
  lemma {:induction false} RatingIsReport(f: seq<nat>, k: nat, oxygen: bool)
    ensures RatingFrom(f, k, oxygen) == 0 || RatingFrom(f, k, oxygen) in f
    decreases k
  {
    if k > 0 {
      var f' := Keep(f, k - 1, Criterion(f, k - 1, oxygen));
      if |f'| == 1 {
        assert f'[0] in f';
      } else {
        RatingIsReport(f', k - 1, oxygen);
      }
    }
  }

  /** The oxygen filter never empties a non-empty set of reports. */
  lemma OxygenStaysNonEmpty(f: seq<nat>, x: nat)
    requires |f| > 0
    ensures |Keep(f, x, Criterion(f, x, true))| > 0
  {
    CriterionShare(f, x);
  }

  /**
   * The CO2 filter is applied before the size check, so a single report is
   * always filtered away (it holds the most common bit): the rating is 0.
   */
  lemma Co2OfSingleReport(v: nat, diagLen: nat)
    requires diagLen > 0
    ensures RatingFrom([v], diagLen, false) == 0
  {
    var x := diagLen - 1;
    assert OnesCount([v], x) == Bit(v, x) by {
      assert [v][..0] == [];
    }
    assert Keep([v], x, Criterion([v], x, false)) == [] by {
      assert [v][..0] == [];
    }
    EmptyRating(diagLen - 1);
  }

  lemma {:induction false} EmptyRating(k: nat)
    ensures RatingFrom([], k, false) == 0
  {
    if k > 0 {
      EmptyRating(k - 1);
    }
  }

  // ---------------------------------------------------------------------
  // Gamma and epsilon
  // ---------------------------------------------------------------------

  /** The `most_common` string: bit `diagLen - 1` first, '1' when strictly more than half have it. */
  function MostCommon(report: seq<nat>, diagLen: nat): (s: string)
    ensures |s| == diagLen
    ensures forall i :: 0 <= i < diagLen ==> (s[i] == '1' <==> OnesCount(report, diagLen - 1 - i) * 2 > |report|)
    ensures forall i :: 0 <= i < diagLen ==> s[i] in "01"
  {
    seq(diagLen, i requires 0 <= i < diagLen => if OnesCount(report, diagLen - 1 - i) * 2 > |report| then '1' else '0')
  }

  /** `u16::from_str_radix(s, 2)` on a string of '0' and '1', most significant first. */
  function Binary(s: string): nat
  {
    if s == [] then 0 else 2 * Binary(s[..|s| - 1]) + (if s[|s| - 1] == '1' then 1 else 0)
  }

  lemma {:induction false} BinaryBound(s: string)
    ensures Binary(s) < Pow2(|s|)
  {
    if s != [] {
      BinaryBound(s[..|s| - 1]);
    }
  }

  /** Bit `x` of a binary string's value is its character `x` places from the end. */
  lemma {:induction false} BinaryBit(s: string, x: nat)
    requires x < |s|
    ensures Bit(Binary(s), x) == (if s[|s| - 1 - x] == '1' then 1 else 0)
  {
    var init := s[..|s| - 1];
    var low := if s[|s| - 1] == '1' then 1 else 0;
    assert Binary(s) == 2 * Binary(init) + low;
    if x > 0 {
      BinaryBit(init, x - 1);
      assert Binary(s) / 2 == Binary(init);
    }
  }

  /** The gamma rate: bit `x` is set iff more than half the reports have bit `x` set. */
  function Gamma(report: seq<nat>, diagLen: nat): (g: nat)
    ensures g < Pow2(diagLen)
    ensures forall x :: 0 <= x < diagLen ==> (Bit(g, x) == 1 <==> OnesCount(report, x) * 2 > |report|)
  {
    var s := MostCommon(report, diagLen);
    BinaryBound(s);
    forall x | 0 <= x < diagLen
      ensures Bit(Binary(s), x) == 1 <==> OnesCount(report, x) * 2 > |report|
    {
      BinaryBit(s, x);
      assert diagLen - 1 - (|s| - 1 - x) == x;
    }
    Binary(s)
  }

  /**
   * `!gamma_rate & 0xfff`: the low `k` bits of `g`, each inverted (written
   * bit by bit, least significant first; `k` is 12 for the mask 0xfff).
   */
  function Complement(g: nat, k: nat): nat
  {
    if k == 0 then 0 else (1 - g % 2) + 2 * Complement(g / 2, k - 1)
  }

  /** Inverting the bits of a `k`-bit gamma gives `2^k - 1 - gamma`, so gamma + epsilon = 4095. */
  lemma {:induction false} ComplementValue(g: nat, k: nat)
    requires g < Pow2(k)
    ensures Complement(g, k) == Pow2(k) - 1 - g
  {
    if k > 0 {
      ComplementValue(g / 2, k - 1);
    }
  }

  /** The epsilon rate of a 12-bit gamma rate. */
  function EpsilonRate(gamma: nat): (e: nat)
    requires gamma < 0x1000
    ensures e == 4095 - gamma
  {
    assert Pow2(12) == 0x1000;
    ComplementValue(gamma, 12);
    Complement(gamma, 12)
  }

  function Product(a: nat, b: nat): nat
  {
    a * b
  }

  /** Part 1, the power consumption: gamma times epsilon for 12-bit reports. */
  function PowerConsumption(report: seq<nat>): (power: nat)
    requires |report| > 0
    ensures power == Product(Gamma(report, 12), 4095 - Gamma(report, 12))
  {
    var gamma := Gamma(report, 12);
    assert Pow2(12) == 4096;
    Product(gamma, EpsilonRate(gamma))
  }

  /** Part 2, the life support rating: the oxygen rating times the CO2 rating. */
  method LifeSupportRating(report: seq<nat>) returns (rating: nat)
    requires |report| > 0
    ensures rating == Product(RatingFrom(report, 12, true), RatingFrom(report, 12, false))
  {
    var oxygen := OxygenGeneratorRating(report, 12);
    var co2 := Co2ScrubberRating(report, 12);
    rating := Product(oxygen, co2);
  }
}
