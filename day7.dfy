/**
 * Day 7, The Treachery of Whales: choose the position the crabs spend the
 * least fuel to reach. Part 1 pays one unit per step and tries every crab's
 * position; part 2 pays `1 + 2 + ... + d` for `d` steps and tries the
 * positions below the largest crab.
 */
module TreacheryOfWhales {
  import opened Options
  import opened Text
  import opened Sorting

  /** `u64::MAX`, where both folds start. */
  const U64Max: nat := U64 - 1

  /** `parse`: the first input line, comma-separated `u16` positions. */
  function ParseCrabs(line: string): (r: Option<seq<nat>>)
    ensures r.Some? ==> forall i :: 0 <= i < |r.value| ==> r.value[i] < U16
  {
    ParseAll(Split(line, ","), U16)
  }

  // ---------------------------------------------------------------------
  // Fuel
  // ---------------------------------------------------------------------

  function Distance(x: nat, y: nat): nat
  {
    if x < y then y - x else x - y
  }

  /** The fuel for `d` steps when each step costs one more than the last: `1 + 2 + ... + d`. */
  function Triangle(d: nat): nat
  {
    if d == 0 then 0 else Triangle(d - 1) + d
  }

  /** The closed form the solver computes, `d * (d + 1) / 2`, is that sum. */
  lemma {:induction false} TriangleFormula(d: nat)
    ensures d * (d + 1) / 2 == Triangle(d)
  {
    if d > 0 {
      TriangleFormula(d - 1);
      assert d * (d + 1) == (d - 1) * d + 2 * d;
    }
  }

  lemma {:induction false} TriangleMonotone(a: nat, b: nat)
    requires a <= b
    ensures Triangle(a) <= Triangle(b)
    decreases b
  {
    if a < b {
      TriangleMonotone(a, b - 1);
    }
  }

  /** One crab's fuel to move from `y` to `x`: one unit per step, or `Triangle` of the steps. */
  function Fuel(x: nat, y: nat, triangular: bool): nat
  {
    if triangular then Triangle(Distance(x, y)) else Distance(x, y)
  }

  /** Everyone's fuel to reach `x`. */
  function Cost(crabs: seq<nat>, x: nat, triangular: bool): nat
  {
    if crabs == [] then 0 else Cost(crabs[..|crabs| - 1], x, triangular) + Fuel(x, crabs[|crabs| - 1], triangular)
  }

  lemma {:induction false} CostRemove(s: seq<nat>, i: nat, x: nat, triangular: bool)
    requires i < |s|
    ensures Cost(s, x, triangular) == Cost(s[..i] + s[i + 1..], x, triangular) + Fuel(x, s[i], triangular)
  {
    var n := |s| - 1;
    var rest := s[..i] + s[i + 1..];
    if i == n {
      assert rest == s[..n];
    } else {
      var front := s[..n];
      CostRemove(front, i, x, triangular);
      assert rest[..|rest| - 1] == front[..i] + front[i + 1..];
      assert rest[|rest| - 1] == s[n];
    }
  }

  /** What the crabs pay does not depend on their order, so sorting changes no cost. */
  lemma {:induction false} CostPermutation(a: seq<nat>, b: seq<nat>, x: nat, triangular: bool)
    requires multiset(a) == multiset(b)
    ensures Cost(a, x, triangular) == Cost(b, x, triangular)
    decreases |a|
  {
    if a != [] {
      var n := |a| - 1;
      var v := a[n];
      var front := a[..n];
      assert a == front + [v];
      assert multiset(a) == multiset(front) + multiset{v};
      assert v in multiset(b);
      var i :| 0 <= i < |b| && b[i] == v;
      var rest := b[..i] + b[i + 1..];
      assert b == b[..i] + [v] + b[i + 1..];
      assert multiset(b) == multiset(b[..i]) + multiset{v} + multiset(b[i + 1..]);
      assert multiset(rest) == multiset(b[..i]) + multiset(b[i + 1..]);
      assert multiset(front) == multiset(a) - multiset{v};
      assert multiset(rest) == multiset(b) - multiset{v};
      CostPermutation(front, rest, x, triangular);
      CostRemove(b, i, x, triangular);
    }
  }

  /** Moving further out than every crab only costs more. */
  lemma {:induction false} CostBeyond(crabs: seq<nat>, m: nat, x: nat, triangular: bool)
    requires m <= x && forall i :: 0 <= i < |crabs| ==> crabs[i] <= m
    ensures Cost(crabs, m, triangular) <= Cost(crabs, x, triangular)
  {
    if crabs != [] {
      var n := |crabs| - 1;
      CostBeyond(crabs[..n], m, x, triangular);
      TriangleMonotone(Distance(m, crabs[n]), Distance(x, crabs[n]));
    }
  }

  // ---------------------------------------------------------------------
  // The two folds
  // ---------------------------------------------------------------------

  /** `candidates.fold(best, ..)`, keeping the cheaper of `best` and each candidate's linear cost. */
  function FoldPositions(crabs: seq<nat>, candidates: seq<nat>, best: nat): (r: nat)
    ensures r <= best
    ensures forall x :: x in candidates ==> r <= Cost(crabs, x, false)
    ensures r == best || exists x :: x in candidates && r == Cost(crabs, x, false)
  {
    if candidates == [] then best
    else
      var c := Cost(crabs, candidates[0], false);
      var r := FoldPositions(crabs, candidates[1..], if c < best then c else best);
      assert forall x :: x in candidates[1..] ==> x in candidates;
      assert forall x :: x in candidates ==> x == candidates[0] || x in candidates[1..];
      assert r == c ==> candidates[0] in candidates && r == Cost(crabs, candidates[0], false);
      assert r != best && r != c ==> exists x :: x in candidates && r == Cost(crabs, x, false) by {
        if r != best && r != c {
          var x :| x in candidates[1..] && r == Cost(crabs, x, false);
          assert x in candidates && r == Cost(crabs, x, false);
        }
      }
      r
  }

  /** `(lo..hi).fold(best, ..)`, keeping the cheaper triangular cost. */
  function FoldRange(crabs: seq<nat>, lo: nat, hi: nat, best: nat): (r: nat)
    ensures r <= best
    ensures forall x: nat :: lo <= x < hi ==> r <= Cost(crabs, x, true)
    ensures r == best || exists x: nat :: lo <= x < hi && r == Cost(crabs, x, true)
    decreases hi - lo
  {
    if hi <= lo then best
    else
      var c := Cost(crabs, lo, true);
      var r := FoldRange(crabs, lo + 1, hi, if c < best then c else best);
      if r == best then r
      else if r == c then
        var x: nat := lo;
        assert x < hi && r == Cost(crabs, x, true);
        assert exists y: nat :: lo <= y < hi && r == Cost(crabs, y, true);
        r
      else
        assert exists x: nat :: lo <= x < hi && r == Cost(crabs, x, true) by {
          var x: nat :| lo + 1 <= x < hi && r == Cost(crabs, x, true);
          assert lo <= x < hi && r == Cost(crabs, x, true);
        }
        r
  }

  /** Sorting keeps the crabs and what they pay. */
  lemma SortKeepsCosts(crabs: seq<nat>)
    ensures forall x :: x in Sort(crabs) <==> x in crabs
    ensures forall x, triangular :: Cost(Sort(crabs), x, triangular) == Cost(crabs, x, triangular)
  {
    var sorted := Sort(crabs);
    assert forall x :: x in sorted <==> x in multiset(crabs);
    forall x, triangular ensures Cost(sorted, x, triangular) == Cost(crabs, x, triangular) {
      CostPermutation(sorted, crabs, x, triangular);
    }
  }

  /** Part 1: the cheapest linear cost over the crabs' own positions. */
  function Part1(crabs: seq<nat>): (r: nat)
    ensures forall x :: x in crabs ==> r <= Cost(crabs, x, false)
    ensures r == U64Max || exists x :: x in crabs && r == Cost(crabs, x, false)
  {
    var sorted := Sort(crabs);
    SortKeepsCosts(crabs);
    var r := FoldPositions(sorted, sorted, U64Max);
    assert r != U64Max ==> exists x :: x in crabs && r == Cost(crabs, x, false) by {
      if r != U64Max {
        var x :| x in sorted && r == Cost(sorted, x, false);
        assert x in crabs && r == Cost(crabs, x, false);
      }
    }
    r
  }

  /** Part 2 as written: the positions `0..last`, with `last`, the furthest crab, left out. */
  function Part2(crabs: seq<nat>): (r: nat)
    requires |crabs| > 0
    ensures forall x: nat :: x < Furthest(crabs) ==> r <= Cost(crabs, x, true)
    ensures r == U64Max || exists x: nat :: x < Furthest(crabs) && r == Cost(crabs, x, true)
  {
    SortKeepsCosts(crabs);
    var r := FoldRange(Sort(crabs), 0, Furthest(crabs), U64Max);
    assert r != U64Max ==> exists x: nat :: x < Furthest(crabs) && r == Cost(crabs, x, true) by {
      if r != U64Max {
        var x: nat :| 0 <= x < Furthest(crabs) && r == Cost(Sort(crabs), x, true);
        assert x < Furthest(crabs) && r == Cost(crabs, x, true);
      }
    }
    r
  }

  /** `*crabs.iter().last().unwrap()` after sorting. */
  function Furthest(crabs: seq<nat>): (m: nat)
    requires |crabs| > 0
    ensures m in crabs && forall y :: y in crabs ==> y <= m
  {
    LastIsMax(crabs);
    Sort(crabs)[|Sort(crabs)| - 1]
  }

  /** Part 2 over `0..=last`: the range the search evidently means. */
  function Part2Inclusive(crabs: seq<nat>): (r: nat)
    requires |crabs| > 0
    ensures forall x: nat :: x <= Furthest(crabs) ==> r <= Cost(crabs, x, true)
    ensures r == U64Max || exists x: nat :: x <= Furthest(crabs) && r == Cost(crabs, x, true)
  {
    SortKeepsCosts(crabs);
    var r := FoldRange(Sort(crabs), 0, Furthest(crabs) + 1, U64Max);
    assert r != U64Max ==> exists x: nat :: x <= Furthest(crabs) && r == Cost(crabs, x, true) by {
      if r != U64Max {
        var x: nat :| 0 <= x < Furthest(crabs) + 1 && r == Cost(Sort(crabs), x, true);
        assert x <= Furthest(crabs) && r == Cost(crabs, x, true);
      }
    }
    r
  }

  /** With the end point included, no position at all is cheaper than the answer. */
  lemma Part2InclusiveOptimal(crabs: seq<nat>, x: nat)
    requires |crabs| > 0
    ensures Part2Inclusive(crabs) <= Cost(crabs, x, true)
  {
    var m := Furthest(crabs);
    if x > m {
      assert forall i :: 0 <= i < |crabs| ==> crabs[i] in crabs;
      CostBeyond(crabs, m, x, true);
    }
  }

  /** A single crab at 1: the search as written never tries 1 and pays 1; the crab need not move. */
  lemma Part2MissesLast()
    ensures Part2([1]) == 1
    ensures Part2Inclusive([1]) == 0
  {
    assert Sort([1]) == [1] by {
      assert [1][1..] == [];
    }
    assert Cost([1], 0, true) == 1 by {
      assert [1][..0] == [];
    }
    assert Cost([1], 1, true) == 0 by {
      assert [1][..0] == [];
    }
  }
}
