/**
 * Day 15, Chiton: a square grid of risk levels, stored row by row in one
 * vector. The lowest total risk of a path from the top left to the bottom
 * right corner, moving orthogonally and not counting the start cell, is
 * found by relaxing every cell's distance against its neighbours until a
 * whole sweep changes nothing. Part 2 does the same on the grid tiled five
 * times in each direction, each tile's risks raised by its distance from
 * the first tile and wrapped back into 1..9.
 */
module Chiton {
  import opened Options
  import opened Text

  // ---------------------------------------------------------------------
  // parse
  // ---------------------------------------------------------------------

  /** `filter_map(to_digit(10))`: the digits of a line, other characters skipped. */
  function LineDigits(line: string): (row: seq<nat>)
    ensures |row| <= |line| && forall k :: 0 <= k < |row| ==> row[k] <= 9
    ensures AllDigits(line) ==> |row| == |line| && forall k :: 0 <= k < |row| ==> row[k] == DigitValue(line[k])
  {
    if line == [] then []
    else
      var rest := LineDigits(line[1..]);
      if IsDigit(line[0]) then [DigitValue(line[0])] + rest else rest
  }

  /** `parse`: the digits of all lines, one after the other. */
  function Parse(lines: seq<string>): (risks: seq<nat>)
    ensures forall k :: 0 <= k < |risks| ==> risks[k] <= 9
  {
    if lines == [] then [] else Parse(lines[..|lines| - 1]) + LineDigits(lines[|lines| - 1])
  }

  /** Lines of `side` digits each give the grid row by row. */
  lemma {:induction false} ParseLength(lines: seq<string>, side: nat)
    requires forall y :: 0 <= y < |lines| ==> AllDigits(lines[y]) && |lines[y]| == side
    ensures |Parse(lines)| == Row(|lines|, side)
  {
    if lines != [] {
      ParseLength(lines[..|lines| - 1], side);
      RowNext(|lines| - 1, side);
    }
  }

  /** The digit at row `y`, column `x` of the text is cell `Index(y, x, side)` of the grid. */
  lemma {:induction false} ParseCell(lines: seq<string>, side: nat, y: nat, x: nat)
    requires forall y :: 0 <= y < |lines| ==> AllDigits(lines[y]) && |lines[y]| == side
    requires y < |lines| && x < side
    ensures |Parse(lines)| == Row(|lines|, side) && Index(y, x, side) < |Parse(lines)|
    ensures AllDigits(lines[y]) && Parse(lines)[Index(y, x, side)] == DigitValue(lines[y][x])
  {
    var front := lines[..|lines| - 1];
    ParseLength(lines, side);
    ParseLength(front, side);
    IndexBelow(y, x, |front|, side);
    RowNext(|front|, side);
    if y < |front| {
      ParseCell(front, side, y, x);
    }
  }

  // ---------------------------------------------------------------------
  // Grid arithmetic
  // ---------------------------------------------------------------------

  /** The index of the first cell of row `y`. */
  function Row(y: nat, side: nat): nat
  {
    y * side
  }

  /** The index of the cell at row `y`, column `x`. */
  function Index(y: nat, x: nat, side: nat): nat
  {
    Row(y, side) + x
  }

  lemma RowNext(y: nat, side: nat)
    ensures Row(y + 1, side) == Row(y, side) + side
  {
  }

  /** Rows come one after the other. */
  lemma {:induction false} RowMonotone(y: nat, y': nat, side: nat)
    requires y < y'
    ensures Row(y, side) + side <= Row(y', side)
    decreases y' - y
  {
    RowNext(y, side);
    if y + 1 < y' {
      RowMonotone(y + 1, y', side);
    }
  }

  /** A cell of a row before row `h` lies before the first cell of row `h`. */
  lemma IndexBelow(y: nat, x: nat, h: nat, side: nat)
    requires x < side
    ensures y < h ==> Index(y, x, side) < Row(h, side)
    ensures y >= h ==> Index(y, x, side) >= Row(h, side)
  {
    if y < h {
      RowMonotone(y, h, side);
    } else if y > h {
      RowMonotone(h, y, side);
    }
  }

  lemma IndexInjective(y: nat, x: nat, y': nat, x': nat, side: nat)
    requires x < side && x' < side && Index(y, x, side) == Index(y', x', side)
    ensures y == y' && x == x'
  {
    if y < y' {
      RowMonotone(y, y', side);
    } else if y' < y {
      RowMonotone(y', y, side);
    }
  }

  /** Every index of a `side` by `side` grid is some row and column. */
  lemma Coordinates(p: nat, side: nat)
    requires p < Row(side, side)
    ensures side > 0 && p / side < side && p % side < side && p == Index(p / side, p % side, side)
  {
    assert side > 0;
    var y, x := p / side, p % side;
    assert p == y * side + x;
    if y >= side {
      IndexBelow(y, x, side, side);
    }
  }

  /** The row and column of a cell. */
  lemma CoordinatesOf(y: nat, x: nat, side: nat)
    requires x < side
    ensures Index(y, x, side) / side == y && Index(y, x, side) % side == x
  {
    var p := Index(y, x, side);
    Coordinates'(p, y, x, side);
  }

  lemma Coordinates'(p: nat, y: nat, x: nat, side: nat)
    requires x < side && p == y * side + x
    ensures p / side == y && p % side == x
  {
    var q, r := p / side, p % side;
    assert p == q * side + r;
    if q < y {
      RowMonotone(q, y, side);
    } else if y < q {
      RowMonotone(y, q, side);
    }
  }

  // ---------------------------------------------------------------------
  // get_neighbours
  // ---------------------------------------------------------------------

  /** `q` is directly left, right, above or below `p` in a `side` by `side` grid. */
  ghost predicate Adjacent(p: nat, q: nat, side: nat)
  {
    exists y: nat, x: nat :: Beside(p, q, y, x, side)
  }

  /** `p` is at row `y`, column `x`, and `q` is one step away from it inside the grid. */
  predicate Beside(p: nat, q: nat, y: nat, x: nat, side: nat)
  {
    y < side && x < side && p == Index(y, x, side)
    && ((x + 1 < side && q == Index(y, x + 1, side))
        || (y + 1 < side && q == Index(y + 1, x, side))
        || (y > 0 && q == Index(y - 1, x, side))
        || (x > 0 && q == Index(y, x - 1, side)))
  }

  /**
   * `get_neighbours`: the cell to the right, below, above and to the left,
   * each only when it is inside the grid. The side is a parameter here;
   * the source takes the square root of the vector's length.
   */
  function Neighbours(pos: nat, side: nat): (r: seq<nat>)
    requires pos < Row(side, side)
    ensures forall q :: q in r <==> Adjacent(pos, q, side)
    ensures forall q :: q in r ==> q < Row(side, side)
  {
    Coordinates(pos, side);
    var y, x := pos / side, pos % side;
    NeighbourTests(pos, y, x, side);
    var right := if (pos + 1) % side > 0 then [pos + 1] else [];
    var down := if pos < Row(side, side) - side then [pos + side] else [];
    var up := if pos >= side then [pos - side] else [];
    var left := if pos % side >= 1 then [pos - 1] else [];
    NeighboursAre(pos, y, x, side, right, down, up, left);
    right + down + up + left
  }

  /** The tests of `get_neighbours` in terms of the row and the column. */
  lemma NeighbourTests(pos: nat, y: nat, x: nat, side: nat)
    requires y < side && x < side && pos == Index(y, x, side)
    ensures ((pos + 1) % side > 0 <==> x + 1 < side) && (x + 1 < side ==> pos + 1 == Index(y, x + 1, side))
    ensures (pos < Row(side, side) - side <==> y + 1 < side) && pos + side == Index(y + 1, x, side)
    ensures (pos >= side <==> y > 0) && (y > 0 ==> pos - side == Index(y - 1, x, side))
    ensures (pos % side >= 1 <==> x > 0) && (x > 0 ==> pos - 1 == Index(y, x - 1, side))
  {
    RightTest(pos, y, x, side);
    DownTest(pos, y, x, side);
    UpTest(pos, y, x, side);
    CoordinatesOf(y, x, side);
  }

  lemma RightTest(pos: nat, y: nat, x: nat, side: nat)
    requires y < side && x < side && pos == Index(y, x, side)
    ensures ((pos + 1) % side > 0 <==> x + 1 < side) && (x + 1 < side ==> pos + 1 == Index(y, x + 1, side))
  {
    if x + 1 < side {
      CoordinatesOf(y, x + 1, side);
    } else {
      RowNext(y, side);
      CoordinatesOf(y + 1, 0, side);
    }
  }

  lemma DownTest(pos: nat, y: nat, x: nat, side: nat)
    requires y < side && x < side && pos == Index(y, x, side)
    ensures (pos < Row(side, side) - side <==> y + 1 < side) && pos + side == Index(y + 1, x, side)
  {
    RowNext(y, side);
    RowNext(side - 1, side);
    IndexBelow(y, x, side - 1, side);
  }

  lemma UpTest(pos: nat, y: nat, x: nat, side: nat)
    requires y < side && x < side && pos == Index(y, x, side)
    ensures (pos >= side <==> y > 0) && (y > 0 ==> pos - side == Index(y - 1, x, side))
  {
    if y > 0 {
      RowNext(y - 1, side);
    }
    IndexBelow(y, x, 1, side);
  }

  lemma NeighboursAre(pos: nat, y: nat, x: nat, side: nat, right: seq<nat>, down: seq<nat>, up: seq<nat>, left: seq<nat>)
    requires y < side && x < side && pos == Index(y, x, side)
    requires right == (if x + 1 < side then [Index(y, x + 1, side)] else [])
    requires down == (if y + 1 < side then [Index(y + 1, x, side)] else [])
    requires up == (if y > 0 then [Index(y - 1, x, side)] else [])
    requires left == (if x > 0 then [Index(y, x - 1, side)] else [])
    ensures forall q :: q in right + down + up + left <==> Adjacent(pos, q, side)
    ensures forall q :: q in right + down + up + left ==> q < Row(side, side)
  {
    var all := right + down + up + left;
    forall q: nat ensures q in all <==> Adjacent(pos, q, side) {
      assert q in all <==> q in right || q in down || q in up || q in left;
      BesideOnly(pos, q, y, x, side);
    }
    forall q | q in all ensures q < Row(side, side) {
      BesideBelow(pos, q, y, x, side);
    }
  }

  /** A cell has one row and column, so `Adjacent` is `Beside` at that row and column. */
  lemma BesideOnly(p: nat, q: nat, y: nat, x: nat, side: nat)
    requires y < side && x < side && p == Index(y, x, side)
    ensures Adjacent(p, q, side) <==> Beside(p, q, y, x, side)
  {
    if Adjacent(p, q, side) {
      var y', x' :| Beside(p, q, y', x', side);
      IndexInjective(y, x, y', x', side);
    }
  }

  /** A cell beside a cell of the grid is inside the grid. */
  lemma BesideBelow(p: nat, q: nat, y: nat, x: nat, side: nat)
    requires Beside(p, q, y, x, side)
    ensures q < Row(side, side)
  {
    if x + 1 < side && q == Index(y, x + 1, side) {
      IndexBelow(y, x + 1, side, side);
    } else if y + 1 < side && q == Index(y + 1, x, side) {
      IndexBelow(y + 1, x, side, side);
    } else if y > 0 && q == Index(y - 1, x, side) {
      IndexBelow(y - 1, x, side, side);
    } else {
      IndexBelow(y, x - 1, side, side);
    }
  }

  /** The neighbour relation is symmetric. */
  lemma AdjacentSymmetric(p: nat, q: nat, side: nat)
    requires Adjacent(p, q, side)
    ensures Adjacent(q, p, side)
  {
    var y: nat, x: nat :| Beside(p, q, y, x, side);
    if x + 1 < side && q == Index(y, x + 1, side) {
      assert Beside(q, p, y, x + 1, side);
    } else if y + 1 < side && q == Index(y + 1, x, side) {
      assert Beside(q, p, y + 1, x, side);
    } else if y > 0 && q == Index(y - 1, x, side) {
      assert Beside(q, p, y - 1, x, side);
    } else {
      assert Beside(q, p, y, x - 1, side);
    }
  }

  /** `q` is a neighbour of `p` exactly when `p` is a neighbour of `q`. */
  lemma NeighboursSymmetric(p: nat, q: nat, side: nat)
    requires p < Row(side, side) && q < Row(side, side)
    ensures q in Neighbours(p, side) <==> p in Neighbours(q, side)
  {
    if q in Neighbours(p, side) {
      AdjacentSymmetric(p, q, side);
    }
    if p in Neighbours(q, side) {
      AdjacentSymmetric(q, p, side);
    }
  }

  // ---------------------------------------------------------------------
  // find_best_path
  // ---------------------------------------------------------------------

  /** `u32::MAX - 1`, the distance every cell but the start begins with. */
  const Unreached: nat := 0xFFFF_FFFE

  /** A walk from the top left cell to `target`, one neighbour at a time. */
  ghost predicate IsPath(path: seq<nat>, side: nat, target: nat)
  {
    |path| > 0 && path[0] == 0 && path[|path| - 1] == target
    && (forall i :: 0 <= i < |path| ==> path[i] < Row(side, side))
    && forall i :: 0 < i < |path| ==> path[i] in Neighbours(path[i - 1], side)
  }

  /** The risk of a walk: the risk of every cell entered, the start cell not counted. */
  function Cost(risk: seq<nat>, path: seq<nat>): nat
    requires forall i :: 0 <= i < |path| ==> path[i] < |risk|
  {
    if |path| <= 1 then 0 else Cost(risk, path[..|path| - 1]) + risk[path[|path| - 1]]
  }

  /** No neighbour can be reached more cheaply through cell `i`. */
  ghost predicate RelaxedAt(d: seq<nat>, risk: seq<nat>, side: nat, i: nat)
    requires |d| == |risk| == Row(side, side) && i < |d|
  {
    forall q :: q in Neighbours(i, side) ==> d[q] <= d[i] + risk[q]
  }

  ghost predicate Relaxed(d: seq<nat>, risk: seq<nat>, side: nat)
    requires |d| == |risk| == Row(side, side)
  {
    forall i :: 0 <= i < |d| ==> RelaxedAt(d, risk, side, i)
  }

  /** Every distance below `Unreached` is the risk of a walk recorded for it. */
  ghost predicate Realised(d: seq<nat>, routes: seq<seq<nat>>, risk: seq<nat>, side: nat)
    requires |d| == |risk| == Row(side, side)
  {
    |routes| == |d| && |d| > 0 && d[0] == 0
    && forall i :: 0 <= i < |d| ==> RealisedAt(d, routes, risk, side, i)
  }

  ghost predicate RealisedAt(d: seq<nat>, routes: seq<seq<nat>>, risk: seq<nat>, side: nat, i: nat)
    requires |d| == |risk| == Row(side, side) && |routes| == |d| && i < |d|
  {
    d[i] <= Unreached && (d[i] != Unreached ==> Routed(d, routes, risk, side, i))
  }

  ghost predicate Routed(d: seq<nat>, routes: seq<seq<nat>>, risk: seq<nat>, side: nat, i: nat)
    requires |d| == |risk| == Row(side, side) && |routes| == |d| && i < |d|
  {
    IsPath(routes[i], side, i) && Cost(risk, routes[i]) == d[i]
  }

  ghost function Sum(s: seq<nat>): nat
  {
    if s == [] then 0 else Sum(s[..|s| - 1]) + s[|s| - 1]
  }

  lemma {:induction false} SumUpdate(s: seq<nat>, i: nat, v: nat)
    requires i < |s|
    ensures Sum(s[i := v]) + s[i] == Sum(s) + v
  {
    var t := s[i := v];
    if i < |s| - 1 {
      assert t[..|t| - 1] == s[..|s| - 1][i := v];
      SumUpdate(s[..|s| - 1], i, v);
    } else {
      assert t[..|t| - 1] == s[..|s| - 1];
    }
  }

  /** A walk one cell longer costs that cell's risk more. */
  lemma CostExtend(risk: seq<nat>, path: seq<nat>, q: nat)
    requires (forall i :: 0 <= i < |path| ==> path[i] < |risk|) && q < |risk| && |path| > 0
    ensures Cost(risk, path + [q]) == Cost(risk, path) + risk[q]
  {
    assert (path + [q])[..|path|] == path;
  }

  /** Relaxing `pos` through `index` keeps every distance realised. */
  lemma RealisedStep(d: seq<nat>, routes: seq<seq<nat>>, risk: seq<nat>, side: nat, index: nat, pos: nat)
    requires |d| == |risk| == Row(side, side) && Realised(d, routes, risk, side)
    requires index < |d| && pos in Neighbours(index, side) && d[pos] > d[index] + risk[pos]
    ensures pos < |d| && pos != 0
    ensures Realised(d[pos := d[index] + risk[pos]], routes[pos := routes[index] + [pos]], risk, side)
  {
    var d', routes' := d[pos := d[index] + risk[pos]], routes[pos := routes[index] + [pos]];
    RouteExtend(d, routes, risk, side, index, pos);
    assert d'[pos] <= Unreached by {
      assert RealisedAt(d, routes, risk, side, pos);
    }
    assert Routed(d', routes', risk, side, pos);
    forall i | 0 <= i < |d'| ensures RealisedAt(d', routes', risk, side, i) {
      if i != pos {
        RoutedKept(d, routes, risk, side, i, pos, d', routes');
      }
    }
  }

  lemma RouteExtend(d: seq<nat>, routes: seq<seq<nat>>, risk: seq<nat>, side: nat, index: nat, pos: nat)
    requires |d| == |risk| == Row(side, side) && Realised(d, routes, risk, side)
    requires index < |d| && pos in Neighbours(index, side) && d[pos] > d[index] + risk[pos]
    ensures pos < |d| && IsPath(routes[index] + [pos], side, pos)
    ensures Cost(risk, routes[index] + [pos]) == d[index] + risk[pos]
  {
    assert pos < |d| && RealisedAt(d, routes, risk, side, pos);
    assert RealisedAt(d, routes, risk, side, index) && d[index] != Unreached;
    var path := routes[index];
    assert IsPath(path, side, index) && Cost(risk, path) == d[index];
    PathExtend(path, side, index, pos);
    CostExtend(risk, path, pos);
  }

  /** A walk to `t` followed by a step to a neighbour of `t` is a walk to that neighbour. */
  lemma PathExtend(path: seq<nat>, side: nat, t: nat, q: nat)
    requires IsPath(path, side, t) && t < Row(side, side) && q in Neighbours(t, side)
    ensures q < Row(side, side) && IsPath(path + [q], side, q)
  {
    var p := path + [q];
    forall i | 0 < i < |p| ensures p[i] in Neighbours(p[i - 1], side) {
      if i < |path| {
        assert p[i] == path[i] && p[i - 1] == path[i - 1];
      }
    }
  }

  lemma RoutedKept(d: seq<nat>, routes: seq<seq<nat>>, risk: seq<nat>, side: nat, i: nat, pos: nat,
                   d': seq<nat>, routes': seq<seq<nat>>)
    requires |d| == |risk| == Row(side, side) && Realised(d, routes, risk, side) && i < |d| && pos < |d| && i != pos
    requires |d'| == |d| && |routes'| == |routes| && d'[i] == d[i] && routes'[i] == routes[i]
    ensures RealisedAt(d', routes', risk, side, i)
  {
    assert RealisedAt(d, routes, risk, side, i);
    if d[i] != Unreached {
      assert Routed(d, routes, risk, side, i);
    }
  }

  /** With every neighbour relaxed, no walk to `target` is cheaper than its distance. */
  lemma {:induction false} Lowest(d: seq<nat>, risk: seq<nat>, side: nat, path: seq<nat>, target: nat)
    requires |d| == |risk| == Row(side, side) && |d| > 0 && d[0] == 0 && Relaxed(d, risk, side)
    requires IsPath(path, side, target)
    ensures d[target] <= Cost(risk, path)
  {
    if |path| > 1 {
      var front := path[..|path| - 1];
      var last := path[|path| - 2];
      assert IsPath(front, side, last);
      Lowest(d, risk, side, front, last);
      assert RelaxedAt(d, risk, side, last);
    }
  }

  /** One relaxation of `find_best_path`: lower the distance of `pos` when the way through `index` is cheaper. */
  method Relax(distance: array<nat>, risk: seq<nat>, side: nat, index: nat, pos: nat, ghost routes: seq<seq<nat>>)
    returns (changed: bool, ghost routes': seq<seq<nat>>)
    requires distance.Length == |risk| == Row(side, side) && index < |risk| && pos in Neighbours(index, side)
    requires Realised(distance[..], routes, risk, side)
    modifies distance
    ensures Realised(distance[..], routes', risk, side)
    ensures changed ==> Sum(distance[..]) < old(Sum(distance[..]))
    ensures Lower(distance[..], old(distance[..]))
    ensures Settled(distance[..], risk, index, pos) && distance[..] == old(distance[..])[pos := distance[pos]]
    ensures distance[index] == old(distance[index])
    ensures !changed ==> distance[..] == old(distance[..])
  {
    changed := false;
    routes' := routes;
    ghost var d := distance[..];
    if distance[pos] > distance[index] + risk[pos] {
      var lower := distance[index] + risk[pos];
      RealisedStep(d, routes, risk, side, index, pos);
      SumUpdate(d, pos, lower);
      distance[pos] := lower;
      assert distance[..] == d[pos := lower];
      routes' := routes[pos := routes[index] + [pos]];
      changed := true;
    }
  }

  /** The inner loop of `find_best_path`: relax every neighbour of `index` through it. */
  method RelaxNeighbours(distance: array<nat>, risk: seq<nat>, side: nat, index: nat, ghost routes: seq<seq<nat>>)
    returns (changed: bool, ghost routes': seq<seq<nat>>)
    requires distance.Length == |risk| == Row(side, side) && index < |risk|
    requires Realised(distance[..], routes, risk, side)
    modifies distance
    ensures Realised(distance[..], routes', risk, side)
    ensures Sum(distance[..]) <= old(Sum(distance[..])) && (changed ==> Sum(distance[..]) < old(Sum(distance[..])))
    ensures Lower(distance[..], old(distance[..]))
    ensures RelaxedAt(distance[..], risk, side, index)
    ensures !changed ==> distance[..] == old(distance[..])
  {
    changed := false;
    routes' := routes;
    var neighbours := Neighbours(index, side);
    ghost var start := distance[..];
    for k := 0 to |neighbours|
      invariant Realised(distance[..], routes', risk, side)
      invariant Sum(distance[..]) <= Sum(start) && (changed ==> Sum(distance[..]) < Sum(start))
      invariant Lower(distance[..], start)
      invariant !changed ==> distance[..] == start
      invariant SettledUpTo(distance[..], risk, index, neighbours, k)
    {
      var changedHere;
      ghost var before := distance[..];
      changedHere, routes' := Relax(distance, risk, side, index, neighbours[k], routes');
      LowerTransitive(distance[..], before, start);
      SettledStep(before, distance[..], risk, index, neighbours, k);
      changed := changed || changedHere;
    }
    forall q | q in neighbours ensures distance[q] <= distance[index] + risk[q] {
      var j :| 0 <= j < |neighbours| && neighbours[j] == q;
      assert Settled(distance[..], risk, index, neighbours[j]);
    }
  }

  /** The first `k` neighbours of `index` are settled. */
  predicate SettledUpTo(d: seq<nat>, risk: seq<nat>, index: nat, neighbours: seq<nat>, k: nat)
  {
    k <= |neighbours| && forall j :: 0 <= j < k ==> Settled(d, risk, index, neighbours[j])
  }

  /** Relaxing the next neighbour settles it and changes no other cell the earlier ones depend on. */
  lemma SettledStep(d: seq<nat>, d': seq<nat>, risk: seq<nat>, index: nat, neighbours: seq<nat>, k: nat)
    requires SettledUpTo(d, risk, index, neighbours, k) && k < |neighbours|
    requires |d'| == |d| && Settled(d', risk, index, neighbours[k]) && d' == d[neighbours[k] := d'[neighbours[k]]]
    requires d'[index] == d[index]
    ensures SettledUpTo(d', risk, index, neighbours, k + 1)
  {
    forall j | 0 <= j < k + 1 ensures Settled(d', risk, index, neighbours[j]) {
      if j < k && neighbours[j] != neighbours[k] {
        assert Settled(d, risk, index, neighbours[j]);
      }
    }
  }

  /** Every entry of `d` is at most the same entry of `e`. */
  predicate Lower(d: seq<nat>, e: seq<nat>)
  {
    |d| == |e| && forall i :: 0 <= i < |d| ==> d[i] <= e[i]
  }

  lemma LowerTransitive(d: seq<nat>, e: seq<nat>, f: seq<nat>)
    requires Lower(d, e) && Lower(e, f)
    ensures Lower(d, f)
  {
  }

  /** The neighbour `q` of `i` is no farther than the way through `i`. */
  predicate Settled(d: seq<nat>, risk: seq<nat>, i: nat, q: nat)
  {
    i < |d| && q < |d| && q < |risk| && d[q] <= d[i] + risk[q]
  }

  /** One pass of the `while changed` loop over every cell. */
  method Sweep(distance: array<nat>, risk: seq<nat>, side: nat, ghost routes: seq<seq<nat>>)
    returns (changed: bool, ghost routes': seq<seq<nat>>)
    requires distance.Length == |risk| == Row(side, side)
    requires Realised(distance[..], routes, risk, side)
    modifies distance
    ensures Realised(distance[..], routes', risk, side)
    ensures Sum(distance[..]) <= old(Sum(distance[..])) && (changed ==> Sum(distance[..]) < old(Sum(distance[..])))
    ensures Lower(distance[..], old(distance[..]))
    ensures !changed ==> Relaxed(distance[..], risk, side)
  {
    changed := false;
    routes' := routes;
    ghost var start := distance[..];
    for index := 0 to distance.Length
      invariant Realised(distance[..], routes', risk, side)
      invariant Sum(distance[..]) <= Sum(start) && (changed ==> Sum(distance[..]) < Sum(start))
      invariant Lower(distance[..], start)
      invariant !changed ==> distance[..] == start
      invariant !changed ==> forall i :: 0 <= i < index ==> RelaxedAt(start, risk, side, i)
    {
      var changedHere;
      ghost var before := distance[..];
      changedHere, routes' := RelaxNeighbours(distance, risk, side, index, routes');
      LowerTransitive(distance[..], before, start);
      changed := changed || changedHere;
    }
  }

  /**
   * `find_best_path`: every distance starts at `u32::MAX - 1` except the
   * start's 0, and whole sweeps over the cells relax each neighbour in turn
   * until a sweep changes nothing. The result is the distance of the
   * bottom right cell: no walk to it costs less, and some walk costs
   * exactly that unless it stayed at the starting value.
   */
  method FindBestPath(risk: seq<nat>, side: nat) returns (best: nat)
    requires side > 0 && |risk| == Row(side, side)
    ensures Best(risk, side, best)
  {
    var size := |risk|;
    Coordinates(0, side);
    var distance := new nat[size](_ => Unreached);
    distance[0] := 0;
    ghost var routes: seq<seq<nat>> := seq(size, _ => [0]);
    assert Routed(distance[..], routes, risk, side, 0);
    assert forall i :: 0 <= i < size ==> RealisedAt(distance[..], routes, risk, side, i);
    var changed := true;
    while changed
      invariant distance.Length == size && Realised(distance[..], routes, risk, side)
      invariant !changed ==> Relaxed(distance[..], risk, side)
      decreases Sum(distance[..]) + (if changed then 1 else 0)
    {
      changed, routes := Sweep(distance, risk, side, routes);
    }
    best := distance[size - 1];
    Settles(distance[..], risk, side);
    Reached(distance[..], routes, risk, side, size - 1);
  }

  /** Once every cell is relaxed, no walk costs less than the last distance. */
  lemma Settles(d: seq<nat>, risk: seq<nat>, side: nat)
    requires |d| == |risk| == Row(side, side) && |d| > 0 && d[0] == 0 && Relaxed(d, risk, side)
    ensures forall path :: IsPath(path, side, |d| - 1) ==> d[|d| - 1] <= Cost(risk, path)
  {
    forall path | IsPath(path, side, |d| - 1) ensures d[|d| - 1] <= Cost(risk, path) {
      Lowest(d, risk, side, path, |d| - 1);
    }
  }

  /** A realised distance other than `Unreached` is the risk of some walk. */
  lemma Reached(d: seq<nat>, routes: seq<seq<nat>>, risk: seq<nat>, side: nat, target: nat)
    requires |d| == |risk| == Row(side, side) && Realised(d, routes, risk, side) && target < |d|
    ensures d[target] == Unreached || exists path :: IsPath(path, side, target) && Cost(risk, path) == d[target]
  {
    assert RealisedAt(d, routes, risk, side, target);
    if d[target] != Unreached {
      var path := routes[target];
      assert Routed(d, routes, risk, side, target);
      assert IsPath(path, side, target) && Cost(risk, path) == d[target];
    }
  }

  /** Both promises of `find_best_path` about `best` on a `side` by `side` grid. */
  ghost predicate Best(risk: seq<nat>, side: nat, best: nat)
    requires |risk| == Row(side, side) && side > 0
  {
    (forall path :: IsPath(path, side, |risk| - 1) ==> best <= Cost(risk, path))
    && (best == Unreached || exists path :: IsPath(path, side, |risk| - 1) && Cost(risk, path) == best)
  }

  // ---------------------------------------------------------------------
  // Tiling in main
  // ---------------------------------------------------------------------

  /** A risk raised past 9 wraps around to `(v + 1) % 10`. */
  function Wrap(v: nat): (w: nat)
    ensures v <= 9 ==> w == v
    ensures 10 <= v <= 18 ==> w == v - 9 && 1 <= w <= 9
  {
    if v > 9 then (v + 1) % 10 else v
  }

  /** A tile whose risks are 1..9, raised by at most 8, keeps its risks in 1..9, cycling through them. */
  lemma WrapCycles(base: nat, offset: nat)
    requires 1 <= base <= 9 && offset <= 8
    ensures 1 <= Wrap(base + offset) <= 9 && Wrap(base + offset) == (base + offset - 1) % 9 + 1
  {
    if base + offset > 9 {
      assert (base + offset - 1) % 9 == base + offset - 10;
    }
  }

  /** Tile row `ty` and column `tx` of the enlarged grid, cell row `y` and column `x` inside that tile. */
  datatype Tile = Tile(ty: nat, tx: nat, y: nat, x: nat)

  /** The index of a tiled cell in the enlarged grid, whose side is five times as long. */
  function Spot(t: Tile, side: nat): nat
  {
    Index(Index(t.ty, t.y, side), Index(t.tx, t.x, side), 5 * side)
  }

  /** The tile and cell that index `i` of the enlarged grid stands for. */
  function Locate(i: nat, side: nat): Tile
    requires side > 0
  {
    var y, x := Div(i, 5 * side), Mod(i, 5 * side);
    Tile(Div(y, side), Div(x, side), Mod(y, side), Mod(x, side))
  }

  function Div(a: nat, b: nat): nat
    requires b > 0
  {
    a / b
  }

  function Mod(a: nat, b: nat): nat
    requires b > 0
  {
    a % b
  }

  predicate InTile(t: Tile, side: nat)
  {
    t.ty < 5 && t.tx < 5 && t.y < side && t.x < side
  }

  /** Tiled cells sit at distinct indices inside the enlarged grid. */
  lemma LocateSpot(t: Tile, side: nat)
    requires InTile(t, side)
    ensures Spot(t, side) < Row(5 * side, 5 * side) && Locate(Spot(t, side), side) == t
  {
    var y, x := Index(t.ty, t.y, side), Index(t.tx, t.x, side);
    IndexBelow(t.ty, t.y, 5, side);
    IndexBelow(t.tx, t.x, 5, side);
    IndexBelow(y, x, 5 * side, 5 * side);
    CoordinatesOf(y, x, 5 * side);
    CoordinatesOf(t.ty, t.y, side);
    CoordinatesOf(t.tx, t.x, side);
  }

  /** Every index of the enlarged grid is a tiled cell. */
  lemma LocateBounds(i: nat, side: nat)
    requires side > 0 && i < Row(5 * side, 5 * side)
    ensures InTile(Locate(i, side), side) && Spot(Locate(i, side), side) == i
  {
    var w := 5 * side;
    Split(i, w, w);
    var y, x := Div(i, w), Mod(i, w);
    Split(y, side, 5);
    Split(x, side, 5);
  }

  /** Division and remainder by `b` take an index of the first `h` rows apart. */
  lemma Split(a: nat, b: nat, h: nat)
    requires b > 0 && a < Row(h, b)
    ensures Div(a, b) < h && Mod(a, b) < b && a == Index(Div(a, b), Mod(a, b), b)
  {
    var q, r := Div(a, b), Mod(a, b);
    assert a == q * b + r;
    if q >= h {
      IndexBelow(q, r, h, b);
    }
  }

  /** The risk of an enlarged cell: its original risk raised by the tile's distance from the first tile, wrapped. */
  function TileRisk(risk: seq<nat>, side: nat, t: Tile): nat
    requires |risk| == Row(side, side) && InTile(t, side)
  {
    IndexBelow(t.y, t.x, side, side);
    Wrap(risk[Index(t.y, t.x, side)] + t.tx + t.ty)
  }

  /** The enlarged grid that part 2 walks. */
  ghost function Tiled(risk: seq<nat>, side: nat): (big: seq<nat>)
    requires |risk| == Row(side, side) && side > 0
    ensures |big| == Row(5 * side, 5 * side)
  {
    seq(Row(5 * side, 5 * side), i requires 0 <= i < Row(5 * side, 5 * side) =>
      LocateBounds(i, side); TileRisk(risk, side, Locate(i, side)))
  }

  /** Each tile of the enlarged grid holds the original grid, raised by its tile row plus tile column. */
  lemma TiledCell(risk: seq<nat>, side: nat, t: Tile)
    requires |risk| == Row(side, side) && side > 0 && InTile(t, side)
    requires forall k :: 0 <= k < |risk| ==> 1 <= risk[k] <= 9
    ensures Spot(t, side) < |Tiled(risk, side)| && Index(t.y, t.x, side) < |risk|
    ensures Tiled(risk, side)[Spot(t, side)] == (risk[Index(t.y, t.x, side)] + t.ty + t.tx - 1) % 9 + 1
  {
    LocateSpot(t, side);
    IndexBelow(t.y, t.x, side, side);
    WrapCycles(risk[Index(t.y, t.x, side)], t.tx + t.ty);
  }

  /** Cells written so far by the tiling loops, which run over `y`, `x`, then `tx`, then `ty`. */
  predicate Before(t: Tile, y: nat, x: nat, tx: nat, ty: nat)
  {
    t.y < y || (t.y == y && (t.x < x || (t.x == x && (t.tx < tx || (t.tx == tx && t.ty < ty)))))
  }

  /** Every cell written so far holds its tiled risk. */
  predicate Filled(big: seq<nat>, risk: seq<nat>, side: nat, y: nat, x: nat, tx: nat, ty: nat)
    requires |risk| == Row(side, side) && side > 0
  {
    |big| == Row(5 * side, 5 * side)
    && forall i :: 0 <= i < |big| && Before(Locate(i, side), y, x, tx, ty) ==> Written(big, risk, side, i)
  }

  predicate Written(big: seq<nat>, risk: seq<nat>, side: nat, i: nat)
    requires |risk| == Row(side, side) && side > 0 && |big| == Row(5 * side, 5 * side) && i < |big|
  {
    LocateBounds(i, side);
    big[i] == TileRisk(risk, side, Locate(i, side))
  }

  lemma FilledStep(big: seq<nat>, risk: seq<nat>, side: nat, t: Tile)
    requires |risk| == Row(side, side) && side > 0 && InTile(t, side)
    requires Filled(big, risk, side, t.y, t.x, t.tx, t.ty)
    ensures Spot(t, side) < |big|
    ensures Filled(big[Spot(t, side) := TileRisk(risk, side, t)], risk, side, t.y, t.x, t.tx, t.ty + 1)
  {
    var s := Spot(t, side);
    LocateSpot(t, side);
    var big' := big[s := TileRisk(risk, side, t)];
    forall i | 0 <= i < |big'| && Before(Locate(i, side), t.y, t.x, t.tx, t.ty + 1)
      ensures Written(big', risk, side, i)
    {
      if i != s {
        LocateBounds(i, side);
        assert Written(big, risk, side, i);
      }
    }
  }

  lemma FilledNextColumn(big: seq<nat>, risk: seq<nat>, side: nat, y: nat, x: nat, tx: nat)
    requires |risk| == Row(side, side) && side > 0 && Filled(big, risk, side, y, x, tx, 5)
    ensures Filled(big, risk, side, y, x, tx + 1, 0)
  {
    forall i | 0 <= i < |big| && Before(Locate(i, side), y, x, tx + 1, 0) ensures Written(big, risk, side, i) {
      LocateBounds(i, side);
    }
  }

  lemma FilledNextCell(big: seq<nat>, risk: seq<nat>, side: nat, y: nat, x: nat)
    requires |risk| == Row(side, side) && side > 0 && Filled(big, risk, side, y, x, 5, 0)
    ensures Filled(big, risk, side, y, x + 1, 0, 0)
  {
    forall i | 0 <= i < |big| && Before(Locate(i, side), y, x + 1, 0, 0) ensures Written(big, risk, side, i) {
      LocateBounds(i, side);
    }
  }

  lemma FilledNextRow(big: seq<nat>, risk: seq<nat>, side: nat, y: nat)
    requires |risk| == Row(side, side) && side > 0 && Filled(big, risk, side, y, side, 0, 0)
    ensures Filled(big, risk, side, y + 1, 0, 0, 0)
  {
    forall i | 0 <= i < |big| && Before(Locate(i, side), y + 1, 0, 0, 0) ensures Written(big, risk, side, i) {
      LocateBounds(i, side);
    }
  }

  lemma FilledAll(big: seq<nat>, risk: seq<nat>, side: nat)
    requires |risk| == Row(side, side) && side > 0 && Filled(big, risk, side, side, 0, 0, 0)
    ensures big == Tiled(risk, side)
  {
    var tiled := Tiled(risk, side);
    forall i | 0 <= i < |big| ensures big[i] == tiled[i] {
      LocateBounds(i, side);
      assert Written(big, risk, side, i);
    }
  }

  /** The source's index arithmetic, `z_y * len * 5 + z_x * side + y * side * 5 + x`, is the tiled cell's index. */
  lemma SourceOffset(t: Tile, side: nat)
    ensures t.ty * Row(side, side) * 5 + t.tx * side + Row(t.y, side) * 5 + t.x == Spot(t, side)
    ensures Row(side, side) * 25 == Row(5 * side, 5 * side)
  {
    var p := t.ty * side;
    assert t.ty * Row(side, side) * 5 == p * 5 * side;
    assert Row(t.y, side) * 5 == t.y * (5 * side);
    assert Index(t.ty, t.y, side) * (5 * side) == p * 5 * side + t.y * (5 * side);
  }

  /** The tiling loops of `main`: every cell of every tile is written once with its raised, wrapped risk. */
  method Enlarge(risk: seq<nat>, side: nat) returns (big: seq<nat>)
    requires side > 0 && |risk| == Row(side, side)
    ensures big == Tiled(risk, side)
  {
    SourceOffset(Tile(0, 0, 0, 0), side);
    var tiles := new nat[|risk| * 25](_ => 0);
    for y := 0 to side
      invariant Filled(tiles[..], risk, side, y, 0, 0, 0)
    {
      for x := 0 to side
        invariant Filled(tiles[..], risk, side, y, x, 0, 0)
      {
        for tx := 0 to 5
          invariant Filled(tiles[..], risk, side, y, x, tx, 0)
        {
          for ty := 0 to 5
            invariant Filled(tiles[..], risk, side, y, x, tx, ty)
          {
            var t := Tile(ty, tx, y, x);
            IndexBelow(y, x, side, side);
            var value := risk[Index(y, x, side)] + tx + ty;
            if value > 9 {
              value := (value + 1) % 10;
            }
            SourceOffset(t, side);
            FilledStep(tiles[..], risk, side, t);
            tiles[ty * |risk| * 5 + tx * side + Row(y, side) * 5 + x] := value;
          }
          FilledNextColumn(tiles[..], risk, side, y, x, tx);
        }
        FilledNextCell(tiles[..], risk, side, y, x);
      }
      FilledNextRow(tiles[..], risk, side, y);
    }
    FilledAll(tiles[..], risk, side);
    big := tiles[..];
  }

  // ---------------------------------------------------------------------
  // main
  // ---------------------------------------------------------------------

  /** `main`: the lowest risk across the grid, then across the grid tiled five times each way. */
  method Solve(lines: seq<string>, side: nat) returns (part1: nat, part2: nat)
    requires side > 0 && |Parse(lines)| == Row(side, side)
    ensures Best(Parse(lines), side, part1)
    ensures Best(Tiled(Parse(lines), side), 5 * side, part2)
  {
    var risk := Parse(lines);
    part1 := FindBestPath(risk, side);
    var big := Enlarge(risk, side);
    part2 := FindBestPath(big, 5 * side);
  }
}
