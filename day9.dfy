/**
 * Day 9, Smoke Basin: a height map of digits. The low points are the cells
 * lower than all their neighbours; a basin is what flows down to a low
 * point, bounded by cells of height 9. Part 1 adds up the low points' risk
 * levels, part 2 multiplies the sizes of the three largest basins.
 */
module SmokeBasin {
  import opened Text
  import opened Sorting

  type Heights = seq<seq<nat>>
  type Cell = (nat, nat)

  /** `parse`: every character of every line is a decimal digit (`unwrap` panics otherwise). */
  predicate DigitLines(lines: seq<string>)
  {
    forall i :: 0 <= i < |lines| ==> AllDigits(lines[i])
  }

  function ParseRow(line: string): (row: seq<nat>)
    requires AllDigits(line)
    ensures |row| == |line| && forall x :: 0 <= x < |row| ==> row[x] == DigitValue(line[x]) && row[x] <= 9
  {
    if line == [] then [] else [DigitValue(line[0])] + ParseRow(line[1..])
  }

  function Parse(lines: seq<string>): (map': Heights)
    requires DigitLines(lines)
    ensures |map'| == |lines| && forall y :: 0 <= y < |lines| ==> map'[y] == ParseRow(lines[y])
  {
    if lines == [] then [] else [ParseRow(lines[0])] + Parse(lines[1..])
  }

  /** A rectangular map of digits, `x_len` wide and `y_len` tall, as `main` assumes. */
  predicate Rect(heights: Heights, xLen: nat, yLen: nat)
  {
    xLen > 0 && yLen > 0 && |heights| == yLen
    && forall y :: 0 <= y < yLen ==> |heights[y]| == xLen && forall x :: 0 <= x < xLen ==> heights[y][x] <= 9
  }

  function HeightAt(heights: Heights, xLen: nat, yLen: nat, c: Cell): nat
    requires Rect(heights, xLen, yLen) && c.0 < xLen && c.1 < yLen
  {
    heights[c.1][c.0]
  }

  // ---------------------------------------------------------------------
  // get_adjacent
  // ---------------------------------------------------------------------

  datatype Dir = Up | Left | Down | Right

  /** What `build_basin` knows about a cell: its neighbours' heights, and which directions are done. */
  datatype Adjacent = Adjacent(up: nat, down: nat, left: nat, right: nat,
                               checkedUp: bool, checkedDown: bool, checkedLeft: bool, checkedRight: bool)

  function Read(adj: Adjacent, d: Dir): nat
  {
    match d
    case Up => adj.up
    case Left => adj.left
    case Down => adj.down
    case Right => adj.right
  }

  function Checked(adj: Adjacent, d: Dir): bool
  {
    match d
    case Up => adj.checkedUp
    case Left => adj.checkedLeft
    case Down => adj.checkedDown
    case Right => adj.checkedRight
  }

  /** Whether the neighbour in direction `d` is on the map. */
  predicate InGrid(xLen: nat, yLen: nat, c: Cell, d: Dir)
  {
    match d
    case Up => c.1 != 0
    case Left => c.0 != 0
    case Down => c.1 + 1 < yLen
    case Right => c.0 + 1 < xLen
  }

  function Next(c: Cell, d: Dir): Cell
    requires d == Up ==> c.1 > 0
    requires d == Left ==> c.0 > 0
  {
    match d
    case Up => (c.0, c.1 - 1)
    case Left => (c.0 - 1, c.1)
    case Down => (c.0, c.1 + 1)
    case Right => (c.0 + 1, c.1)
  }

  /** The height of the neighbour in direction `d`, or 9 off the map. */
  function NeighbourHeight(heights: Heights, xLen: nat, yLen: nat, c: Cell, d: Dir): nat
    requires Rect(heights, xLen, yLen) && c.0 < xLen && c.1 < yLen
  {
    if InGrid(xLen, yLen, c, d) then HeightAt(heights, xLen, yLen, Next(c, d)) else 9
  }

  /** `adj` describes cell `c`: true heights, 9 off the map, and a direction done exactly when it reads 9. */
  predicate AdjacentOf(heights: Heights, xLen: nat, yLen: nat, c: Cell, adj: Adjacent)
    requires Rect(heights, xLen, yLen) && c.0 < xLen && c.1 < yLen
  {
    forall d: Dir ::
      Read(adj, d) == NeighbourHeight(heights, xLen, yLen, c, d)
      && (Checked(adj, d) <==> NeighbourHeight(heights, xLen, yLen, c, d) == 9)
  }

  /** `get_adjacent`: start with 9 and done everywhere, then read the neighbours that exist. */
  method GetAdjacent(heights: Heights, x: nat, y: nat, xLen: nat, yLen: nat) returns (adjacent: Adjacent)
    requires Rect(heights, xLen, yLen) && x < xLen && y < yLen
    ensures AdjacentOf(heights, xLen, yLen, (x, y), adjacent)
  {
    adjacent := Adjacent(9, 9, 9, 9, true, true, true, true);
    if x != 0 {
      adjacent := adjacent.(left := heights[y][x - 1]);
      if adjacent.left != 9 {
        adjacent := adjacent.(checkedLeft := false);
      }
    }
    if x != xLen - 1 {
      adjacent := adjacent.(right := heights[y][x + 1]);
      if adjacent.right != 9 {
        adjacent := adjacent.(checkedRight := false);
      }
    }
    if y != 0 {
      adjacent := adjacent.(up := heights[y - 1][x]);
      if adjacent.up != 9 {
        adjacent := adjacent.(checkedUp := false);
      }
    }
    if y != yLen - 1 {
      adjacent := adjacent.(down := heights[y + 1][x]);
      if adjacent.down != 9 {
        adjacent := adjacent.(checkedDown := false);
      }
    }
  }

  // ---------------------------------------------------------------------
  // Low points
  // ---------------------------------------------------------------------

  /** `is_smaller_than_adjacent`. */
  predicate IsSmallerThanAdjacent(h: nat, adj: Adjacent)
  {
    h < adj.up && h < adj.down && h < adj.left && h < adj.right
  }

  /** A low point: lower than every neighbour on the map, and lower than 9. */
  predicate IsLow(heights: Heights, xLen: nat, yLen: nat, c: Cell)
    requires Rect(heights, xLen, yLen) && c.0 < xLen && c.1 < yLen
  {
    var h := HeightAt(heights, xLen, yLen, c);
    h < 9 && forall d: Dir :: InGrid(xLen, yLen, c, d) ==> h < HeightAt(heights, xLen, yLen, Next(c, d))
  }

  /** Comparing with the sentinel 9s finds exactly the low points. */
  lemma SmallerIffLow(heights: Heights, xLen: nat, yLen: nat, c: Cell, adj: Adjacent)
    requires Rect(heights, xLen, yLen) && c.0 < xLen && c.1 < yLen
    requires AdjacentOf(heights, xLen, yLen, c, adj)
    ensures IsSmallerThanAdjacent(HeightAt(heights, xLen, yLen, c), adj) <==> IsLow(heights, xLen, yLen, c)
  {
    var h := HeightAt(heights, xLen, yLen, c);
    assert Read(adj, Up) == adj.up && Read(adj, Down) == adj.down;
    assert Read(adj, Left) == adj.left && Read(adj, Right) == adj.right;
    if IsSmallerThanAdjacent(h, adj) {
      assert h < 9 by {
        if InGrid(xLen, yLen, c, Up) {
          assert HeightAt(heights, xLen, yLen, Next(c, Up)) <= 9;
        }
      }
    }
  }

  /** A scanned cell: in a row above `y`, or left of `x` in row `y`. */
  predicate Scanned(y: nat, x: nat, c: Cell)
  {
    c.1 < y || (c.1 == y && c.0 < x)
  }

  /** Row-major order of the low points. */
  predicate Before(a: (nat, nat, nat), b: (nat, nat, nat))
  {
    a.2 < b.2 || (a.2 == b.2 && a.1 < b.1)
  }

  /** The sum of `height + 1` over the low points scanned before `(x, y)`. */
  function RiskBelow(heights: Heights, xLen: nat, yLen: nat, y: nat, x: nat): nat
    requires Rect(heights, xLen, yLen) && ((y < yLen && x <= xLen) || (y == yLen && x == 0))
    decreases y, x
  {
    if x == 0 then
      (if y == 0 then 0 else RiskBelow(heights, xLen, yLen, y - 1, xLen))
    else
      RiskBelow(heights, xLen, yLen, y, x - 1)
      + (if IsLow(heights, xLen, yLen, (x - 1, y)) then HeightAt(heights, xLen, yLen, (x - 1, y)) + 1 else 0)
  }

  /** Part 1's reference: the total risk level of the map. */
  function Risk(heights: Heights, xLen: nat, yLen: nat): nat
    requires Rect(heights, xLen, yLen)
  {
    RiskBelow(heights, xLen, yLen, yLen, 0)
  }

  /** `.map(|x| (x.0 + 1) as u64).sum()`. */
  function RiskSum(lows: seq<(nat, nat, nat)>): nat
  {
    if lows == [] then 0 else RiskSum(lows[..|lows| - 1]) + lows[|lows| - 1].0 + 1
  }

  /** `(value, x, y)` names a low point of the map. */
  predicate LowEntry(heights: Heights, xLen: nat, yLen: nat, e: (nat, nat, nat))
  {
    Rect(heights, xLen, yLen) && e.1 < xLen && e.2 < yLen
    && e.0 == HeightAt(heights, xLen, yLen, (e.1, e.2)) && IsLow(heights, xLen, yLen, (e.1, e.2))
  }

  /** After scanning up to `(x, y)`: the low points scanned so far, each once, in order, with their risk. */
  predicate ScanState(heights: Heights, xLen: nat, yLen: nat, y: nat, x: nat, lows: seq<(nat, nat, nat)>)
  {
    Rect(heights, xLen, yLen) && ((y < yLen && x <= xLen) || (y == yLen && x == 0))
    && (forall k :: 0 <= k < |lows| ==> LowEntry(heights, xLen, yLen, lows[k]) && Scanned(y, x, (lows[k].1, lows[k].2)))
    && (forall cx: nat, cy: nat :: cx < xLen && cy < yLen && Scanned(y, x, (cx, cy)) && IsLow(heights, xLen, yLen, (cx, cy)) ==>
          (heights[cy][cx], cx, cy) in lows)
    && (forall i, j :: 0 <= i < j < |lows| ==> Before(lows[i], lows[j]))
    && RiskSum(lows) == RiskBelow(heights, xLen, yLen, y, x)
  }

  /** Scanning cell `(x, y)` pushes it exactly when it is a low point. */
  lemma ScanStep(heights: Heights, xLen: nat, yLen: nat, y: nat, x: nat, lows: seq<(nat, nat, nat)>)
    requires ScanState(heights, xLen, yLen, y, x, lows) && y < yLen && x < xLen
    ensures var next := if IsLow(heights, xLen, yLen, (x, y)) then lows + [(heights[y][x], x, y)] else lows;
      ScanState(heights, xLen, yLen, y, x + 1, next)
  {
    if IsLow(heights, xLen, yLen, (x, y)) {
      ScanPush(heights, xLen, yLen, y, x, lows);
    } else {
      forall cx: nat, cy: nat | cx < xLen && cy < yLen && Scanned(y, x + 1, (cx, cy)) && IsLow(heights, xLen, yLen, (cx, cy))
        ensures (heights[cy][cx], cx, cy) in lows
      {
        assert Scanned(y, x, (cx, cy));
      }
    }
  }

  lemma ScanPush(heights: Heights, xLen: nat, yLen: nat, y: nat, x: nat, lows: seq<(nat, nat, nat)>)
    requires ScanState(heights, xLen, yLen, y, x, lows) && y < yLen && x < xLen
    requires IsLow(heights, xLen, yLen, (x, y))
    ensures ScanState(heights, xLen, yLen, y, x + 1, lows + [(heights[y][x], x, y)])
  {
    var e := (heights[y][x], x, y);
    var next := lows + [e];
    assert next[..|next| - 1] == lows;
    assert RiskSum(next) == RiskBelow(heights, xLen, yLen, y, x + 1);
    assert forall k :: 0 <= k < |lows| ==> Before(lows[k], e);
    assert forall k :: 0 <= k < |next| ==> Scanned(y, x + 1, (next[k].1, next[k].2));
    forall cx: nat, cy: nat | cx < xLen && cy < yLen && Scanned(y, x + 1, (cx, cy)) && IsLow(heights, xLen, yLen, (cx, cy))
      ensures (heights[cy][cx], cx, cy) in next
    {
      if Scanned(y, x, (cx, cy)) {
        assert (heights[cy][cx], cx, cy) in lows;
      }
    }
  }

  /** The end of row `y` is the start of row `y + 1`. */
  lemma ScanRowDone(heights: Heights, xLen: nat, yLen: nat, y: nat, lows: seq<(nat, nat, nat)>)
    requires ScanState(heights, xLen, yLen, y, xLen, lows) && y < yLen
    ensures ScanState(heights, xLen, yLen, y + 1, 0, lows)
  {
    forall cx: nat, cy: nat | cx < xLen && cy < yLen && Scanned(y + 1, 0, (cx, cy)) && IsLow(heights, xLen, yLen, (cx, cy))
      ensures (heights[cy][cx], cx, cy) in lows
    {
      assert Scanned(y, xLen, (cx, cy));
    }
  }

  /**
   * The `low_points` scan in `main`: every low point, as `(height, x, y)`,
   * once and in row-major order, with part 1's total risk.
   */
  method LowPoints(heights: Heights, xLen: nat, yLen: nat) returns (lows: seq<(nat, nat, nat)>)
    requires Rect(heights, xLen, yLen)
    ensures forall k :: 0 <= k < |lows| ==> LowEntry(heights, xLen, yLen, lows[k])
    ensures forall x: nat, y: nat :: x < xLen && y < yLen && IsLow(heights, xLen, yLen, (x, y)) ==> (heights[y][x], x, y) in lows
    ensures forall i, j :: 0 <= i < j < |lows| ==> Before(lows[i], lows[j])
    ensures RiskSum(lows) == Risk(heights, xLen, yLen)
  {
    lows := [];
    for y := 0 to yLen
      invariant ScanState(heights, xLen, yLen, y, 0, lows)
    {
      for x := 0 to xLen
        invariant ScanState(heights, xLen, yLen, y, x, lows)
      {
        lows := ScanCell(heights, xLen, yLen, y, x, lows);
      }
      ScanRowDone(heights, xLen, yLen, y, lows);
    }
    ScanDone(heights, xLen, yLen, lows);
  }

  /** One cell of the scan: push it when it is smaller than all its neighbours. */
  method ScanCell(heights: Heights, xLen: nat, yLen: nat, y: nat, x: nat, lows: seq<(nat, nat, nat)>)
    returns (next: seq<(nat, nat, nat)>)
    requires ScanState(heights, xLen, yLen, y, x, lows) && y < yLen && x < xLen
    ensures next == if IsLow(heights, xLen, yLen, (x, y)) then lows + [(heights[y][x], x, y)] else lows
    ensures ScanState(heights, xLen, yLen, y, x + 1, next)
  {
    var adjacent := GetAdjacent(heights, x, y, xLen, yLen);
    SmallerIffLow(heights, xLen, yLen, (x, y), adjacent);
    ScanStep(heights, xLen, yLen, y, x, lows);
    next := lows;
    if IsSmallerThanAdjacent(heights[y][x], adjacent) {
      next := lows + [(heights[y][x], x, y)];
    }
  }

  /** The scan state after the last row is the contract of the scan. */
  lemma ScanDone(heights: Heights, xLen: nat, yLen: nat, lows: seq<(nat, nat, nat)>)
    requires ScanState(heights, xLen, yLen, yLen, 0, lows)
    ensures forall k :: 0 <= k < |lows| ==> LowEntry(heights, xLen, yLen, lows[k])
    ensures forall x: nat, y: nat :: x < xLen && y < yLen && IsLow(heights, xLen, yLen, (x, y)) ==> (heights[y][x], x, y) in lows
    ensures forall i, j :: 0 <= i < j < |lows| ==> Before(lows[i], lows[j])
    ensures RiskSum(lows) == Risk(heights, xLen, yLen)
  {
  }

  // ---------------------------------------------------------------------
  // build_basin
  // ---------------------------------------------------------------------

  /** The cells of the map. */
  function Grid(xLen: nat, yLen: nat): set<Cell>
  {
    set x: nat, y: nat | x < xLen && y < yLen :: (x, y)
  }

  const Dirs: set<Dir> := {Up, Left, Down, Right}

  /** The directions still to explore, over every recorded cell. */
  function Pending(positions: map<Cell, Adjacent>): set<(Cell, Dir)>
  {
    set c, d | c in positions && d in Dirs && !Checked(positions[c], d) :: (c, d)
  }

  predicate AllChecked(adj: Adjacent)
  {
    adj.checkedUp && adj.checkedDown && adj.checkedLeft && adj.checkedRight
  }

  /** Marking one direction explored: that direction becomes checked, the others and the heights stay. */
  function Check(adj: Adjacent, d: Dir): (r: Adjacent)
    ensures Checked(r, d)
    ensures forall e: Dir :: e != d ==> Checked(r, e) == Checked(adj, e)
    ensures r.up == adj.up && r.down == adj.down && r.left == adj.left && r.right == adj.right
  {
    match d
    case Up => adj.(checkedUp := true)
    case Left => adj.(checkedLeft := true)
    case Down => adj.(checkedDown := true)
    case Right => adj.(checkedRight := true)
  }

  /** What holds of `positions` between iterations of `build_basin`'s loop. */
  predicate Explored(heights: Heights, xLen: nat, yLen: nat, start: Cell, positions: map<Cell, Adjacent>)
  {
    Rect(heights, xLen, yLen)
    && start in positions
    && (forall c :: c in positions ==> c.0 < xLen && c.1 < yLen)
    && (forall c :: c in positions && c != start ==> HeightAt(heights, xLen, yLen, c) != 9)
    // a direction still open leads to a cell of the basin
    && (forall c, d :: c in positions && !Checked(positions[c], d) ==> NeighbourHeight(heights, xLen, yLen, c, d) != 9)
    // a direction done leads off the map, to a 9, or to a recorded cell
    && (forall c, d :: c in positions && Checked(positions[c], d) && NeighbourHeight(heights, xLen, yLen, c, d) != 9 ==>
          Next(c, d) in positions)
  }

  /** No recorded cell has a neighbour of the basin outside the record. */
  predicate Closed(heights: Heights, xLen: nat, yLen: nat, basin: set<Cell>)
    requires Rect(heights, xLen, yLen) && forall c :: c in basin ==> c.0 < xLen && c.1 < yLen
  {
    forall c, d :: c in basin && NeighbourHeight(heights, xLen, yLen, c, d) != 9 ==> Next(c, d) in basin
  }

  lemma CheckShrinksPending(positions: map<Cell, Adjacent>, c: Cell, d: Dir)
    requires c in positions && !Checked(positions[c], d)
    ensures Pending(positions[c := Check(positions[c], d)]) < Pending(positions)
  {
    var after := positions[c := Check(positions[c], d)];
    assert (c, d) in Pending(positions);
    assert (c, d) !in Pending(after);
    forall e | e in Pending(after) ensures e in Pending(positions) {
      var (c', d') := e;
      if c' == c {
        assert !Checked(after[c], d');
        assert d' != d;
      }
    }
  }

  /** An explored cell sends a direction it has left open to a cell on the map. */
  lemma OpenDirection(heights: Heights, xLen: nat, yLen: nat, start: Cell, positions: map<Cell, Adjacent>, c: Cell, d: Dir)
    requires Explored(heights, xLen, yLen, start, positions) && c in positions && !Checked(positions[c], d)
    ensures InGrid(xLen, yLen, c, d) && Next(c, d).0 < xLen && Next(c, d).1 < yLen
    ensures HeightAt(heights, xLen, yLen, Next(c, d)) != 9
  {
  }

  /** Marking direction `d` of `c` done, when its neighbour is already recorded. */
  lemma StepToRecorded(heights: Heights, xLen: nat, yLen: nat, start: Cell, positions: map<Cell, Adjacent>, c: Cell, d: Dir)
    requires Explored(heights, xLen, yLen, start, positions) && c in positions && !Checked(positions[c], d)
    requires InGrid(xLen, yLen, c, d) && Next(c, d) in positions
    ensures Explored(heights, xLen, yLen, start, positions[c := Check(positions[c], d)])
  {
    var after := positions[c := Check(positions[c], d)];
    forall c', d' | c' in after && !Checked(after[c'], d') ensures NeighbourHeight(heights, xLen, yLen, c', d') != 9 {
      assert !Checked(positions[c'], d');
    }
    forall c', d' | c' in after && Checked(after[c'], d') && NeighbourHeight(heights, xLen, yLen, c', d') != 9
      ensures Next(c', d') in after
    {
      if c' != c || d' != d {
        assert Checked(positions[c'], d');
      }
    }
  }

  /** Marking direction `d` of `c` done and recording its new neighbour as `get_adjacent` describes it. */
  lemma StepToNew(heights: Heights, xLen: nat, yLen: nat, start: Cell, positions: map<Cell, Adjacent>, c: Cell, d: Dir, adj: Adjacent)
    requires Explored(heights, xLen, yLen, start, positions) && c in positions && !Checked(positions[c], d)
    requires InGrid(xLen, yLen, c, d) && Next(c, d).0 < xLen && Next(c, d).1 < yLen
    requires HeightAt(heights, xLen, yLen, Next(c, d)) != 9
    requires Next(c, d) !in positions && AdjacentOf(heights, xLen, yLen, Next(c, d), adj)
    ensures Explored(heights, xLen, yLen, start, positions[c := Check(positions[c], d)][Next(c, d) := adj])
  {
    var n := Next(c, d);
    var after := positions[c := Check(positions[c], d)][n := adj];
    forall c', d' | c' in after && !Checked(after[c'], d') ensures NeighbourHeight(heights, xLen, yLen, c', d') != 9 {
      if c' != n {
        assert !Checked(positions[c'], d');
      }
    }
    forall c', d' | c' in after && Checked(after[c'], d') && NeighbourHeight(heights, xLen, yLen, c', d') != 9
      ensures Next(c', d') in after
    {
      if c' != n && (c' != c || d' != d) {
        assert Checked(positions[c'], d');
      }
    }
  }

  /** With nothing left open, the record is closed. */
  lemma ExploredClosed(heights: Heights, xLen: nat, yLen: nat, start: Cell, positions: map<Cell, Adjacent>)
    requires Explored(heights, xLen, yLen, start, positions)
    requires forall c :: c in positions ==> AllChecked(positions[c])
    ensures Closed(heights, xLen, yLen, positions.Keys)
  {
    forall c, d | c in positions && NeighbourHeight(heights, xLen, yLen, c, d) != 9 ensures Next(c, d) in positions {
      assert AllChecked(positions[c]);
      assert Checked(positions[c], d);
    }
  }

  /**
   * `build_basin`: walk from the low point, marking a direction done
   * before taking it, and jump back to any recorded cell with a direction
   * still open. The cells recorded when nothing is left open contain the
   * start, lie on the map, are not 9s (the start aside), and are closed
   * under stepping to a neighbour that is not a 9.
   */
  method BuildBasin(heights: Heights, xPos: nat, yPos: nat, xLen: nat, yLen: nat) returns (basin: set<Cell>)
    requires Rect(heights, xLen, yLen) && xPos < xLen && yPos < yLen
    ensures (xPos, yPos) in basin
    ensures forall c :: c in basin ==> c.0 < xLen && c.1 < yLen
    ensures forall c :: c in basin && c != (xPos, yPos) ==> HeightAt(heights, xLen, yLen, c) != 9
    ensures Closed(heights, xLen, yLen, basin)
  {
    var x, y := xPos, yPos;
    var adjacent := GetAdjacent(heights, x, y, xLen, yLen);
    var positions: map<Cell, Adjacent> := map[(x, y) := adjacent];
    while true
      invariant Explored(heights, xLen, yLen, (xPos, yPos), positions)
      invariant (x, y) in positions && positions[(x, y)] == adjacent
      decreases Grid(xLen, yLen) - positions.Keys, Pending(positions), if AllChecked(adjacent) then 1 else 0
    {
      var d: Dir;
      if !adjacent.checkedUp {
        d := Up;
      } else if !adjacent.checkedLeft {
        d := Left;
      } else if !adjacent.checkedDown {
        d := Down;
      } else if !adjacent.checkedRight {
        d := Right;
      } else {
        // Have we been anywhere that still has some exploration to do?
        if c :| c in positions && !AllChecked(positions[c]) {
          x, y := c.0, c.1;
          adjacent := positions[c];
          continue;
        } else {
          ExploredClosed(heights, xLen, yLen, (xPos, yPos), positions);
          break;
        }
      }
      ghost var before, here := positions, (x, y);
      OpenDirection(heights, xLen, yLen, (xPos, yPos), positions, (x, y), d);
      CheckShrinksPending(positions, (x, y), d);
      var next := Next((x, y), d);
      if next in positions {
        StepToRecorded(heights, xLen, yLen, (xPos, yPos), positions, (x, y), d);
      }
      adjacent := Check(adjacent, d);
      positions := positions[(x, y) := adjacent];
      x, y := next.0, next.1;
      if (x, y) in positions {
        adjacent := positions[(x, y)];
      } else {
        assert (x, y) in Grid(xLen, yLen) - before.Keys;
        adjacent := GetAdjacent(heights, x, y, xLen, yLen);
        StepToNew(heights, xLen, yLen, (xPos, yPos), before, here, d, adjacent);
        positions := positions[(x, y) := adjacent];
      }
    }
    basin := positions.Keys;
  }

  // ---------------------------------------------------------------------
  // The answers
  // ---------------------------------------------------------------------

  function Reverse(s: seq<nat>): (r: seq<nat>)
    ensures |r| == |s| && forall i :: 0 <= i < |s| ==> r[i] == s[|s| - 1 - i]
  {
    if s == [] then [] else Reverse(s[1..]) + [s[0]]
  }

  /** `.take(3).fold(1, |size, acc| acc * size)`. */
  function ProductOfFirst(s: seq<nat>, n: nat): nat
  {
    if n == 0 || s == [] then 1 else s[0] * ProductOfFirst(s[1..], n - 1)
  }

  /** Sorting then reversing puts the sizes in descending order, keeping them all. */
  lemma Descending(sizes: seq<nat>)
    ensures var r := Reverse(Sort(sizes));
      multiset(r) == multiset(sizes) && forall i, j :: 0 <= i < j < |r| ==> r[i] >= r[j]
  {
    var s := Sort(sizes);
    var r := Reverse(s);
    assert r == Reverse(s);
    assert multiset(r) == multiset(s) by {
      ReverseMultiset(s);
    }
  }

  lemma {:induction false} ReverseMultiset(s: seq<nat>)
    ensures multiset(Reverse(s)) == multiset(s)
  {
    if s != [] {
      ReverseMultiset(s[1..]);
      assert s == [s[0]] + s[1..];
    }
  }

  function Sizes(basins: seq<set<Cell>>): (sizes: seq<nat>)
    ensures |sizes| == |basins| && forall k :: 0 <= k < |basins| ==> sizes[k] == |basins[k]|
  {
    if basins == [] then [] else Sizes(basins[..|basins| - 1]) + [|basins[|basins| - 1]|]
  }

  /** What `build_basin` promises of the basin of low point `low`. */
  predicate BasinOf(heights: Heights, xLen: nat, yLen: nat, low: Cell, basin: set<Cell>)
    requires Rect(heights, xLen, yLen)
  {
    low in basin
    && (forall c :: c in basin ==> c.0 < xLen && c.1 < yLen)
    && (forall c :: c in basin && c != low ==> HeightAt(heights, xLen, yLen, c) != 9)
    && Closed(heights, xLen, yLen, basin)
  }

  /** `lows` lists every low point of the map, and nothing else. */
  predicate AllLowPoints(heights: Heights, xLen: nat, yLen: nat, lows: seq<(nat, nat, nat)>)
    requires Rect(heights, xLen, yLen)
  {
    (forall k :: 0 <= k < |lows| ==> LowEntry(heights, xLen, yLen, lows[k]))
    && forall x: nat, y: nat :: x < xLen && y < yLen && IsLow(heights, xLen, yLen, (x, y)) ==> (heights[y][x], x, y) in lows
  }

  /** The loop of `main` that builds the basin of every low point and records its size. */
  method AllBasins(heights: Heights, xLen: nat, yLen: nat, lows: seq<(nat, nat, nat)>)
    returns (basinSizes: seq<nat>, ghost basins: seq<set<Cell>>)
    requires Rect(heights, xLen, yLen)
    requires forall k :: 0 <= k < |lows| ==> LowEntry(heights, xLen, yLen, lows[k])
    ensures |basins| == |lows| && basinSizes == Sizes(basins)
    ensures forall k :: 0 <= k < |lows| ==> BasinOf(heights, xLen, yLen, (lows[k].1, lows[k].2), basins[k])
  {
    basinSizes := [];
    basins := [];
    for k := 0 to |lows|
      invariant |basins| == k && basinSizes == Sizes(basins)
      invariant forall j :: 0 <= j < k ==> BasinOf(heights, xLen, yLen, (lows[j].1, lows[j].2), basins[j])
    {
      var basin := BuildBasin(heights, lows[k].1, lows[k].2, xLen, yLen);
      assert BasinOf(heights, xLen, yLen, (lows[k].1, lows[k].2), basin);
      ghost var more := basins + [basin];
      assert more[..k] == basins && more[k] == basin;
      basins := more;
      var size: nat := |basin|;
      basinSizes := basinSizes + [size];
    }
  }

  /**
   * `main`: part 1 sums the low points' risk levels; part 2 builds the basin
   * of every low point and multiplies the three largest sizes.
   */
  method Solve(heights: Heights, xLen: nat, yLen: nat)
    returns (part1: nat, part2: nat, lows: seq<(nat, nat, nat)>, ghost basins: seq<set<Cell>>)
    requires Rect(heights, xLen, yLen)
    ensures part1 == Risk(heights, xLen, yLen)
    ensures AllLowPoints(heights, xLen, yLen, lows)
    ensures |basins| == |lows| && forall k :: 0 <= k < |lows| ==> BasinOf(heights, xLen, yLen, (lows[k].1, lows[k].2), basins[k])
    ensures part2 == ProductOfFirst(Reverse(Sort(Sizes(basins))), 3)
  {
    lows := LowPoints(heights, xLen, yLen);
    assert AllLowPoints(heights, xLen, yLen, lows);
    part1 := RiskSum(lows);
    var basinSizes;
    basinSizes, basins := AllBasins(heights, xLen, yLen, lows);
    var sorted := Sort(basinSizes);
    var descending := Reverse(sorted);
    part2 := ProductOfFirst(descending, 3);
  }
}
