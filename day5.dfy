/**
 * Day 5, Hydrothermal Venture: rasterise vent lines onto a 999 x 999 grid
 * and count the points where at least two lines overlap. Horizontal and
 * vertical lines add 1 to each cell they cross, diagonal ones add 0xff, so
 * that one grid answers both parts.
 */
module HydrothermalVenture {
  import opened Options
  import opened Text

  datatype Point = Point(x: nat, y: nat)
  datatype Orientation = Vertical | Horizontal | Diagonal
  datatype Line = Line(start: Point, end: Point, orientation: Orientation)

  const Size: nat := 999
  /** What a diagonal line adds to each cell it crosses. */
  const DiagonalWeight: nat := 0xff

  // ---------------------------------------------------------------------
  // Parsing
  // ---------------------------------------------------------------------

  /** The pieces of `x1,y1 -> x2,y2`: split on " -> ", then each piece on ','. */
  function Fields(text: string): seq<string>
  {
    Flatten(Split(text, " -> "))
  }

  function Flatten(pieces: seq<string>): seq<string>
  {
    if pieces == [] then [] else Flatten(pieces[..|pieces| - 1]) + Split(pieces[|pieces| - 1], ",")
  }

  /** The `unwrap`s in `parse` succeed: at least four fields, every field a `u16`. */
  predicate LineTextOk(text: string)
  {
    |Fields(text)| >= 4 && forall f :: f in Fields(text) ==> ParseUnsigned(f, U16).Some?
  }

  /**
   * Orders the two end points: a line with equal y is horizontal and starts
   * at the smaller x; otherwise one with equal x is vertical and starts at
   * the smaller y; anything else is diagonal and starts at the smaller x.
   */
  function Normalise(start: Point, end: Point): (l: Line)
    ensures l.orientation == Horizontal <==> start.y == end.y
    ensures l.orientation == Vertical <==> start.y != end.y && start.x == end.x
    ensures l.orientation == Diagonal <==> start.y != end.y && start.x != end.x
    ensures (l.start, l.end) == (start, end) || (l.start, l.end) == (end, start)
    ensures l.orientation == Horizontal ==> l.start.x <= l.end.x
    ensures l.orientation == Vertical ==> l.start.y <= l.end.y
    ensures l.orientation == Diagonal ==> l.start.x < l.end.x
  {
    if start.y == end.y then
      (if start.x < end.x then Line(start, end, Horizontal) else Line(end, start, Horizontal))
    else if start.x == end.x then
      (if start.y < end.y then Line(start, end, Vertical) else Line(end, start, Vertical))
    else
      (if start.x < end.x then Line(start, end, Diagonal) else Line(end, start, Diagonal))
  }

  /** One line of input; fields past the fourth are ignored. */
  function ParseLine(text: string): (l: Line)
    requires LineTextOk(text)
    ensures l.start.x < U16 && l.start.y < U16 && l.end.x < U16 && l.end.y < U16
  {
    var fs := Fields(text);
    assert fs[0] in fs && fs[1] in fs && fs[2] in fs && fs[3] in fs;
    var start := Point(ParseUnsigned(fs[0], U16).value, ParseUnsigned(fs[1], U16).value);
    var end := Point(ParseUnsigned(fs[2], U16).value, ParseUnsigned(fs[3], U16).value);
    Normalise(start, end)
  }

  /** `parse`: every input line becomes one normalised line, in order. */
  function ParseLines(texts: seq<string>): (ls: seq<Line>)
    requires forall i :: 0 <= i < |texts| ==> LineTextOk(texts[i])
    ensures |ls| == |texts|
    ensures forall i :: 0 <= i < |texts| ==> ls[i] == ParseLine(texts[i])
  {
    if texts == [] then [] else [ParseLine(texts[0])] + ParseLines(texts[1..])
  }

  // ---------------------------------------------------------------------
  // What a line covers
  // ---------------------------------------------------------------------

  /** The y of a diagonal line `k` steps right of its start: one step toward `end.y` per step. */
  function DiagonalY(l: Line, k: nat): int
  {
    if l.start.y < l.end.y then l.start.y + k else l.start.y - k
  }

  /** The cells a normalised line adds to. */
  predicate Covers(l: Line, x: nat, y: nat)
  {
    match l.orientation
    case Vertical => x == l.start.x && l.start.y <= y <= l.end.y
    case Horizontal => y == l.start.y && l.start.x <= x <= l.end.x
    case Diagonal => l.start.x <= x <= l.end.x && y == DiagonalY(l, x - l.start.x)
  }

  function Weight(l: Line): nat
  {
    if l.orientation == Diagonal then DiagonalWeight else 1
  }

  /** Every cell the loops touch is on the grid (indexing panics otherwise). */
  predicate InGrid(l: Line)
  {
    match l.orientation
    case Vertical => l.start.x < Size && l.start.y <= l.end.y < Size
    case Horizontal => l.start.y < Size && l.start.x <= l.end.x < Size
    case Diagonal =>
      l.start.x <= l.end.x < Size
      && 0 <= DiagonalY(l, l.end.x - l.start.x) < Size && l.start.y < Size
  }

  lemma DiagonalInGrid(l: Line, k: nat)
    requires l.orientation == Diagonal && InGrid(l) && k <= l.end.x - l.start.x
    ensures 0 <= DiagonalY(l, k) < Size
  {
  }

  /** How much the lines add to cell `(x, y)`: 1 per straight line, 0xff per diagonal through it. */
  function Coverage(lines: seq<Line>, x: nat, y: nat): nat
  {
    if lines == [] then 0
    else Coverage(lines[..|lines| - 1], x, y) + (if Covers(lines[|lines| - 1], x, y) then Weight(lines[|lines| - 1]) else 0)
  }

  /** The number of straight lines through a cell. */
  function Straight(lines: seq<Line>, x: nat, y: nat): nat
  {
    if lines == [] then 0
    else Straight(lines[..|lines| - 1], x, y) + (if Covers(lines[|lines| - 1], x, y) && lines[|lines| - 1].orientation != Diagonal then 1 else 0)
  }

  /** The number of diagonal lines through a cell. */
  function Diagonals(lines: seq<Line>, x: nat, y: nat): nat
  {
    if lines == [] then 0
    else Diagonals(lines[..|lines| - 1], x, y) + (if Covers(lines[|lines| - 1], x, y) && lines[|lines| - 1].orientation == Diagonal then 1 else 0)
  }

  lemma {:induction false} CoverageSplits(lines: seq<Line>, x: nat, y: nat)
    ensures Coverage(lines, x, y) == Straight(lines, x, y) + DiagonalWeight * Diagonals(lines, x, y)
  {
    if lines != [] {
      CoverageSplits(lines[..|lines| - 1], x, y);
    }
  }

  // ---------------------------------------------------------------------
  // Marking the grid
  // ---------------------------------------------------------------------

  /** Adds one line's weight to every cell it covers, and changes no other cell. */
  method MarkLine(grid: array2<int>, l: Line)
    requires grid.Length0 == Size && grid.Length1 == Size && InGrid(l)
    modifies grid
    ensures forall y, x :: 0 <= y < Size && 0 <= x < Size ==>
      grid[y, x] == old(grid[y, x]) + (if Covers(l, x, y) then Weight(l) else 0)
  {
    match l.orientation {
      case Vertical =>
        for y := l.start.y to l.end.y + 1
          invariant forall yy, xx :: 0 <= yy < Size && 0 <= xx < Size ==>
            grid[yy, xx] == old(grid[yy, xx]) + (if xx == l.start.x && l.start.y <= yy < y then 1 else 0)
        {
          grid[y, l.start.x] := grid[y, l.start.x] + 1;
        }
      case Horizontal =>
        for x := l.start.x to l.end.x + 1
          invariant forall yy, xx :: 0 <= yy < Size && 0 <= xx < Size ==>
            grid[yy, xx] == old(grid[yy, xx]) + (if yy == l.start.y && l.start.x <= xx < x then 1 else 0)
        {
          grid[l.start.y, x] := grid[l.start.y, x] + 1;
        }
      case Diagonal =>
        var yInc := if l.start.y < l.end.y then 1 else -1;
        var y: int := l.start.y;
        for x := l.start.x to l.end.x + 1
          invariant y == DiagonalY(l, x - l.start.x)
          invariant forall yy, xx :: 0 <= yy < Size && 0 <= xx < Size ==>
            grid[yy, xx] == old(grid[yy, xx])
              + (if l.start.x <= xx < x && yy == DiagonalY(l, xx - l.start.x) then DiagonalWeight else 0)
        {
          DiagonalInGrid(l, x - l.start.x);
          grid[y, x] := grid[y, x] + DiagonalWeight;
          y := y + yInc;
        }
    }
  }

  /** The marking loop of `main`: every cell ends up holding its coverage. */
  method MarkAll(grid: array2<int>, lines: seq<Line>)
    requires grid.Length0 == Size && grid.Length1 == Size
    requires forall i :: 0 <= i < |lines| ==> InGrid(lines[i])
    modifies grid
    ensures forall y, x :: 0 <= y < Size && 0 <= x < Size ==> grid[y, x] == old(grid[y, x]) + Coverage(lines, x, y)
  {
    for i := 0 to |lines|
      invariant forall y, x :: 0 <= y < Size && 0 <= x < Size ==> grid[y, x] == old(grid[y, x]) + Coverage(lines[..i], x, y)
    {
      MarkLine(grid, lines[i]);
      assert lines[..i + 1][..i] == lines[..i];
    }
    assert lines[..|lines|] == lines;
  }

  // ---------------------------------------------------------------------
  // Counting
  // ---------------------------------------------------------------------

  /** Part 1 keeps the straight-line count, `cell % 0xff`. */
  predicate Part1Hit(v: int)
  {
    v % DiagonalWeight >= 2
  }

  /** Part 2 decodes `cell = straight + 0xff * diagonal` back into `straight + diagonal`. */
  function Decode(v: int): int
  {
    if v < DiagonalWeight then v else v % DiagonalWeight + v / DiagonalWeight
  }

  predicate Part2Hit(v: int)
  {
    Decode(v) >= 2
  }

  /**
   * While fewer than 0xff straight lines share a cell, part 1 sees exactly
   * the straight lines and part 2 exactly all lines through it.
   */
  lemma DecodeCell(straight: nat, diagonal: nat)
    requires straight < DiagonalWeight
    ensures (straight + DiagonalWeight * diagonal) % DiagonalWeight == straight
    ensures Decode(straight + DiagonalWeight * diagonal) == straight + diagonal
  {
    var v := straight + DiagonalWeight * diagonal;
    assert v / DiagonalWeight == diagonal && v % DiagonalWeight == straight by {
      assert v == diagonal * DiagonalWeight + straight;
    }
  }

  /** Cells of row `y` before column `x` (and of every earlier row) that satisfy the part's test. */
  function CountCells(grid: array2<int>, y: nat, x: nat, part2: bool): nat
    requires grid.Length0 == Size && grid.Length1 == Size && y < Size && x <= Size
    reads grid
    decreases y, x
  {
    if x == 0 then (if y == 0 then 0 else CountCells(grid, y - 1, Size, part2))
    else CountCells(grid, y, x - 1, part2) + (if (if part2 then Part2Hit(grid[y, x - 1]) else Part1Hit(grid[y, x - 1])) then 1 else 0)
  }

  /** `grid.iter().flatten().filter(..).count()` for one part. */
  method CountHits(grid: array2<int>, part2: bool) returns (n: nat)
    requires grid.Length0 == Size && grid.Length1 == Size
    ensures n == CountCells(grid, Size - 1, Size, part2)
  {
    n := 0;
    for y := 0 to Size
      invariant n == (if y == 0 then 0 else CountCells(grid, y - 1, Size, part2))
    {
      for x := 0 to Size
        invariant n == CountCells(grid, y, x, part2)
      {
        var v := grid[y, x];
        if (if part2 then Part2Hit(v) else Part1Hit(v)) {
          n := n + 1;
        }
      }
    }
  }

  /** The intended answer: points of rows before `y`, and of row `y` before `x`, where enough lines meet. */
  function Overlaps(lines: seq<Line>, y: nat, x: nat, part2: bool): nat
    requires y < Size && x <= Size
    decreases y, x
  {
    if x == 0 then (if y == 0 then 0 else Overlaps(lines, y - 1, Size, part2))
    else
      var lines_here := if part2 then Straight(lines, x - 1, y) + Diagonals(lines, x - 1, y) else Straight(lines, x - 1, y);
      Overlaps(lines, y, x - 1, part2) + (if lines_here >= 2 then 1 else 0)
  }

  /**
   * While no cell has 0xff or more straight lines through it, counting the
   * encoded grid gives the intended answers: part 1 counts points where at
   * least two horizontal or vertical lines overlap, part 2 points where at
   * least two lines of any orientation do.
   */
  lemma {:induction false} CountsOverlaps(grid: array2<int>, lines: seq<Line>, y: nat, x: nat, part2: bool)
    requires grid.Length0 == Size && grid.Length1 == Size && y < Size && x <= Size
    requires forall yy, xx :: 0 <= yy < Size && 0 <= xx < Size ==>
      grid[yy, xx] == Straight(lines, xx, yy) + DiagonalWeight * Diagonals(lines, xx, yy)
    requires forall yy, xx :: 0 <= yy < Size && 0 <= xx < Size ==> Straight(lines, xx, yy) < DiagonalWeight
    ensures CountCells(grid, y, x, part2) == Overlaps(lines, y, x, part2)
    decreases y, x
  {
    if x == 0 {
      if y > 0 {
        CountsOverlaps(grid, lines, y - 1, Size, part2);
      }
    } else {
      CountsOverlaps(grid, lines, y, x - 1, part2);
      DecodeCell(Straight(lines, x - 1, y), Diagonals(lines, x - 1, y));
    }
  }

  /** `main`: mark every line on a fresh grid and count both parts. */
  method Answers(lines: seq<Line>) returns (part1: nat, part2: nat, grid: array2<int>)
    requires |lines| > 0 && forall i :: 0 <= i < |lines| ==> InGrid(lines[i])
    ensures grid.Length0 == Size && grid.Length1 == Size
    ensures forall y, x :: 0 <= y < Size && 0 <= x < Size ==>
      grid[y, x] == Straight(lines, x, y) + DiagonalWeight * Diagonals(lines, x, y)
    ensures part1 == CountCells(grid, Size - 1, Size, false)
    ensures part2 == CountCells(grid, Size - 1, Size, true)
  {
    grid := new int[Size, Size]((_, _) => 0);
    MarkAll(grid, lines);
    forall y, x | 0 <= y < Size && 0 <= x < Size
      ensures grid[y, x] == Straight(lines, x, y) + DiagonalWeight * Diagonals(lines, x, y)
    {
      CoverageSplits(lines, x, y);
    }
    part1 := CountHits(grid, false);
    part2 := CountHits(grid, true);
  }

  /** The answers are the overlap counts whenever fewer than 0xff straight lines meet at any point. */
  method Solve(lines: seq<Line>) returns (part1: nat, part2: nat)
    requires |lines| > 0 && forall i :: 0 <= i < |lines| ==> InGrid(lines[i])
    requires forall y, x :: 0 <= y < Size && 0 <= x < Size ==> Straight(lines, x, y) < DiagonalWeight
    ensures part1 == Overlaps(lines, Size - 1, Size, false)
    ensures part2 == Overlaps(lines, Size - 1, Size, true)
  {
    var grid;
    part1, part2, grid := Answers(lines);
    CountsOverlaps(grid, lines, Size - 1, Size, false);
    CountsOverlaps(grid, lines, Size - 1, Size, true);
  }
}
