/**
 * Day 25, Sea Cucumber: two herds share a grid that wraps round both
 * edges. Each step, every east-facing cucumber whose cell to the right is
 * empty moves into it, all at once; then every south-facing cucumber whose
 * cell below is empty (after the east herd's move) moves down. The answer
 * is the first step at which nothing moves.
 */
module SeaCucumber {
  import opened Options

  /** A cell of the map: `None` is empty, `Some(true)` faces south, `Some(false)` faces east. */
  type Cell = Option<bool>

  type Grid = seq<seq<Cell>>

  // ---------------------------------------------------------------------
  // parse
  // ---------------------------------------------------------------------

  /** The cell a character stands for: `v` south, `>` east, anything else empty. */
  function ReadCell(c: char): (r: Cell)
    ensures r == Some(true) <==> c == 'v'
    ensures r == Some(false) <==> c == '>'
  {
    match c
    case 'v' => Some(true)
    case '>' => Some(false)
    case _ => None
  }

  function ReadLine(line: string): (row: seq<Cell>)
    ensures |row| == |line|
  {
    seq(|line|, i requires 0 <= i < |line| => ReadCell(line[i]))
  }

  /** `parse`: every line, character by character. */
  function Parse(lines: seq<string>): (g: Grid)
    ensures |g| == |lines|
    ensures forall j :: 0 <= j < |lines| ==> |g[j]| == |lines[j]|
  {
    seq(|lines|, j requires 0 <= j < |lines| => ReadLine(lines[j]))
  }

  /** The character the puzzle input draws for a cell. */
  function ShowCell(c: Cell): char
  {
    match c
    case Some(true) => 'v'
    case Some(false) => '>'
    case None => '.'
  }

  function ShowLine(row: seq<Cell>): (line: string)
    ensures |line| == |row|
  {
    seq(|row|, i requires 0 <= i < |row| => ShowCell(row[i]))
  }

  function Show(g: Grid): (lines: seq<string>)
    ensures |lines| == |g|
  {
    seq(|g|, j requires 0 <= j < |g| => ShowLine(g[j]))
  }

  /** Every map is read back from its drawing. */
  lemma ParseShow(g: Grid)
    ensures Parse(Show(g)) == g
  {
    forall j | 0 <= j < |g| ensures ReadLine(Show(g)[j]) == g[j] {
      assert forall i :: 0 <= i < |g[j]| ==> ReadCell(ShowCell(g[j][i])) == g[j][i];
    }
  }

  predicate Drawn(c: char)
  {
    c == '.' || c == 'v' || c == '>'
  }

  /** A drawing made of `.`, `v` and `>` is drawn back from the map it reads as. */
  lemma ShowParse(lines: seq<string>)
    requires forall j, i :: 0 <= j < |lines| && 0 <= i < |lines[j]| ==> Drawn(lines[j][i])
    ensures Show(Parse(lines)) == lines
  {
    forall j | 0 <= j < |lines| ensures ShowLine(Parse(lines)[j]) == lines[j] {
      assert forall i :: 0 <= i < |lines[j]| ==> ShowCell(ReadCell(lines[j][i])) == lines[j][i];
    }
  }

  // ---------------------------------------------------------------------
  // Positions on the wrapping grid
  // ---------------------------------------------------------------------

  /** `step` reads `map[0].len()` as the width of every row. */
  predicate Rectangular(g: Grid)
  {
    |g| >= 1 && forall j :: 0 <= j < |g| ==> |g[j]| == |g[0]|
  }

  datatype Pos = Pos(y: int, x: int)

  predicate InGrid(g: Grid, p: Pos)
  {
    0 <= p.y < |g| && 0 <= p.x < |g[p.y]|
  }

  function At(g: Grid, p: Pos): Cell
    requires InGrid(g, p)
  {
    g[p.y][p.x]
  }

  /** The cell a cucumber of the herd moves to: one to the right, or one down, wrapping round. */
  function Ahead(g: Grid, herd: bool, p: Pos): (q: Pos)
    requires Rectangular(g) && InGrid(g, p)
    ensures InGrid(g, q)
  {
    if herd then Pos(if p.y + 1 == |g| then 0 else p.y + 1, p.x)
    else Pos(p.y, if p.x + 1 == |g[0]| then 0 else p.x + 1)
  }

  /** The cell a cucumber of the herd would come from: one to the left, or one up, wrapping round. */
  function Behind(g: Grid, herd: bool, p: Pos): (q: Pos)
    requires Rectangular(g) && InGrid(g, p)
    ensures InGrid(g, q)
  {
    if herd then Pos(if p.y == 0 then |g| - 1 else p.y - 1, p.x)
    else Pos(p.y, if p.x == 0 then |g[0]| - 1 else p.x - 1)
  }

  /** Rust's `(k + 1) % n` on an index below `n`. */
  lemma NextIndex(k: int, n: int)
    requires 0 <= k < n
    ensures (k + 1) % n == if k + 1 == n then 0 else k + 1
  {
  }

  lemma AheadBehind(g: Grid, herd: bool, p: Pos)
    requires Rectangular(g) && InGrid(g, p)
    ensures Ahead(g, herd, Behind(g, herd, p)) == p && Behind(g, herd, Ahead(g, herd, p)) == p
  {
  }

  // ---------------------------------------------------------------------
  // step
  // ---------------------------------------------------------------------

  /** A cucumber of the herd at `p` faces an empty cell and moves. */
  predicate Moves(g: Grid, herd: bool, p: Pos)
    requires Rectangular(g) && InGrid(g, p)
  {
    At(g, p) == Some(herd) && At(g, Ahead(g, herd, p)) == None
  }

  /** The cell at `p` after the herd moves: emptied if its cucumber moves, filled if the one behind moves in. */
  function MovedCell(g: Grid, herd: bool, p: Pos): Cell
    requires Rectangular(g) && InGrid(g, p)
  {
    if Moves(g, herd, p) then None
    else if Moves(g, herd, Behind(g, herd, p)) then Some(herd)
    else At(g, p)
  }

  /** The map after one herd moves, every cucumber decided from the map before. */
  function Moved(g: Grid, herd: bool): (r: Grid)
    requires Rectangular(g)
    ensures Rectangular(r) && |r| == |g| && |r[0]| == |g[0]|
  {
    seq(|g|, j requires 0 <= j < |g| =>
      seq(|g[0]|, i requires 0 <= i < |g[0]| => MovedCell(g, herd, Pos(j, i))))
  }

  lemma MovedAt(g: Grid, herd: bool)
    requires Rectangular(g)
    ensures forall j, i :: 0 <= j < |g| && 0 <= i < |g[0]| ==> Moved(g, herd)[j][i] == MovedCell(g, herd, Pos(j, i))
  {
  }

  /** One step: the east herd moves, then the south herd on the map it left. */
  function Next(g: Grid): (r: Grid)
    requires Rectangular(g)
    ensures Rectangular(r) && |r| == |g| && |r[0]| == |g[0]|
  {
    Moved(Moved(g, false), true)
  }

  /** `step`: the east-facing pass, then the south-facing pass on its result. */
  method Step(cucumbers: Grid) returns (updated: Grid)
    requires Rectangular(cucumbers)
    ensures updated == Next(cucumbers)
  {
    var moved := MovePass(cucumbers, false);
    updated := MovePass(moved, true);
  }

  /** `p` comes before `q` in row-major order. */
  predicate Before(p: Pos, q: Pos)
  {
    p.y < q.y || (p.y == q.y && p.x < q.x)
  }

  /** Progress of a pass: the cucumbers before `q` have moved in `u`, the rest not yet. */
  ghost predicate SoFar(u: Grid, g: Grid, herd: bool, q: Pos)
    requires Rectangular(g)
  {
    && SameShape(u, g)
    && forall j, i :: 0 <= j < |g| && 0 <= i < |g[0]| ==>
         u[j][i] == Partly(g, herd, q, Pos(j, i))
  }

  /** The cell at `p` once the cucumbers before `q` have moved. */
  function Partly(g: Grid, herd: bool, q: Pos, p: Pos): Cell
    requires Rectangular(g) && InGrid(g, p)
  {
    var from := Behind(g, herd, p);
    if Before(p, q) && Moves(g, herd, p) then None
    else if Before(from, q) && Moves(g, herd, from) then Some(herd)
    else At(g, p)
  }

  /**
   * One of the two passes of `step` over a copy of the map: the east-facing
   * pass when `herd` is false, the south-facing one when it is true.
   */
  method MovePass(cucumbers: Grid, herd: bool) returns (updated: Grid)
    requires Rectangular(cucumbers)
    ensures updated == Moved(cucumbers, herd)
  {
    updated := cucumbers;
    var yLen, xLen := |cucumbers|, |cucumbers[0]|;
    for y := 0 to yLen
      invariant SoFar(updated, cucumbers, herd, Pos(y, 0))
    {
      for x := 0 to xLen
        invariant SoFar(updated, cucumbers, herd, Pos(y, x))
      {
        PassedSoFar(updated, cucumbers, herd, Pos(y, x));
        updated := Visit(updated, cucumbers, herd, y, x);
      }
      SoFarRow(updated, cucumbers, herd, y);
    }
    SoFarAll(updated, cucumbers, herd);
  }

  /** The body of a pass at `(x, y)`: a cucumber of the herd facing an empty cell moves there. */
  method Visit(updated: Grid, cucumbers: Grid, herd: bool, y: nat, x: nat) returns (updated': Grid)
    requires Rectangular(cucumbers) && y < |cucumbers| && x < |cucumbers[0]|
    requires SameShape(updated, cucumbers)
    ensures updated' == Passed(updated, cucumbers, herd, Pos(y, x))
  {
    updated' := updated;
    var yLen, xLen := |cucumbers|, |cucumbers[0]|;
    if cucumbers[y][x] == Some(herd) {
      var ahead := if herd then Pos((y + 1) % yLen, x) else Pos(y, (x + 1) % xLen);
      NextIndex(y, yLen);
      NextIndex(x, xLen);
      assert ahead == Ahead(cucumbers, herd, Pos(y, x));
      if cucumbers[ahead.y][ahead.x].None? {
        updated' := updated'[ahead.y := updated'[ahead.y][ahead.x := Some(herd)]];
        updated' := updated'[y := updated'[y][x := None]];
      }
    }
  }

  /** `u` and `g` have the same rows and columns. */
  predicate SameShape(u: Grid, g: Grid)
    requires Rectangular(g)
  {
    |u| == |g| && forall j :: 0 <= j < |g| ==> |u[j]| == |g[0]|
  }

  /** `u` with the cell at `p` set to `c`. */
  function Put(u: Grid, p: Pos, c: Cell): (w: Grid)
    requires InGrid(u, p)
    ensures |w| == |u| && forall j :: 0 <= j < |u| ==> |w[j]| == |u[j]|
    ensures forall j, i :: 0 <= j < |u| && 0 <= i < |u[j]| ==>
      w[j][i] == if Pos(j, i) == p then c else u[j][i]
  {
    u[p.y := u[p.y][p.x := c]]
  }

  /** `u` once the pass has looked at `q` of the map `g`: the cucumber there moves ahead if it can. */
  function Passed(u: Grid, g: Grid, herd: bool, q: Pos): (w: Grid)
    requires Rectangular(g) && InGrid(g, q) && SameShape(u, g)
    ensures SameShape(w, g)
  {
    if Moves(g, herd, q) then Put(Put(u, Ahead(g, herd, q), Some(herd)), q, None) else u
  }

  /** Looking at `q` moves the pass on to the next cell in row-major order. */
  lemma PassedSoFar(u: Grid, g: Grid, herd: bool, q: Pos)
    requires Rectangular(g) && InGrid(g, q)
    requires SoFar(u, g, herd, q)
    ensures SoFar(Passed(u, g, herd, q), g, herd, Pos(q.y, q.x + 1))
  {
    if Moves(g, herd, q) {
      VisitMoves(u, g, herd, q);
    } else {
      VisitStays(u, g, herd, q);
    }
  }

  lemma VisitMoves(u: Grid, g: Grid, herd: bool, q: Pos)
    requires Rectangular(g) && InGrid(g, q) && Moves(g, herd, q)
    requires SoFar(u, g, herd, q)
    ensures SoFar(Put(Put(u, Ahead(g, herd, q), Some(herd)), q, None), g, herd, Pos(q.y, q.x + 1))
  {
    var a := Ahead(g, herd, q);
    var v := Put(u, a, Some(herd));
    var w := Put(v, q, None);
    forall j, i | 0 <= j < |g| && 0 <= i < |g[0]|
      ensures w[j][i] == Partly(g, herd, Pos(q.y, q.x + 1), Pos(j, i))
    {
      PartlyMoves(g, herd, q, Pos(j, i));
    }
  }

  /** Passing a cucumber that moves: its cell empties, the one ahead fills, nothing else changes. */
  lemma PartlyMoves(g: Grid, herd: bool, q: Pos, p: Pos)
    requires Rectangular(g) && InGrid(g, q) && InGrid(g, p) && Moves(g, herd, q)
    ensures Partly(g, herd, Pos(q.y, q.x + 1), p)
      == if p == q then None else if p == Ahead(g, herd, q) then Some(herd) else Partly(g, herd, q, p)
  {
    var next := Pos(q.y, q.x + 1);
    var from := Behind(g, herd, p);
    AheadBehind(g, herd, q);
    AheadBehind(g, herd, p);
    assert Before(p, next) == (Before(p, q) || p == q);
    assert Before(from, next) == (Before(from, q) || from == q);
  }

  lemma VisitStays(u: Grid, g: Grid, herd: bool, q: Pos)
    requires Rectangular(g) && InGrid(g, q) && !Moves(g, herd, q)
    requires SoFar(u, g, herd, q)
    ensures SoFar(u, g, herd, Pos(q.y, q.x + 1))
  {
    var next := Pos(q.y, q.x + 1);
    forall j, i | 0 <= j < |g| && 0 <= i < |g[0]|
      ensures u[j][i] == Partly(g, herd, next, Pos(j, i))
    {
      PartlyStays(g, herd, q, Pos(j, i));
    }
  }

  /** Passing a cucumber that stays changes nothing. */
  lemma PartlyStays(g: Grid, herd: bool, q: Pos, p: Pos)
    requires Rectangular(g) && InGrid(g, q) && InGrid(g, p) && !Moves(g, herd, q)
    ensures Partly(g, herd, Pos(q.y, q.x + 1), p) == Partly(g, herd, q, p)
  {
    var next := Pos(q.y, q.x + 1);
    var from := Behind(g, herd, p);
    assert Before(p, next) == (Before(p, q) || p == q);
    assert Before(from, next) == (Before(from, q) || from == q);
  }

  lemma SoFarRow(u: Grid, g: Grid, herd: bool, y: nat)
    requires Rectangular(g) && y < |g|
    requires SoFar(u, g, herd, Pos(y, |g[0]|))
    ensures SoFar(u, g, herd, Pos(y + 1, 0))
  {
    forall j, i | 0 <= j < |g| && 0 <= i < |g[0]|
      ensures u[j][i] == Partly(g, herd, Pos(y + 1, 0), Pos(j, i))
    {
      assert u[j][i] == Partly(g, herd, Pos(y, |g[0]|), Pos(j, i));
    }
  }

  lemma SoFarAll(u: Grid, g: Grid, herd: bool)
    requires Rectangular(g)
    requires SoFar(u, g, herd, Pos(|g|, 0))
    ensures u == Moved(g, herd)
  {
    var r := Moved(g, herd);
    MovedAt(g, herd);
    forall j | 0 <= j < |g| ensures u[j] == r[j] {
      forall i | 0 <= i < |g[0]| ensures u[j][i] == r[j][i] {
        assert u[j][i] == Partly(g, herd, Pos(|g|, 0), Pos(j, i));
      }
    }
  }

  // ---------------------------------------------------------------------
  // Herds keep their size
  // ---------------------------------------------------------------------

  /** The cells the herd occupies. */
  ghost function Herd(g: Grid, herd: bool): set<Pos>
  {
    set j, i | 0 <= j < |g| && 0 <= i < |g[j]| && g[j][i] == Some(herd) :: Pos(j, i)
  }

  lemma HerdAt(g: Grid, herd: bool)
    ensures forall p :: p in Herd(g, herd) <==> InGrid(g, p) && At(g, p) == Some(herd)
  {
  }

  /** The cucumbers of the herd that move this pass. */
  ghost function Movers(g: Grid, herd: bool): (r: set<Pos>)
    requires Rectangular(g)
    ensures r <= Herd(g, herd)
    ensures forall p :: p in r <==> InGrid(g, p) && Moves(g, herd, p)
  {
    HerdAt(g, herd);
    set p | p in Herd(g, herd) && Moves(g, herd, p)
  }

  /** The cells ahead of the cells of `s`. */
  ghost function Shifted(g: Grid, herd: bool, s: set<Pos>): set<Pos>
    requires Rectangular(g) && forall p :: p in s ==> InGrid(g, p)
  {
    set p | p in s :: Ahead(g, herd, p)
  }

  /** Moving every cell one ahead loses none: no two cells share the cell ahead. */
  lemma {:induction false} ShiftedSize(g: Grid, herd: bool, s: set<Pos>)
    requires Rectangular(g) && forall p :: p in s ==> InGrid(g, p)
    ensures |Shifted(g, herd, s)| == |s|
    decreases s
  {
    if s != {} {
      var p :| p in s;
      var rest := s - {p};
      ShiftedSize(g, herd, rest);
      assert Shifted(g, herd, s) == Shifted(g, herd, rest) + {Ahead(g, herd, p)};
      if Ahead(g, herd, p) in Shifted(g, herd, rest) {
        var o :| o in rest && Ahead(g, herd, o) == Ahead(g, herd, p);
        AheadBehind(g, herd, o);
        AheadBehind(g, herd, p);
        assert false;
      }
    }
  }

  /** After the pass, the herd is the cucumbers that stayed plus the cells the movers moved to. */
  lemma MovedHerd(g: Grid, herd: bool)
    requires Rectangular(g)
    ensures Herd(Moved(g, herd), herd)
      == (Herd(g, herd) - Movers(g, herd)) + Shifted(g, herd, Movers(g, herd))
  {
    var r := Moved(g, herd);
    MovedAt(g, herd);
    HerdAt(g, herd);
    HerdAt(r, herd);
    var movers := Movers(g, herd);
    forall p | p in Herd(r, herd)
      ensures p in Herd(g, herd) - movers || p in Shifted(g, herd, movers)
    {
      if Moves(g, herd, Behind(g, herd, p)) {
        AheadBehind(g, herd, p);
        assert p == Ahead(g, herd, Behind(g, herd, p));
      }
    }
    forall p | p in Shifted(g, herd, movers) ensures p in Herd(r, herd) {
      var o :| o in movers && p == Ahead(g, herd, o);
      AheadBehind(g, herd, o);
    }
  }

  /** The cells the movers leave and the cells they enter are disjoint from the ones that stay. */
  lemma MovedApart(g: Grid, herd: bool)
    requires Rectangular(g)
    ensures (Herd(g, herd) - Movers(g, herd)) !! Shifted(g, herd, Movers(g, herd))
  {
    HerdAt(g, herd);
    forall p | p in Shifted(g, herd, Movers(g, herd)) ensures At(g, p) == None {
      var o :| o in Movers(g, herd) && p == Ahead(g, herd, o);
    }
  }

  /** A pass keeps the moving herd's size. */
  lemma MovedKeepsHerd(g: Grid, herd: bool)
    requires Rectangular(g)
    ensures |Herd(Moved(g, herd), herd)| == |Herd(g, herd)|
  {
    var movers := Movers(g, herd);
    MovedHerd(g, herd);
    MovedApart(g, herd);
    ShiftedSize(g, herd, movers);
    Rehoused(Herd(g, herd), movers, Shifted(g, herd, movers), Herd(Moved(g, herd), herd));
  }

  /** Replacing part of a set by as many new elements keeps its size. */
  lemma Rehoused<T>(a: set<T>, gone: set<T>, come: set<T>, b: set<T>)
    requires gone <= a && |come| == |gone| && (a - gone) !! come && b == (a - gone) + come
    ensures |b| == |a|
  {
    assert a == (a - gone) + gone;
  }

  /** A pass leaves the other herd where it is. */
  lemma MovedKeepsOther(g: Grid, herd: bool)
    requires Rectangular(g)
    ensures Herd(Moved(g, herd), !herd) == Herd(g, !herd)
  {
    var r := Moved(g, herd);
    var other := !herd;
    MovedAt(g, herd);
    HerdAt(g, other);
    HerdAt(r, other);
    forall p | p in Herd(g, other) ensures p in Herd(r, other) {
      AheadBehind(g, herd, p);
    }
  }

  /** `step` keeps the number of cucumbers of each herd. */
  lemma NextKeepsHerds(g: Grid, herd: bool)
    requires Rectangular(g)
    ensures |Herd(Next(g), herd)| == |Herd(g, herd)|
  {
    var east := Moved(g, false);
    if herd {
      MovedKeepsOther(g, false);
      MovedKeepsHerd(east, true);
    } else {
      MovedKeepsHerd(g, false);
      MovedKeepsOther(east, true);
    }
  }

  // ---------------------------------------------------------------------
  // find_stop_step
  // ---------------------------------------------------------------------

  /** `f` applied `n` times. */
  function Repeat<T>(f: T -> T, x: T, n: nat): T
    decreases n
  {
    if n == 0 then x else Repeat(f, f(x), n - 1)
  }

  lemma {:induction false} RepeatNext<T>(f: T -> T, x: T, n: nat)
    ensures Repeat(f, x, n + 1) == f(Repeat(f, x, n))
    decreases n
  {
    if n > 0 {
      RepeatNext(f, f(x), n - 1);
    }
  }

  /** A measure that no application of `f` changes is the same after any number of them. */
  lemma {:induction false} RepeatKeeps<T>(f: T -> T, m: T -> nat, x: T, n: nat)
    requires forall y :: m(f(y)) == m(y)
    ensures m(Repeat(f, x, n)) == m(x)
    decreases n
  {
    if n > 0 {
      RepeatKeeps(f, m, f(x), n - 1);
    }
  }

  /** From a fixed point, `f` goes nowhere. */
  lemma {:induction false} RepeatFixed<T>(f: T -> T, x: T, n: nat)
    requires f(x) == x
    ensures Repeat(f, x, n) == x
    decreases n
  {
    if n > 0 {
      RepeatFixed(f, x, n - 1);
    }
  }

  lemma {:induction false} RepeatAdd<T>(f: T -> T, x: T, k: nat, n: nat)
    ensures Repeat(f, x, k + n) == Repeat(f, Repeat(f, x, k), n)
    decreases k
  {
    if k > 0 {
      RepeatAdd(f, f(x), k - 1, n);
    }
  }

  /** `step` on the maps it is modelled on; any other map is left as it is. */
  function Advance(g: Grid): (r: Grid)
    ensures Rectangular(g) ==> r == Next(g)
  {
    if Rectangular(g) then Next(g) else g
  }

  /** The map after `n` steps. */
  function Iterate(g: Grid, n: nat): Grid
  {
    Repeat(Advance, g, n)
  }

  /** A step moves no cucumber. */
  predicate Stopped(g: Grid)
  {
    Advance(g) == g
  }

  /** Every step keeps the number of cucumbers of each herd. */
  lemma IterateKeepsHerds(g: Grid, herd: bool, n: nat)
    ensures |Herd(Iterate(g, n), herd)| == |Herd(g, herd)|
  {
    forall y ensures |Herd(Advance(y), herd)| == |Herd(y, herd)| {
      if Rectangular(y) {
        NextKeepsHerds(y, herd);
      }
    }
    RepeatKeeps(Advance, y => |Herd(y, herd)|, g, n);
  }

  /** Once nothing moves, nothing ever moves again. */
  lemma StaysStopped(g: Grid, k: nat, n: nat)
    requires Stopped(Iterate(g, k))
    ensures Iterate(g, k + n) == Iterate(g, k)
  {
    RepeatAdd(Advance, g, k, n);
    RepeatFixed(Advance, Iterate(g, k), n);
  }

  /**
   * `find_stop_step`, run for at most `fuel` steps: the first step, counted
   * from 1, whose map is the one it started from.
   */
  method FindStopStep(start: Grid, fuel: nat) returns (steps: Option<nat>)
    requires Rectangular(start)
    ensures steps.Some? ==> 1 <= steps.value <= fuel && Stopped(Iterate(start, steps.value - 1))
    ensures steps.Some? ==> forall k :: 0 <= k < steps.value - 1 ==> !Stopped(Iterate(start, k))
    ensures steps.None? ==> forall k :: 0 <= k < fuel ==> !Stopped(Iterate(start, k))
  {
    var i := 1;
    var prev := start;
    while i <= fuel
      invariant 1 <= i <= fuel + 1
      invariant Rectangular(prev) && prev == Iterate(start, i - 1)
      invariant forall k :: 0 <= k < i - 1 ==> !Stopped(Iterate(start, k))
    {
      var next := Step(prev);
      if prev == next {
        return Some(i);
      }
      RepeatNext(Advance, start, i - 1);
      prev := next;
      i := i + 1;
    }
    return None;
  }

  // ---------------------------------------------------------------------
  // Examples
  // ---------------------------------------------------------------------

  /** A pass over a map with no cucumber of the herd changes nothing. */
  lemma MovedWithout(g: Grid, herd: bool)
    requires Rectangular(g)
    requires forall j, i :: 0 <= j < |g| && 0 <= i < |g[j]| ==> g[j][i] != Some(herd)
    ensures Moved(g, herd) == g
  {
    var r := Moved(g, herd);
    MovedAt(g, herd);
    forall j | 0 <= j < |g| ensures r[j] == g[j] {
      forall i | 0 <= i < |g[0]| ensures r[j][i] == g[j][i] {
        assert At(g, Behind(g, herd, Pos(j, i))) != Some(herd);
      }
    }
  }

  /** Two maps of the same shape that agree on every cell are equal. */
  lemma SameCells(u: Grid, v: Grid)
    requires |u| == |v| && forall j :: 0 <= j < |u| ==> |u[j]| == |v[j]|
    requires forall j, i :: 0 <= j < |u| && 0 <= i < |u[j]| ==> u[j][i] == v[j][i]
    ensures u == v
  {
    forall j | 0 <= j < |u| ensures u[j] == v[j] {
      assert forall i :: 0 <= i < |u[j]| ==> u[j][i] == v[j][i];
    }
  }

  /** One east-facing cucumber in a row of two: it goes round and round. */
  const Circling: Grid := [[Some(false), None]]
  const Circled: Grid := [[None, Some(false)]]

  lemma CirclingSteps()
    ensures Rectangular(Circling) && Next(Circling) == Circled
    ensures Rectangular(Circled) && Next(Circled) == Circling
  {
    MovedAt(Circling, false);
    MovedAt(Circled, false);
    assert Moves(Circling, false, Pos(0, 0)) && !Moves(Circled, false, Pos(0, 0));
    assert Moves(Circled, false, Pos(0, 1)) && !Moves(Circling, false, Pos(0, 1));
    SameCells(Moved(Circling, false), Circled);
    SameCells(Moved(Circled, false), Circling);
    MovedWithout(Circled, true);
    MovedWithout(Circling, true);
  }

  /** Some maps never stop, so `find_stop_step` need not return. */
  lemma {:induction false} NeverStops(n: nat)
    ensures Iterate(Circling, n) == if n % 2 == 0 then Circling else Circled
    ensures !Stopped(Iterate(Circling, n))
  {
    CirclingSteps();
    if n > 0 {
      NeverStops(n - 1);
      RepeatNext(Advance, Circling, n - 1);
    }
  }

  /** The first example of the tests: a single row of east-facing cucumbers. */
  const Row0: string := "...>>>>>..."
  const Row1: string := "...>>>>.>.."
  const Row2: string := "...>>>.>.>."

  const Map0: Grid := [[None, None, None, Some(false), Some(false), Some(false), Some(false), Some(false), None, None, None]]
  const Map1: Grid := [[None, None, None, Some(false), Some(false), Some(false), Some(false), None, Some(false), None, None]]
  const Map2: Grid := [[None, None, None, Some(false), Some(false), Some(false), None, Some(false), None, Some(false), None]]

  lemma ReadRow(line: string, g: Grid)
    requires |g| == 1 && |g[0]| == |line|
    requires forall i :: 0 <= i < |line| ==> g[0][i] == ReadCell(line[i])
    ensures Parse([line]) == g
  {
    SameCells(Parse([line]), g);
  }

  lemma RowMaps()
    ensures Parse([Row0]) == Map0 && Parse([Row1]) == Map1 && Parse([Row2]) == Map2
  {
    ReadRow(Row0, Map0);
    ReadRow(Row1, Map1);
    ReadRow(Row2, Map2);
  }

  /** A one-row map after a step, from the east pass cell by cell. */
  lemma RowStep(g: Grid, h: Grid)
    requires Rectangular(g) && |g| == 1 && |h| == 1 && |h[0]| == |g[0]|
    requires forall i :: 0 <= i < |g[0]| ==> h[0][i] != Some(true)
    requires forall i :: 0 <= i < |g[0]| ==> h[0][i] == MovedCell(g, false, Pos(0, i))
    ensures Next(g) == h
  {
    EastRow(g, h);
    MovedWithout(h, true);
  }

  lemma EastRow(g: Grid, h: Grid)
    requires Rectangular(g) && |g| == 1 && |h| == 1 && |h[0]| == |g[0]|
    requires forall i :: 0 <= i < |g[0]| ==> h[0][i] == MovedCell(g, false, Pos(0, i))
    ensures Moved(g, false) == h
  {
    MovedAt(g, false);
    SameCells(Moved(g, false), h);
  }

  /** The east pass on a one-row map, cell `i` from its row. */
  lemma RowCell(g: Grid, i: int)
    requires Rectangular(g) && |g| == 1 && 0 <= i < |g[0]|
    ensures var row, n := g[0], |g[0]|;
      var ahead, behind := if i + 1 == n then 0 else i + 1, if i == 0 then n - 1 else i - 1;
      MovedCell(g, false, Pos(0, i)) ==
        if row[i] == Some(false) && row[ahead] == None then None
        else if row[behind] == Some(false) && row[i] == None then Some(false)
        else row[i]
  {
  }

  lemma FirstRowCells()
    ensures forall i :: 0 <= i < |Map0[0]| ==> Map1[0][i] == MovedCell(Map0, false, Pos(0, i))
  {
    forall i | 0 <= i < |Map0[0]| ensures Map1[0][i] == MovedCell(Map0, false, Pos(0, i)) {
      RowCell(Map0, i);
    }
  }

  lemma SecondRowCells()
    ensures forall i :: 0 <= i < |Map1[0]| ==> Map2[0][i] == MovedCell(Map1, false, Pos(0, i))
  {
    forall i | 0 <= i < |Map1[0]| ensures Map2[0][i] == MovedCell(Map1, false, Pos(0, i)) {
      RowCell(Map1, i);
    }
  }

  /** `basic_test`: the row after one step and after two. */
  lemma RowExample()
    ensures Rectangular(Parse([Row0])) && Next(Parse([Row0])) == Parse([Row1])
    ensures Rectangular(Parse([Row1])) && Next(Parse([Row1])) == Parse([Row2])
  {
    RowMaps();
    FirstRowCells();
    RowStep(Map0, Map1);
    SecondRowCells();
    RowStep(Map1, Map2);
  }
}
