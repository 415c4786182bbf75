/**
 * Day 13, Transparent Origami: dots on a sheet of transparent paper and a
 * list of folds. Folding left along `x = n` lays the right half over the
 * left half (column `2n - x` lands on column `x`), folding up along
 * `y = n` lays the bottom half over the top. Part 1 counts the dots after
 * the first fold, part 2 is the page after every fold.
 */
module TransparentOrigami {
  import opened Options
  import opened Text

  /** A fold along a vertical line `x = pos` or a horizontal line `y = pos`. */
  datatype Fold = X(pos: nat) | Y(pos: nat)

  /** The page, indexed `[y][x]`. */
  type Page = seq<seq<bool>>

  type Dot = (int, int)

  predicate Rect(page: Page, width: nat, height: nat)
  {
    |page| == height && forall y :: 0 <= y < height ==> |page[y]| == width
  }

  // ---------------------------------------------------------------------
  // Parsing
  // ---------------------------------------------------------------------

  /** One "x,y" line: both halves must parse as `usize`, or the line is skipped. */
  function ParseCoord(line: string): (r: Option<(nat, nat)>)
    ensures r.Some? ==> r.value.0 < U64 && r.value.1 < U64
  {
    match SplitOnce(line, ",")
    case None => None
    case Some((a, b)) =>
      match (ParseUnsigned(a, U64), ParseUnsigned(b, U64))
      case (Some(x), Some(y)) => Some((x, y))
      case _ => None
  }

  /** The dots the well-formed lines ask for. */
  function Coords(lines: seq<string>): set<Dot>
  {
    if lines == [] then {}
    else
      Coords(lines[..|lines| - 1])
      + match ParseCoord(lines[|lines| - 1])
        case Some((x, y)) => {(x, y)}
        case None => {}
  }

  /** Every dot asked for lies on the page; a dot outside it makes the source index out of bounds. */
  predicate OnPage(lines: seq<string>, width: nat, height: nat)
  {
    forall i :: 0 <= i < |lines| && ParseCoord(lines[i]).Some? ==>
      ParseCoord(lines[i]).value.0 < width && ParseCoord(lines[i]).value.1 < height
  }

  /** A printed dot parses back. */
  lemma ParseCoordDigits(x: nat, y: nat)
    requires x < U64 && y < U64
    ensures ParseCoord(Digits(x) + "," + Digits(y)) == Some((x, y))
  {
    NoCommaInDigits(x);
    SplitOnceChar(Digits(x), ',', Digits(y));
    assert Digits(x) + "," + Digits(y) == Digits(x) + [','] + Digits(y);
    ParseDigits(x, U64);
    ParseDigits(y, U64);
  }

  lemma NoCommaInDigits(n: nat)
    ensures ',' !in Digits(n)
  {
    var s := Digits(n);
    assert forall k :: 0 <= k < |s| ==> s[k] != ',';
  }

  /**
   * `parse_coords`: a `height` × `width` page of blanks, then a dot at
   * every well-formed coordinate.
   */
  method ParseCoords(lines: seq<string>, width: nat, height: nat) returns (page: Page)
    requires OnPage(lines, width, height)
    ensures Rect(page, width, height)
    ensures forall y, x :: 0 <= y < height && 0 <= x < width ==> (page[y][x] <==> (x, y) in Coords(lines))
  {
    page := seq(height, _ => seq(width, _ => false));
    for i := 0 to |lines|
      invariant Rect(page, width, height)
      invariant forall y, x :: 0 <= y < height && 0 <= x < width ==> (page[y][x] <==> (x, y) in Coords(lines[..i]))
    {
      assert lines[..i + 1][..i] == lines[..i] && lines[..i + 1][i] == lines[i];
      match ParseCoord(lines[i])
      case Some((x, y)) =>
        page := page[y := page[y][x := true]];
      case None =>
    }
    assert lines[..|lines|] == lines;
  }

  /** One "fold along <axis>=<n>" line: axis `x` is a vertical fold, any other axis a horizontal one. */
  function ParseFold(line: string): Option<Fold>
  {
    match StripPrefix(line, "fold along ")
    case None => None
    case Some(rest) =>
      match SplitOnce(rest, "=")
      case None => None
      case Some((axis, val)) =>
        match ParseUnsigned(val, U64)
        case None => None
        case Some(n) => Some(if axis == "x" then X(n) else Y(n))
  }

  /** `parse_folds`: the folds of the lines that parse, in order. */
  function ParseFolds(lines: seq<string>): (folds: seq<Fold>)
    ensures |folds| <= |lines|
  {
    if lines == [] then []
    else
      ParseFolds(lines[..|lines| - 1])
      + match ParseFold(lines[|lines| - 1])
        case Some(f) => [f]
        case None => []
  }

  /** The input line of a fold. */
  function FoldLine(f: Fold): string
  {
    "fold along " + (if f.X? then "x" else "y") + "=" + Digits(f.pos)
  }

  function FoldLines(folds: seq<Fold>): seq<string>
  {
    if folds == [] then [] else FoldLines(folds[..|folds| - 1]) + [FoldLine(folds[|folds| - 1])]
  }

  /** Axis `x` gives a vertical fold and every other axis a horizontal one, at the printed position. */
  lemma ParseFoldLine(axis: string, n: nat)
    requires '=' !in axis && n < U64
    ensures ParseFold("fold along " + axis + "=" + Digits(n)) == Some(if axis == "x" then X(n) else Y(n))
  {
    var line := "fold along " + axis + "=" + Digits(n);
    assert line[..|"fold along "|] == "fold along ";
    assert line[|"fold along "|..] == axis + ['='] + Digits(n);
    SplitOnceChar(axis, '=', Digits(n));
    ParseDigits(n, U64);
  }

  /** Printing a list of folds and parsing it back gives the list. */
  lemma {:induction false} ParseFoldLines(folds: seq<Fold>)
    requires forall i :: 0 <= i < |folds| ==> folds[i].pos < U64
    ensures ParseFolds(FoldLines(folds)) == folds
  {
    if folds != [] {
      var front, last := folds[..|folds| - 1], folds[|folds| - 1];
      assert folds == front + [last];
      ParseFoldLines(front);
      ParseFoldLineOf(last);
      FoldLinesSnoc(front, last);
      ParseFoldsSnoc(FoldLines(front), FoldLine(last), last);
    }
  }

  lemma FoldLinesSnoc(front: seq<Fold>, last: Fold)
    ensures FoldLines(front + [last]) == FoldLines(front) + [FoldLine(last)]
  {
    assert (front + [last])[..|front|] == front;
  }

  /** A line that parses to a fold adds that fold at the end. */
  lemma ParseFoldsSnoc(lines: seq<string>, line: string, f: Fold)
    requires ParseFold(line) == Some(f)
    ensures ParseFolds(lines + [line]) == ParseFolds(lines) + [f]
  {
    assert (lines + [line])[..|lines|] == lines;
  }

  lemma ParseFoldLineOf(f: Fold)
    requires f.pos < U64
    ensures ParseFold(FoldLine(f)) == Some(f)
  {
    ParseFoldLine(if f.X? then "x" else "y", f.pos);
  }

  // ---------------------------------------------------------------------
  // Folding
  // ---------------------------------------------------------------------

  /** What a fold reads without going out of bounds (`page[0]` for a horizontal fold). */
  predicate CanFold(page: Page, f: Fold)
  {
    match f
    case X(n) => forall y :: 0 <= y < |page| ==> (n > 0 ==> |page[y]| > 2 * n)
    case Y(n) =>
      |page| > 0 && (n > 0 ==> |page| > 2 * n)
      && (forall y :: 0 <= y < n ==> |page[y]| >= |page[0]|)
      && (forall y :: n < y <= 2 * n ==> |page[y]| >= |page[0]|)
  }

  /** The first `upto` cells of row `y` of a vertical fold along `n`. */
  predicate LeftRow(page: Page, row: seq<bool>, y: nat, n: nat, upto: nat)
    requires y < |page| && CanFold(page, X(n)) && upto <= n
  {
    |row| == n && forall x {:trigger row[x]} :: 0 <= x < upto ==> row[x] == (page[y][x] || page[y][2 * n - x])
  }

  /** The first `upto` cells of row `y` of a horizontal fold along `n`. */
  predicate UpRow(page: Page, row: seq<bool>, y: nat, n: nat, upto: nat)
    requires y < n && CanFold(page, Y(n)) && upto <= |page[0]|
  {
    |row| == |page[0]| && forall x {:trigger row[x]} :: 0 <= x < upto ==> row[x] == (page[y][x] || page[2 * n - y][x])
  }

  /**
   * The page after a fold: `n` wide and as tall as before for a vertical
   * fold, `n` tall and as wide as the first row for a horizontal one, and
   * each cell a dot when it or its mirror image across the line holds one.
   */
  predicate FoldedBy(page: Page, r: Page, f: Fold)
    requires CanFold(page, f)
  {
    match f
    case X(n) => |r| == |page| && forall y :: 0 <= y < |r| ==> LeftRow(page, r[y], y, n, n)
    case Y(n) => |r| == n && forall y :: 0 <= y < n ==> UpRow(page, r[y], y, n, |page[0]|)
  }

  /**
   * `fold_left`: the cells of a fresh `pos`-wide page, row by row (each
   * row is filled in a local copy and then stored).
   */
  method FoldLeft(page: Page, xSize: nat) returns (newPage: Page)
    requires CanFold(page, X(xSize))
    ensures FoldedBy(page, newPage, X(xSize))
  {
    var ySize := |page|;
    newPage := seq(ySize, _ => seq(xSize, _ => false));
    for y := 0 to ySize
      invariant |newPage| == ySize
      invariant forall j :: 0 <= j < ySize ==> |newPage[j]| == xSize
      invariant forall j :: 0 <= j < y ==> LeftRow(page, newPage[j], j, xSize, xSize)
    {
      var row := newPage[y];
      for x := 0 to xSize
        invariant LeftRow(page, row, y, xSize, x)
      {
        row := row[x := page[y][x] || page[y][2 * xSize - x]];
      }
      newPage := newPage[y := row];
    }
  }

  /** `fold_up`: the cells of a fresh `pos`-tall page as wide as the first row. */
  method FoldUp(page: Page, ySize: nat) returns (newPage: Page)
    requires CanFold(page, Y(ySize))
    ensures FoldedBy(page, newPage, Y(ySize))
  {
    var xSize := |page[0]|;
    newPage := seq(ySize, _ => seq(xSize, _ => false));
    for y := 0 to ySize
      invariant |newPage| == ySize
      invariant forall j :: 0 <= j < ySize ==> |newPage[j]| == xSize
      invariant forall j :: 0 <= j < y ==> UpRow(page, newPage[j], j, ySize, xSize)
    {
      var row := newPage[y];
      for x := 0 to xSize
        invariant UpRow(page, row, y, ySize, x)
      {
        row := row[x := page[y][x] || page[2 * ySize - y][x]];
      }
      newPage := newPage[y := row];
    }
  }

  /** `Fold::fold`. */
  method Apply(f: Fold, page: Page) returns (r: Page)
    requires CanFold(page, f)
    ensures FoldedBy(page, r, f)
  {
    match f
    case X(pos) => r := FoldLeft(page, pos);
    case Y(pos) => r := FoldUp(page, pos);
  }

  /** A fold has one outcome. */
  lemma FoldedUnique(page: Page, a: Page, b: Page, f: Fold)
    requires CanFold(page, f) && FoldedBy(page, a, f) && FoldedBy(page, b, f)
    ensures a == b
  {
    assert |a| == |b|;
    forall y | 0 <= y < |a| ensures a[y] == b[y] {
      match f
      case X(n) =>
        assert LeftRow(page, a[y], y, n, n) && LeftRow(page, b[y], y, n, n);
      case Y(n) =>
        assert UpRow(page, a[y], y, n, |page[0]|) && UpRow(page, b[y], y, n, |page[0]|);
    }
  }

  // ---------------------------------------------------------------------
  // The folds as operations on sets of dots
  // ---------------------------------------------------------------------

  /** The dots of a page as `(x, y)` pairs. */
  function Dots(page: Page): set<Dot>
  {
    set y, x | 0 <= y < |page| && 0 <= x < |page[y]| && page[y][x] :: (x, y)
  }

  predicate OnLine(d: Dot, f: Fold)
  {
    match f
    case X(n) => d.0 == n
    case Y(n) => d.1 == n
  }

  /** Where a dot lands: reflected across the line when it lies past it. */
  function Image(d: Dot, f: Fold): Dot
  {
    match f
    case X(n) => if d.0 > n then (2 * n - d.0, d.1) else d
    case Y(n) => if d.1 > n then (d.0, 2 * n - d.1) else d
  }

  /** The puzzle's fold: every dot off the line, reflected onto the near side. */
  function Reflect(dots: set<Dot>, f: Fold): set<Dot>
  {
    set d | d in dots && !OnLine(d, f) :: Image(d, f)
  }

  /** The fold line sits in the middle of the page, as the first fold along each axis is sized. */
  predicate Centred(page: Page, f: Fold)
  {
    match f
    case X(n) => forall y :: 0 <= y < |page| ==> |page[y]| == 2 * n + 1
    case Y(n) => |page| == 2 * n + 1 && forall y :: 0 <= y < |page| ==> |page[y]| == |page[0]|
  }

  /**
   * On a page centred on the line, the fold is the reflection of the
   * dots: no dot on the near side is lost, every dot past the line lands
   * on its mirror image, and the line itself is dropped.
   */
  lemma FoldReflects(page: Page, r: Page, f: Fold)
    requires Centred(page, f) && CanFold(page, f) && FoldedBy(page, r, f)
    ensures Dots(r) == Reflect(Dots(page), f)
  {
    forall d | d in Reflect(Dots(page), f) ensures d in Dots(r) {
      var s :| s in Dots(page) && !OnLine(s, f) && d == Image(s, f);
      match f
      case X(n) => LeftKeeps(page, r, n, s.0, s.1);
      case Y(n) => UpKeeps(page, r, n, s.0, s.1);
    }
    forall d | d in Dots(r) ensures d in Reflect(Dots(page), f) {
      var x, y := d.0, d.1;
      assert 0 <= y < |r| && 0 <= x < |r[y]| && r[y][x];
      match f
      case X(n) => LeftComesFrom(page, r, n, x, y);
      case Y(n) => UpComesFrom(page, r, n, x, y);
    }
  }

  lemma LeftKeeps(page: Page, r: Page, n: nat, x: int, y: int)
    requires Centred(page, X(n)) && CanFold(page, X(n)) && FoldedBy(page, r, X(n))
    requires (x, y) in Dots(page) && x != n
    ensures Image((x, y), X(n)) in Dots(r)
  {
    assert 0 <= y < |page| && 0 <= x < |page[y]| && page[y][x];
    assert LeftRow(page, r[y], y, n, n);
    if x > n {
      assert r[y][2 * n - x];
    } else {
      assert r[y][x];
    }
  }

  lemma UpKeeps(page: Page, r: Page, n: nat, x: int, y: int)
    requires Centred(page, Y(n)) && CanFold(page, Y(n)) && FoldedBy(page, r, Y(n))
    requires (x, y) in Dots(page) && y != n
    ensures Image((x, y), Y(n)) in Dots(r)
  {
    assert 0 <= y < |page| && 0 <= x < |page[y]| && page[y][x];
    if y > n {
      assert UpRow(page, r[2 * n - y], 2 * n - y, n, |page[0]|);
      assert r[2 * n - y][x];
    } else {
      assert UpRow(page, r[y], y, n, |page[0]|);
      assert r[y][x];
    }
  }

  lemma LeftComesFrom(page: Page, r: Page, n: nat, x: int, y: int)
    requires Centred(page, X(n)) && CanFold(page, X(n)) && FoldedBy(page, r, X(n))
    requires 0 <= y < |r| && 0 <= x < |r[y]| && r[y][x]
    ensures (x, y) in Reflect(Dots(page), X(n))
  {
    assert LeftRow(page, r[y], y, n, n);
    if page[y][x] {
      assert (x, y) in Dots(page) && !OnLine((x, y), X(n)) && Image((x, y), X(n)) == (x, y);
    } else {
      assert (2 * n - x, y) in Dots(page) && !OnLine((2 * n - x, y), X(n)) && Image((2 * n - x, y), X(n)) == (x, y);
    }
  }

  lemma UpComesFrom(page: Page, r: Page, n: nat, x: int, y: int)
    requires Centred(page, Y(n)) && CanFold(page, Y(n)) && FoldedBy(page, r, Y(n))
    requires 0 <= y < |r| && 0 <= x < |r[y]| && r[y][x]
    ensures (x, y) in Reflect(Dots(page), Y(n))
  {
    assert UpRow(page, r[y], y, n, |page[0]|);
    if page[y][x] {
      assert (x, y) in Dots(page) && !OnLine((x, y), Y(n)) && Image((x, y), Y(n)) == (x, y);
    } else {
      assert (x, 2 * n - y) in Dots(page) && !OnLine((x, 2 * n - y), Y(n)) && Image((x, 2 * n - y), Y(n)) == (x, y);
    }
  }

  /** Pages alike everywhere but on the fold line fold to the same page: the line is never read. */
  lemma FoldIgnoresLine(a: Page, b: Page, ra: Page, rb: Page, f: Fold)
    requires |a| == |b| && forall y :: 0 <= y < |a| ==> |a[y]| == |b[y]|
    requires forall y, x :: 0 <= y < |a| && 0 <= x < |a[y]| && !OnLine((x, y), f) ==> a[y][x] == b[y][x]
    requires CanFold(a, f) && CanFold(b, f) && FoldedBy(a, ra, f) && FoldedBy(b, rb, f)
    ensures ra == rb
  {
    assert |ra| == |rb|;
    forall y | 0 <= y < |ra| ensures ra[y] == rb[y] {
      match f
      case X(n) =>
        assert LeftRow(a, ra[y], y, n, n) && LeftRow(b, rb[y], y, n, n);
        forall x | 0 <= x < n ensures ra[y][x] == rb[y][x] {
          assert !OnLine((x, y), f) && !OnLine((2 * n - x, y), f);
        }
      case Y(n) =>
        assert UpRow(a, ra[y], y, n, |a[0]|) && UpRow(b, rb[y], y, n, |b[0]|);
        forall x | 0 <= x < |a[0]| ensures ra[y][x] == rb[y][x] {
          assert !OnLine((x, y), f) && !OnLine((x, 2 * n - y), f);
        }
    }
  }

  // ---------------------------------------------------------------------
  // The answers
  // ---------------------------------------------------------------------

  /** The index of the first fold along the given axis. */
  function FirstAlong(folds: seq<Fold>, vertical: bool): (r: Option<nat>)
    ensures r.Some? ==> r.value < |folds| && folds[r.value].X? == vertical
    ensures r.Some? ==> forall j :: 0 <= j < r.value ==> folds[j].X? != vertical
    ensures r.None? ==> forall j :: 0 <= j < |folds| ==> folds[j].X? != vertical
  {
    if folds == [] then None
    else if folds[0].X? == vertical then Some(0)
    else
      match FirstAlong(folds[1..], vertical)
      case None => None
      case Some(k) => Some(k + 1)
  }

  /** The dimensions of a rectangular page after a fold. */
  function FoldedSize(width: nat, height: nat, f: Fold): (nat, nat)
  {
    match f
    case X(n) => (n, height)
    case Y(n) => (width, n)
  }

  /** Every fold in turn stays in bounds on a `width` × `height` page. */
  predicate Fits(width: nat, height: nat, folds: seq<Fold>)
    decreases |folds|
  {
    folds == []
    || ((match folds[0]
         case X(n) => n > 0 && height > 0 ==> width > 2 * n
         case Y(n) => height > 0 && (n > 0 ==> height > 2 * n))
        && var size := FoldedSize(width, height, folds[0]);
        Fits(size.0, size.1, folds[1..]))
  }

  /** On a rectangle, a fold that fits is in bounds and leaves a rectangle of the folded size. */
  lemma FoldRect(page: Page, r: Page, width: nat, height: nat, folds: seq<Fold>)
    requires Rect(page, width, height) && folds != [] && Fits(width, height, folds)
    ensures CanFold(page, folds[0])
    ensures FoldedBy(page, r, folds[0]) ==>
              Rect(r, FoldedSize(width, height, folds[0]).0, FoldedSize(width, height, folds[0]).1)
  {
  }

  /** The folds of the second section. */
  function Folds(lines: seq<string>): seq<Fold>
    requires HasSecondSection(lines)
  {
    ParseFolds(SecondSection(lines))
  }

  /** `2n + 1` for the first fold along the axis; `unwrap` fails when there is none. */
  function PageSize(folds: seq<Fold>, vertical: bool): (size: nat)
    requires FirstAlong(folds, vertical).Some?
    ensures size % 2 == 1
  {
    folds[FirstAlong(folds, vertical).value].pos * 2 + 1
  }

  /** What `main` needs to get through without panicking. */
  predicate Solvable(lines: seq<string>)
  {
    HasSecondSection(lines)
    && var folds := Folds(lines);
    && FirstAlong(folds, true).Some? && FirstAlong(folds, false).Some?
    && OnPage(FirstSection(lines), PageSize(folds, true), PageSize(folds, false))
    && Fits(PageSize(folds, true), PageSize(folds, false), folds)
  }

  /** A page and the next after a fold. */
  predicate Step(page: Page, next: Page, f: Fold)
  {
    CanFold(page, f) && FoldedBy(page, next, f)
  }

  /** The pages after each fold in turn. */
  predicate Chain(pages: seq<Page>, folds: seq<Fold>, k: nat)
    requires k < |pages| && k <= |folds|
  {
    forall j :: 0 <= j < k ==> Step(pages[j], pages[j + 1], folds[j])
  }

  /** The number of dots on a page. */
  function CountDots(page: Page): nat
  {
    if page == [] then 0 else CountDots(page[..|page| - 1]) + CountRow(page[|page| - 1])
  }

  function CountRow(row: seq<bool>): nat
  {
    if row == [] then 0 else CountRow(row[..|row| - 1]) + (if row[|row| - 1] then 1 else 0)
  }

  /** The dots of one row. */
  function RowDots(row: seq<bool>, y: int): set<Dot>
  {
    set x | 0 <= x < |row| && row[x] :: (x, y)
  }

  /** Counting the cells that hold a dot gives the number of dots. */
  lemma {:induction false} CountRowDots(row: seq<bool>, y: int)
    ensures CountRow(row) == |RowDots(row, y)|
  {
    if row != [] {
      var front := row[..|row| - 1];
      CountRowDots(front, y);
      var last := if row[|row| - 1] then {(|row| - 1, y)} else {};
      assert RowDots(row, y) == RowDots(front, y) + last;
      assert (|row| - 1, y) !in RowDots(front, y);
    } else {
      assert RowDots(row, y) == {};
    }
  }

  /** Part 1's count is the number of dots. */
  lemma {:induction false} CountDotsIsDots(page: Page)
    ensures CountDots(page) == |Dots(page)|
  {
    if page != [] {
      var front, y := page[..|page| - 1], |page| - 1;
      CountDotsIsDots(front);
      CountRowDots(page[y], y);
      assert Dots(page) == Dots(front) + RowDots(page[y], y);
      assert Dots(front) * RowDots(page[y], y) == {};
    } else {
      assert Dots(page) == {};
    }
  }

  /** The loop of `main` applying every fold in turn, with the pages in between as `pages`. */
  method FoldAll(start: Page, width: nat, height: nat, folds: seq<Fold>) returns (page: Page, ghost pages: seq<Page>)
    requires Rect(start, width, height) && Fits(width, height, folds)
    ensures |pages| == |folds| + 1 && pages[0] == start && Chain(pages, folds, |folds|)
    ensures page == pages[|folds|]
  {
    page := start;
    pages := [start];
    ghost var w, h, rest := width, height, folds;
    for k := 0 to |folds|
      invariant |pages| == k + 1 && pages[0] == start && pages[k] == page
      invariant rest == folds[k..] && Rect(page, w, h) && Fits(w, h, rest)
      invariant Chain(pages, folds, k)
    {
      FoldRect(page, page, w, h, rest);
      var next := Apply(folds[k], page);
      FoldRect(page, next, w, h, rest);
      w, h := FoldedSize(w, h, rest[0]).0, FoldedSize(w, h, rest[0]).1;
      rest := rest[1..];
      assert Step(page, next, folds[k]);
      pages := pages + [next];
      page := next;
    }
  }

  /**
   * `main`: the page is sized `2n + 1` for the first fold along each axis;
   * part 1 is the number of dots after the first fold, part 2 the page
   * after every fold, with the pages in between as `pages`.
   */
  method Solve(lines: seq<string>) returns (part1: nat, page: Page, ghost pages: seq<Page>)
    requires Solvable(lines)
    ensures |pages| == |Folds(lines)| + 1 && Chain(pages, Folds(lines), |Folds(lines)|)
    ensures Rect(pages[0], PageSize(Folds(lines), true), PageSize(Folds(lines), false))
    ensures forall y, x :: 0 <= y < |pages[0]| && 0 <= x < |pages[0][y]| ==>
              (pages[0][y][x] <==> (x, y) in Coords(FirstSection(lines)))
    ensures part1 == CountDots(pages[1])
    ensures page == pages[|Folds(lines)|]
  {
    var folds := Folds(lines);
    var width, height := PageSize(folds, true), PageSize(folds, false);
    var start := ParseCoords(FirstSection(lines), width, height);
    FoldRect(start, start, width, height, folds);
    var first := Apply(folds[0], start);
    part1 := CountDots(first);

    page, pages := FoldAll(start, width, height, folds);
    assert Step(pages[0], pages[1], folds[0]);
    FoldedUnique(start, first, pages[1], folds[0]);
  }
}
