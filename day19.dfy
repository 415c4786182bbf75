/**
 * Day 19, Beacon Scanner: each scanner reports the beacons it sees as
 * positions relative to itself, in an orientation of its own. Scanner 0's
 * beacons start the map; another scanner is merged in once some
 * orientation and offset place at least 12 of its beacons on beacons
 * already mapped, and the offset is that scanner's position. Part 1 is the
 * number of beacons, part 2 the largest Manhattan distance between two
 * scanners.
 */
module BeaconScanner {
  import opened Options
  import opened Text

  /** `Position`: a point, or an offset between points. */
  datatype Position = Position(x: int, y: int, z: int)

  // ---------------------------------------------------------------------
  // Position arithmetic
  // ---------------------------------------------------------------------

  /** `Position::add`. */
  function Add(p: Position, q: Position): Position
  {
    Position(q.x + p.x, q.y + p.y, q.z + p.z)
  }

  /** `Position::sub`. */
  function Sub(p: Position, q: Position): Position
  {
    Position(p.x - q.x, p.y - q.y, p.z - q.z)
  }

  function AbsInt(n: int): nat
  {
    if n < 0 then -n else n
  }

  /** `Position::abs`. */
  function Abs(p: Position): Position
  {
    Position(AbsInt(p.x), AbsInt(p.y), AbsInt(p.z))
  }

  /** `Position::sum`. */
  function Sum(p: Position): int
  {
    p.x + p.y + p.z
  }

  /** Adding back what was subtracted gives the point again, and the other way round. */
  lemma AddSub(p: Position, q: Position)
    ensures Add(Sub(p, q), q) == p
    ensures Sub(Add(p, q), q) == p
  {
  }

  /** The Manhattan distance between two points. */
  function Distance(a: Position, b: Position): nat
  {
    AbsInt(a.x - b.x) + AbsInt(a.y - b.y) + AbsInt(a.z - b.z)
  }

  /** Part 2's `a.sub(b).abs().sum()` is the Manhattan distance. */
  lemma SubAbsSum(a: Position, b: Position)
    ensures Sum(Abs(Sub(a, b))) == Distance(a, b)
  {
  }

  /** The distance is never negative, zero only between equal points, and symmetric. */
  lemma DistanceMetric(a: Position, b: Position)
    ensures Distance(a, b) >= 0
    ensures Distance(a, b) == 0 <==> a == b
    ensures Distance(a, b) == Distance(b, a)
  {
  }

  /** Going through a third point is never shorter. */
  lemma DistanceTriangle(a: Position, b: Position, c: Position)
    ensures Distance(a, c) <= Distance(a, b) + Distance(b, c)
  {
    AbsTriangle(a.x, b.x, c.x);
    AbsTriangle(a.y, b.y, c.y);
    AbsTriangle(a.z, b.z, c.z);
  }

  lemma AbsTriangle(a: int, b: int, c: int)
    ensures AbsInt(a - c) <= AbsInt(a - b) + AbsInt(b - c)
  {
  }

  // ---------------------------------------------------------------------
  // permute
  // ---------------------------------------------------------------------

  /** `n` times the sign that the `turn`-th iteration of a `for s in [1, -1]` loop uses. */
  function Signed(n: int, turn: nat): int
  {
    if turn == 0 then n else -n
  }

  /**
   * The `val`-th entry of the table `permute` builds: sign flips of x, y
   * and z (x slowest), each followed by the six orders of the axes.
   */
  function Orient(p: Position, val: nat): Position
    requires val < 48
  {
    var signs := val / 6;
    var x := Signed(p.x, signs / 4);
    var y := Signed(p.y, signs / 2 % 2);
    var z := Signed(p.z, signs % 2);
    Arrange(x, y, z, val % 6)
  }

  /** The six orders `permute` pushes, in its order. */
  function Arrange(x: int, y: int, z: int, k: nat): Position
    requires k < 6
  {
    match k
    case 0 => Position(x, y, z)
    case 1 => Position(x, z, y)
    case 2 => Position(y, z, x)
    case 3 => Position(y, x, z)
    case 4 => Position(z, x, y)
    case 5 => Position(z, y, x)
  }

  /** The sum of the absolute coordinates. */
  function Norm(p: Position): nat
  {
    AbsInt(p.x) + AbsInt(p.y) + AbsInt(p.z)
  }

  /** Entry 0 is the position itself. */
  lemma OrientIdentity(p: Position)
    ensures Orient(p, 0) == p
  {
  }

  /** Every entry keeps the sum of the absolute coordinates. */
  lemma OrientNorm(p: Position, val: nat)
    requires val < 48
    ensures Norm(Orient(p, val)) == Norm(p)
  {
    var s := val / 6;
    var x, y, z := Signed(p.x, s / 4), Signed(p.y, s / 2 % 2), Signed(p.z, s % 2);
    assert AbsInt(x) == AbsInt(p.x) && AbsInt(y) == AbsInt(p.y) && AbsInt(z) == AbsInt(p.z);
    ArrangeNorm(x, y, z, val % 6);
  }

  lemma ArrangeNorm(x: int, y: int, z: int, k: nat)
    requires k < 6
    ensures Norm(Arrange(x, y, z, k)) == AbsInt(x) + AbsInt(y) + AbsInt(z)
  {
  }

  /** Different positions stay different in every entry. */
  lemma OrientInjective(p: Position, q: Position, val: nat)
    requires val < 48 && Orient(p, val) == Orient(q, val)
    ensures p == q
  {
    var s := val / 6;
    ArrangeInjective(Signed(p.x, s / 4), Signed(p.y, s / 2 % 2), Signed(p.z, s % 2),
                     Signed(q.x, s / 4), Signed(q.y, s / 2 % 2), Signed(q.z, s % 2), val % 6);
  }

  lemma ArrangeInjective(x: int, y: int, z: int, x': int, y': int, z': int, k: nat)
    requires k < 6 && Arrange(x, y, z, k) == Arrange(x', y', z', k)
    ensures x == x' && y == y' && z == z'
  {
  }

  /** Where the loops of `permute` put the entries of one sign choice. */
  lemma OrientAt(p: Position, xi: nat, yi: nat, zi: nat, k: nat)
    requires xi < 2 && yi < 2 && zi < 2 && k < 6
    ensures ((xi * 2 + yi) * 2 + zi) * 6 + k < 48
    ensures Orient(p, ((xi * 2 + yi) * 2 + zi) * 6 + k)
         == Arrange(Signed(p.x, xi), Signed(p.y, yi), Signed(p.z, zi), k)
  {
    var s := (xi * 2 + yi) * 2 + zi;
    assert s < 8;
    assert (s * 6 + k) / 6 == s && (s * 6 + k) % 6 == k;
    assert s / 4 == xi && s / 2 % 2 == yi && s % 2 == zi;
  }

  /**
   * `Position::permute`: build the 48 entries in three nested sign loops,
   * six axis orders each, and return entry `val`.
   */
  method Permute(p: Position, val: nat) returns (r: Position)
    requires val < 48
    ensures r == Orient(p, val)
  {
    var permutations: seq<Position> := [];
    for xi := 0 to 2
      invariant |permutations| == xi * 24
      invariant forall k :: 0 <= k < |permutations| ==> k < 48 && permutations[k] == Orient(p, k)
    {
      for yi := 0 to 2
        invariant |permutations| == xi * 24 + yi * 12
        invariant forall k :: 0 <= k < |permutations| ==> k < 48 && permutations[k] == Orient(p, k)
      {
        for zi := 0 to 2
          invariant |permutations| == xi * 24 + yi * 12 + zi * 6
          invariant forall k :: 0 <= k < |permutations| ==> k < 48 && permutations[k] == Orient(p, k)
        {
          permutations := PushOrders(p, xi, yi, zi, permutations);
        }
      }
    }
    r := permutations[val];
  }

  /** One turn of the innermost loop of `permute`: the six axis orders of one sign choice. */
  method PushOrders(p: Position, xi: nat, yi: nat, zi: nat, permutations: seq<Position>)
    returns (permutations': seq<Position>)
    requires xi < 2 && yi < 2 && zi < 2
    requires |permutations| == ((xi * 2 + yi) * 2 + zi) * 6
    requires forall k :: 0 <= k < |permutations| ==> k < 48 && permutations[k] == Orient(p, k)
    ensures |permutations'| == |permutations| + 6
    ensures forall k :: 0 <= k < |permutations'| ==> k < 48 && permutations'[k] == Orient(p, k)
  {
    var x := Signed(p.x, xi);
    var y := Signed(p.y, yi);
    var z := Signed(p.z, zi);
    permutations' := permutations + [Position(x, y, z), Position(x, z, y), Position(y, z, x),
                                     Position(y, x, z), Position(z, x, y), Position(z, y, x)];
    forall k | |permutations| <= k < |permutations'|
      ensures k < 48 && permutations'[k] == Orient(p, k)
    {
      OrientAt(p, xi, yi, zi, k - |permutations|);
    }
  }

  // ---------------------------------------------------------------------
  // parse
  // ---------------------------------------------------------------------

  /** How `parse` fails: a coordinate that is no `isize`, or a line of fewer than three (a panic). */
  datatype ParseFailure = BadNumber | TooFewValues

  /** A line of comma-separated coordinates read as a position; extra values are ignored. */
  function ParseLine(line: string): (r: Result<Position, ParseFailure>)
    ensures r.Ok? ==> |Split(line, ",")| >= 3
  {
    match ParseAllSigned(Split(line, ","), I64Min, I64End)
    case None => Err(BadNumber)
    case Some(values) =>
      if |values| < 3 then Err(TooFewValues) else Ok(Position(values[0], values[1], values[2]))
  }

  predicate Header(line: string)
  {
    StripPrefix(line, "---").Some?
  }

  /**
   * The scanners closed and the positions of the open scanner after the
   * lines: a header is skipped, a blank line closes the open scanner, any
   * other line adds a position to it.
   */
  function Scan(lines: seq<string>): Result<(seq<seq<Position>>, seq<Position>), ParseFailure>
  {
    if lines == [] then Ok(([], []))
    else
      var line := lines[|lines| - 1];
      match Scan(lines[..|lines| - 1])
      case Err(f) => Err(f)
      case Ok((scanners, positions)) =>
        if Header(line) then Ok((scanners, positions))
        else if line == "" then Ok((scanners + [positions], []))
        else
          match ParseLine(line)
          case Err(f) => Err(f)
          case Ok(p) => Ok((scanners, positions + [p]))
  }

  /** The scanners `parse` gives for lines that `Scan` could read: a non-empty open scanner is kept. */
  function Close(scan: (seq<seq<Position>>, seq<Position>)): seq<seq<Position>>
  {
    if scan.1 != [] then scan.0 + [scan.1] else scan.0
  }

  /** `parse`. */
  method Parse(lines: seq<string>) returns (r: Result<seq<seq<Position>>, ParseFailure>)
    ensures r.Ok? <==> Scan(lines).Ok?
    ensures r.Ok? ==> r.value == Close(Scan(lines).value)
  {
    var scanners: seq<seq<Position>> := [];
    var positions: seq<Position> := [];
    for k := 0 to |lines|
      invariant Scan(lines[..k]) == Ok((scanners, positions))
    {
      var line := lines[k];
      assert lines[..k + 1][..k] == lines[..k];
      if Header(line) {
        continue;
      } else if line == "" {
        scanners := scanners + [positions];
        positions := [];
      } else {
        var p := ParseLine(line);
        if p.Err? {
          ScanFailed(lines, k + 1);
          return Err(p.error);
        }
        positions := positions + [p.value];
      }
    }
    assert lines[..|lines|] == lines;
    if positions != [] {
      scanners := scanners + [positions];
    }
    return Ok(scanners);
  }

  /** A failure on some line is a failure of the whole input. */
  lemma {:induction false} ScanFailed(lines: seq<string>, k: nat)
    requires k <= |lines| && Scan(lines[..k]).Err?
    ensures Scan(lines).Err?
    decreases |lines| - k
  {
    if k < |lines| {
      assert lines[..k + 1][..k] == lines[..k];
      ScanFailed(lines, k + 1);
    } else {
      assert lines[..k] == lines;
    }
  }

  /** The lines that are neither headers nor blank: the positions, in order. */
  function Readings(lines: seq<string>): seq<string>
  {
    if lines == [] then []
    else
      var line := lines[|lines| - 1];
      Readings(lines[..|lines| - 1]) + if Header(line) || line == "" then [] else [line]
  }

  /** The number of blank lines. */
  function Blanks(lines: seq<string>): nat
  {
    if lines == [] then 0
    else Blanks(lines[..|lines| - 1]) + if lines[|lines| - 1] == "" then 1 else 0
  }

  function Flatten(groups: seq<seq<Position>>): seq<Position>
  {
    if groups == [] then [] else Flatten(groups[..|groups| - 1]) + groups[|groups| - 1]
  }

  function ParseLines(lines: seq<string>): seq<Result<Position, ParseFailure>>
  {
    seq(|lines|, i requires 0 <= i < |lines| => ParseLine(lines[i]))
  }

  function Oks(ps: seq<Position>): seq<Result<Position, ParseFailure>>
  {
    seq(|ps|, i requires 0 <= i < |ps| => Ok(ps[i]))
  }

  /**
   * Reading succeeds with one scanner closed per blank line, and the closed
   * scanners followed by the open one hold the readings' positions in order.
   */
  lemma {:induction false} ScanShape(lines: seq<string>)
    requires Scan(lines).Ok?
    ensures |Scan(lines).value.0| == Blanks(lines)
    ensures Oks(Flatten(Scan(lines).value.0) + Scan(lines).value.1) == ParseLines(Readings(lines))
  {
    if lines != [] {
      var front := lines[..|lines| - 1];
      var line := lines[|lines| - 1];
      ScanShape(front);
      var (scanners, positions) := Scan(front).value;
      if Header(line) {
      } else if line == "" {
        assert Flatten(scanners + [positions]) == Flatten(scanners) + positions by {
          assert (scanners + [positions])[..|scanners|] == scanners;
        }
        assert Flatten(scanners + [positions]) + [] == Flatten(scanners) + positions;
      } else {
        var p := ParseLine(line).value;
        assert Flatten(scanners) + (positions + [p]) == (Flatten(scanners) + positions) + [p];
        OksSnoc(Flatten(scanners) + positions, p);
        ParseLinesSnoc(Readings(front), line);
      }
    }
  }

  lemma OksSnoc(ps: seq<Position>, p: Position)
    ensures Oks(ps + [p]) == Oks(ps) + [Ok(p)]
  {
  }

  lemma ParseLinesSnoc(lines: seq<string>, line: string)
    ensures ParseLines(lines + [line]) == ParseLines(lines) + [ParseLine(line)]
  {
  }

  /** `parse` keeps the open scanner exactly when it holds a position. */
  lemma CloseCount(scan: (seq<seq<Position>>, seq<Position>))
    ensures |Close(scan)| == |scan.0| + if scan.1 != [] then 1 else 0
    ensures Flatten(Close(scan)) == Flatten(scan.0) + scan.1
  {
    if scan.1 != [] {
      assert (scan.0 + [scan.1])[..|scan.0|] == scan.0;
    } else {
      assert Flatten(scan.0) + scan.1 == Flatten(scan.0);
    }
  }

  // ---------------------------------------------------------------------
  // merge
  // ---------------------------------------------------------------------

  /** The scanner's beacons in orientation `i`: the set `adjusted`. */
  function Oriented(other: seq<Position>, i: nat): set<Position>
    requires i < 48
  {
    set v | v in other :: Orient(v, i)
  }

  /** A set of points moved by `offset`. */
  function Shift(points: set<Position>, offset: Position): set<Position>
  {
    set y | y in points :: Add(y, offset)
  }

  /** Every difference of a mapped beacon and an oriented one: the candidate offsets `distances`. */
  function Offsets(probes: set<Position>, adjusted: set<Position>): set<Position>
  {
    set x, y | x in probes && y in adjusted :: Sub(x, y)
  }

  /** Orientation `i` and `offset` place at least 12 of the scanner's beacons on mapped ones. */
  predicate Overlaps(probes: set<Position>, other: seq<Position>, i: nat, offset: Position)
    requires i < 48
  {
    |Shift(Oriented(other, i), offset) * probes| >= 12
  }

  /** Only a candidate offset can place even one beacon on a mapped one. */
  lemma OffsetsComplete(probes: set<Position>, adjusted: set<Position>, offset: Position)
    requires |Shift(adjusted, offset) * probes| >= 1
    ensures offset in Offsets(probes, adjusted)
  {
    var w :| w in Shift(adjusted, offset) * probes;
    var y :| y in adjusted && w == Add(y, offset);
    AddSub(offset, y);
    assert Sub(w, y) == offset;
  }

  /** Orientation `i` places at least 12 beacons on mapped ones once moved by `offset`. */
  predicate Matches(probes: set<Position>, adjusted: set<Position>, offset: Position)
  {
    |Shift(adjusted, offset) * probes| >= 12
  }

  /**
   * `merge`: try the 48 orientations in turn; the first one with an offset
   * placing 12 or more beacons on mapped ones adds the moved beacons to
   * `probes`, and the offset is returned. If none does, `probes` stays as
   * it was, and then no orientation and no offset at all overlaps.
   */
  method Merge(probes: set<Position>, other: seq<Position>)
    returns (probes': set<Position>, r: Option<Position>, ghost orientation: nat)
    ensures r.Some? ==> orientation < 48 && Overlaps(probes, other, orientation, r.value)
    ensures r.Some? ==> probes' == probes + Shift(Oriented(other, orientation), r.value)
    ensures r.Some? ==> forall i, offset :: 0 <= i < orientation ==> !Overlaps(probes, other, i, offset)
    ensures r.None? ==> probes' == probes
    ensures r.None? ==> forall i, offset :: 0 <= i < 48 ==> !Overlaps(probes, other, i, offset)
  {
    orientation := 0;
    for i := 0 to 48
      invariant forall i', offset :: 0 <= i' < i ==> !Overlaps(probes, other, i', offset)
    {
      var adjusted := Oriented(other, i);
      var found := FindOffset(probes, adjusted);
      if found.Some? {
        orientation := i;
        return probes + Shift(adjusted, found.value), found, orientation;
      }
      assert forall offset :: !Overlaps(probes, other, i, offset) by {
        forall offset
          ensures !Overlaps(probes, other, i, offset)
        {
          assert !Matches(probes, adjusted, offset);
        }
      }
    }
    return probes, None, orientation;
  }

  /**
   * The inner loop of `merge`: try the candidate offsets of one orientation
   * in some order and return the first that places 12 or more beacons on
   * mapped ones; none is returned only when no offset at all does.
   */
  method FindOffset(probes: set<Position>, adjusted: set<Position>) returns (r: Option<Position>)
    ensures r.Some? ==> Matches(probes, adjusted, r.value)
    ensures r.None? ==> forall offset :: !Matches(probes, adjusted, offset)
  {
    var distances := Offsets(probes, adjusted);
    ghost var tried: set<Position> := {};
    while distances != {}
      invariant distances + tried == Offsets(probes, adjusted)
      invariant forall offset :: offset in tried ==> !Matches(probes, adjusted, offset)
      decreases |distances|
    {
      var offset :| offset in distances;
      var moved := Shift(adjusted, offset);
      if |moved * probes| >= 12 {
        return Some(offset);
      }
      distances := distances - {offset};
      tried := tried + {offset};
    }
    forall offset
      ensures !Matches(probes, adjusted, offset)
    {
      if Matches(probes, adjusted, offset) {
        OffsetsComplete(probes, adjusted, offset);
      }
    }
    return None;
  }

  // ---------------------------------------------------------------------
  // Part 2
  // ---------------------------------------------------------------------

  /** The largest distance from `a` to a point of `ds`: the inner `max`. */
  function Farthest(a: Position, ds: seq<Position>): int
    requires |ds| >= 1
  {
    if |ds| == 1 then Distance(a, ds[0])
    else
      var rest := Farthest(a, ds[..|ds| - 1]);
      var last := Distance(a, ds[|ds| - 1]);
      if last > rest then last else rest
  }

  /** Part 2: the largest distance between two scanner positions. */
  function LargestDistance(ds: seq<Position>, from: seq<Position>): int
    requires |ds| >= 1 && |from| >= 1
  {
    if |from| == 1 then Farthest(from[0], ds)
    else
      var rest := LargestDistance(ds, from[..|from| - 1]);
      var last := Farthest(from[|from| - 1], ds);
      if last > rest then last else rest
  }

  /** The inner `max` bounds every distance from `a` and is one of them. */
  lemma {:induction false} FarthestIs(a: Position, ds: seq<Position>)
    requires |ds| >= 1
    ensures forall j :: 0 <= j < |ds| ==> Distance(a, ds[j]) <= Farthest(a, ds)
    ensures exists j :: 0 <= j < |ds| && Distance(a, ds[j]) == Farthest(a, ds)
  {
    if |ds| == 1 {
      assert Distance(a, ds[0]) == Farthest(a, ds);
    } else {
      var front := ds[..|ds| - 1];
      FarthestIs(a, front);
      assert forall j :: 0 <= j < |front| ==> front[j] == ds[j];
      var j :| 0 <= j < |front| && Distance(a, front[j]) == Farthest(a, front);
      if Distance(a, ds[|ds| - 1]) > Farthest(a, front) {
        assert Distance(a, ds[|ds| - 1]) == Farthest(a, ds);
      } else {
        assert Distance(a, ds[j]) == Farthest(a, ds);
      }
    }
  }

  /** Part 2 bounds every distance between two of the positions. */
  lemma {:induction false} LargestDistanceBounds(ds: seq<Position>, from: seq<Position>)
    requires |ds| >= 1 && |from| >= 1
    ensures forall i, j :: 0 <= i < |from| && 0 <= j < |ds| ==> Distance(from[i], ds[j]) <= LargestDistance(ds, from)
  {
    var a := from[|from| - 1];
    FarthestIs(a, ds);
    if |from| > 1 {
      var front := from[..|from| - 1];
      LargestDistanceBounds(ds, front);
      forall i, k | 0 <= i < |from| && 0 <= k < |ds|
        ensures Distance(from[i], ds[k]) <= LargestDistance(ds, from)
      {
        if i < |from| - 1 {
          assert from[i] == front[i];
        }
      }
    }
  }

  /** Part 2 is the distance between two of the positions. */
  lemma {:induction false} LargestDistanceAttained(ds: seq<Position>, from: seq<Position>)
    requires |ds| >= 1 && |from| >= 1
    ensures exists i, j :: 0 <= i < |from| && 0 <= j < |ds| && Distance(from[i], ds[j]) == LargestDistance(ds, from)
  {
    var a := from[|from| - 1];
    FarthestIs(a, ds);
    var j :| 0 <= j < |ds| && Distance(a, ds[j]) == Farthest(a, ds);
    if |from| == 1 {
      assert Distance(from[0], ds[j]) == LargestDistance(ds, from);
    } else {
      var front := from[..|from| - 1];
      LargestDistanceAttained(ds, front);
      var i', j' :| 0 <= i' < |front| && 0 <= j' < |ds| && Distance(front[i'], ds[j']) == LargestDistance(ds, front);
      assert front[i'] == from[i'];
      if Farthest(a, ds) > LargestDistance(ds, front) {
        assert Distance(from[|from| - 1], ds[j]) == LargestDistance(ds, from);
      } else {
        assert Distance(from[i'], ds[j']) == LargestDistance(ds, from);
      }
    }
  }

  /**
   * Part 2 as written: the largest distance between two of the offsets
   * `merge` returned. Scanner 0 sits at the origin but is never merged, so
   * its position is not among them.
   */
  function Part2(distances: seq<Position>): (d: int)
    requires |distances| >= 1
    ensures forall i, j :: 0 <= i < |distances| && 0 <= j < |distances| ==> Distance(distances[i], distances[j]) <= d
    ensures exists i, j :: 0 <= i < |distances| && 0 <= j < |distances| && Distance(distances[i], distances[j]) == d
  {
    LargestDistanceBounds(distances, distances);
    LargestDistanceAttained(distances, distances);
    LargestDistance(distances, distances)
  }

  /** Part 2 taking every scanner, scanner 0 at the origin included. */
  function Part2AllScanners(distances: seq<Position>): int
  {
    var scanners := [Position(0, 0, 0)] + distances;
    LargestDistance(scanners, scanners)
  }

  /**
   * With scanner 0 left out, a map of two scanners gives 0 however far
   * apart they are.
   */
  lemma Part2MissesScannerZero(p: Position)
    requires p != Position(0, 0, 0)
    ensures Part2([p]) == 0
    ensures Part2AllScanners([p]) == Distance(Position(0, 0, 0), p) > 0
  {
    Part2Single(p);
    Part2WithOrigin(p);
    DistanceMetric(Position(0, 0, 0), p);
  }

  lemma Part2Single(p: Position)
    ensures Part2([p]) == 0
  {
    DistanceMetric(p, p);
  }

  lemma Part2WithOrigin(p: Position)
    ensures Part2AllScanners([p]) == Distance(Position(0, 0, 0), p)
  {
    var o := Position(0, 0, 0);
    assert [o] + [p] == [o, p];
    LargestOfTwo(o, p);
  }

  lemma LargestOfTwo(a: Position, b: Position)
    ensures LargestDistance([a, b], [a, b]) == Distance(a, b)
  {
    assert [a, b][..1] == [a];
    DistanceMetric(a, b);
    DistanceMetric(a, a);
    DistanceMetric(b, b);
    FarthestPair(a, a, b);
    FarthestPair(b, a, b);
  }

  lemma FarthestPair(a: Position, b: Position, c: Position)
    ensures Farthest(a, [b, c]) == if Distance(a, c) > Distance(a, b) then Distance(a, c) else Distance(a, b)
  {
    assert [b, c][..1] == [b];
  }

  /** Part 2 over every scanner is the largest distance between any two of them, scanner 0 included. */
  lemma Part2AllScannersIs(distances: seq<Position>)
    ensures var scanners := [Position(0, 0, 0)] + distances;
      (forall i, j :: 0 <= i < |scanners| && 0 <= j < |scanners| ==> Distance(scanners[i], scanners[j]) <= Part2AllScanners(distances))
      && (exists i, j :: 0 <= i < |scanners| && 0 <= j < |scanners| && Distance(scanners[i], scanners[j]) == Part2AllScanners(distances))
  {
    var scanners := [Position(0, 0, 0)] + distances;
    LargestDistanceBounds(scanners, scanners);
    LargestDistanceAttained(scanners, scanners);
  }
}
