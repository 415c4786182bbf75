/**
 * Day 22, Reactor Reboot: a reactor core is a grid of cubes, all off at
 * first. Each reboot step turns a cuboid of cubes on or off. The solver does
 * not visit cubes: it keeps a list of signed cuboids (inclusion–exclusion),
 * adding for every new step its overlap with each earlier entry with the
 * opposite sign, and sums the signed volumes. Part 1 only takes the steps
 * that touch the region -50..50 on every axis; part 2 takes them all.
 */
module ReactorReboot {
  import opened Options
  import opened Text

  // ---------------------------------------------------------------------
  // Ranges
  // ---------------------------------------------------------------------

  /** `Range`: the integers from `min` to `max`, both included. */
  datatype Range = Range(min: int, max: int)

  /** Every range the solver builds goes through `Range::new`, which asserts this. */
  predicate ValidRange(r: Range)
  {
    r.min <= r.max
  }

  predicate InRange(p: int, r: Range)
  {
    r.min <= p <= r.max
  }

  /** `a` lies within `b`. */
  predicate SubRange(a: Range, b: Range)
  {
    b.min <= a.min && a.max <= b.max
  }

  /** `Range::new`: panics unless `min <= max`. */
  function NewRange(min: int, max: int): (r: Range)
    requires min <= max
    ensures ValidRange(r)
    ensures forall p :: InRange(p, r) <==> min <= p <= max
  {
    Range(min, max)
  }

  function Max(a: int, b: int): int
  {
    if a < b then b else a
  }

  function Min(a: int, b: int): int
  {
    if a < b then a else b
  }

  /** `Range::intersect`: the integers the two ranges share, if there are any. */
  function Intersect(a: Range, b: Range): (r: Option<Range>)
    requires ValidRange(a) && ValidRange(b)
    ensures r.Some? <==> exists p :: InRange(p, a) && InRange(p, b)
    ensures r.Some? ==> ValidRange(r.value) && SubRange(r.value, a) && SubRange(r.value, b)
    ensures r.Some? ==> forall p :: InRange(p, r.value) <==> InRange(p, a) && InRange(p, b)
  {
    if b.min <= a.max && a.min <= b.max then
      assert InRange(Max(a.min, b.min), a) && InRange(Max(a.min, b.min), b);
      Some(NewRange(Max(a.min, b.min), Min(a.max, b.max)))
    else
      None
  }

  /** `Range::count`: the number of integers in the range. */
  function Count(r: Range): (n: int)
    requires ValidRange(r)
    ensures n >= 1
  {
    r.max - r.min + 1
  }

  /** The integers of a range, as a set. */
  function Points(r: Range): set<int>
  {
    set p: int | r.min <= p <= r.max && InRange(p, r)
  }

  /** `count` is the number of integers the range holds. */
  lemma {:induction false} CountPoints(r: Range)
    requires ValidRange(r)
    ensures Count(r) == |Points(r)|
    decreases r.max - r.min
  {
    if r.min == r.max {
      assert Points(r) == {r.min};
    } else {
      var shorter := Range(r.min, r.max - 1);
      CountPoints(shorter);
      assert Points(r) == Points(shorter) + {r.max};
    }
  }

  // ---------------------------------------------------------------------
  // Cuboids
  // ---------------------------------------------------------------------

  datatype Point = Point(x: int, y: int, z: int)

  /** `Cuboid`: a reboot step (or an entry of the signed list) and its cached volume. */
  datatype Cuboid = Cuboid(on: bool, x: Range, y: Range, z: Range, score: int)

  predicate Valid(c: Cuboid)
  {
    ValidRange(c.x) && ValidRange(c.y) && ValidRange(c.z)
  }

  predicate Inside(p: Point, c: Cuboid)
  {
    InRange(p.x, c.x) && InRange(p.y, c.y) && InRange(p.z, c.z)
  }

  /** `c` lies within `region`. */
  predicate Contained(c: Cuboid, region: Cuboid)
  {
    SubRange(c.x, region.x) && SubRange(c.y, region.y) && SubRange(c.z, region.z)
  }

  /** The number of cubes of a cuboid, as the solver multiplies it out. */
  function Volume(c: Cuboid): int
    requires Valid(c)
  {
    Count(c.x) * Count(c.y) * Count(c.z)
  }

  /** A valid cuboid whose score is its volume, as `new` and `overlap` leave it. */
  predicate Scored(c: Cuboid)
  {
    Valid(c) && c.score == Volume(c)
  }

  /** `Cuboid::overlap`: the cubes both cuboids hold, as an "on" cuboid. */
  function Overlap(a: Cuboid, b: Cuboid): (r: Option<Cuboid>)
    requires Valid(a) && Valid(b)
    ensures r.Some? ==> r.value.on && Scored(r.value) && Contained(r.value, a) && Contained(r.value, b)
  {
    match (Intersect(a.x, b.x), Intersect(a.y, b.y), Intersect(a.z, b.z))
    case (Some(x), Some(y), Some(z)) =>
      Some(Cuboid(true, x, y, z, Count(x) * Count(y) * Count(z)))
    case _ => None
  }

  /** `overlap` finds a cuboid exactly when one cube lies in both, and it holds exactly those cubes. */
  lemma OverlapPoints(a: Cuboid, b: Cuboid)
    requires Valid(a) && Valid(b)
    ensures Overlap(a, b).Some? <==> exists p :: Inside(p, a) && Inside(p, b)
    ensures Overlap(a, b).Some? ==> forall p :: Inside(p, Overlap(a, b).value) <==> Inside(p, a) && Inside(p, b)
  {
    match (Intersect(a.x, b.x), Intersect(a.y, b.y), Intersect(a.z, b.z))
    case (Some(x), Some(y), Some(z)) =>
      assert InRange(x.min, x) && InRange(y.min, y) && InRange(z.min, z);
      assert Inside(Point(x.min, y.min, z.min), a) && Inside(Point(x.min, y.min, z.min), b);
    case _ =>
  }

  // ---------------------------------------------------------------------
  // Cuboid::new and parse
  // ---------------------------------------------------------------------

  /** The reading of one line by `Cuboid::new`. */
  datatype Reading =
    | Parsed(cuboid: Cuboid)
    | Unparsed   // `new` returns `None` and `parse` drops the line
    | Reversed   // the bounds parse but one range has `min > max`: `Range::new` panics

  /** `axis` then `start..end`, both `isize` numbers. */
  function Bounds(s: string, axis: string): Option<(int, int)>
  {
    match StripPrefix(s, axis)
    case None => None
    case Some(rest) =>
      match SplitOnce(rest, "..")
      case None => None
      case Some((start, end)) =>
        match (ParseSigned(start, I64Min, I64End), ParseSigned(end, I64Min, I64End))
        case (Some(lo), Some(hi)) => Some((lo, hi))
        case _ => None
  }

  /** `Cuboid::new`: `on|off x=a..b,y=c..d,z=e..f`, "on" exactly when the first word is `on`. */
  function New(line: string): (r: Reading)
    ensures r.Parsed? ==> Scored(r.cuboid)
  {
    match SplitOnce(line, " ")
    case None => Unparsed
    case Some((word, coords)) => NewCoords(word == "on", coords)
  }

  /** `new` after the first word: the three axes, split at the first two commas. */
  function NewCoords(on: bool, coords: string): (r: Reading)
    ensures r.Parsed? ==> Scored(r.cuboid)
  {
    match SplitOnce(coords, ",")
    case None => Unparsed
    case Some((xs, yz)) =>
      match SplitOnce(yz, ",")
      case None => Unparsed
      case Some((ys, zs)) => NewAxes(on, xs, ys, zs)
  }

  /** `new` on the text of the three axes. */
  function NewAxes(on: bool, xs: string, ys: string, zs: string): (r: Reading)
    ensures r.Parsed? ==> Scored(r.cuboid)
  {
    match (Bounds(xs, "x="), Bounds(ys, "y="), Bounds(zs, "z="))
    case (Some(x), Some(y), Some(z)) =>
      if x.0 <= x.1 && y.0 <= y.1 && z.0 <= z.1 then
        var xr, yr, zr := NewRange(x.0, x.1), NewRange(y.0, y.1), NewRange(z.0, z.1);
        Parsed(Cuboid(on, xr, yr, zr, Count(xr) * Count(yr) * Count(zr)))
      else
        Reversed
    case _ => Unparsed
  }

  /**
   * `parse`: the cuboids of the lines `new` reads, in order; `None` stands
   * for the panic of a line with a reversed range.
   */
  function Parse(lines: seq<string>): (r: Option<seq<Cuboid>>)
    ensures r.Some? ==> forall i :: 0 <= i < |r.value| ==> Scored(r.value[i])
  {
    if lines == [] then Some([])
    else
      var earlier := Parse(lines[..|lines| - 1]);
      if earlier.None? then None
      else
        match New(lines[|lines| - 1])
        case Reversed => None
        case Unparsed => earlier
        case Parsed(c) => Some(earlier.value + [c])
  }

  /** An integer as Rust prints it. */
  function ShowInt(n: int): string
  {
    if n < 0 then "-" + Digits(-n) else Digits(n)
  }

  predicate IsSize(n: int)
  {
    I64Min <= n < I64End
  }

  function Word(on: bool): string
  {
    if on then "on" else "off"
  }

  lemma WordText(on: bool)
    ensures ' ' !in Word(on) && (Word(on) == "on") == on
  {
  }

  /** One axis of a reboot step: `x=a..b`. */
  function AxisText(axis: string, r: Range): string
  {
    axis + (ShowInt(r.min) + ".." + ShowInt(r.max))
  }

  /** A reboot step as the puzzle input writes it. */
  function Show(c: Cuboid): string
  {
    Word(c.on) + " "
    + (AxisText("x=", c.x) + "," + (AxisText("y=", c.y) + "," + AxisText("z=", c.z)))
  }

  predicate Printable(c: Cuboid)
  {
    IsSize(c.x.min) && IsSize(c.x.max) && IsSize(c.y.min) && IsSize(c.y.max)
    && IsSize(c.z.min) && IsSize(c.z.max)
  }

  /** A printed integer holds neither a dot nor a comma. */
  lemma ShowIntChars(n: int)
    ensures '.' !in ShowInt(n) && ',' !in ShowInt(n)
  {
    var s := ShowInt(n);
    var digits := Digits(if n < 0 then -n else n);
    assert forall i :: 0 <= i < |s| ==> s[i] == '-' || IsDigit(s[i]) by {
      if n < 0 {
        assert forall i :: 1 <= i < |s| ==> s[i] == digits[i - 1];
      }
    }
  }

  /** A printed `isize` parses back. */
  lemma ParseShowInt(n: int)
    requires IsSize(n)
    ensures ParseSigned(ShowInt(n), I64Min, I64End) == Some(n)
  {
    ParseSignedDigits(n, I64Min, I64End);
  }

  /** Splitting at the first `..` of a text whose first part has no dot. */
  lemma SplitOnceDots(a: string, b: string)
    requires '.' !in a
    ensures SplitOnce(a + ".." + b, "..") == Some((a, b))
  {
    var s := a + ".." + b;
    assert s[|a|..|a| + 2] == "..";
    forall j | 0 <= j < |a| ensures !OccursAt(s, "..", j) {
      assert s[j] == a[j];
    }
    SplitOnceAt(s, "..", |a|);
    assert s[..|a|] == a;
    assert s[|a| + 2..] == b;
  }

  lemma StripConcat(p: string, rest: string)
    ensures StripPrefix(p + rest, p) == Some(rest)
  {
    assert (p + rest)[..|p|] == p;
    assert (p + rest)[|p|..] == rest;
  }

  lemma BoundsOf(axis: string, a: string, b: string, lo: int, hi: int)
    requires '.' !in a
    requires ParseSigned(a, I64Min, I64End) == Some(lo) && ParseSigned(b, I64Min, I64End) == Some(hi)
    ensures Bounds(axis + (a + ".." + b), axis) == Some((lo, hi))
  {
    StripConcat(axis, a + ".." + b);
    SplitOnceDots(a, b);
  }

  /** The bounds of one axis read back. */
  lemma BoundsOfShow(axis: string, r: Range)
    requires IsSize(r.min) && IsSize(r.max)
    ensures Bounds(AxisText(axis, r), axis) == Some((r.min, r.max))
  {
    ShowIntChars(r.min);
    ParseShowInt(r.min);
    ParseShowInt(r.max);
    BoundsOf(axis, ShowInt(r.min), ShowInt(r.max), r.min, r.max);
  }

  /** The text of one axis holds no comma. */
  lemma AxisNoComma(axis: string, r: Range)
    requires ',' !in axis
    ensures ',' !in AxisText(axis, r)
  {
    ShowIntChars(r.min);
    ShowIntChars(r.max);
  }

  /** `new` on a line whose first word has no space. */
  lemma NewOfWord(word: string, coords: string)
    requires ' ' !in word
    ensures New(word + " " + coords) == NewCoords(word == "on", coords)
  {
    assert " " == [' '];
    SplitOnceChar(word, ' ', coords);
  }

  /** `new` after the first word, when the first two axes have no comma. */
  lemma NewOfAxes(on: bool, xs: string, ys: string, zs: string)
    requires ',' !in xs && ',' !in ys
    ensures NewCoords(on, xs + "," + (ys + "," + zs)) == NewAxes(on, xs, ys, zs)
  {
    assert "," == [','];
    SplitOnceChar(xs, ',', ys + [','] + zs);
    SplitOnceChar(ys, ',', zs);
  }

  /** `new` on three axes whose bounds parse. */
  lemma NewAxesOf(c: Cuboid, xs: string, ys: string, zs: string)
    requires Bounds(xs, "x=") == Some((c.x.min, c.x.max))
    requires Bounds(ys, "y=") == Some((c.y.min, c.y.max))
    requires Bounds(zs, "z=") == Some((c.z.min, c.z.max))
    ensures Valid(c) ==> NewAxes(c.on, xs, ys, zs) == Parsed(c.(score := Volume(c)))
    ensures !Valid(c) ==> NewAxes(c.on, xs, ys, zs) == Reversed
  {
    if Valid(c) {
      assert NewRange(c.x.min, c.x.max) == c.x;
      assert NewRange(c.y.min, c.y.max) == c.y;
      assert NewRange(c.z.min, c.z.max) == c.z;
    }
  }

  /**
   * `new` reads back a printed step: the step with its volume as score when
   * its ranges are ordered, and the panic of `Range::new` otherwise.
   */
  lemma NewOfShow(c: Cuboid)
    requires Printable(c)
    ensures Valid(c) ==> New(Show(c)) == Parsed(c.(score := Volume(c)))
    ensures !Valid(c) ==> New(Show(c)) == Reversed
  {
    var word := Word(c.on);
    WordText(c.on);
    AxisNoComma("x=", c.x);
    AxisNoComma("y=", c.y);
    BoundsOfShow("x=", c.x);
    BoundsOfShow("y=", c.y);
    BoundsOfShow("z=", c.z);
    NewOfWord(word, AxisText("x=", c.x) + "," + (AxisText("y=", c.y) + "," + AxisText("z=", c.z)));
    NewOfAxes(c.on, AxisText("x=", c.x), AxisText("y=", c.y), AxisText("z=", c.z));
    NewAxesOf(c, AxisText("x=", c.x), AxisText("y=", c.y), AxisText("z=", c.z));
  }

  /** The puzzle input of a list of steps, one line per step. */
  function ShowAll(cs: seq<Cuboid>): (lines: seq<string>)
    ensures |lines| == |cs|
  {
    if cs == [] then [] else ShowAll(cs[..|cs| - 1]) + [Show(cs[|cs| - 1])]
  }

  /** `parse` reads back the printed steps. */
  lemma {:induction false} ParseShown(cs: seq<Cuboid>)
    requires forall i :: 0 <= i < |cs| ==> Scored(cs[i]) && Printable(cs[i])
    ensures Parse(ShowAll(cs)) == Some(cs)
  {
    if cs != [] {
      var init, last := cs[..|cs| - 1], cs[|cs| - 1];
      assert init + [last] == cs;
      var lines := ShowAll(cs);
      assert lines[..|lines| - 1] == ShowAll(init) && lines[|lines| - 1] == Show(last);
      ParseShown(init);
      NewOfShow(last);
      assert New(Show(last)) == Parsed(last);
    }
  }

  // ---------------------------------------------------------------------
  // count_cubes
  // ---------------------------------------------------------------------

  /** The region part 1 is limited to. */
  const Limit: Cuboid := Cuboid(true, Range(-50, 50), Range(-50, 50), Range(-50, 50), 0)

  /** A step `count_cubes` takes: every step without a limit, those touching it with one. */
  predicate Taken(c: Cuboid, limit: Option<Cuboid>)
    requires Valid(c) && (limit.Some? ==> Valid(limit.value))
  {
    limit.None? || Overlap(c, limit.value).Some?
  }

  predicate AllValid(cs: seq<Cuboid>)
  {
    forall i :: 0 <= i < |cs| ==> Valid(cs[i])
  }

  predicate ValidLimit(limit: Option<Cuboid>)
  {
    limit.Some? ==> Valid(limit.value)
  }

  /** The entry pushed for an earlier entry `prev`: its overlap with `c`, with its flag flipped. */
  function FlipOne(prev: Cuboid, c: Cuboid): (r: seq<Cuboid>)
    requires Valid(prev) && Valid(c)
    ensures AllValid(r)
  {
    match Overlap(prev, c)
    case Some(o) => [o.(on := !prev.on)]
    case None => []
  }

  /** The entries pushed for the earlier entries `visited`, in order. */
  function Flipped(visited: seq<Cuboid>, c: Cuboid): (r: seq<Cuboid>)
    requires AllValid(visited) && Valid(c)
    ensures AllValid(r)
  {
    if visited == [] then []
    else Flipped(visited[..|visited| - 1], c) + FlipOne(visited[|visited| - 1], c)
  }

  /** The entries `count_cubes` holds in `lights` after the steps `cs`. */
  function Lights(cs: seq<Cuboid>, limit: Option<Cuboid>): (r: seq<Cuboid>)
    requires AllValid(cs) && ValidLimit(limit)
    ensures AllValid(r)
  {
    if cs == [] then []
    else
      var earlier := Lights(cs[..|cs| - 1], limit);
      var c := cs[|cs| - 1];
      if !Taken(c, limit) then earlier
      else earlier + (if c.on then [c] else []) + Flipped(earlier, c)
  }

  /** The scores of the "on" entries, summed. */
  function OnScore(lights: seq<Cuboid>): int
  {
    if lights == [] then 0
    else OnScore(lights[..|lights| - 1]) + (if lights[|lights| - 1].on then lights[|lights| - 1].score else 0)
  }

  /** The scores of the "off" entries, summed. */
  function OffScore(lights: seq<Cuboid>): int
  {
    if lights == [] then 0
    else OffScore(lights[..|lights| - 1]) + (if lights[|lights| - 1].on then 0 else lights[|lights| - 1].score)
  }

  /** What `count_cubes` returns. */
  function Total(cs: seq<Cuboid>, limit: Option<Cuboid>): int
    requires AllValid(cs) && ValidLimit(limit)
  {
    OnScore(Lights(cs, limit)) - OffScore(Lights(cs, limit))
  }

  /** `count_cubes`: the signed list built step by step and its sum. */
  method CountCubes(cuboids: seq<Cuboid>, limit: Option<Cuboid>) returns (total: int)
    requires AllValid(cuboids) && ValidLimit(limit)
    ensures total == Total(cuboids, limit)
  {
    var lights: seq<Cuboid> := [];
    for i := 0 to |cuboids|
      invariant lights == Lights(cuboids[..i], limit)
    {
      assert cuboids[..i + 1][..i] == cuboids[..i];
      var cuboid := cuboids[i];
      if limit.Some? && Overlap(cuboid, limit.value).None? {
        continue;
      }
      lights := Visit(lights, cuboid);
    }
    assert cuboids[..|cuboids|] == cuboids;
    total := OnScore(lights) - OffScore(lights);
  }

  /** One step of `count_cubes` that is taken: push it if "on", then the flipped overlaps. */
  method Visit(lights: seq<Cuboid>, cuboid: Cuboid) returns (lights': seq<Cuboid>)
    requires AllValid(lights) && Valid(cuboid)
    ensures lights' == lights + (if cuboid.on then [cuboid] else []) + Flipped(lights, cuboid)
  {
    var visited := lights;
    lights' := lights;
    if cuboid.on {
      lights' := lights' + [cuboid];
    }
    ghost var pushed := lights';
    for j := 0 to |visited|
      invariant lights' == pushed + Flipped(visited[..j], cuboid)
    {
      ghost var before := lights';
      var prev := visited[j];
      match Overlap(prev, cuboid) {
        case Some(overlap) =>
          lights' := lights' + [overlap.(on := !prev.on)];
        case None =>
      }
      assert lights' == before + FlipOne(prev, cuboid);
      FlippedNext(visited, j, cuboid);
      Assoc(pushed, Flipped(visited[..j], cuboid), FlipOne(prev, cuboid));
    }
    assert visited[..|visited|] == visited;
  }

  lemma FlippedNext(visited: seq<Cuboid>, j: nat, c: Cuboid)
    requires AllValid(visited) && Valid(c) && j < |visited|
    ensures Flipped(visited[..j + 1], c) == Flipped(visited[..j], c) + FlipOne(visited[j], c)
  {
    assert visited[..j + 1][..j] == visited[..j];
  }

  lemma Assoc<T>(a: seq<T>, b: seq<T>, c: seq<T>)
    ensures a + b + c == a + (b + c)
  {
  }

  // ---------------------------------------------------------------------
  // What the signed list stands for
  // ---------------------------------------------------------------------

  /** Whether cube `p` is on after the steps `cs`: all start off, and the last step holding `p` decides. */
  function Lit(cs: seq<Cuboid>, p: Point): bool
  {
    if cs == [] then false
    else if Inside(p, cs[|cs| - 1]) then cs[|cs| - 1].on
    else Lit(cs[..|cs| - 1], p)
  }

  /** The steps `count_cubes` takes, in order. */
  function TakenSteps(cs: seq<Cuboid>, limit: Option<Cuboid>): (r: seq<Cuboid>)
    requires AllValid(cs) && ValidLimit(limit)
    ensures forall i :: 0 <= i < |r| ==> r[i] in cs
  {
    if cs == [] then []
    else
      var earlier := TakenSteps(cs[..|cs| - 1], limit);
      if Taken(cs[|cs| - 1], limit) then earlier + [cs[|cs| - 1]] else earlier
  }

  /** Without a limit every step is taken. */
  lemma {:induction false} AllTaken(cs: seq<Cuboid>)
    requires AllValid(cs)
    ensures TakenSteps(cs, None) == cs
  {
    if cs != [] {
      AllTaken(cs[..|cs| - 1]);
      assert cs[..|cs| - 1] + [cs[|cs| - 1]] == cs;
    }
  }

  function Sign(c: Cuboid): int
  {
    if c.on then 1 else -1
  }

  /** The entries holding `p`, counted +1 when "on" and -1 when "off". */
  function Weight(lights: seq<Cuboid>, p: Point): int
  {
    if lights == [] then 0
    else
      var last := lights[|lights| - 1];
      Weight(lights[..|lights| - 1], p) + (if Inside(p, last) then Sign(last) else 0)
  }

  lemma {:induction false} WeightAppend(a: seq<Cuboid>, b: seq<Cuboid>, p: Point)
    ensures Weight(a + b, p) == Weight(a, p) + Weight(b, p)
  {
    if b == [] {
      assert a + b == a;
    } else {
      WeightAppend(a, b[..|b| - 1], p);
      assert (a + b)[..|a + b| - 1] == a + b[..|b| - 1];
    }
  }

  lemma WeightOne(c: Cuboid, p: Point)
    ensures Weight([c], p) == if Inside(p, c) then Sign(c) else 0
  {
    assert [c][..0] == [];
  }

  /** The flipped overlaps hold `p` with the opposite weight of the earlier entries, inside the new step. */
  lemma {:induction false} WeightFlipped(visited: seq<Cuboid>, c: Cuboid, p: Point)
    requires AllValid(visited) && Valid(c)
    ensures Weight(Flipped(visited, c), p) == if Inside(p, c) then -Weight(visited, p) else 0
  {
    if visited != [] {
      var init, prev := visited[..|visited| - 1], visited[|visited| - 1];
      WeightFlipped(init, c, p);
      WeightAppend(Flipped(init, c), FlipOne(prev, c), p);
      OverlapPoints(prev, c);
      match Overlap(prev, c)
      case Some(o) =>
        WeightOne(o.(on := !prev.on), p);
      case None =>
        assert !(Inside(p, prev) && Inside(p, c));
    }
  }

  /**
   * Inclusion–exclusion: after any steps, each cube has weight 1 in the
   * signed list when the taken steps leave it on, and 0 when they leave it off.
   */
  lemma {:induction false} LightsWeight(cs: seq<Cuboid>, limit: Option<Cuboid>, p: Point)
    requires AllValid(cs) && ValidLimit(limit)
    ensures Weight(Lights(cs, limit), p) == if Lit(TakenSteps(cs, limit), p) then 1 else 0
  {
    if cs != [] {
      var init, c := cs[..|cs| - 1], cs[|cs| - 1];
      LightsWeight(init, limit, p);
      if Taken(c, limit) {
        var earlier := Lights(init, limit);
        var pushed: seq<Cuboid> := if c.on then [c] else [];
        WeightAppend(earlier + pushed, Flipped(earlier, c), p);
        WeightAppend(earlier, pushed, p);
        WeightFlipped(earlier, c, p);
        if c.on {
          WeightOne(c, p);
        }
        var taken := TakenSteps(init, limit) + [c];
        assert taken[..|taken| - 1] == TakenSteps(init, limit);
      }
    }
  }

  // ---------------------------------------------------------------------
  // Counting cubes over a region
  // ---------------------------------------------------------------------

  /** The sum of `f(i)` for `lo <= i <= hi`. */
  function Sum(f: int -> int, lo: int, hi: int): int
    decreases hi - lo
  {
    if hi < lo then 0 else Sum(f, lo, hi - 1) + f(hi)
  }

  lemma {:induction false} SumAdd(f: int -> int, g: int -> int, h: int -> int, lo: int, hi: int)
    requires forall i :: lo <= i <= hi ==> h(i) == f(i) + g(i)
    ensures Sum(h, lo, hi) == Sum(f, lo, hi) + Sum(g, lo, hi)
    decreases hi - lo
  {
    if lo <= hi {
      SumAdd(f, g, h, lo, hi - 1);
    }
  }

  lemma {:induction false} SumSame(f: int -> int, g: int -> int, lo: int, hi: int)
    requires forall i :: lo <= i <= hi ==> f(i) == g(i)
    ensures Sum(f, lo, hi) == Sum(g, lo, hi)
    decreases hi - lo
  {
    if lo <= hi {
      SumSame(f, g, lo, hi - 1);
    }
  }

  lemma {:induction false} SumZero(f: int -> int, lo: int, hi: int)
    requires forall i :: lo <= i <= hi ==> f(i) == 0
    ensures Sum(f, lo, hi) == 0
    decreases hi - lo
  {
    if lo <= hi {
      SumZero(f, lo, hi - 1);
    }
  }

  /** Summing `k` over a range inside the bounds and 0 elsewhere gives `k` times its count. */
  lemma {:induction false} SumBlock(f: int -> int, r: Range, k: int, lo: int, hi: int)
    requires lo <= r.min <= r.max <= hi
    requires forall i :: lo <= i <= hi ==> f(i) == if InRange(i, r) then k else 0
    ensures Sum(f, lo, hi) == k * Count(r)
    decreases hi - lo
  {
    if hi > r.max {
      SumBlock(f, r, k, lo, hi - 1);
    } else if r.min < r.max {
      var shorter := Range(r.min, r.max - 1);
      SumBlock(f, shorter, k, lo, hi - 1);
      assert k * Count(r) == k * Count(shorter) + k;
    } else {
      SumZero(f, lo, hi - 1);
    }
  }

  function SumZ(f: Point -> int, x: int, y: int, rz: Range): int
  {
    Sum(z => f(Point(x, y, z)), rz.min, rz.max)
  }

  function SumYZ(f: Point -> int, x: int, ry: Range, rz: Range): int
  {
    Sum(y => SumZ(f, x, y, rz), ry.min, ry.max)
  }

  /** The sum of `f` over the cubes of a region. */
  function SumOver(f: Point -> int, region: Cuboid): int
  {
    Sum(x => SumYZ(f, x, region.y, region.z), region.x.min, region.x.max)
  }

  lemma SumOverAdd(f: Point -> int, g: Point -> int, h: Point -> int, region: Cuboid)
    requires forall p :: Inside(p, region) ==> h(p) == f(p) + g(p)
    ensures SumOver(h, region) == SumOver(f, region) + SumOver(g, region)
  {
    var ry, rz := region.y, region.z;
    forall x, y | InRange(x, region.x) && InRange(y, ry)
      ensures SumZ(h, x, y, rz) == SumZ(f, x, y, rz) + SumZ(g, x, y, rz)
    {
      assert forall z :: InRange(z, rz) ==> Inside(Point(x, y, z), region);
      SumAdd(z => f(Point(x, y, z)), z => g(Point(x, y, z)), z => h(Point(x, y, z)), rz.min, rz.max);
    }
    forall x | InRange(x, region.x)
      ensures SumYZ(h, x, ry, rz) == SumYZ(f, x, ry, rz) + SumYZ(g, x, ry, rz)
    {
      SumAdd(y => SumZ(f, x, y, rz), y => SumZ(g, x, y, rz), y => SumZ(h, x, y, rz), ry.min, ry.max);
    }
    SumAdd(x => SumYZ(f, x, ry, rz), x => SumYZ(g, x, ry, rz), x => SumYZ(h, x, ry, rz),
      region.x.min, region.x.max);
  }

  lemma SumOverSame(f: Point -> int, g: Point -> int, region: Cuboid)
    requires forall p :: Inside(p, region) ==> f(p) == g(p)
    ensures SumOver(f, region) == SumOver(g, region)
  {
    var ry, rz := region.y, region.z;
    forall x, y | InRange(x, region.x) && InRange(y, ry)
      ensures SumZ(f, x, y, rz) == SumZ(g, x, y, rz)
    {
      assert forall z :: InRange(z, rz) ==> Inside(Point(x, y, z), region);
      SumSame(z => f(Point(x, y, z)), z => g(Point(x, y, z)), rz.min, rz.max);
    }
    forall x | InRange(x, region.x)
      ensures SumYZ(f, x, ry, rz) == SumYZ(g, x, ry, rz)
    {
      SumSame(y => SumZ(f, x, y, rz), y => SumZ(g, x, y, rz), ry.min, ry.max);
    }
    SumSame(x => SumYZ(f, x, ry, rz), x => SumYZ(g, x, ry, rz), region.x.min, region.x.max);
  }

  /** Summing `k` over a cuboid inside the region and 0 elsewhere gives `k` times its volume. */
  lemma SumOverBlock(f: Point -> int, c: Cuboid, k: int, region: Cuboid)
    requires Valid(c) && Contained(c, region)
    requires forall p :: Inside(p, region) ==> f(p) == if Inside(p, c) then k else 0
    ensures SumOver(f, region) == k * Volume(c)
  {
    var ry, rz := region.y, region.z;
    var kz := k * Count(c.z);
    var kyz := kz * Count(c.y);
    forall x, y | InRange(x, region.x) && InRange(y, ry)
      ensures SumZ(f, x, y, rz) == if InRange(x, c.x) && InRange(y, c.y) then kz else 0
    {
      assert forall z :: InRange(z, rz) ==> Inside(Point(x, y, z), region);
      if InRange(x, c.x) && InRange(y, c.y) {
        SumBlock(z => f(Point(x, y, z)), c.z, k, rz.min, rz.max);
      } else {
        SumZero(z => f(Point(x, y, z)), rz.min, rz.max);
      }
    }
    forall x | InRange(x, region.x)
      ensures SumYZ(f, x, ry, rz) == if InRange(x, c.x) then kyz else 0
    {
      if InRange(x, c.x) {
        SumBlock(y => SumZ(f, x, y, rz), c.y, kz, ry.min, ry.max);
      } else {
        SumZero(y => SumZ(f, x, y, rz), ry.min, ry.max);
      }
    }
    SumBlock(x => SumYZ(f, x, ry, rz), c.x, kyz, region.x.min, region.x.max);
    Rearrange(k, Count(c.x), Count(c.y), Count(c.z));
  }

  lemma Rearrange(k: int, a: int, b: int, c: int)
    ensures k * c * b * a == k * (a * b * c)
  {
  }

  /** The number of cubes of `region` that the steps `cs` leave on. */
  function LitCount(cs: seq<Cuboid>, region: Cuboid): int
  {
    SumOver(p => if Lit(cs, p) then 1 else 0, region)
  }

  /** Entries that are scored cuboids within the region. */
  predicate Within(cs: seq<Cuboid>, region: Cuboid)
  {
    forall i :: 0 <= i < |cs| ==> Scored(cs[i]) && Contained(cs[i], region)
  }

  lemma {:induction false} FlippedWithin(visited: seq<Cuboid>, c: Cuboid, region: Cuboid)
    requires AllValid(visited) && Valid(c) && Contained(c, region)
    ensures Within(Flipped(visited, c), region)
  {
    if visited != [] {
      FlippedWithin(visited[..|visited| - 1], c, region);
    }
  }

  /** Every entry of the list is a scored cuboid within a region holding every step. */
  lemma {:induction false} LightsWithin(cs: seq<Cuboid>, limit: Option<Cuboid>, region: Cuboid)
    requires ValidLimit(limit) && Within(cs, region)
    ensures Within(Lights(cs, limit), region)
  {
    if cs != [] {
      var c := cs[|cs| - 1];
      LightsWithin(cs[..|cs| - 1], limit, region);
      if Taken(c, limit) {
        FlippedWithin(Lights(cs[..|cs| - 1], limit), c, region);
      }
    }
  }

  /** The signed volumes of the entries add up to their weights summed over the region. */
  lemma {:induction false} SumOverWeight(lights: seq<Cuboid>, region: Cuboid)
    requires Within(lights, region)
    ensures SumOver(p => Weight(lights, p), region) == OnScore(lights) - OffScore(lights)
  {
    if lights == [] {
      SumOverZero(p => Weight(lights, p), region);
    } else {
      var init, last := lights[..|lights| - 1], lights[|lights| - 1];
      SumOverWeight(init, region);
      SumOverAdd(p => Weight(init, p), p => if Inside(p, last) then Sign(last) else 0,
        p => Weight(lights, p), region);
      SumOverBlock(p => if Inside(p, last) then Sign(last) else 0, last, Sign(last), region);
    }
  }

  lemma SumOverZero(f: Point -> int, region: Cuboid)
    requires forall p :: f(p) == 0
    ensures SumOver(f, region) == 0
  {
    var ry, rz := region.y, region.z;
    forall x, y ensures SumZ(f, x, y, rz) == 0 {
      SumZero(z => f(Point(x, y, z)), rz.min, rz.max);
    }
    forall x ensures SumYZ(f, x, ry, rz) == 0 {
      SumZero(y => SumZ(f, x, y, rz), ry.min, ry.max);
    }
    SumZero(x => SumYZ(f, x, ry, rz), region.x.min, region.x.max);
  }

  /**
   * `count_cubes` counts the cubes the taken steps leave on, in any region
   * holding every step.
   */
  lemma TotalCounts(cs: seq<Cuboid>, limit: Option<Cuboid>, region: Cuboid)
    requires ValidLimit(limit) && Within(cs, region)
    ensures Total(cs, limit) == LitCount(TakenSteps(cs, limit), region)
  {
    var lights := Lights(cs, limit);
    LightsWithin(cs, limit, region);
    SumOverWeight(lights, region);
    var taken := TakenSteps(cs, limit);
    forall p ensures Weight(lights, p) == if Lit(taken, p) then 1 else 0 {
      LightsWeight(cs, limit, p);
    }
    SumOverSame(p => Weight(lights, p), p => if Lit(taken, p) then 1 else 0, region);
  }

  // ---------------------------------------------------------------------
  // The two parts
  // ---------------------------------------------------------------------

  /** Part 1: `count_cubes` with the limit -50..50 on every axis. */
  function Part1(cs: seq<Cuboid>): int
    requires AllValid(cs)
  {
    Total(cs, Some(Limit))
  }

  /** Part 2: `count_cubes` with no limit. */
  function Part2(cs: seq<Cuboid>): int
    requires AllValid(cs)
  {
    Total(cs, None)
  }

  /** Part 2 is the number of cubes left on, counted in any region that holds every step. */
  lemma Part2Counts(cs: seq<Cuboid>, region: Cuboid)
    requires Within(cs, region)
    ensures Part2(cs) == LitCount(cs, region)
  {
    TotalCounts(cs, None, region);
    AllTaken(cs);
  }

  /**
   * Part 1 counts every cube of each step that touches the limit, inside
   * it or not: the steps touching it, counted over a region that holds them.
   */
  lemma Part1Counts(cs: seq<Cuboid>, region: Cuboid)
    requires Within(cs, region)
    ensures Part1(cs) == LitCount(TakenSteps(cs, Some(Limit)), region)
  {
    TotalCounts(cs, Some(Limit), region);
  }

  /** Each step cut down to the region; those missing it dropped. */
  function Clip(cs: seq<Cuboid>, region: Cuboid): (r: seq<Cuboid>)
    requires AllValid(cs) && Valid(region)
    ensures Within(r, region)
  {
    if cs == [] then []
    else
      var c := cs[|cs| - 1];
      match Overlap(c, region)
      case Some(o) => Clip(cs[..|cs| - 1], region) + [o.(on := c.on)]
      case None => Clip(cs[..|cs| - 1], region)
  }

  /** Inside the region the cut-down steps leave the same cubes on. */
  lemma {:induction false} ClipLit(cs: seq<Cuboid>, region: Cuboid, p: Point)
    requires AllValid(cs) && Valid(region) && Inside(p, region)
    ensures Lit(Clip(cs, region), p) == Lit(cs, p)
  {
    if cs != [] {
      var init, c := cs[..|cs| - 1], cs[|cs| - 1];
      ClipLit(init, region, p);
      OverlapPoints(c, region);
      match Overlap(c, region)
      case Some(o) =>
        var clipped := Clip(init, region) + [o.(on := c.on)];
        assert clipped[..|clipped| - 1] == Clip(init, region);
      case None =>
        assert !Inside(p, c);
    }
  }

  /** Part 1 as the puzzle asks it: only the cubes inside the limit. */
  function Part1Clipped(cs: seq<Cuboid>): int
    requires AllValid(cs)
  {
    Total(Clip(cs, Limit), None)
  }

  /** Cutting the steps down to a region first counts exactly the cubes inside it left on. */
  lemma ClippedCounts(cs: seq<Cuboid>, region: Cuboid)
    requires AllValid(cs) && Valid(region)
    ensures Total(Clip(cs, region), None) == LitCount(cs, region)
  {
    var clipped := Clip(cs, region);
    Part2Counts(clipped, region);
    forall p | Inside(p, region) ensures (if Lit(clipped, p) then 1 else 0) == (if Lit(cs, p) then 1 else 0) {
      ClipLit(cs, region, p);
    }
    SumOverSame(p => if Lit(clipped, p) then 1 else 0, p => if Lit(cs, p) then 1 else 0, region);
  }

  /** Cutting the steps down to the limit first counts exactly the cubes inside it left on. */
  lemma Part1ClippedCounts(cs: seq<Cuboid>)
    requires AllValid(cs)
    ensures Part1Clipped(cs) == LitCount(cs, Limit)
  {
    ClippedCounts(cs, Limit);
  }

  /** The step of the example below. */
  const Reaching: Cuboid := Cuboid(true, Range(50, 51), Range(0, 0), Range(0, 0), 2)

  /** Its part inside the limit. */
  const ReachingInside: Cuboid := Cuboid(true, Range(50, 50), Range(0, 0), Range(0, 0), 1)

  lemma ReachingTaken()
    ensures Part1([Reaching]) == 2
  {
    assert [Reaching][..0] == [];
    assert Lights([Reaching], Some(Limit)) == [Reaching];
    assert OnScore([Reaching]) == 2 && OffScore([Reaching]) == 0;
  }

  lemma ReachingClipped()
    ensures Clip([Reaching], Limit) == [ReachingInside]
  {
    assert [Reaching][..0] == [];
  }

  lemma ReachingInsideCount()
    ensures Total([ReachingInside], None) == 1
  {
    assert [ReachingInside][..0] == [];
    assert Lights([ReachingInside], None) == [ReachingInside];
    assert OnScore([ReachingInside]) == 1 && OffScore([ReachingInside]) == 0;
  }

  /**
   * One step reaching one cube past the limit: part 1 counts both of its
   * cubes, although only one of them lies inside the limit.
   */
  lemma Part1CountsOutside()
    ensures Part1([Reaching]) == 2 && LitCount([Reaching], Limit) == 1
  {
    ReachingTaken();
    ReachingClipped();
    ReachingInsideCount();
    ClippedCounts([Reaching], Limit);
  }
}
