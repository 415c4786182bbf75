/**
 * Day 18, Snailfish: a snailfish number is a pair whose halves are regular
 * numbers or pairs. Adding two numbers pairs them up and then reduces the
 * result: repeatedly explode the leftmost pair nested inside four pairs
 * (its left value goes to the nearest regular number on its left, its right
 * value to the nearest on its right, and the pair becomes 0); if none
 * explodes, split the leftmost regular number of 10 or more into a pair of
 * its halves, rounding down on the left and up on the right; stop when
 * neither applies. The magnitude of a pair is three times the left half's
 * plus twice the right half's. Part 1 is the magnitude of the sum of the
 * list, part 2 the greatest magnitude of a sum of any two of its numbers.
 */
module Snailfish {
  import opened Options
  import opened Text

  /** `Element`: a regular number, or a pair (the source's two-element vector) of elements. */
  datatype Element = Value(v: nat) | Pair(x: Element, y: Element)

  /** `Explosion`: the exploded pair's values, and whether each has been added to a neighbour yet. */
  datatype Explosion = Explosion(x: nat, y: nat, left: Option<nat>, right: Option<nat>)

  // ---------------------------------------------------------------------
  // The regular numbers of an element, left to right
  // ---------------------------------------------------------------------

  function Leaves(e: Element): (s: seq<nat>)
    ensures |s| >= 1
  {
    match e
    case Value(v) => [v]
    case Pair(x, y) => Leaves(x) + Leaves(y)
  }

  /** The number `v` added to the first entry of `s`, if there is one. */
  function AddFirst(s: seq<nat>, v: nat): seq<nat>
  {
    if s == [] then [] else [s[0] + v] + s[1..]
  }

  /** The number `v` added to the last entry of `s`, if there is one. */
  function AddLast(s: seq<nat>, v: nat): seq<nat>
  {
    if s == [] then [] else s[..|s| - 1] + [s[|s| - 1] + v]
  }

  /** How deeply pairs nest in an element: 0 for a regular number. */
  function Height(e: Element): nat
  {
    match e
    case Value(_) => 0
    case Pair(x, y) => 1 + if Height(x) >= Height(y) then Height(x) else Height(y)
  }

  // ---------------------------------------------------------------------
  // get_left, add_left, get_right, add_right
  // ---------------------------------------------------------------------

  /** `get_left`: the leftmost regular number. */
  function GetLeft(e: Element): nat
  {
    match e
    case Value(v) => v
    case Pair(x, _) => GetLeft(x)
  }

  /** `add_left`: `val` added to the leftmost regular number. */
  function AddLeft(e: Element, val: nat): Element
  {
    match e
    case Value(v) => Value(v + val)
    case Pair(x, y) => Pair(AddLeft(x, val), y)
  }

  /** `get_right`: the rightmost regular number. */
  function GetRight(e: Element): nat
  {
    match e
    case Value(v) => v
    case Pair(_, y) => GetRight(y)
  }

  /** `add_right`: `val` added to the rightmost regular number. */
  function AddRight(e: Element, val: nat): Element
  {
    match e
    case Value(v) => Value(v + val)
    case Pair(x, y) => Pair(x, AddRight(y, val))
  }

  /** `get_left` and `get_right` read the first and the last regular number. */
  lemma {:induction false} GetEnds(e: Element)
    ensures GetLeft(e) == Leaves(e)[0]
    ensures GetRight(e) == Leaves(e)[|Leaves(e)| - 1]
  {
    match e
    case Value(_) =>
    case Pair(x, y) =>
      GetEnds(x);
      GetEnds(y);
  }

  /** `add_left` changes the first regular number and no other, and keeps the nesting. */
  lemma {:induction false} AddLeftLeaves(e: Element, val: nat)
    ensures Leaves(AddLeft(e, val)) == AddFirst(Leaves(e), val)
    ensures Height(AddLeft(e, val)) == Height(e)
  {
    match e
    case Value(_) =>
    case Pair(x, y) =>
      AddLeftLeaves(x, val);
      AddFirstAppend(Leaves(x), Leaves(y), val);
  }

  lemma AddFirstAppend(s: seq<nat>, t: seq<nat>, v: nat)
    requires |s| >= 1
    ensures AddFirst(s + t, v) == AddFirst(s, v) + t
  {
    assert (s + t)[1..] == s[1..] + t;
  }

  lemma AddLastAppend(s: seq<nat>, t: seq<nat>, v: nat)
    requires |t| >= 1
    ensures AddLast(s + t, v) == s + AddLast(t, v)
  {
    assert (s + t)[..|s + t| - 1] == s + t[..|t| - 1];
  }

  /** `add_right` changes the last regular number and no other, and keeps the nesting. */
  lemma {:induction false} AddRightLeaves(e: Element, val: nat)
    ensures Leaves(AddRight(e, val)) == AddLast(Leaves(e), val)
    ensures Height(AddRight(e, val)) == Height(e)
  {
    match e
    case Value(_) =>
    case Pair(x, y) =>
      AddRightLeaves(y, val);
      AddLastAppend(Leaves(x), Leaves(y), val);
  }

  // ---------------------------------------------------------------------
  // explode
  // ---------------------------------------------------------------------

  /**
   * `Element::explode` at `depth`: the element afterwards and, if a pair
   * exploded inside it, the explosion. A pair at depth 4 becomes 0; the
   * left half is tried before the right, and a value not yet given to a
   * neighbour goes to the nearest regular number of the other half.
   */
  function Explode(e: Element, depth: nat): (Element, Option<Explosion>)
  {
    match e
    case Value(_) => (e, None)
    case Pair(x, y) =>
      if depth == 4 then (Value(0), Some(Explosion(GetLeft(e), GetRight(e), None, None)))
      else
        var (x', ex) := Explode(x, depth + 1);
        if ex.Some? then
          if ex.value.right.None? then (Pair(x', AddLeft(y, ex.value.y)), Some(ex.value.(right := Some(GetLeft(y)))))
          else (Pair(x', y), ex)
        else
          var (y', ey) := Explode(y, depth + 1);
          if ey.Some? then
            if ey.value.left.None? then (Pair(AddRight(x', ey.value.x), y'), Some(ey.value.(left := Some(GetRight(x')))))
            else (Pair(x', y'), ey)
          else (Pair(x', y'), None)
  }

  /** Nothing explodes exactly when no pair is nested four deep, and then nothing changes. */
  lemma {:induction false} ExplodeNone(e: Element, depth: nat)
    requires depth <= 4
    ensures Explode(e, depth).1.None? <==> depth + Height(e) <= 4
    ensures Explode(e, depth).1.None? ==> Explode(e, depth).0 == e
  {
    match e
    case Value(_) =>
    case Pair(x, y) =>
      if depth < 4 {
        ExplodeNone(x, depth + 1);
        ExplodeNone(y, depth + 1);
      }
  }

  /** The element found by following `path` down from `e`, `false` for the left half. */
  function At(e: Element, path: seq<bool>): Option<Element>
  {
    if path == [] then Some(e)
    else
      match e
      case Value(_) => None
      case Pair(x, y) => At(if path[0] then y else x, path[1..])
  }

  /** The regular numbers left of the place `path` leads to. */
  function Before(e: Element, path: seq<bool>): seq<nat>
  {
    if path == [] then []
    else
      match e
      case Value(_) => []
      case Pair(x, y) => if path[0] then Leaves(x) + Before(y, path[1..]) else Before(x, path[1..])
  }

  /** The regular numbers right of the place `path` leads to. */
  function After(e: Element, path: seq<bool>): seq<nat>
  {
    if path == [] then []
    else
      match e
      case Value(_) => []
      case Pair(x, y) => if path[0] then After(y, path[1..]) else After(x, path[1..]) + Leaves(y)
  }

  /** `p` comes before `q` left to right: at the first place they part, `p` goes left. */
  predicate LeftOf(p: seq<bool>, q: seq<bool>)
  {
    exists k :: 0 <= k < |p| && k < |q| && p[..k] == q[..k] && !p[k] && q[k]
  }

  /** A pair sits where `path` leads. */
  predicate PairAt(e: Element, path: seq<bool>)
  {
    At(e, path).Some? && At(e, path).value.Pair?
  }

  /** The regular numbers of `e` are those before the place `path` leads to, those there, and those after. */
  lemma {:induction false} LeavesAround(e: Element, path: seq<bool>)
    requires At(e, path).Some?
    ensures Leaves(e) == Before(e, path) + Leaves(At(e, path).value) + After(e, path)
    decreases |path|
  {
    if path != [] {
      match e
      case Pair(x, y) =>
        LeavesAround(if path[0] then y else x, path[1..]);
    }
  }

  /** A pair `|path|` steps down makes the nesting deeper than `|path|`. */
  lemma {:induction false} PairAtHeight(e: Element, path: seq<bool>)
    requires PairAt(e, path)
    ensures Height(e) > |path|
    decreases |path|
  {
    if path != [] {
      match e
      case Pair(x, y) =>
        PairAtHeight(if path[0] then y else x, path[1..]);
    }
  }

  /** Where `Explode` finds the pair it explodes. */
  ghost function ExplodePath(e: Element, depth: nat): seq<bool>
  {
    match e
    case Value(_) => []
    case Pair(x, y) =>
      if depth == 4 then []
      else if Explode(x, depth + 1).1.Some? then [false] + ExplodePath(x, depth + 1)
      else [true] + ExplodePath(y, depth + 1)
  }

  /** An exploding pair sits four pairs deep, and no pair that deep comes before it. */
  lemma {:induction false} ExplodeLeftmost(e: Element, depth: nat)
    requires depth <= 4 && Explode(e, depth).1.Some?
    ensures |ExplodePath(e, depth)| == 4 - depth && PairAt(e, ExplodePath(e, depth))
    ensures forall q :: |q| == 4 - depth && LeftOf(q, ExplodePath(e, depth)) ==> !PairAt(e, q)
  {
    match e
    case Pair(x, y) =>
      if depth < 4 {
        var path := ExplodePath(e, depth);
        if Explode(x, depth + 1).1.Some? {
          ExplodeLeftmost(x, depth + 1);
          forall q | |q| == 4 - depth && LeftOf(q, path) ensures !PairAt(e, q) {
            LeftOfTail(q, path);
          }
        } else {
          ExplodeNone(x, depth + 1);
          ExplodeLeftmost(y, depth + 1);
          forall q | |q| == 4 - depth && LeftOf(q, path) ensures !PairAt(e, q) {
            if !q[0] {
              if PairAt(x, q[1..]) {
                PairAtHeight(x, q[1..]);
              }
            } else {
              LeftOfTail(q, path);
            }
          }
        }
      }
  }

  /** Paths that start alike part where their tails part. */
  lemma LeftOfTail(q: seq<bool>, p: seq<bool>)
    requires LeftOf(q, p) && |q| > 0 && |p| > 0
    ensures q[0] == p[0] ==> LeftOf(q[1..], p[1..])
    ensures q[0] != p[0] ==> !q[0] && p[0]
  {
    var k :| 0 <= k < |q| && k < |p| && q[..k] == p[..k] && !q[k] && p[k];
    if k > 0 {
      assert q[0] == q[..k][0] == p[..k][0] == p[0];
      assert q[1..][..k - 1] == q[1..k] == p[1..k] == p[1..][..k - 1];
    }
  }

  /** Following a path one step down into a pair. */
  lemma PathStep(x: Element, y: Element, b: bool, p: seq<bool>)
    ensures At(Pair(x, y), [b] + p) == At(if b then y else x, p)
    ensures Before(Pair(x, y), [b] + p) == if b then Leaves(x) + Before(y, p) else Before(x, p)
    ensures After(Pair(x, y), [b] + p) == if b then After(y, p) else After(x, p) + Leaves(y)
  {
    assert ([b] + p)[1..] == p;
  }

  /**
   * The explosion carries the exploded pair's outer regular numbers, and
   * `left` and `right` are still unset exactly when `e` holds no regular
   * number on that side of it.
   */
  lemma {:induction false} ExplodeParts(e: Element, depth: nat)
    requires depth <= 4 && Explode(e, depth).1.Some?
    ensures At(e, ExplodePath(e, depth)).Some?
    ensures Explode(e, depth).1.value.x == GetLeft(At(e, ExplodePath(e, depth)).value)
    ensures Explode(e, depth).1.value.y == GetRight(At(e, ExplodePath(e, depth)).value)
    ensures Explode(e, depth).1.value.left.None? <==> Before(e, ExplodePath(e, depth)) == []
    ensures Explode(e, depth).1.value.right.None? <==> After(e, ExplodePath(e, depth)) == []
  {
    match e
    case Pair(x, y) =>
      if depth < 4 {
        if Explode(x, depth + 1).1.Some? {
          ExplodeParts(x, depth + 1);
          PathStep(x, y, false, ExplodePath(x, depth + 1));
        } else {
          ExplodeNone(x, depth + 1);
          ExplodeParts(y, depth + 1);
          PathStep(x, y, true, ExplodePath(y, depth + 1));
        }
      }
  }

  /**
   * The regular numbers `before` and `after` a pair with `x` added to the
   * nearest one on its left, `y` to the nearest one on its right, and a 0
   * in between: the leaves after the pair has exploded.
   */
  function Exploded(before: seq<nat>, x: nat, after: seq<nat>, y: nat): seq<nat>
  {
    AddLast(before, x) + [0] + AddFirst(after, y)
  }

  lemma Assoc(a: seq<nat>, b: seq<nat>, c: seq<nat>)
    ensures a + (b + c) == (a + b) + c
  {
  }

  /** Numbers left of the explosion that it does not reach. */
  lemma ExplodedPrefix(s: seq<nat>, before: seq<nat>, x: nat, after: seq<nat>, y: nat)
    requires before != []
    ensures s + Exploded(before, x, after, y) == Exploded(s + before, x, after, y)
  {
    var last := AddLast(before, x);
    AddLastAppend(s, before, x);
    Assoc(s, last, [0]);
    Assoc(s, last + [0], AddFirst(after, y));
  }

  /** The nearest number left of the explosion. */
  lemma ExplodedPrefixEmpty(s: seq<nat>, x: nat, after: seq<nat>, y: nat)
    ensures AddLast(s, x) + Exploded([], x, after, y) == Exploded(s, x, after, y)
  {
  }

  /** Numbers right of the explosion that it does not reach. */
  lemma ExplodedSuffix(before: seq<nat>, x: nat, after: seq<nat>, y: nat, s: seq<nat>)
    requires after != []
    ensures Exploded(before, x, after, y) + s == Exploded(before, x, after + s, y)
  {
    AddFirstAppend(after, s, y);
    Assoc(AddLast(before, x) + [0], AddFirst(after, y), s);
  }

  /** The nearest number right of the explosion. */
  lemma ExplodedSuffixEmpty(before: seq<nat>, x: nat, y: nat, s: seq<nat>)
    ensures Exploded(before, x, [], y) + AddFirst(s, y) == Exploded(before, x, s, y)
  {
  }

  /**
   * What an explosion does to the regular numbers: the exploded pair's
   * numbers give way to a single 0, its left value is added to the nearest
   * regular number on its left and its right value to the nearest on its
   * right.
   */
  lemma {:induction false} ExplodeLeaves(e: Element, depth: nat)
    requires depth <= 4 && Explode(e, depth).1.Some?
    ensures Leaves(Explode(e, depth).0)
         == Exploded(Before(e, ExplodePath(e, depth)), Explode(e, depth).1.value.x,
                     After(e, ExplodePath(e, depth)), Explode(e, depth).1.value.y)
    decreases e, 1
  {
    match e
    case Pair(x, y) =>
      if depth < 4 {
        if Explode(x, depth + 1).1.Some? {
          ExplodeLeftLeaves(x, y, depth);
        } else {
          ExplodeRightLeaves(x, y, depth);
        }
      }
  }

  lemma {:induction false} ExplodeLeftLeaves(x: Element, y: Element, depth: nat)
    requires depth < 4 && Explode(x, depth + 1).1.Some?
    ensures Leaves(Explode(Pair(x, y), depth).0)
         == Exploded(Before(Pair(x, y), ExplodePath(Pair(x, y), depth)), Explode(Pair(x, y), depth).1.value.x,
                     After(Pair(x, y), ExplodePath(Pair(x, y), depth)), Explode(Pair(x, y), depth).1.value.y)
    decreases Pair(x, y), 0
  {
    var px := ExplodePath(x, depth + 1);
    var ex := Explode(x, depth + 1).1.value;
    var x' := Explode(x, depth + 1).0;
    var r := Explode(Pair(x, y), depth);
    ExplodeLeaves(x, depth + 1);
    ExplodeParts(x, depth + 1);
    PathStep(x, y, false, px);
    assert r.1.value.x == ex.x && r.1.value.y == ex.y;
    if ex.right.None? {
      assert r.0 == Pair(x', AddLeft(y, ex.y));
      AddLeftLeaves(y, ex.y);
      ExplodedSuffixEmpty(Before(x, px), ex.x, ex.y, Leaves(y));
      assert After(x, px) + Leaves(y) == Leaves(y);
    } else {
      assert r.0 == Pair(x', y);
      ExplodedSuffix(Before(x, px), ex.x, After(x, px), ex.y, Leaves(y));
    }
  }

  lemma {:induction false} ExplodeRightLeaves(x: Element, y: Element, depth: nat)
    requires depth < 4 && Explode(x, depth + 1).1.None? && Explode(y, depth + 1).1.Some?
    ensures Leaves(Explode(Pair(x, y), depth).0)
         == Exploded(Before(Pair(x, y), ExplodePath(Pair(x, y), depth)), Explode(Pair(x, y), depth).1.value.x,
                     After(Pair(x, y), ExplodePath(Pair(x, y), depth)), Explode(Pair(x, y), depth).1.value.y)
    decreases Pair(x, y), 0
  {
    var py := ExplodePath(y, depth + 1);
    var ey := Explode(y, depth + 1).1.value;
    var y' := Explode(y, depth + 1).0;
    var r := Explode(Pair(x, y), depth);
    ExplodeNone(x, depth + 1);
    ExplodeLeaves(y, depth + 1);
    ExplodeParts(y, depth + 1);
    PathStep(x, y, true, py);
    assert r.1.value.x == ey.x && r.1.value.y == ey.y;
    if ey.left.None? {
      assert r.0 == Pair(AddRight(x, ey.x), y');
      AddRightLeaves(x, ey.x);
      ExplodedPrefixEmpty(Leaves(x), ey.x, After(y, py), ey.y);
      assert Leaves(x) + Before(y, py) == Leaves(x);
    } else {
      assert r.0 == Pair(x, y');
      ExplodedPrefix(Leaves(x), Before(y, py), ey.x, After(y, py), ey.y);
    }
  }

  // ---------------------------------------------------------------------
  // split
  // ---------------------------------------------------------------------

  /**
   * `Element::split`: the leftmost regular number of 10 or more becomes a
   * pair of its halves, rounded down on the left and up on the right; the
   * flag says whether one was found.
   */
  function Split(e: Element): (Element, bool)
  {
    match e
    case Value(v) =>
      if v >= 10 then
        var x := v / 2;
        (Pair(Value(x), Value(if x * 2 == v then x else x + 1)), true)
      else (e, false)
    case Pair(x, y) =>
      var (x', split) := Split(x);
      if split then (Pair(x', y), true)
      else
        var (y', split') := Split(y);
        (Pair(x', y'), split')
  }

  /** All regular numbers of `e` are below 10. */
  predicate Small(e: Element)
  {
    forall i :: 0 <= i < |Leaves(e)| ==> Leaves(e)[i] < 10
  }

  /** Nothing splits exactly when every regular number is below 10, and then nothing changes. */
  lemma {:induction false} SplitNone(e: Element)
    ensures !Split(e).1 <==> Small(e)
    ensures !Split(e).1 ==> Split(e).0 == e
  {
    match e
    case Value(v) =>
      assert Leaves(e) == [v];
      assert Small(e) <==> v < 10 by {
        assert Leaves(e)[0] == v;
      }
    case Pair(x, y) =>
      SplitNone(x);
      SplitNone(y);
      SmallPair(x, y);
  }

  lemma SmallPair(x: Element, y: Element)
    ensures Small(Pair(x, y)) <==> Small(x) && Small(y)
  {
    var lx, ly := Leaves(x), Leaves(y);
    assert Leaves(Pair(x, y)) == lx + ly;
    assert forall i :: 0 <= i < |ly| ==> ly[i] == (lx + ly)[|lx| + i];
    assert forall i :: 0 <= i < |lx| ==> lx[i] == (lx + ly)[i];
    assert forall i :: 0 <= i < |lx + ly| ==> (lx + ly)[i] == if i < |lx| then lx[i] else ly[i - |lx|];
  }

  /** The number at `k` replaced by its halves, rounded down first and up second. */
  function Halves(l: seq<nat>, k: nat): seq<nat>
    requires k < |l|
  {
    l[..k] + [l[k] / 2, l[k] - l[k] / 2] + l[k + 1..]
  }

  /**
   * A split replaces the first regular number `v` of 10 or more, the one at
   * `k`, by `v / 2` and `v - v / 2`, and keeps every other number.
   */
  lemma {:induction false} SplitLeaves(e: Element) returns (k: nat)
    requires Split(e).1
    ensures k < |Leaves(e)| && Leaves(e)[k] >= 10
    ensures forall j :: 0 <= j < k ==> Leaves(e)[j] < 10
    ensures Leaves(Split(e).0) == Halves(Leaves(e), k)
    decreases e, 1
  {
    match e
    case Value(v) =>
      k := 0;
      assert [v][..0] == [] && [v][1..] == [];
    case Pair(x, y) =>
      if Split(x).1 {
        k := SplitLeavesLeft(x, y);
      } else {
        k := SplitLeavesRight(x, y);
      }
  }

  lemma {:induction false} SplitLeavesLeft(x: Element, y: Element) returns (k: nat)
    requires Split(x).1
    ensures k < |Leaves(Pair(x, y))| && Leaves(Pair(x, y))[k] >= 10
    ensures forall j :: 0 <= j < k ==> Leaves(Pair(x, y))[j] < 10
    ensures Leaves(Split(Pair(x, y)).0) == Halves(Leaves(Pair(x, y)), k)
    decreases Pair(x, y), 0
  {
    k := SplitLeaves(x);
    assert Split(Pair(x, y)).0 == Pair(Split(x).0, y);
    HalvesLeft(Leaves(x), Leaves(y), k);
  }

  lemma {:induction false} SplitLeavesRight(x: Element, y: Element) returns (k: nat)
    requires !Split(x).1 && Split(y).1
    ensures k < |Leaves(Pair(x, y))| && Leaves(Pair(x, y))[k] >= 10
    ensures forall j :: 0 <= j < k ==> Leaves(Pair(x, y))[j] < 10
    ensures Leaves(Split(Pair(x, y)).0) == Halves(Leaves(Pair(x, y)), k)
    decreases Pair(x, y), 0
  {
    SplitNone(x);
    var ky := SplitLeaves(y);
    var lx, ly := Leaves(x), Leaves(y);
    k := |lx| + ky;
    assert Split(Pair(x, y)).0 == Pair(x, Split(y).0);
    assert Leaves(Split(Pair(x, y)).0) == lx + Leaves(Split(y).0);
    HalvesRight(lx, ly, ky);
    SmallPrefix(lx, ly, ky);
  }

  lemma SmallPrefix(lx: seq<nat>, ly: seq<nat>, k: nat)
    requires k <= |ly|
    requires forall j :: 0 <= j < |lx| ==> lx[j] < 10
    requires forall j :: 0 <= j < k ==> ly[j] < 10
    ensures forall j :: 0 <= j < |lx| + k ==> (lx + ly)[j] < 10
  {
    forall j | 0 <= j < |lx| + k
      ensures (lx + ly)[j] < 10
    {
      if j >= |lx| {
        assert (lx + ly)[j] == ly[j - |lx|];
      }
    }
  }

  lemma HalvesLeft(lx: seq<nat>, ly: seq<nat>, k: nat)
    requires k < |lx|
    ensures (lx + ly)[k] == lx[k]
    ensures Halves(lx, k) + ly == Halves(lx + ly, k)
  {
    assert (lx + ly)[k + 1..] == lx[k + 1..] + ly;
    assert (lx + ly)[..k] == lx[..k];
    Assoc(lx[..k] + [lx[k] / 2, lx[k] - lx[k] / 2], lx[k + 1..], ly);
  }

  lemma HalvesRight(lx: seq<nat>, ly: seq<nat>, k: nat)
    requires k < |ly|
    ensures (lx + ly)[|lx| + k] == ly[k]
    ensures lx + Halves(ly, k) == Halves(lx + ly, |lx| + k)
  {
    var mid := [ly[k] / 2, ly[k] - ly[k] / 2];
    assert (lx + ly)[|lx| + k + 1..] == ly[k + 1..];
    assert (lx + ly)[..|lx| + k] == lx + ly[..k];
    Assoc(lx, ly[..k] + mid, ly[k + 1..]);
    Assoc(lx, ly[..k], mid);
  }

  /** A split keeps the total of the regular numbers. */
  lemma SplitTotal(e: Element)
    ensures Total(Leaves(Split(e).0)) == Total(Leaves(e))
  {
    if Split(e).1 {
      var k := SplitLeaves(e);
      TotalReplace(Leaves(e), k, Leaves(e)[k] / 2, Leaves(e)[k] - Leaves(e)[k] / 2);
      assert Halves(Leaves(e), k) == Leaves(e)[..k] + [Leaves(e)[k] / 2, Leaves(e)[k] - Leaves(e)[k] / 2] + Leaves(e)[k + 1..];
    } else {
      SplitNone(e);
    }
  }

  /** Replacing one number by two with the same sum keeps the total. */
  lemma TotalReplace(l: seq<nat>, k: nat, a: nat, b: nat)
    requires k < |l| && a + b == l[k]
    ensures Total(l[..k] + [a, b] + l[k + 1..]) == Total(l)
  {
    TotalAppend(l[..k] + [l[k]], l[k + 1..]);
    TotalAppend(l[..k], [l[k]]);
    assert l == l[..k] + [l[k]] + l[k + 1..];
    TotalPair(l[..k], l[k + 1..], a, b);
  }

  lemma TotalPair(s: seq<nat>, t: seq<nat>, a: nat, b: nat)
    ensures Total(s + [a, b] + t) == Total(s) + a + b + Total(t)
  {
    TotalAppend(s + [a, b], t);
    TotalAppend(s, [a, b]);
    assert [a, b][..1] == [a];
    assert Total([a, b]) == Total([a]) + b;
  }

  /** The sum of a sequence of numbers. */
  function Total(s: seq<nat>): nat
  {
    if s == [] then 0 else Total(s[..|s| - 1]) + s[|s| - 1]
  }

  lemma {:induction false} TotalAppend(s: seq<nat>, t: seq<nat>)
    ensures Total(s + t) == Total(s) + Total(t)
    decreases |t|
  {
    if t != [] {
      assert (s + t)[..|s + t| - 1] == s + t[..|t| - 1];
      TotalAppend(s, t[..|t| - 1]);
    } else {
      assert s + t == s;
    }
  }

  // ---------------------------------------------------------------------
  // magnitude
  // ---------------------------------------------------------------------

  /** `Element::magnitude`: three times the left half's plus twice the right half's. */
  function Magnitude(e: Element): nat
  {
    match e
    case Value(v) => v
    case Pair(x, y) => 3 * Magnitude(x) + 2 * Magnitude(y)
  }

  function Pow3(n: nat): nat
  {
    if n == 0 then 1 else 3 * Pow3(n - 1)
  }

  /**
   * The magnitude weighs every regular number by at least 1 and at most
   * 3 to the power of the nesting depth.
   */
  lemma {:induction false} MagnitudeBounds(e: Element)
    ensures Total(Leaves(e)) <= Magnitude(e) <= Pow3(Height(e)) * Total(Leaves(e))
  {
    match e
    case Value(_) =>
      assert Total([e.v]) == Total([]) + e.v;
    case Pair(x, y) =>
      MagnitudeBounds(x);
      MagnitudeBounds(y);
      TotalAppend(Leaves(x), Leaves(y));
      var h := Height(e) - 1;
      Pow3Grows(Height(x), h);
      Pow3Grows(Height(y), h);
      Weigh(Magnitude(x), Pow3(Height(x)), Pow3(h), Total(Leaves(x)));
      Weigh(Magnitude(y), Pow3(Height(y)), Pow3(h), Total(Leaves(y)));
      assert Pow3(Height(e)) == 3 * Pow3(h);
      Spread(Pow3(h), Total(Leaves(x)), Total(Leaves(y)));
  }

  lemma {:induction false} Pow3Grows(a: nat, b: nat)
    requires a <= b
    ensures Pow3(a) <= Pow3(b)
    decreases b
  {
    if a < b {
      Pow3Grows(a, b - 1);
    }
  }

  lemma Weigh(m: nat, p: nat, q: nat, t: nat)
    requires m <= p * t && p <= q
    ensures m <= q * t
  {
    assert p * t <= q * t;
  }

  lemma Spread(q: nat, a: nat, b: nat)
    ensures 3 * (q * a) + 2 * (q * b) <= 3 * q * (a + b)
  {
    assert 3 * q * (a + b) == 3 * (q * a) + 3 * (q * b);
  }

  // ---------------------------------------------------------------------
  // The source's struct Pair: a snailfish number
  // ---------------------------------------------------------------------

  /** A snailfish number, the source's `Pair { x, y }`. */
  datatype Number = Number(x: Element, y: Element)

  /** `Pair::to_element`. */
  function ToElement(n: Number): Element
  {
    Pair(n.x, n.y)
  }

  /**
   * `Pair::explode`: explode inside `x` at depth 1, else inside `y`; the
   * value that left a half goes to the nearest regular number of the other
   * half when it found no neighbour in its own.
   */
  function ExplodeNumber(n: Number): (Number, bool)
  {
    var (x', ex) := Explode(n.x, 1);
    if ex.Some? then
      (Number(x', if ex.value.right.None? then AddLeft(n.y, ex.value.y) else n.y), true)
    else
      var (y', ey) := Explode(n.y, 1);
      if ey.Some? then
        (Number(if ey.value.left.None? then AddRight(x', ey.value.x) else x', y'), true)
      else (Number(x', y'), false)
  }

  /** Exploding a number is exploding its element at depth 0. */
  lemma ExplodeNumberElement(n: Number)
    ensures ToElement(ExplodeNumber(n).0) == Explode(ToElement(n), 0).0
    ensures ExplodeNumber(n).1 <==> Explode(ToElement(n), 0).1.Some?
  {
  }

  /** `Pair::split`: split inside `x`, else inside `y`. */
  function SplitNumber(n: Number): (Number, bool)
  {
    var (x', split) := Split(n.x);
    if split then (Number(x', n.y), true)
    else
      var (y', split') := Split(n.y);
      (Number(x', y'), split')
  }

  /** Splitting a number is splitting its element. */
  lemma SplitNumberElement(n: Number)
    ensures ToElement(SplitNumber(n).0) == Split(ToElement(n)).0
    ensures SplitNumber(n).1 == Split(ToElement(n)).1
  {
  }

  /** `Pair::magnitude`. */
  function MagnitudeNumber(n: Number): nat
  {
    3 * Magnitude(n.x) + 2 * Magnitude(n.y)
  }

  /** A number's magnitude is its element's. */
  lemma MagnitudeNumberElement(n: Number)
    ensures MagnitudeNumber(n) == Magnitude(ToElement(n))
  {
  }

  // ---------------------------------------------------------------------
  // Reduction: `while pair.explode() || pair.split() {}`
  // ---------------------------------------------------------------------

  /** One turn of the loop in `add`: explode if anything explodes, otherwise split; `None` once neither applies. */
  function Step(n: Number): Option<Number>
  {
    var (exploded, didExplode) := ExplodeNumber(n);
    if didExplode then Some(exploded)
    else
      var (split, didSplit) := SplitNumber(exploded);
      if didSplit then Some(split) else None
  }

  /** A reduced number: no pair inside four pairs and no regular number of 10 or more. */
  predicate Reduced(n: Number)
  {
    Height(ToElement(n)) <= 4 && Small(ToElement(n))
  }

  /**
   * Explosions come first: a number with a pair nested inside four pairs
   * explodes; one without splits if it can; the loop stops exactly on a
   * reduced number.
   */
  lemma StepCases(n: Number)
    ensures Height(ToElement(n)) > 4 ==> ExplodeNumber(n).1 && Step(n) == Some(ExplodeNumber(n).0)
    ensures Height(ToElement(n)) <= 4 ==> !ExplodeNumber(n).1 && Step(n) == if SplitNumber(n).1 then Some(SplitNumber(n).0) else None
    ensures Step(n).None? <==> Reduced(n)
    ensures !ExplodeNumber(n).1 ==> ExplodeNumber(n).0 == n
    ensures !SplitNumber(n).1 ==> SplitNumber(n).0 == n
  {
    ExplodeNumberElement(n);
    ExplodeNone(ToElement(n), 0);
    SplitNumberElement(n);
    SplitNone(ToElement(n));
  }

  /** The loop in `add`, run for at most `fuel` turns that change the number. */
  function Reduce(n: Number, fuel: nat): Option<Number>
    decreases fuel
  {
    match Step(n)
    case None => Some(n)
    case Some(m) => if fuel == 0 then None else Reduce(m, fuel - 1)
  }

  /** Whatever reduction reaches is reduced. */
  lemma {:induction false} ReduceReduced(n: Number, fuel: nat)
    requires Reduce(n, fuel).Some?
    ensures Reduced(Reduce(n, fuel).value)
    decreases fuel
  {
    StepCases(n);
    if Step(n).Some? {
      ReduceReduced(Step(n).value, fuel - 1);
    }
  }

  /** More fuel changes nothing once reduction has finished. */
  lemma {:induction false} ReduceFuel(n: Number, fuel: nat, more: nat)
    requires Reduce(n, fuel).Some? && fuel <= more
    ensures Reduce(n, more) == Reduce(n, fuel)
    decreases fuel
  {
    if Step(n).Some? {
      ReduceFuel(Step(n).value, fuel - 1, more - 1);
    }
  }

  /** A reduced number is left as it is. */
  lemma ReduceReducedNumber(n: Number, fuel: nat)
    requires Reduced(n)
    ensures Reduce(n, fuel) == Some(n)
  {
    StepCases(n);
  }

  /** The pair `[a,b]` that `add` starts from. */
  function Join(a: Number, b: Number): Number
  {
    Number(ToElement(a), ToElement(b))
  }

  /**
   * `Pair::add`: pair the two numbers up and reduce, giving up after `fuel`
   * turns of the loop that change the number.
   */
  method Add(a: Number, b: Number, fuel: nat) returns (r: Option<Number>)
    ensures r == Reduce(Join(a, b), fuel)
    ensures r.Some? ==> Reduced(r.value)
  {
    var pair := Join(a, b);
    var left := fuel;
    while true
      invariant Reduce(pair, left) == Reduce(Join(a, b), fuel)
      decreases left
    {
      StepCases(pair);
      var exploded;
      pair, exploded := ExplodeNumber(pair).0, ExplodeNumber(pair).1;
      if !exploded {
        var split;
        pair, split := SplitNumber(pair).0, SplitNumber(pair).1;
        if !split {
          ReduceReduced(Join(a, b), fuel);
          return Some(pair);
        }
      }
      if left == 0 {
        return None;
      }
      left := left - 1;
    }
  }

  // ---------------------------------------------------------------------
  // Pair::new and parse
  // ---------------------------------------------------------------------

  /** An element written the way the puzzle input writes it. */
  function Show(e: Element): string
  {
    match e
    case Value(v) => Digits(v)
    case Pair(x, y) => "[" + Show(x) + "," + Show(y) + "]"
  }

  function ShowNumber(n: Number): string
  {
    Show(ToElement(n))
  }

  /** Opening minus closing brackets in `s`: the count `opens` that `Pair::new` keeps. */
  function Depth(s: string): int
  {
    if s == [] then 0
    else Depth(s[..|s| - 1]) + (if s[|s| - 1] == '[' then 1 else if s[|s| - 1] == ']' then -1 else 0)
  }

  lemma {:induction false} DepthAppend(a: string, b: string)
    ensures Depth(a + b) == Depth(a) + Depth(b)
    decreases |b|
  {
    if b == [] {
      assert a + b == a;
    } else {
      assert (a + b)[..|a + b| - 1] == a + b[..|b| - 1];
      DepthAppend(a, b[..|b| - 1]);
    }
  }

  lemma {:induction false} DepthDigits(s: string)
    requires AllDigits(s)
    ensures Depth(s) == 0
    decreases |s|
  {
    if s != [] {
      DepthDigits(s[..|s| - 1]);
    }
  }

  /** The brackets of a shown element balance. */
  lemma {:induction false} ShowBalanced(e: Element)
    ensures Depth(Show(e)) == 0
  {
    match e
    case Value(v) =>
      DepthDigits(Digits(v));
    case Pair(x, y) =>
      ShowBalanced(x);
      ShowBalanced(y);
      DepthAppend("[" + Show(x) + "," + Show(y), "]");
      DepthAppend("[" + Show(x) + ",", Show(y));
      DepthAppend("[" + Show(x), ",");
      DepthAppend("[", Show(x));
  }

  /** Every comma of a shown element sits inside at least one bracket. */
  lemma {:induction false} CommaDepth(e: Element, j: nat)
    requires j < |Show(e)|
    ensures Show(e)[j] == ',' ==> Depth(Show(e)[..j]) >= 1
  {
    match e
    case Value(v) =>
      assert IsDigit(Digits(v)[j]);
    case Pair(x, y) =>
      var sx, sy := Show(x), Show(y);
      var s := Show(e);
      assert s == "[" + sx + "," + sy + "]";
      if j == 0 {
        assert s[0] == '[';
      } else if j <= |sx| {
        assert s[j] == sx[j - 1];
        CommaDepth(x, j - 1);
        assert s[..j] == "[" + sx[..j - 1];
        DepthAppend("[", sx[..j - 1]);
      } else if j == |sx| + 1 {
        assert s[..j] == "[" + sx;
        DepthAppend("[", sx);
        ShowBalanced(x);
      } else if j < |sx| + 2 + |sy| {
        var k := j - |sx| - 2;
        assert s[j] == sy[k];
        CommaDepth(y, k);
        assert s[..j] == "[" + sx + "," + sy[..k];
        DepthAppend("[" + sx + ",", sy[..k]);
        DepthAppend("[" + sx, ",");
        DepthAppend("[", sx);
        ShowBalanced(x);
      } else {
        assert s[j] == ']';
      }
  }

  /** A small element shows as one character exactly when it is a regular number. */
  lemma ShowSingle(e: Element)
    requires Small(e)
    ensures |Show(e)| == 1 <==> e.Value?
    ensures e.Value? ==> IsDigit(Show(e)[0]) && DigitValue(Show(e)[0]) == e.v
  {
    match e
    case Value(v) =>
      assert Leaves(e)[0] == v;
    case Pair(x, y) =>
  }

  /** The left and right halves of a small pair are small. */
  lemma SmallHalves(n: Number)
    requires Small(ToElement(n))
    ensures Small(n.x) && Small(n.y)
    ensures n.x.Pair? ==> Small(ToElement(Number(n.x.x, n.x.y)))
    ensures n.y.Pair? ==> Small(ToElement(Number(n.y.x, n.y.y)))
  {
    SmallPair(n.x, n.y);
  }

  /** Every comma of `s` sits inside at least one bracket opened in `s`. */
  predicate CommasNested(s: string)
  {
    forall k :: 0 <= k < |s| && s[k] == ',' ==> Depth(s[..k]) >= 1
  }

  /** A shown number is a bracket, its left half, a comma, its right half and a bracket. */
  lemma ShowHalves(p: Number)
    ensures |ShowNumber(p)| >= 1 && ShowNumber(p)[1..] == Show(p.x) + [','] + (Show(p.y) + "]")
  {
  }

  /** The brackets of the left half balance, and the commas of both halves are nested. */
  lemma ShowNested(p: Number)
    ensures Depth(Show(p.x)) == 0 && CommasNested(Show(p.x)) && CommasNested(Show(p.y) + "]")
  {
    var sy := Show(p.y);
    ShowBalanced(p.x);
    forall k | 0 <= k < |Show(p.x)| ensures Show(p.x)[k] == ',' ==> Depth(Show(p.x)[..k]) >= 1 {
      CommaDepth(p.x, k);
    }
    forall k | 0 <= k < |sy + "]"| ensures (sy + "]")[k] == ',' ==> Depth((sy + "]")[..k]) >= 1 {
      if k < |sy| {
        assert (sy + "]")[..k] == sy[..k];
        CommaDepth(p.y, k);
      }
    }
  }

  /**
   * The first pass of `Pair::new`: scan the line after its opening bracket,
   * counting brackets in `opens`; the comma met with no bracket open ends
   * the left half, and the closing bracket is dropped from the right half.
   */
  method Halve(line: string, ghost p: Number) returns (left: string, right: string)
    requires line == ShowNumber(p)
    ensures left == Show(p.x) && right == Show(p.y)
  {
    ShowHalves(p);
    var rest := line[1..];
    var opens := 0;
    var read: string := [];
    left := [];
    for i := 0 to |rest|
      invariant Scanned(p, i, opens, read, left)
    {
      opens, read, left := ReadChar(p, i, rest[i], opens, read, left);
    }
    assert read == Show(p.y) + "]";
    right := read[..|read| - 1];
  }

  /**
   * The state of the first pass after `i` characters of the line's rest: in
   * the left half `read` holds what has been read of it; past the middle
   * comma `left` holds the left half and `read` what has been read since.
   */
  ghost predicate Scanned(p: Number, i: nat, opens: int, read: string, left: string)
  {
    i <= |Show(p.x)| + |Show(p.y)| + 2
    && opens == Depth(read)
    && (i <= |Show(p.x)| ==> left == [] && read == Show(p.x)[..i])
    && (i > |Show(p.x)| ==> left == Show(p.x) && read == (Show(p.y) + "]")[..i - |Show(p.x)| - 1])
  }

  /** One character of the first pass of `Pair::new`. */
  method ReadChar(ghost p: Number, i: nat, c: char, opens: int, read: string, left: string)
    returns (opens': int, read': string, left': string)
    requires i < |Show(p.x) + [','] + (Show(p.y) + "]")| && c == (Show(p.x) + [','] + (Show(p.y) + "]"))[i]
    requires Scanned(p, i, opens, read, left)
    ensures Scanned(p, i + 1, opens', read', left')
  {
    HalveStep(p, i, read, c);
    opens', read', left' := opens, read + [c], left;
    if c == '[' {
      opens' := opens + 1;
    } else if c == ']' {
      opens' := opens - 1;
    } else if c == ',' && opens == 0 {
      read' := read'[..|read'| - 1];
      left' := read';
      read' := [];
    }
  }

  /** One character of the first pass: the comma closes the left half exactly when it is the middle one. */
  lemma HalveStep(p: Number, i: nat, read: string, c: char)
    requires i < |Show(p.x) + [','] + (Show(p.y) + "]")| && c == (Show(p.x) + [','] + (Show(p.y) + "]"))[i]
    requires i <= |Show(p.x)| ==> read == Show(p.x)[..i]
    requires i > |Show(p.x)| ==> read == (Show(p.y) + "]")[..i - |Show(p.x)| - 1]
    ensures Depth(read + [c]) == Depth(read) + (if c == '[' then 1 else if c == ']' then -1 else 0)
    ensures c == ',' && Depth(read) == 0 <==> i == |Show(p.x)|
    ensures i < |Show(p.x)| ==> read + [c] == Show(p.x)[..i + 1]
    ensures i == |Show(p.x)| ==> read == Show(p.x)
    ensures i > |Show(p.x)| ==> read + [c] == (Show(p.y) + "]")[..i - |Show(p.x)|]
  {
    var sx, tail := Show(p.x), Show(p.y) + "]";
    ShowNested(p);
    DepthPush(read, c);
    if i < |sx| {
      assert c == sx[i];
      PushNested(sx, i, read, c);
    } else if i == |sx| {
      assert c == ',';
      assert sx[..i] == sx;
    } else {
      assert c == tail[i - |sx| - 1];
      PushNested(tail, i - |sx| - 1, read, c);
    }
  }

  lemma PushNested(s: string, k: nat, read: string, c: char)
    requires CommasNested(s) && k < |s| && c == s[k] && read == s[..k]
    ensures c == ',' ==> Depth(read) >= 1
    ensures read + [c] == s[..k + 1]
  {
    assert s[k] == ',' ==> Depth(s[..k]) >= 1;
    assert s[..k + 1] == s[..k] + [c];
  }

  /** Pushing a character onto `read` moves `opens` as `Pair::new` does. */
  lemma DepthPush(read: string, c: char)
    ensures Depth(read + [c]) == Depth(read) + (if c == '[' then 1 else if c == ']' then -1 else 0)
  {
    assert (read + [c])[..|read|] == read;
  }

  /**
   * `Pair::new`: split the line into its halves; a half of one character is
   * a regular number, a longer one is read the same way. Reading a shown
   * number gives the number back.
   */
  method New(line: string, ghost p: Number) returns (n: Number)
    requires line == ShowNumber(p) && Small(ToElement(p))
    ensures n == p
    decreases |line|
  {
    var left, right := Halve(line, p);
    SmallHalves(p);
    ShowSingle(p.x);
    ShowSingle(p.y);
    var x, y;
    if |left| == 1 {
      x := Value(DigitValue(left[0]));
    } else {
      var pair := New(left, Number(p.x.x, p.x.y));
      x := Pair(pair.x, pair.y);
    }
    if |right| == 1 {
      y := Value(DigitValue(right[0]));
    } else {
      var pair := New(right, Number(p.y.x, p.y.y));
      y := Pair(pair.x, pair.y);
    }
    n := Number(x, y);
  }

  /** `parse`: every line read by `Pair::new`. */
  method Parse(lines: seq<string>, ghost ps: seq<Number>) returns (numbers: seq<Number>)
    requires |lines| == |ps|
    requires forall i :: 0 <= i < |ps| ==> lines[i] == ShowNumber(ps[i]) && Small(ToElement(ps[i]))
    ensures numbers == ps
  {
    numbers := [];
    for i := 0 to |lines|
      invariant numbers == ps[..i]
    {
      var n := New(lines[i], ps[i]);
      numbers := numbers + [n];
    }
  }

  // ---------------------------------------------------------------------
  // The two answers
  // ---------------------------------------------------------------------

  /** Part 1's `reduce`: add the numbers up left to right, each sum reduced with at most `fuel` turns. */
  function SumAll(ps: seq<Number>, fuel: nat): Option<Number>
    requires |ps| >= 1
  {
    if |ps| == 1 then Some(ps[0])
    else
      match SumAll(ps[..|ps| - 1], fuel)
      case None => None
      case Some(acc) => Reduce(Join(acc, ps[|ps| - 1]), fuel)
  }

  /** A sum of two or more numbers is reduced. */
  lemma SumAllReduced(ps: seq<Number>, fuel: nat)
    requires |ps| >= 2 && SumAll(ps, fuel).Some?
    ensures Reduced(SumAll(ps, fuel).value)
  {
    ReduceReduced(Join(SumAll(ps[..|ps| - 1], fuel).value, ps[|ps| - 1]), fuel);
  }

  /** The sum of the list, folding `add` over it as part 1 does. */
  method SumList(ps: seq<Number>, fuel: nat) returns (r: Option<Number>)
    requires |ps| >= 1
    ensures r == SumAll(ps, fuel)
  {
    r := Some(ps[0]);
    for k := 1 to |ps|
      invariant r == SumAll(ps[..k], fuel)
    {
      assert ps[..k + 1][..k] == ps[..k];
      if r.Some? {
        r := Add(r.value, ps[k], fuel);
      }
    }
    assert ps[..|ps|] == ps;
  }

  /** The magnitude of the sum of `a` and `b`, if reduction finishes within `fuel` turns. */
  function SumMagnitude(a: Number, b: Number, fuel: nat): Option<nat>
  {
    match Reduce(Join(a, b), fuel)
    case None => None
    case Some(r) => Some(MagnitudeNumber(r))
  }

  /** Every sum of two of the numbers (a number with itself included) finishes within `fuel` turns. */
  predicate Finishes(ps: seq<Number>, fuel: nat)
  {
    forall i, j :: 0 <= i < |ps| && 0 <= j < |ps| ==> SumMagnitude(ps[i], ps[j], fuel).Some?
  }

  /** The greatest magnitude of `a.add(q)` for `q` in `qs`: the inner `map(...).max()` of part 2. */
  method LargestRow(a: Number, qs: seq<Number>, fuel: nat) returns (m: Option<nat>)
    requires |qs| >= 1
    ensures m.Some? <==> forall j :: 0 <= j < |qs| ==> SumMagnitude(a, qs[j], fuel).Some?
    ensures m.Some? ==> forall j :: 0 <= j < |qs| ==> SumMagnitude(a, qs[j], fuel).value <= m.value
    ensures m.Some? ==> exists j :: 0 <= j < |qs| && SumMagnitude(a, qs[j], fuel) == m
  {
    var row := 0;
    ghost var rj := 0;
    for j := 0 to |qs|
      invariant forall j' :: 0 <= j' < j ==>
        SumMagnitude(a, qs[j'], fuel).Some? && SumMagnitude(a, qs[j'], fuel).value <= row
      invariant j > 0 ==> rj < j && SumMagnitude(a, qs[rj], fuel) == Some(row)
    {
      var r := Add(a, qs[j], fuel);
      if r.None? {
        assert SumMagnitude(a, qs[j], fuel).None?;
        return None;
      }
      var magnitude := MagnitudeNumber(r.value);
      if j == 0 || magnitude > row {
        row, rj := magnitude, j;
      }
    }
    m := Some(row);
    assert SumMagnitude(a, qs[rj], fuel) == m;
  }

  /**
   * Part 2: the greatest magnitude of `p1.add(p2)` over all numbers `p1` and
   * `p2` of the list, `p1` and `p2` the same number included.
   */
  method LargestSum(ps: seq<Number>, fuel: nat) returns (m: Option<nat>)
    requires |ps| >= 1
    ensures m.Some? <==> Finishes(ps, fuel)
    ensures m.Some? ==> forall i, j :: 0 <= i < |ps| && 0 <= j < |ps| ==> SumMagnitude(ps[i], ps[j], fuel).value <= m.value
    ensures m.Some? ==> exists i, j :: 0 <= i < |ps| && 0 <= j < |ps| && SumMagnitude(ps[i], ps[j], fuel) == m
  {
    var best := 0;
    ghost var bi, bj := 0, 0;
    for i := 0 to |ps|
      invariant forall i', j :: 0 <= i' < i && 0 <= j < |ps| ==>
        SumMagnitude(ps[i'], ps[j], fuel).Some? && SumMagnitude(ps[i'], ps[j], fuel).value <= best
      invariant i > 0 ==> bi < i && bj < |ps| && SumMagnitude(ps[bi], ps[bj], fuel) == Some(best)
    {
      var row := LargestRow(ps[i], ps, fuel);
      if row.None? {
        var j :| 0 <= j < |ps| && SumMagnitude(ps[i], ps[j], fuel).None?;
        return None;
      }
      if i == 0 || row.value > best {
        var j :| 0 <= j < |ps| && SumMagnitude(ps[i], ps[j], fuel) == row;
        best, bi, bj := row.value, i, j;
      }
    }
    m := Some(best);
    assert SumMagnitude(ps[bi], ps[bj], fuel) == m;
  }
}

