/**
 * Day 11, Dumbo Octopus: a 10 by 10 grid of energy levels, stored row by
 * row in one vector. Each step every level goes up by one; a level reaching
 * 10 flashes, which raises its eight neighbours and can set them off in
 * turn; flashed octopuses go back to 0. Part 1 counts the flashes of the
 * first 100 steps, part 2 finds the first step at which all flash together.
 */
module DumboOctopus {
  import opened Options
  import opened Text

  /** The grid is hard-coded as 10 by 10: cell `pos` is row `pos / 10`, column `pos % 10`. */
  const Size: nat := 100

  // ---------------------------------------------------------------------
  // parse
  // ---------------------------------------------------------------------

  predicate DigitLines(lines: seq<string>)
  {
    forall i :: 0 <= i < |lines| ==> AllDigits(lines[i])
  }

  function DigitRow(line: string): (row: seq<nat>)
    requires AllDigits(line)
    ensures |row| == |line| && forall x :: 0 <= x < |row| ==> row[x] == DigitValue(line[x])
  {
    if line == [] then [] else [DigitValue(line[0])] + DigitRow(line[1..])
  }

  /** `parse`: the digits of all lines, one after the other (`to_digit(10).unwrap()` panics on anything else). */
  function Parse(lines: seq<string>): (levels: seq<nat>)
    requires DigitLines(lines)
    ensures forall k :: 0 <= k < |levels| ==> levels[k] <= 9
  {
    if lines == [] then [] else Parse(lines[..|lines| - 1]) + DigitRow(lines[|lines| - 1])
  }

  /** Ten lines of ten digits give the grid in the layout `get_adjacents` assumes. */
  lemma {:induction false} ParseGrid(lines: seq<string>)
    requires DigitLines(lines) && |lines| <= 10
    requires forall y :: 0 <= y < |lines| ==> |lines[y]| == 10
    ensures |Parse(lines)| == 10 * |lines|
    ensures forall y, x :: 0 <= y < |lines| && 0 <= x < 10 ==> Parse(lines)[10 * y + x] == DigitValue(lines[y][x])
  {
    if lines != [] {
      var front := lines[..|lines| - 1];
      ParseGrid(front);
      assert forall y :: 0 <= y < |front| ==> front[y] == lines[y];
    }
  }

  // ---------------------------------------------------------------------
  // get_adjacents
  // ---------------------------------------------------------------------

  /** `q` is one of the eight cells around `p`, within the grid and without wrapping across rows. */
  predicate Adjacent(p: nat, q: nat)
  {
    p < Size && q < Size && p != q
    && -1 <= q / 10 - p / 10 <= 1 && -1 <= q % 10 - p % 10 <= 1
  }

  predicate Distinct(s: seq<nat>)
  {
    forall i, j :: 0 <= i < j < |s| ==> s[i] != s[j]
  }

  predicate Increasing(s: seq<int>)
  {
    forall i, j :: 0 <= i < j < |s| ==> s[i] < s[j]
  }

  /** The eight directions of `get_adjacents`, top left to bottom right, as offsets. */
  function Offset(d: nat): int
    requires d < 8
  {
    match d
    case 0 => -11
    case 1 => -10
    case 2 => -9
    case 3 => -1
    case 4 => 1
    case 5 => 9
    case 6 => 10
    case 7 => 11
  }

  /** The guard under which `get_adjacents` pushes direction `d`. */
  predicate HasNeighbour(pos: nat, d: nat)
    requires d < 8
  {
    match d
    case 0 => pos >= 11 && pos % 10 > 0
    case 1 => pos >= 10
    case 2 => pos >= 10 && pos % 10 < 9
    case 3 => pos % 10 > 0
    case 4 => pos % 10 < 9
    case 5 => pos <= 89 && pos % 10 > 0
    case 6 => pos <= 89
    case 7 => pos <= 88 && pos % 10 < 9
  }

  /** What `get_adjacents` has pushed after the first `n` directions. */
  function Pushed(pos: nat, n: nat): seq<int>
    requires pos < Size && n <= 8
  {
    if n == 0 then []
    else if HasNeighbour(pos, n - 1) then Pushed(pos, n - 1) + [pos + Offset(n - 1)]
    else Pushed(pos, n - 1)
  }

  lemma {:induction false} PushedIncreasing(pos: nat, n: nat)
    requires pos < Size && n <= 8
    ensures Increasing(Pushed(pos, n)) && |Pushed(pos, n)| <= n
    ensures n < 8 ==> forall k :: 0 <= k < |Pushed(pos, n)| ==> Pushed(pos, n)[k] < pos + Offset(n)
  {
    if n > 0 {
      PushedIncreasing(pos, n - 1);
    }
  }

  lemma {:induction false} PushedMembers(pos: nat, n: nat, q: nat)
    requires pos < Size && n <= 8
    ensures q in Pushed(pos, n) <==> exists d :: 0 <= d < n && HasNeighbour(pos, d) && q == pos + Offset(d)
  {
    if n > 0 {
      PushedMembers(pos, n - 1, q);
    }
  }

  lemma AdjacentDirection(pos: nat, q: nat)
    requires pos < Size
    ensures Adjacent(pos, q) <==> exists d :: 0 <= d < 8 && HasNeighbour(pos, d) && q == pos + Offset(d)
  {
    var r, c, r', c' := pos / 10, pos % 10, q / 10, q % 10;
    assert pos == 10 * r + c && q == 10 * r' + c';
    if Adjacent(pos, q) {
      var d := if q < pos - 10 then 0 else if q == pos - 10 then 1 else if q < pos - 1 then 2 else if q == pos - 1 then 3
        else if q == pos + 1 then 4 else if q < pos + 10 then 5 else if q == pos + 10 then 6 else 7;
      assert HasNeighbour(pos, d) && q == pos + Offset(d);
    }
  }

  /** `get_adjacents`: pushes the neighbours that exist, top left to bottom right. */
  method GetAdjacents(pos: nat) returns (adjacents: seq<nat>)
    requires pos < Size
    ensures forall q :: q in adjacents <==> Adjacent(pos, q)
    ensures Distinct(adjacents) && |adjacents| <= 8
  {
    adjacents := [];
    if pos >= 11 && (pos % 10 > 0) {
      var neighbour: nat := pos - 11;
      adjacents := adjacents + [neighbour];
    }
    assert adjacents == Pushed(pos, 1);
    if pos >= 10 {
      var neighbour: nat := pos - 10;
      adjacents := adjacents + [neighbour];
    }
    assert adjacents == Pushed(pos, 2);
    if pos >= 10 && (pos % 10 < 9) {
      var neighbour: nat := pos - 9;
      adjacents := adjacents + [neighbour];
    }
    assert adjacents == Pushed(pos, 3);
    if pos % 10 > 0 {
      var neighbour: nat := pos - 1;
      adjacents := adjacents + [neighbour];
    }
    assert adjacents == Pushed(pos, 4);
    if pos % 10 < 9 {
      var neighbour: nat := pos + 1;
      adjacents := adjacents + [neighbour];
    }
    assert adjacents == Pushed(pos, 5);
    if pos <= 89 && (pos % 10 > 0) {
      var neighbour: nat := pos + 9;
      adjacents := adjacents + [neighbour];
    }
    assert adjacents == Pushed(pos, 6);
    if pos <= 89 {
      var neighbour: nat := pos + 10;
      adjacents := adjacents + [neighbour];
    }
    assert adjacents == Pushed(pos, 7);
    if pos <= 88 && (pos % 10 < 9) {
      var neighbour: nat := pos + 11;
      adjacents := adjacents + [neighbour];
    }
    assert adjacents == Pushed(pos, 8);
    PushedAdjacent(pos, adjacents);
  }

  lemma PushedAdjacent(pos: nat, s: seq<nat>)
    requires pos < Size && s == Pushed(pos, 8)
    ensures forall q :: q in s <==> Adjacent(pos, q)
    ensures Distinct(s) && |s| <= 8
  {
    PushedIncreasing(pos, 8);
    forall q ensures q in s <==> Adjacent(pos, q) {
      PushedMembers(pos, 8, q);
      AdjacentDirection(pos, q);
    }
  }

  // ---------------------------------------------------------------------
  // flash
  // ---------------------------------------------------------------------

  /** How many of the cells in `s` are neighbours of `i`. */
  function NeighboursIn(s: seq<nat>, i: nat): nat
  {
    if s == [] then 0 else (if Adjacent(s[0], i) then 1 else 0) + NeighboursIn(s[1..], i)
  }

  lemma {:induction false} NeighboursAppend(s: seq<nat>, t: seq<nat>, i: nat)
    ensures NeighboursIn(s + t, i) == NeighboursIn(s, i) + NeighboursIn(t, i)
  {
    if s != [] {
      assert (s + t)[1..] == s[1..] + t;
      NeighboursAppend(s[1..], t, i);
    } else {
      assert s + t == t;
    }
  }

  /**
   * The cells that have flashed so far in this step, in order: distinct,
   * within the grid, and all at 10 or more.
   */
  predicate Flashed(levels: seq<nat>, order: seq<nat>)
  {
    Distinct(order)
    && forall k :: 0 <= k < |order| ==> order[k] < |levels| && levels[order[k]] >= 10
  }

  ghost function Unflashed(order: seq<nat>): set<nat>
  {
    set i: nat | i < Size && i !in order
  }

  /**
   * From `start`, every cell has gone up once if it is in `done`, and once
   * for every neighbour among the flashes `order[from..]`.
   */
  predicate Raised(levels: seq<nat>, start: seq<nat>, done: seq<nat>, order: seq<nat>, from: nat)
  {
    |levels| == Size && |start| == Size && from <= |order|
    && forall i :: 0 <= i < Size ==>
         levels[i] == start[i] + (if i in done then 1 else 0) + NeighboursIn(order[from..], i)
  }

  /** Every cell at 10 or more that has not flashed was already there in `start`. */
  predicate HotFlashed(levels: seq<nat>, start: seq<nat>, order: seq<nat>)
  {
    |levels| == Size && |start| == Size
    && forall i :: 0 <= i < Size && levels[i] >= 10 && i !in order ==> start[i] >= 10
  }

  /** The flashes from index `from` on were cells below 10 in `start`. */
  predicate WereCold(start: seq<nat>, order: seq<nat>, from: nat)
  {
    |start| == Size
    && forall k :: from <= k < |order| ==> order[k] < Size && start[order[k]] < 10
  }

  /**
   * The flashes from index `from` on came in cascade order: each reached 10
   * from `start` with the help of the flashes between `from` and itself alone.
   */
  predicate Cascade(start: seq<nat>, order: seq<nat>, from: nat)
  {
    |start| == Size && from <= |order|
    && forall k :: from <= k < |order| ==> order[k] < Size && start[order[k]] + NeighboursIn(order[from..k], order[k]) >= 10
  }

  /**
   * Flashes in cascade order from `mid`, where `mid` has gone up by no more
   * than the earlier flashes `before[from..]`, are in cascade order from `start`.
   */
  lemma CascadeCompose(start: seq<nat>, mid: seq<nat>, before: seq<nat>, after: seq<nat>, from: nat)
    requires Cascade(start, before, from) && |before| <= |after| && after[..|before|] == before
    requires Cascade(mid, after, |before|)
    requires forall i :: 0 <= i < Size ==> mid[i] <= start[i] + NeighboursIn(before[from..], i)
    ensures Cascade(start, after, from)
  {
    forall k | from <= k < |after|
      ensures after[k] < Size && start[after[k]] + NeighboursIn(after[from..k], after[k]) >= 10
    {
      if k < |before| {
        assert after[k] == before[k] && after[from..k] == before[from..k];
      } else {
        assert after[from..k] == before[from..] + after[|before|..k];
        NeighboursAppend(before[from..], after[|before|..k], after[k]);
      }
    }
  }

  /** Raising the neighbour `q` once more. */
  lemma RaiseOne(levels: seq<nat>, levels': seq<nat>, start: seq<nat>, done: seq<nat>, order: seq<nat>, from: nat, q: nat)
    requires Raised(levels, start, done, order, from) && q < Size && q !in done
    requires levels' == levels[q := levels[q] + 1]
    ensures Raised(levels', start, done + [q], order, from)
  {
  }

  /** A nested flash that raised `mid` to `now` composes with what was raised before it. */
  lemma {:induction false} AfterNested(start: seq<nat>, mid: seq<nat>, now: seq<nat>,
                                       done: seq<nat>, before: seq<nat>, after: seq<nat>, from: nat)
    requires Raised(mid, start, done, before, from)
    requires Raised(now, mid, [], after, |before|) && after[..|before|] == before
    ensures Raised(now, start, done, after, from)
  {
    forall i | 0 <= i < Size
      ensures NeighboursIn(after[from..], i) == NeighboursIn(before[from..], i) + NeighboursIn(after[|before|..], i)
    {
      assert after[from..] == before[from..] + after[|before|..];
      NeighboursAppend(before[from..], after[|before|..], i);
    }
  }

  lemma HotAfterNested(start: seq<nat>, raised: seq<nat>, q: nat, now: seq<nat>, before: seq<nat>, after: seq<nat>)
    requires HotFlashed(raised, start, before) && q < Size
    requires HotFlashed(now, raised[q := raised[q] + 1], after)
    requires |before| < |after| && after[..|before|] == before && after[|before|] == q
    ensures HotFlashed(now, start, after)
  {
    assert forall k :: 0 <= k < |before| ==> after[k] == before[k];
  }

  lemma ColdAfterNested(start: seq<nat>, mid: seq<nat>, before: seq<nat>, after: seq<nat>, from: nat)
    requires WereCold(start, before, from) && |before| < |after| && after[..|before|] == before
    requires after[|before|] < Size && start[after[|before|]] < 10
    requires WereCold(mid, after, |before| + 1)
    requires |start| == Size && forall i :: 0 <= i < Size ==> start[i] <= mid[i]
    ensures WereCold(start, after, from)
  {
    forall k | from <= k < |after| ensures after[k] < Size && start[after[k]] < 10 {
      if k < |before| {
        assert after[k] == before[k];
      }
    }
  }

  /** What the loop of `flash(pos)` keeps, with `done` the neighbours raised so far. */
  predicate FlashLoop(levels: seq<nat>, start: seq<nat>, done: seq<nat>, order: seq<nat>, order': seq<nat>, pos: nat)
  {
    |order'| > |order| && order'[..|order|] == order && order'[|order|] == pos
    && Flashed(levels, order') && Raised(levels, start, done, order', |order| + 1)
    && HotFlashed(levels, start, order') && WereCold(start, order', |order| + 1)
    && Cascade(start, order', |order|) && forall x :: x in done ==> Adjacent(pos, x)
  }

  /** Raising a neighbour that does not reach 10. */
  lemma FlashQuiet(raised: seq<nat>, now: seq<nat>, start: seq<nat>, done: seq<nat>,
                   order: seq<nat>, order': seq<nat>, pos: nat, q: nat)
    requires FlashLoop(raised, start, done, order, order', pos) && Adjacent(pos, q) && q !in done
    requires now == raised[q := raised[q] + 1] && now[q] != 10
    ensures FlashLoop(now, start, done + [q], order, order', pos)
  {
    RaiseOne(raised, now, start, done, order', |order| + 1, q);
  }

  /** The flashes of a nested `flash` continue the cascade of `flash(pos)`. */
  lemma CascadeNested(raised: seq<nat>, start: seq<nat>, done: seq<nat>,
                      order: seq<nat>, before: seq<nat>, after: seq<nat>, pos: nat, q: nat)
    requires Raised(raised, start, done, before, |order| + 1) && Cascade(start, before, |order|)
    requires |before| > |order| && before[|order|] == pos
    requires (forall x :: x in done ==> Adjacent(pos, x)) && Adjacent(pos, q) && q !in done
    requires |after| > |before| && after[..|before|] == before
    requires Cascade(raised[q := raised[q] + 1], after, |before|)
    ensures Cascade(start, after, |order|)
  {
    var mid := raised[q := raised[q] + 1];
    forall i | 0 <= i < Size ensures mid[i] <= start[i] + NeighboursIn(before[|order|..], i) {
      assert before[|order|..] == [pos] + before[|order| + 1..];
    }
    CascadeCompose(start, mid, before, after, |order|);
  }

  /** Raising a neighbour to 10, and the nested `flash` that follows. */
  lemma FlashNested(raised: seq<nat>, now: seq<nat>, start: seq<nat>, done: seq<nat>,
                    order: seq<nat>, before: seq<nat>, after: seq<nat>, pos: nat, q: nat)
    requires FlashLoop(raised, start, done, order, before, pos) && Adjacent(pos, q) && q !in done
    requires raised[q] + 1 == 10
    requires |after| > |before| && after[..|before|] == before && after[|before|] == q
    requires Flashed(now, after) && Raised(now, raised[q := 10], [], after, |before|)
    requires HotFlashed(now, raised[q := 10], after) && WereCold(raised[q := 10], after, |before| + 1)
    requires Cascade(raised[q := 10], after, |before|)
    ensures FlashLoop(now, start, done + [q], order, after, pos)
  {
    var mid := raised[q := 10];
    CascadeNested(raised, start, done, order, before, after, pos, q);
    RaiseOne(raised, mid, start, done, before, |order| + 1, q);
    AfterNested(start, mid, now, done + [q], before, after, |order| + 1);
    HotAfterNested(start, raised, q, now, before, after);
    ColdAfterNested(start, mid, before, after, |order| + 1);
    assert after[..|order|] == before[..|order|];
  }

  /** A neighbour raised to 10 has not flashed yet, and `pos` has: the nested `flash` may start. */
  lemma FlashReady(raised: seq<nat>, start: seq<nat>, done: seq<nat>, order: seq<nat>, order': seq<nat>, pos: nat, q: nat)
    requires FlashLoop(raised, start, done, order, order', pos) && q < Size && raised[q] + 1 == 10
    ensures Flashed(raised[q := 10], order') && q !in order'
    ensures Unflashed(order') < Unflashed(order)
  {
    assert forall k :: 0 <= k < |order| ==> order'[k] == order[k];
    assert pos in Unflashed(order) && pos !in Unflashed(order');
  }

  /** Before the loop of `flash(pos)`: `pos` alone has flashed and nothing has been raised. */
  lemma FlashStart(start: seq<nat>, order: seq<nat>, pos: nat)
    requires |start| == Size && pos < Size && Flashed(start, order) && pos !in order && start[pos] >= 10
    ensures FlashLoop(start, start, [], order, order + [pos], pos)
  {
    var order' := order + [pos];
    assert order'[|order|..|order|] == [];
    assert order'[|order| + 1..] == [];
  }

  /** After the loop of `flash(pos)`: every neighbour has been raised once by `pos`. */
  lemma FlashDone(levels: seq<nat>, start: seq<nat>, adjacents: seq<nat>, order: seq<nat>, order': seq<nat>, pos: nat)
    requires FlashLoop(levels, start, adjacents, order, order', pos)
    requires pos < Size && forall q :: q in adjacents <==> Adjacent(pos, q)
    ensures Flashed(levels, order') && Raised(levels, start, [], order', |order|)
    ensures HotFlashed(levels, start, order') && WereCold(start, order', |order| + 1)
    ensures Cascade(start, order', |order|)
  {
    forall i | 0 <= i < Size
      ensures NeighboursIn(order'[|order|..], i)
              == (if Adjacent(pos, i) then 1 else 0) + NeighboursIn(order'[|order| + 1..], i)
    {
      assert order'[|order|..][1..] == order'[|order| + 1..];
    }
  }

  /**
   * `flash`: raise every neighbour of `pos` by one, and flash a neighbour
   * exactly when it reaches 10. The ghost `order` records the flashes; that
   * `pos` is not in it yet is what makes every cell flash at most once.
   */
  method Flash(levels: array<nat>, pos: nat, ghost order: seq<nat>) returns (ghost order': seq<nat>)
    requires levels.Length == Size && pos < Size
    requires Flashed(levels[..], order) && pos !in order && levels[pos] >= 10
    modifies levels
    ensures |order'| > |order| && order'[..|order|] == order && order'[|order|] == pos
    ensures Flashed(levels[..], order')
    ensures Raised(levels[..], old(levels[..]), [], order', |order|)
    ensures HotFlashed(levels[..], old(levels[..]), order')
    ensures WereCold(old(levels[..]), order', |order| + 1)
    ensures Cascade(old(levels[..]), order', |order|)
    decreases Unflashed(order)
  {
    order' := order + [pos];
    var adjacents := GetAdjacents(pos);
    ghost var start := levels[..];
    FlashStart(start, order, pos);
    for j := 0 to |adjacents|
      invariant FlashLoop(levels[..], start, adjacents[..j], order, order', pos)
    {
      var q := adjacents[j];
      assert Adjacent(pos, q);
      assert q in adjacents && q !in adjacents[..j];
      assert adjacents[..j + 1] == adjacents[..j] + [q];
      ghost var raised := levels[..];
      levels[q] := levels[q] + 1;
      if levels[q] == 10 {
        ghost var before := order';
        FlashReady(raised, start, adjacents[..j], order, order', pos, q);
        assert levels[..] == raised[q := 10];
        order' := Flash(levels, q, order');
        FlashNested(raised, levels[..], start, adjacents[..j], order, before, order', pos, q);
      } else {
        FlashQuiet(raised, levels[..], start, adjacents[..j], order, order', pos, q);
      }
    }
    assert adjacents[..|adjacents|] == adjacents;
    FlashDone(levels[..], start, adjacents, order, order', pos);
  }

  // ---------------------------------------------------------------------
  // process_step
  // ---------------------------------------------------------------------

  /** How many entries are 0: the source's `filter(|&x| *x == 0).count()`. */
  function Zeros(s: seq<nat>): nat
  {
    if s == [] then 0 else Zeros(s[..|s| - 1]) + (if s[|s| - 1] == 0 then 1 else 0)
  }

  /**
   * One step from `levels` to `next` with the flashes `order`: a cell
   * flashes exactly when its level plus one plus its flashing neighbours
   * reaches 10; it then ends at 0, and every other cell ends at that sum.
   * The flashes come in cascade order, each set off by the ones before it,
   * which makes them the least set with that property (`FlashesLeast`).
   */
  predicate StepOutcome(levels: seq<nat>, next: seq<nat>, order: seq<nat>)
  {
    |levels| == Size && |next| == Size && Distinct(order)
    && (forall k :: 0 <= k < |order| ==> order[k] < Size)
    && (forall i :: 0 <= i < Size ==> next[i] <= 9)
    && (forall i :: 0 <= i < Size ==> (i in order <==> levels[i] + 1 + NeighboursIn(order, i) >= 10))
    && (forall k :: 0 <= k < |order| ==> levels[order[k]] + 1 + NeighboursIn(order[..k], order[k]) >= 10)
    && (forall i :: 0 <= i < Size ==> (next[i] == 0 <==> i in order))
    && (forall i :: 0 <= i < Size && i !in order ==> next[i] == levels[i] + 1 + NeighboursIn(order, i))
    && Zeros(next) == |order|
  }

  predicate Levels(levels: seq<nat>)
  {
    |levels| == Size && forall i :: 0 <= i < Size ==> levels[i] <= 9
  }

  /** The `filter(|&(_, x)| *x == 10)` of `process_step`: the cells at 10, in order. */
  method TenAt(levels: array<nat>) returns (flashers: seq<nat>)
    ensures forall p: nat :: p in flashers <==> p < levels.Length && levels[p] == 10
    ensures forall k :: 0 <= k < |flashers| ==> flashers[k] < levels.Length
    ensures Distinct(flashers)
  {
    flashers := [];
    for i := 0 to levels.Length
      invariant forall p: nat :: p in flashers <==> p < i && levels[p] == 10
      invariant forall k :: 0 <= k < |flashers| ==> flashers[k] < i
      invariant Distinct(flashers)
    {
      if levels[i] == 10 {
        flashers := flashers + [i];
      }
    }
  }

  /** `|set i | i < Size && s[i] == 0|` counted one entry at a time. */
  lemma {:induction false} ZerosCount(s: seq<nat>)
    ensures Zeros(s) == |set i: nat | i < |s| && s[i] == 0|
  {
    if s != [] {
      var front := s[..|s| - 1];
      ZerosCount(front);
      var last := |s| - 1;
      var small := set i: nat | i < |front| && front[i] == 0;
      var all := set i: nat | i < |s| && s[i] == 0;
      if s[last] == 0 {
        assert all == small + {last};
      } else {
        assert all == small;
      }
    }
  }

  function Members(s: seq<nat>): set<nat>
  {
    set k | k in s
  }

  lemma {:induction false} DistinctCard(s: seq<nat>)
    requires Distinct(s)
    ensures |Members(s)| == |s|
  {
    if s != [] {
      var front, last := s[..|s| - 1], s[|s| - 1];
      DistinctCard(front);
      assert s == front + [last];
      assert Members(s) == Members(front) + {last};
    } else {
      assert Members(s) == {};
    }
  }

  /**
   * Between the top-level flashes of `process_step`: the flashes so far
   * raised their neighbours from the incremented levels `plusOne`, and every
   * cell at 10 or more that has not flashed is one of the flashers still to do.
   */
  predicate Pending(octopi: seq<nat>, plusOne: seq<nat>, order: seq<nat>, flashers: seq<nat>, k: nat)
  {
    Flashed(octopi, order) && Raised(octopi, plusOne, [], order, 0)
    && Distinct(flashers) && k <= |flashers|
    && (forall m :: 0 <= m < |flashers| ==> flashers[m] < Size && octopi[flashers[m]] >= 10)
    && (forall m :: k <= m < |flashers| ==> flashers[m] !in order)
    && (forall i :: 0 <= i < Size && octopi[i] >= 10 && i !in order ==> i in flashers[k..])
    && Cascade(plusOne, order, 0)
  }

  /** One top-level `flash(&mut octopi, pos)` keeps `Pending`. */
  lemma PendingStep(mid: seq<nat>, now: seq<nat>, plusOne: seq<nat>, before: seq<nat>, after: seq<nat>,
                    flashers: seq<nat>, k: nat)
    requires Pending(mid, plusOne, before, flashers, k) && k < |flashers|
    requires |before| < |after| && after[..|before|] == before && after[|before|] == flashers[k]
    requires Flashed(now, after) && Raised(now, mid, [], after, |before|)
    requires HotFlashed(now, mid, after) && WereCold(mid, after, |before| + 1)
    requires Cascade(mid, after, |before|)
    ensures Pending(now, plusOne, after, flashers, k + 1)
  {
    assert before[0..] == before;
    CascadeCompose(plusOne, mid, before, after, 0);
    AfterNested(plusOne, mid, now, [], before, after, 0);
    assert after[0..] == after && before[0..] == before;
    assert forall k :: 0 <= k < |before| ==> after[k] == before[k];
    assert flashers[k..] == [flashers[k]] + flashers[k + 1..];
  }

  /** When every flasher is done, resetting the flashed cells gives the step's outcome. */
  lemma PendingDone(levels: seq<nat>, octopi: seq<nat>, plusOne: seq<nat>, order: seq<nat>, flashers: seq<nat>, next: seq<nat>)
    requires Levels(levels) && |plusOne| == Size && forall i :: 0 <= i < Size ==> plusOne[i] == levels[i] + 1
    requires Pending(octopi, plusOne, order, flashers, |flashers|)
    requires |next| == Size && forall i :: 0 <= i < Size ==> next[i] == if octopi[i] >= 10 then 0 else octopi[i]
    ensures StepOutcome(levels, next, order)
  {
    assert order[0..] == order;
    assert forall k :: 0 <= k < |order| ==> order[0..k] == order[..k];
    ZerosCount(next);
    DistinctCard(order);
    assert (set i: nat | i < |next| && next[i] == 0) == Members(order);
  }

  /** `process_step`: add one everywhere, flash the cells at 10, then reset the flashed cells to 0. */
  method ProcessStep(levels: seq<nat>) returns (next: seq<nat>, ghost order: seq<nat>)
    requires Levels(levels)
    ensures StepOutcome(levels, next, order)
  {
    var octopi := new nat[Size](i => if 0 <= i < |levels| then levels[i] + 1 else 0);
    ghost var plusOne := octopi[..];
    var flashers := TenAt(octopi);
    order := [];
    for k := 0 to |flashers|
      invariant Pending(octopi[..], plusOne, order, flashers, k)
    {
      ghost var before, mid := order, octopi[..];
      order := Flash(octopi, flashers[k], order);
      PendingStep(mid, octopi[..], plusOne, before, order, flashers, k);
    }
    next := seq(Size, i requires 0 <= i < Size reads octopi => if octopi[i] >= 10 then 0 else octopi[i]);
    PendingDone(levels, octopi[..], plusOne, order, flashers, next);
  }

  /** Taking the flash at index `j` out of `t`. */
  lemma NeighboursRemove(t: seq<nat>, j: nat, i: nat)
    requires j < |t|
    ensures NeighboursIn(t, i) == NeighboursIn(t[..j] + t[j + 1..], i) + (if Adjacent(t[j], i) then 1 else 0)
  {
    assert t == t[..j] + ([t[j]] + t[j + 1..]);
    NeighboursAppend(t[..j], [t[j]] + t[j + 1..], i);
    NeighboursAppend([t[j]], t[j + 1..], i);
    NeighboursAppend(t[..j], t[j + 1..], i);
  }

  /** More flashes raise a cell at least as much. */
  lemma {:induction false} NeighboursMono(s: seq<nat>, t: seq<nat>, i: nat)
    requires Distinct(s) && Distinct(t) && forall x :: x in s ==> x in t
    ensures NeighboursIn(s, i) <= NeighboursIn(t, i)
    decreases |s|
  {
    if s != [] {
      assert s[0] in s;
      var j :| 0 <= j < |t| && t[j] == s[0];
      var t' := t[..j] + t[j + 1..];
      forall x | x in s[1..] ensures x in t' {
        var at :| 1 <= at < |s| && s[at] == x;
        assert x in s && x != s[0];
        var m :| 0 <= m < |t| && t[m] == x;
        if m < j {
          assert t'[m] == x;
        } else {
          assert t'[m - 1] == x;
        }
      }
      forall a, b | 0 <= a < b < |t'| ensures t'[a] != t'[b] {
        var a' := if a < j then a else a + 1;
        var b' := if b < j then b else b + 1;
        assert t'[a] == t[a'] && t'[b] == t[b'];
      }
      NeighboursMono(s[1..], t', i);
      NeighboursRemove(t, j, i);
    }
  }

  /** The first `k` flashes of a cascade lie in every set closed under the flash rule. */
  lemma {:induction false} CascadeWithin(levels: seq<nat>, order: seq<nat>, other: seq<nat>, k: nat)
    requires |levels| == Size && Distinct(order) && Distinct(other) && k <= |order|
    requires forall m :: 0 <= m < |order| ==> order[m] < Size && levels[order[m]] + 1 + NeighboursIn(order[..m], order[m]) >= 10
    requires forall i :: 0 <= i < Size && levels[i] + 1 + NeighboursIn(other, i) >= 10 ==> i in other
    ensures forall m :: 0 <= m < k ==> order[m] in other
  {
    if k > 0 {
      CascadeWithin(levels, order, other, k - 1);
      var front := order[..k - 1];
      assert forall x :: x in front ==> x in other;
      NeighboursMono(front, other, order[k - 1]);
    }
  }

  /**
   * The flashes of a step are the least set closed under the flash rule: they
   * lie in every list of distinct cells that holds each cell its own level
   * plus one plus its neighbours in that list would take to 10.
   */
  lemma FlashesLeast(levels: seq<nat>, next: seq<nat>, order: seq<nat>, other: seq<nat>)
    requires StepOutcome(levels, next, order) && Distinct(other)
    requires forall i :: 0 <= i < Size && levels[i] + 1 + NeighboursIn(other, i) >= 10 ==> i in other
    ensures forall x :: x in order ==> x in other
  {
    CascadeWithin(levels, order, other, |order|);
  }

  /** A step's outcome and its number of flashes are determined by the levels before it. */
  lemma StepDetermined(levels: seq<nat>, next1: seq<nat>, order1: seq<nat>, next2: seq<nat>, order2: seq<nat>)
    requires StepOutcome(levels, next1, order1) && StepOutcome(levels, next2, order2)
    ensures next1 == next2 && |order1| == |order2|
  {
    FlashesLeast(levels, next1, order1, order2);
    FlashesLeast(levels, next2, order2, order1);
    forall i | 0 <= i < Size ensures next1[i] == next2[i] {
      NeighboursMono(order1, order2, i);
      NeighboursMono(order2, order1, i);
    }
  }

  // ---------------------------------------------------------------------
  // main
  // ---------------------------------------------------------------------

  /** Every level is 0: the loop test `count() != octopi.len()` of part 2 fails. */
  predicate AllZero(levels: seq<nat>)
  {
    Zeros(levels) == |levels|
  }

  /** The levels after each step, and each step's flashes. */
  predicate Trajectory(history: seq<seq<nat>>, flashes: seq<seq<nat>>)
  {
    |history| == |flashes| + 1
    && forall k :: 0 <= k < |flashes| ==> StepOutcome(history[k], history[k + 1], flashes[k])
  }

  /** Part 1's sum: the zeros after steps 1 to `n`. */
  function ZeroTotal(history: seq<seq<nat>>, n: nat): nat
    requires n < |history|
  {
    if n == 0 then 0 else ZeroTotal(history, n - 1) + Zeros(history[n])
  }

  /** The number of flashes in the first `n` steps. */
  function FlashTotal(flashes: seq<seq<nat>>, n: nat): nat
    requires n <= |flashes|
  {
    if n == 0 then 0 else FlashTotal(flashes, n - 1) + |flashes[n - 1]|
  }

  lemma StepZeros(levels: seq<nat>, next: seq<nat>, order: seq<nat>)
    requires StepOutcome(levels, next, order)
    ensures Zeros(next) == |order|
  {
  }

  /** Counting zeros after each step counts the flashes. */
  lemma {:induction false} ZerosAreFlashes(history: seq<seq<nat>>, flashes: seq<seq<nat>>, n: nat)
    requires ZerosCounted(history, flashes) && n <= |flashes|
    ensures ZeroTotal(history, n) == FlashTotal(flashes, n)
  {
    if n > 0 {
      ZerosAreFlashes(history, flashes, n - 1);
    }
  }

  /** The levels after every step are determined by the levels at the start. */
  lemma {:induction false} TrajectoryDetermined(history1: seq<seq<nat>>, flashes1: seq<seq<nat>>,
                                                history2: seq<seq<nat>>, flashes2: seq<seq<nat>>, n: nat)
    requires Trajectory(history1, flashes1) && Trajectory(history2, flashes2)
    requires history1[0] == history2[0] && n < |history1| && n < |history2|
    ensures history1[..n + 1] == history2[..n + 1]
  {
    if n > 0 {
      TrajectoryDetermined(history1, flashes1, history2, flashes2, n - 1);
      assert history1[n - 1] == history1[..n][n - 1];
      StepDetermined(history1[n - 1], history1[n], flashes1[n - 1], history2[n], flashes2[n - 1]);
      assert history1[..n + 1] == history1[..n] + [history1[n]];
      assert history2[..n + 1] == history2[..n] + [history2[n]];
    }
  }

  /** After each step, as many cells are at 0 as flashed in it. */
  predicate ZerosCounted(history: seq<seq<nat>>, flashes: seq<seq<nat>>)
  {
    |history| == |flashes| + 1 && forall k :: 0 <= k < |flashes| ==> Zeros(history[k + 1]) == |flashes[k]|
  }

  lemma TrajectoryZeros(history: seq<seq<nat>>, flashes: seq<seq<nat>>)
    requires Trajectory(history, flashes)
    ensures ZerosCounted(history, flashes)
  {
    forall k | 0 <= k < |flashes| ensures Zeros(history[k + 1]) == |flashes[k]| {
      StepZeros(history[k], history[k + 1], flashes[k]);
    }
  }

  /**
   * `main`: part 1 counts the zeros after each of the first 100 steps; part 2
   * goes on from step 100 until every level is 0. The source loops without
   * bound; here at most `fuel` more steps are taken, and `None` means that
   * none of them synchronised.
   */
  method Solve(levels: seq<nat>, fuel: nat)
    returns (part1: nat, part2: Option<nat>, ghost history: seq<seq<nat>>, ghost flashes: seq<seq<nat>>)
    requires Levels(levels)
    ensures Trajectory(history, flashes) && history[0] == levels && |history| > 100
    ensures part1 == ZeroTotal(history, 100) == FlashTotal(flashes, 100)
    ensures part2.Some? ==> part2.value == |history| - 1 && AllZero(history[part2.value])
    ensures part2.None? ==> |history| == 101 + fuel
    ensures forall k :: 100 <= k < |history| - 1 ==> !AllZero(history[k])
    ensures part2.None? ==> !AllZero(history[|history| - 1])
  {
    var octopi := levels;
    history, flashes := [levels], [];
    var flashCount := 0;
    for step := 0 to 100
      invariant Levels(octopi) && Trajectory(history, flashes)
      invariant |history| == step + 1 && history[step] == octopi && history[0] == levels
      invariant flashCount == ZeroTotal(history, step)
    {
      ghost var order;
      octopi, order := ProcessStep(octopi);
      Extend(history, flashes, octopi, order);
      history, flashes := history + [octopi], flashes + [order];
      assert ZeroTotal(history, step) == ZeroTotal(history[..step + 1], step) by {
        SameTotal(history, history[..step + 1], step);
      }
      flashCount := flashCount + Zeros(octopi);
    }
    part1 := flashCount;
    TrajectoryZeros(history, flashes);
    ZerosAreFlashes(history, flashes, 100);
    var steps := 100;
    var left := fuel;
    while Zeros(octopi) != |octopi| && left > 0
      invariant Levels(octopi) && Trajectory(history, flashes)
      invariant |history| == steps + 1 && history[steps] == octopi && history[0] == levels
      invariant steps + left == 100 + fuel
      invariant forall k :: 100 <= k < steps ==> !AllZero(history[k])
      invariant part1 == ZeroTotal(history, 100) == FlashTotal(flashes, 100)
      decreases left
    {
      ghost var order;
      ghost var before := history;
      octopi, order := ProcessStep(octopi);
      Extend(history, flashes, octopi, order);
      history, flashes := history + [octopi], flashes + [order];
      SameTotal(history, before, 100);
      SameFlashTotal(flashes, flashes[..|flashes| - 1], 100);
      steps, left := steps + 1, left - 1;
    }
    part2 := if Zeros(octopi) == |octopi| then Some(steps) else None;
  }

  lemma Extend(history: seq<seq<nat>>, flashes: seq<seq<nat>>, next: seq<nat>, order: seq<nat>)
    requires Trajectory(history, flashes) && StepOutcome(history[|history| - 1], next, order)
    ensures Trajectory(history + [next], flashes + [order])
    ensures (history + [next])[..|history|] == history && (flashes + [order])[..|flashes|] == flashes
  {
    assert forall k :: 0 <= k < |history| ==> (history + [next])[k] == history[k];
  }

  lemma {:induction false} SameTotal(history: seq<seq<nat>>, prefix: seq<seq<nat>>, n: nat)
    requires n < |prefix| <= |history| && prefix == history[..|prefix|]
    ensures ZeroTotal(history, n) == ZeroTotal(prefix, n)
  {
    if n > 0 {
      SameTotal(history, prefix, n - 1);
    }
  }

  lemma {:induction false} SameFlashTotal(flashes: seq<seq<nat>>, prefix: seq<seq<nat>>, n: nat)
    requires n <= |prefix| <= |flashes| && prefix == flashes[..|prefix|]
    ensures FlashTotal(flashes, n) == FlashTotal(prefix, n)
  {
    if n > 0 {
      SameFlashTotal(flashes, prefix, n - 1);
    }
  }
}
