/**
 * Day 4, Giant Squid: play bingo on 5x5 boards. Every drawn number is
 * marked on every remaining board; a board wins when the row or column of
 * the cell just marked is complete, and its score is the sum of its unmarked
 * numbers times the number drawn. The first winner answers part 1 and the
 * last board to win answers part 2.
 */
module GiantSquid {
  import opened Options
  import opened Text

  const Cells: nat := 25

  type Board = seq<nat>
  type Marks = seq<bool>

  predicate BoardOk(b: Board)
  {
    |b| <= Cells
  }

  predicate MarksOk(m: Marks)
  {
    |m| == Cells
  }

  // ---------------------------------------------------------------------
  // Parsing
  // ---------------------------------------------------------------------

  /** Every whitespace-separated token of the line is a `u8` (`unwrap` panics otherwise). */
  predicate NumbersOk(line: string)
  {
    forall w :: w in Words(line) ==> ParseUnsigned(w, U8).Some?
  }

  /** The numbers on one board line. */
  function LineNumbers(line: string): (ns: seq<nat>)
    requires NumbersOk(line)
    ensures |ns| == |Words(line)|
    ensures forall k :: 0 <= k < |ns| ==> Some(ns[k]) == ParseUnsigned(Words(line)[k], U8)
  {
    var ws := Words(line);
    seq(|ws|, k requires 0 <= k < |ws| => assert ws[k] in ws; ParseUnsigned(ws[k], U8).value)
  }

  predicate LinesOk(lines: seq<string>)
  {
    forall i :: 0 <= i < |lines| ==> NumbersOk(lines[i])
  }

  /** All the numbers of the lines, in order. */
  function AllNumbers(lines: seq<string>): seq<nat>
    requires LinesOk(lines)
  {
    if lines == [] then [] else AllNumbers(lines[..|lines| - 1]) + LineNumbers(lines[|lines| - 1])
  }

  function Concat(boards: seq<Board>): seq<nat>
  {
    if boards == [] then [] else Concat(boards[..|boards| - 1]) + boards[|boards| - 1]
  }

  /**
   * The loop of `parse` over the lines after the draw order and the blank
   * line that follows it: numbers accumulate into `board`, and an empty line
   * pushes the board and starts a new one. Returns the boards and the
   * board still being read.
   */
  function Accumulate(lines: seq<string>): (r: (seq<Board>, Board))
    requires LinesOk(lines)
    ensures Concat(r.0) + r.1 == AllNumbers(lines)
  {
    if lines == [] then ([], [])
    else
      var (boards, board) := Accumulate(lines[..|lines| - 1]);
      var line := lines[|lines| - 1];
      if line == [] then
        assert Words(line) == [];
        (boards + [board], [])
      else
        (boards, board + LineNumbers(line))
  }

  /** `parse` as written: the board still being read when the lines run out is dropped. */
  function ParseBoards(lines: seq<string>): (boards: seq<Board>)
    requires |lines| > 0 && LinesOk(lines)
    ensures Concat(boards) <= AllNumbers(lines[1..])
    ensures lines[|lines| - 1] == "" ==> Concat(boards) == AllNumbers(lines[1..])
  {
    var (boards, board) := Accumulate(lines[1..]);
    assert Concat(boards) + board == AllNumbers(lines[1..]);
    assert Concat(boards) <= Concat(boards) + board;
    assert |lines| > 1 && lines[|lines| - 1] == "" ==> board == [] by {
      if |lines| > 1 && lines[|lines| - 1] == "" {
        var rest := lines[1..];
        assert rest[|rest| - 1] == "";
      }
    }
    assert Concat(boards) + [] == Concat(boards);
    boards
  }

  /** The same loop, keeping a board that is not followed by a blank line. */
  function ParseBoardsKeepingLast(lines: seq<string>): (boards: seq<Board>)
    requires |lines| > 0 && LinesOk(lines)
    ensures Concat(boards) == AllNumbers(lines[1..])
  {
    var (boards, board) := Accumulate(lines[1..]);
    if board == [] then boards
    else
      assert boards + [board] == (boards + [board])[..|boards|] + [board];
      boards + [board]
  }

  /** Input without a trailing blank line: the as-written parse loses its last board. */
  lemma ParseDropsLastBoard()
    ensures ParseBoards(["", "7"]) == []
    ensures ParseBoardsKeepingLast(["", "7"]) == [[7]]
  {
    assert Words("7") == ["7"] by {
      var s := "7";
      assert !IsSpace(s[0]);
      assert WordLength(s[1..]) == 0;
      assert WordLength(s) == 1;
      assert s[..1] == s;
      assert Words(s[1..]) == [];
    }
    assert ParseUnsigned("7", U8) == Some(7) by {
      assert "7"[..0] == [];
      assert DecimalValue("7") == 7;
    }
    assert LineNumbers("7") == [7];
    var lines := ["", "7"][1..];
    assert lines == ["7"];
    AccumulateOne("7");
  }

  lemma AccumulateOne(line: string)
    requires line != [] && NumbersOk(line)
    ensures Accumulate([line]) == ([], LineNumbers(line))
  {
    assert [line][..0] == [];
    assert LinesOk([line]);
    assert Accumulate([]) == ([], []);
    assert [] + LineNumbers(line) == LineNumbers(line);
  }

  /** `first_line.split(',').map(|n| n.parse::<u8>().unwrap())`. */
  function ParseDraws(line: string): (draws: seq<nat>)
    requires forall p :: p in Split(line, ",") ==> ParseUnsigned(p, U8).Some?
    ensures |draws| == |Split(line, ",")|
    ensures forall k :: 0 <= k < |draws| ==> draws[k] < U8
  {
    var parts := Split(line, ",");
    seq(|parts|, k requires 0 <= k < |parts| => assert parts[k] in parts; ParseUnsigned(parts[k], U8).value)
  }

  // ---------------------------------------------------------------------
  // Marking and winning
  // ---------------------------------------------------------------------

  /** The check in `main` after marking cell `i`: the rest of its column, or its whole row. */
  predicate Wins(m: Marks, i: nat)
    requires MarksOk(m) && i < Cells
  {
    var row := i - i % 5;
    (m[(i + 5) % 25] && m[(i + 10) % 25] && m[(i + 15) % 25] && m[(i + 20) % 25])
    || (m[row] && m[row + 1] && m[row + 2] && m[row + 3] && m[row + 4])
  }

  /** The mark of the cell in row `r`, column `c`. */
  function Cell(m: Marks, r: nat, c: nat): bool
    requires MarksOk(m) && r < 5 && c < 5
  {
    m[5 * r + c]
  }

  predicate RowFull(m: Marks, r: nat)
    requires MarksOk(m) && r < 5
  {
    forall c: nat :: c < 5 ==> Cell(m, r, c)
  }

  predicate ColumnFull(m: Marks, c: nat)
    requires MarksOk(m) && c < 5
  {
    forall r: nat :: r < 5 ==> Cell(m, r, c)
  }

  /** Cell `(i + 5k) % 25` is in the column of `i`, `k` rows further down (wrapping round). */
  lemma ColumnCell(i: nat, k: nat)
    requires i < 25 && k < 5
    ensures (i + 5 * k) % 25 == 5 * ((i / 5 + k) % 5) + i % 5
  {
    var r, c := i / 5, i % 5;
    assert i == 5 * r + c;
    if r + k < 5 {
      assert i + 5 * k == 5 * (r + k) + c;
    } else {
      assert i + 5 * k == 25 + 5 * (r + k - 5) + c;
    }
  }

  /** The other four cells the column check reads are the rest of the column. */
  lemma ColumnCheck(m: Marks, i: nat)
    requires MarksOk(m) && i < Cells && m[i]
    ensures (m[(i + 5) % 25] && m[(i + 10) % 25] && m[(i + 15) % 25] && m[(i + 20) % 25]) <==> ColumnFull(m, i % 5)
  {
    var r, c := i / 5, i % 5;
    ColumnCell(i, 1);
    ColumnCell(i, 2);
    ColumnCell(i, 3);
    ColumnCell(i, 4);
    assert Cell(m, r, c);
    assert m[(i + 5) % 25] == Cell(m, (r + 1) % 5, c);
    assert m[(i + 10) % 25] == Cell(m, (r + 2) % 5, c);
    assert m[(i + 15) % 25] == Cell(m, (r + 3) % 5, c);
    assert m[(i + 20) % 25] == Cell(m, (r + 4) % 5, c);
    if m[(i + 5) % 25] && m[(i + 10) % 25] && m[(i + 15) % 25] && m[(i + 20) % 25] {
      forall r': nat | r' < 5 ensures Cell(m, r', c) {
        RowsCovered(r, r');
      }
    }
  }

  /** Counting 0 to 4 rows down from row `r`, wrapping round, reaches every row. */
  lemma RowsCovered(r: nat, r': nat)
    requires r < 5 && r' < 5
    ensures r' == r || r' == (r + 1) % 5 || r' == (r + 2) % 5 || r' == (r + 3) % 5 || r' == (r + 4) % 5
  {
  }

  /** The five cells the row check reads are the row of `i`. */
  lemma RowCheck(m: Marks, i: nat)
    requires MarksOk(m) && i < Cells
    ensures var row := i - i % 5;
      (m[row] && m[row + 1] && m[row + 2] && m[row + 3] && m[row + 4]) <==> RowFull(m, i / 5)
  {
    var r := i / 5;
    assert i - i % 5 == 5 * r;
    assert Cell(m, r, 0) == m[5 * r] && Cell(m, r, 1) == m[5 * r + 1] && Cell(m, r, 2) == m[5 * r + 2];
    assert Cell(m, r, 3) == m[5 * r + 3] && Cell(m, r, 4) == m[5 * r + 4];
  }

  /** With cell `i` marked, the check holds exactly when its row or its column is complete. */
  lemma WinsIff(m: Marks, i: nat)
    requires MarksOk(m) && i < Cells && m[i]
    ensures Wins(m, i) <==> RowFull(m, i / 5) || ColumnFull(m, i % 5)
  {
    ColumnCheck(m, i);
    RowCheck(m, i);
  }

  /**
   * The inner loop over a board's cells from `i` on: each cell equal to the
   * draw is marked, and the scan stops at the first marking that wins.
   */
  function BoardStepFrom(board: Board, m: Marks, draw: nat, i: nat): (r: (Marks, bool))
    requires BoardOk(board) && MarksOk(m) && i <= |board|
    ensures MarksOk(r.0)
    decreases |board| - i
  {
    if i == |board| then (m, false)
    else if board[i] == draw then
      var m' := m[i := true];
      if Wins(m', i) then (m', true) else BoardStepFrom(board, m', draw, i + 1)
    else BoardStepFrom(board, m, draw, i + 1)
  }

  /**
   * Marking only adds marks, and only on cells holding the draw; a board
   * that does not win has every cell holding the draw marked, and a board
   * that wins has a complete line through a cell holding the draw.
   */
  lemma {:induction false} BoardStepMarks(board: Board, m: Marks, draw: nat, i: nat)
    requires BoardOk(board) && MarksOk(m) && i <= |board|
    ensures var (m', won) := BoardStepFrom(board, m, draw, i);
      && (forall k :: 0 <= k < Cells && m[k] ==> m'[k])
      && (forall k :: 0 <= k < Cells && m'[k] && !m[k] ==> k < |board| && board[k] == draw)
      && (!won ==> forall k :: i <= k < |board| && board[k] == draw ==> m'[k])
      && (won ==> exists k :: i <= k < |board| && board[k] == draw && m'[k] && Wins(m', k))
    decreases |board| - i
  {
    if i < |board| {
      if board[i] == draw {
        var m' := m[i := true];
        if !Wins(m', i) {
          BoardStepMarks(board, m', draw, i + 1);
        }
      } else {
        BoardStepMarks(board, m, draw, i + 1);
      }
    }
  }

  /** The sum of the numbers on unmarked cells. */
  function UnmarkedSum(board: Board, m: Marks): nat
    requires BoardOk(board) && MarksOk(m)
  {
    if board == [] then 0
    else UnmarkedSum(board[..|board| - 1], m) + (if m[|board| - 1] then 0 else board[|board| - 1])
  }

  function MarkedSum(board: Board, m: Marks): nat
    requires BoardOk(board) && MarksOk(m)
  {
    if board == [] then 0
    else MarkedSum(board[..|board| - 1], m) + (if m[|board| - 1] then board[|board| - 1] else 0)
  }

  function BoardSum(board: Board): nat
  {
    if board == [] then 0 else BoardSum(board[..|board| - 1]) + board[|board| - 1]
  }

  /** Marked and unmarked numbers together make up the whole board. */
  lemma {:induction false} SumsSplit(board: Board, m: Marks)
    requires BoardOk(board) && MarksOk(m)
    ensures UnmarkedSum(board, m) + MarkedSum(board, m) == BoardSum(board)
  {
    if board != [] {
      SumsSplit(board[..|board| - 1], m);
    }
  }

  /** A board with nothing marked scores its whole sum. */
  lemma {:induction false} NothingMarked(board: Board, m: Marks)
    requires BoardOk(board) && MarksOk(m) && forall k :: 0 <= k < Cells ==> !m[k]
    ensures UnmarkedSum(board, m) == BoardSum(board)
  {
    if board != [] {
      NothingMarked(board[..|board| - 1], m);
    }
  }

  function Product(a: nat, b: nat): nat
  {
    a * b
  }

  // ---------------------------------------------------------------------
  // One draw over all remaining boards
  // ---------------------------------------------------------------------

  predicate StateOk(boards: seq<Board>, ml: seq<Marks>)
  {
    |ml| == |boards| && (forall j :: 0 <= j < |boards| ==> BoardOk(boards[j])) && forall j :: 0 <= j < |ml| ==> MarksOk(ml[j])
  }

  datatype DrawState = DrawState(ml: seq<Marks>, winners: seq<nat>, part1: Option<nat>, part2: Option<nat>)

  /**
   * The loop over the boards for one draw, from board `j` on. `boardCount`
   * boards started the game, so `boardCount - |boards| + |winners|` boards
   * have won before this one; the first winner sets part 1 and the last
   * one part 2.
   */
  function DrawStepFrom(boards: seq<Board>, draw: nat, boardCount: nat, j: nat, s: DrawState): (r: DrawState)
    requires StateOk(boards, s.ml) && j <= |boards|
    ensures StateOk(boards, r.ml)
    decreases |boards| - j
  {
    if j == |boards| then s
    else
      var (m', won) := BoardStepFrom(boards[j], s.ml[j], draw, 0);
      var ml' := s.ml[j := m'];
      if !won then DrawStepFrom(boards, draw, boardCount, j + 1, s.(ml := ml'))
      else
        var winnerCount := boardCount - |boards| + |s.winners|;
        var total := Product(UnmarkedSum(boards[j], m'), draw);
        var part1 := if winnerCount == 0 then Some(total) else s.part1;
        var part2 := if winnerCount != 0 && winnerCount == boardCount - 1 then Some(total) else s.part2;
        DrawStepFrom(boards, draw, boardCount, j + 1, DrawState(ml', s.winners + [j], part1, part2))
  }

  predicate Increasing(xs: seq<nat>)
  {
    forall a, b :: 0 <= a < b < |xs| ==> xs[a] < xs[b]
  }

  /** Each board wins at most once per draw: the winners are distinct board indices, in order. */
  lemma {:induction false} DrawWinners(boards: seq<Board>, draw: nat, boardCount: nat, j: nat, s: DrawState)
    requires StateOk(boards, s.ml) && j <= |boards|
    requires Increasing(s.winners) && forall k :: 0 <= k < |s.winners| ==> s.winners[k] < j
    ensures var r := DrawStepFrom(boards, draw, boardCount, j, s);
      Increasing(r.winners) && (forall k :: 0 <= k < |r.winners| ==> r.winners[k] < |boards|)
      && |r.winners| >= |s.winners| && r.winners[..|s.winners|] == s.winners
    decreases |boards| - j
  {
    if j < |boards| {
      var (m', won) := BoardStepFrom(boards[j], s.ml[j], draw, 0);
      var ml' := s.ml[j := m'];
      if !won {
        DrawWinners(boards, draw, boardCount, j + 1, s.(ml := ml'));
      } else {
        var winnerCount := boardCount - |boards| + |s.winners|;
        var total := Product(UnmarkedSum(boards[j], m'), draw);
        var part1 := if winnerCount == 0 then Some(total) else s.part1;
        var part2 := if winnerCount != 0 && winnerCount == boardCount - 1 then Some(total) else s.part2;
        var s' := DrawState(ml', s.winners + [j], part1, part2);
        DrawWinners(boards, draw, boardCount, j + 1, s');
        var r := DrawStepFrom(boards, draw, boardCount, j + 1, s');
        assert r.winners[..|s'.winners|] == s'.winners;
        assert r.winners[..|s.winners|] == r.winners[..|s'.winners|][..|s.winners|];
      }
    }
  }

  // ---------------------------------------------------------------------
  // Removing the winners
  // ---------------------------------------------------------------------

  /** `Vec::remove`. */
  function RemoveAt<T>(s: seq<T>, x: nat): (r: seq<T>)
    requires x < |s|
    ensures |r| == |s| - 1
    ensures forall k :: 0 <= k < x ==> r[k] == s[k]
    ensures forall k :: x <= k < |r| ==> r[k] == s[k + 1]
  {
    s[..x] + s[x + 1..]
  }

  function Reverse(xs: seq<nat>): (r: seq<nat>)
    ensures |r| == |xs|
    ensures forall k :: 0 <= k < |xs| ==> r[k] == xs[|xs| - 1 - k]
  {
    if xs == [] then [] else [xs[|xs| - 1]] + Reverse(xs[..|xs| - 1])
  }

  /** Removes the indices of `xs`, one after another. */
  function RemoveAll<T>(s: seq<T>, xs: seq<nat>): seq<T>
    requires forall k :: 0 <= k < |xs| ==> xs[k] < |s| - k
  {
    if xs == [] then s else RemoveAll(RemoveAt(s, xs[0]), xs[1..])
  }

  /** The elements whose index is not listed, in order. */
  function Without<T>(s: seq<T>, gone: set<nat>): seq<T>
  {
    if s == [] then []
    else Without(s[..|s| - 1], gone) + (if |s| - 1 in gone then [] else [s[|s| - 1]])
  }

  /** The winners, largest first, are always in range when removed one by one. */
  lemma DescendingInRange(winners: seq<nat>, n: nat)
    requires Increasing(winners) && forall k :: 0 <= k < |winners| ==> winners[k] < n
    ensures var xs := Reverse(winners); forall k :: 0 <= k < |xs| ==> xs[k] < n - k
  {
    var xs := Reverse(winners);
    forall k | 0 <= k < |xs| ensures xs[k] < n - k {
      var t := |winners| - 1 - k;
      LargestIndex(winners, n, t);
    }
  }

  lemma {:induction false} LargestIndex(winners: seq<nat>, n: nat, t: nat)
    requires Increasing(winners) && forall k :: 0 <= k < |winners| ==> winners[k] < n
    requires t < |winners|
    ensures winners[t] < n - (|winners| - 1 - t)
    decreases |winners| - t
  {
    if t < |winners| - 1 {
      LargestIndex(winners, n, t + 1);
    }
  }

  lemma {:induction false} WithoutPrefix<T>(s: seq<T>, gone: set<nat>, x: nat)
    requires x <= |s| && forall g :: g in gone ==> g >= x
    ensures Without(s[..x], gone) == s[..x]
  {
    if x > 0 {
      WithoutPrefix(s, gone, x - 1);
      assert s[..x][..x - 1] == s[..x - 1];
    }
  }

  /** The board indices listed in `ws`. */
  function Indices(ws: seq<nat>): set<nat>
  {
    set k | 0 <= k < |ws| :: ws[k]
  }

  /** The indices of an increasing list are those of its front, all smaller, and its last. */
  lemma IndicesSnoc(ws: seq<nat>, init: seq<nat>)
    requires Increasing(ws) && ws != [] && init == ws[..|ws| - 1]
    ensures Indices(ws) == Indices(init) + {ws[|ws| - 1]}
    ensures forall g :: g in Indices(init) ==> g < ws[|ws| - 1]
  {
    forall g | g in Indices(init)
      ensures g < ws[|ws| - 1] && g in Indices(ws)
    {
      var k :| 0 <= k < |init| && init[k] == g;
      assert ws[k] == g;
    }
    forall g | g in Indices(ws)
      ensures g in Indices(init) + {ws[|ws| - 1]}
    {
      var k :| 0 <= k < |ws| && ws[k] == g;
      if k < |init| {
        assert init[k] == g;
      }
    }
  }

  /**
   * Removing the winners from the right keeps the indices of the others
   * valid: what is left is exactly the boards that did not win, in order.
   */
  lemma {:induction false} RemoveWinners<T>(s: seq<T>, winners: seq<nat>)
    requires Increasing(winners) && forall k :: 0 <= k < |winners| ==> winners[k] < |s|
    ensures var xs := Reverse(winners);
      (forall k :: 0 <= k < |xs| ==> xs[k] < |s| - k)
      && RemoveAll(s, xs) == Without(s, Indices(winners))
    decreases |winners|
  {
    DescendingInRange(winners, |s|);
    if winners == [] {
      WithoutAll(s, Indices(winners));
    } else {
      var last := winners[|winners| - 1];
      var init := winners[..|winners| - 1];
      var rest := RemoveAt(s, last);
      forall k | 0 <= k < |init| ensures init[k] < |rest| {
        assert winners[k] < winners[|winners| - 1];
      }
      RemoveWinners(rest, init);
      var xs := Reverse(winners);
      assert xs[1..] == Reverse(init);
      IndicesSnoc(winners, init);
      WithoutRemoveLast(s, Indices(init), last);
    }
  }

  lemma WithoutAll<T>(s: seq<T>, gone: set<nat>)
    requires gone == {}
    ensures Without(s, gone) == s
  {
    WithoutPrefix(s, gone, |s|);
    assert s[..|s|] == s;
  }

  /**
   * Removing index `last`, above every other removed index, then removing
   * the others is the same as leaving all of them out.
   */
  lemma {:induction false} WithoutRemoveLast<T>(s: seq<T>, gone: set<nat>, last: nat)
    requires last < |s| && forall g :: g in gone ==> g < last
    ensures Without(RemoveAt(s, last), gone) == Without(s, gone + {last})
    decreases |s|
  {
    if |s| - 1 == last {
      RemoveLastAtEnd(s, gone, last);
    } else {
      var s', z := s[..|s| - 1], s[|s| - 1];
      WithoutRemoveLast(s', gone, last);
      RemoveBeforeEnd(s', z, gone, last);
      assert s == s' + [z];
    }
  }

  /** Removing the very last index is leaving it out. */
  lemma RemoveLastAtEnd<T>(s: seq<T>, gone: set<nat>, last: nat)
    requires last == |s| - 1 && forall g :: g in gone ==> g < last
    ensures Without(RemoveAt(s, last), gone) == Without(s, gone + {last})
  {
    assert RemoveAt(s, last) == s[..|s| - 1];
    WithoutSame(s[..|s| - 1], gone, gone + {last});
  }

  /** An element after the removed index stays at the end on both sides. */
  lemma RemoveBeforeEnd<T>(s': seq<T>, z: T, gone: set<nat>, last: nat)
    requires last < |s'| && forall g :: g in gone ==> g < last
    requires Without(RemoveAt(s', last), gone) == Without(s', gone + {last})
    ensures Without(RemoveAt(s' + [z], last), gone) == Without(s' + [z], gone + {last})
  {
    var t' := RemoveAt(s', last);
    assert RemoveAt(s' + [z], last) == t' + [z];
    WithoutSnoc(t', gone, z);
    WithoutSnoc(s', gone + {last}, z);
  }

  /** An element kept at the end stays at the end. */
  lemma WithoutSnoc<T>(u: seq<T>, gone: set<nat>, z: T)
    requires |u| !in gone
    ensures Without(u + [z], gone) == Without(u, gone) + [z]
  {
    assert (u + [z])[..|u|] == u;
  }

  lemma {:induction false} WithoutSame<T>(s: seq<T>, a: set<nat>, b: set<nat>)
    requires forall k :: 0 <= k < |s| ==> (k in a <==> k in b)
    ensures Without(s, a) == Without(s, b)
  {
    if s != [] {
      WithoutSame(s[..|s| - 1], a, b);
    }
  }

  // ---------------------------------------------------------------------
  // The game
  // ---------------------------------------------------------------------

  /** The whole game from draw `d` on, as `main` plays it. */
  function GameFrom(draws: seq<nat>, d: nat, boards: seq<Board>, ml: seq<Marks>, boardCount: nat,
                    part1: Option<nat>, part2: Option<nat>): (Option<nat>, Option<nat>)
    requires StateOk(boards, ml) && d <= |draws|
    decreases |draws| - d
  {
    if d == |draws| then (part1, part2)
    else
      var r := DrawStepFrom(boards, draws[d], boardCount, 0, DrawState(ml, [], part1, part2));
      var xs := Reverse(r.winners);
      DrawWinners(boards, draws[d], boardCount, 0, DrawState(ml, [], part1, part2));
      RemoveWinners(boards, r.winners);
      RemoveWinners(r.ml, r.winners);
      var boards' := RemoveAll(boards, xs);
      var ml' := RemoveAll(r.ml, xs);
      RemoveKeepsState(boards, r.ml, xs);
      GameFrom(draws, d + 1, boards', ml', boardCount, r.part1, r.part2)
  }

  lemma {:induction false} RemoveKeepsState(boards: seq<Board>, ml: seq<Marks>, xs: seq<nat>)
    requires StateOk(boards, ml)
    requires forall k :: 0 <= k < |xs| ==> xs[k] < |boards| - k
    ensures StateOk(RemoveAll(boards, xs), RemoveAll(ml, xs))
    ensures |RemoveAll(boards, xs)| == |boards| - |xs|
  {
    if xs != [] {
      RemoveKeepsState(RemoveAt(boards, xs[0]), RemoveAt(ml, xs[0]), xs[1..]);
    }
  }

  /** Once some board has won, later wins of the same draw leave part 1 alone. */
  lemma {:induction false} DrawKeepsPart1(boards: seq<Board>, draw: nat, boardCount: nat, j: nat, s: DrawState)
    requires StateOk(boards, s.ml) && j <= |boards|
    requires boardCount - |boards| + |s.winners| > 0
    ensures DrawStepFrom(boards, draw, boardCount, j, s).part1 == s.part1
    decreases |boards| - j
  {
    if j < |boards| {
      var (m', won) := BoardStepFrom(boards[j], s.ml[j], draw, 0);
      var ml' := s.ml[j := m'];
      if !won {
        DrawKeepsPart1(boards, draw, boardCount, j + 1, s.(ml := ml'));
      } else {
        var winnerCount := boardCount - |boards| + |s.winners|;
        var total := Product(UnmarkedSum(boards[j], m'), draw);
        var part2 := if winnerCount != 0 && winnerCount == boardCount - 1 then Some(total) else s.part2;
        DrawKeepsPart1(boards, draw, boardCount, j + 1, DrawState(ml', s.winners + [j], s.part1, part2));
      }
    }
  }

  /**
   * Part 1 is the score of the first win: once fewer boards remain than
   * started, nothing overwrites it.
   */
  lemma {:induction false} GameKeepsPart1(draws: seq<nat>, d: nat, boards: seq<Board>, ml: seq<Marks>, boardCount: nat,
                                          part1: Option<nat>, part2: Option<nat>)
    requires StateOk(boards, ml) && d <= |draws| && |boards| < boardCount
    ensures GameFrom(draws, d, boards, ml, boardCount, part1, part2).0 == part1
    decreases |draws| - d
  {
    if d < |draws| {
      var s := DrawState(ml, [], part1, part2);
      var r := DrawStepFrom(boards, draws[d], boardCount, 0, s);
      DrawKeepsPart1(boards, draws[d], boardCount, 0, s);
      DrawWinners(boards, draws[d], boardCount, 0, s);
      RemoveWinners(boards, r.winners);
      RemoveWinners(r.ml, r.winners);
      var xs := Reverse(r.winners);
      RemoveKeepsState(boards, r.ml, xs);
      GameKeepsPart1(draws, d + 1, RemoveAll(boards, xs), RemoveAll(r.ml, xs), boardCount, r.part1, r.part2);
    }
  }

  /** `main`'s game loop; the printed answers are returned. */
  method Play(draws: seq<nat>, boards0: seq<Board>) returns (part1: Option<nat>, part2: Option<nat>)
    requires |boards0| > 0 && forall j :: 0 <= j < |boards0| ==> BoardOk(boards0[j])
    ensures (part1, part2) == GameFrom(draws, 0, boards0, seq(|boards0|, _ => seq(Cells, _ => false)), |boards0|, None, None)
  {
    var boards := boards0;
    var boardCount := |boards|;
    var matchesList: seq<Marks> := seq(|boards0|, _ => seq(Cells, _ => false));
    part1, part2 := None, None;
    for d := 0 to |draws|
      invariant StateOk(boards, matchesList)
      invariant GameFrom(draws, 0, boards0, seq(|boards0|, _ => seq(Cells, _ => false)), boardCount, None, None)
             == GameFrom(draws, d, boards, matchesList, boardCount, part1, part2)
    {
      var draw := draws[d];
      ghost var start := DrawState(matchesList, [], part1, part2);
      var newWinners: seq<nat> := [];
      for j := 0 to |boards|
        invariant StateOk(boards, matchesList)
        invariant DrawStepFrom(boards, draw, boardCount, 0, start)
               == DrawStepFrom(boards, draw, boardCount, j, DrawState(matchesList, newWinners, part1, part2))
      {
        var board := boards[j];
        var matches, won := MarkBoard(board, matchesList[j], draw);
        matchesList := matchesList[j := matches];
        if won {
          var winnerCount := boardCount - |boards| + |newWinners|;
          if winnerCount == 0 || winnerCount == boardCount - 1 {
            var total := Product(UnmarkedSum(board, matches), draw);
            if winnerCount == 0 {
              part1 := Some(total);
            } else {
              part2 := Some(total);
            }
          }
          newWinners := newWinners + [j];
        }
      }
      // The winners were found in increasing board order, so `sort` leaves
      // them as they are and `reverse` puts the largest index first.
      DrawWinners(boards, draw, boardCount, 0, start);
      RemoveWinners(boards, newWinners);
      var xs := Reverse(newWinners);
      RemoveKeepsState(boards, matchesList, xs);
      boards, matchesList := RemoveWinnersFrom(boards, matchesList, xs);
    }
  }

  /** The inner loop of `main` over one board's cells. */
  method MarkBoard(board: Board, m0: Marks, draw: nat) returns (matches: Marks, won: bool)
    requires BoardOk(board) && MarksOk(m0)
    ensures (matches, won) == BoardStepFrom(board, m0, draw, 0)
  {
    matches := m0;
    won := false;
    var i := 0;
    while i < |board|
      invariant i <= |board| && MarksOk(matches)
      invariant BoardStepFrom(board, m0, draw, 0) == BoardStepFrom(board, matches, draw, i)
    {
      if board[i] == draw {
        matches := matches[i := true];
        if Wins(matches, i) {
          won := true;
          break;
        }
      }
      i := i + 1;
    }
  }

  /** The removal loop: `boards.remove(x)` and `matches_list.remove(x)` for each winner, largest first. */
  method RemoveWinnersFrom(boards0: seq<Board>, ml0: seq<Marks>, xs: seq<nat>) returns (boards: seq<Board>, ml: seq<Marks>)
    requires |boards0| == |ml0| && forall k :: 0 <= k < |xs| ==> xs[k] < |boards0| - k
    ensures boards == RemoveAll(boards0, xs) && ml == RemoveAll(ml0, xs)
  {
    boards, ml := boards0, ml0;
    for t := 0 to |xs|
      invariant |boards| == |boards0| - t && |ml| == |ml0| - t
      invariant forall k :: t <= k < |xs| ==> xs[k] < |boards| - (k - t)
      invariant RemoveAll(boards0, xs) == RemoveAll(boards, xs[t..])
      invariant RemoveAll(ml0, xs) == RemoveAll(ml, xs[t..])
    {
      assert xs[t..][1..] == xs[t + 1..];
      boards := RemoveAt(boards, xs[t]);
      ml := RemoveAt(ml, xs[t]);
    }
    assert xs[|xs|..] == [];
  }
}
