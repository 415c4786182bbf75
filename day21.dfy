/**
 * Day 21, Dirac Dice: two players move round a track of ten spaces and
 * score the space they land on. A turn is three rolls. Part 1 plays with a
 * deterministic 100-sided die until a score reaches 1000; part 2 counts,
 * for a three-sided die that splits the universe on every roll, the
 * universes in which each player first reaches 21.
 */
module DiracDice {

  /** `P1_START`, `P2_START`. */
  const P1Start: nat := 9
  const P2Start: nat := 10

  /** `GameResult`: the universes won by each player. */
  datatype GameResult = GameResult(p1Wins: nat, p2Wins: nat)

  /** `GameState`: scores, positions, whose turn it is, and the rolls of the turn so far. */
  datatype GameState = GameState(
    p1Score: nat, p2Score: nat,
    p1Pos: nat, p2Pos: nat,
    p1Turn: bool,
    nthRoll: nat, rollSum: nat)

  // ---------------------------------------------------------------------
  // GameResult::sum
  // ---------------------------------------------------------------------

  function Plus(a: GameResult, b: GameResult): GameResult
  {
    GameResult(a.p1Wins + b.p1Wins, a.p2Wins + b.p2Wins)
  }

  /** `GameResult::sum`: the fold of `Plus` from no wins. */
  function Sum(rs: seq<GameResult>): GameResult
  {
    if rs == [] then GameResult(0, 0) else Plus(Sum(rs[..|rs| - 1]), rs[|rs| - 1])
  }

  /** Summing two runs of results one after the other adds their sums. */
  lemma {:induction false} SumAppend(a: seq<GameResult>, b: seq<GameResult>)
    ensures Sum(a + b) == Plus(Sum(a), Sum(b))
  {
    if b == [] {
      assert a + b == a;
    } else {
      SumAppend(a, b[..|b| - 1]);
      assert (a + b)[..|a + b| - 1] == a + b[..|b| - 1];
    }
  }

  /** The sum of three results, as `universe` adds them. */
  lemma SumThree(a: GameResult, b: GameResult, c: GameResult)
    ensures Sum([a, b, c]) == GameResult(a.p1Wins + b.p1Wins + c.p1Wins, a.p2Wins + b.p2Wins + c.p2Wins)
  {
    assert [a, b, c][..2] == [a, b];
    assert [a, b][..1] == [a];
    assert [a][..0] == [];
    assert Sum([a]) == a;
    assert Sum([a, b]) == Plus(a, b);
  }

  // ---------------------------------------------------------------------
  // GameState::update
  // ---------------------------------------------------------------------

  /** Moving `steps` spaces on from `pos`: `% 10`, with 0 read as 10. */
  function Move(pos: nat, steps: nat): nat
  {
    var p := (pos + steps) % 10;
    if p == 0 then 10 else p
  }

  /** A move lands on a space from 1 to 10, `steps` further round the track. */
  lemma MoveRange(pos: nat, steps: nat)
    ensures 1 <= Move(pos, steps) <= 10
    ensures Move(pos, steps) % 10 == (pos + steps) % 10
  {
  }

  /** `GameState::update`: count the roll, and on the third one move the player whose turn it is and pass the turn. */
  function Update(s: GameState, roll: nat): GameState
  {
    var n := s.(nthRoll := s.nthRoll + 1, rollSum := s.rollSum + roll);
    if n.nthRoll == 3 then
      var moved :=
        if s.p1Turn then
          var p := Move(n.p1Pos, n.rollSum);
          n.(p1Pos := p, p1Score := n.p1Score + p)
        else
          var p := Move(n.p2Pos, n.rollSum);
          n.(p2Pos := p, p2Score := n.p2Score + p);
      moved.(nthRoll := 0, p1Turn := !s.p1Turn, rollSum := 0)
    else n
  }

  /** A state the game can reach: positions on the track and fewer than three rolls into the turn. */
  predicate Valid(s: GameState)
  {
    1 <= s.p1Pos <= 10 && 1 <= s.p2Pos <= 10 && s.nthRoll < 3
  }

  /** Positions stay on the track and turns stay under three rolls. */
  lemma UpdateValid(s: GameState, roll: nat)
    requires Valid(s)
    ensures Valid(Update(s, roll))
  {
    MoveRange(s.p1Pos, s.rollSum + roll);
    MoveRange(s.p2Pos, s.rollSum + roll);
  }

  /** A turn stays under three rolls, whatever the positions. */
  lemma UpdateTurn(s: GameState, roll: nat)
    requires s.nthRoll < 3
    ensures Update(s, roll).nthRoll < 3
  {
  }

  /** The first two rolls of a turn change only the roll count and the roll sum. */
  lemma UpdateEarlyRoll(s: GameState, roll: nat)
    requires s.nthRoll != 2
    ensures Update(s, roll).nthRoll == s.nthRoll + 1 && Update(s, roll).rollSum == s.rollSum + roll
    ensures Update(s, roll).(nthRoll := s.nthRoll, rollSum := s.rollSum) == s
  {
  }

  /**
   * The third roll moves only the current player, by the turn's three
   * rolls, adds the new space to their score, passes the turn and resets
   * the counters.
   */
  lemma UpdateThirdRoll(s: GameState, roll: nat)
    requires s.nthRoll == 2
    ensures var t := Update(s, roll);
      && t.p1Turn == !s.p1Turn && t.nthRoll == 0 && t.rollSum == 0
      && (s.p1Turn ==> t.p1Pos == Move(s.p1Pos, s.rollSum + roll) && t.p1Score == s.p1Score + t.p1Pos
                       && t.p2Pos == s.p2Pos && t.p2Score == s.p2Score)
      && (!s.p1Turn ==> t.p2Pos == Move(s.p2Pos, s.rollSum + roll) && t.p2Score == s.p2Score + t.p2Pos
                        && t.p1Pos == s.p1Pos && t.p1Score == s.p1Score)
  {
  }

  /**
   * What is left of the game: three rolls per point either player still
   * lacks of `goal`, less the rolls already made this turn. Every roll
   * lowers it.
   */
  function Remaining(s: GameState, goal: nat): int
  {
    3 * (2 * goal - s.p1Score - s.p2Score) - s.nthRoll
  }

  lemma UpdateProgress(s: GameState, roll: nat, goal: nat)
    requires s.nthRoll < 3
    ensures Remaining(Update(s, roll), goal) < Remaining(s, goal)
  {
    MoveRange(s.p1Pos, s.rollSum + roll);
    MoveRange(s.p2Pos, s.rollSum + roll);
  }

  // ---------------------------------------------------------------------
  // part1
  // ---------------------------------------------------------------------

  function Start(): GameState
  {
    GameState(0, 0, P1Start, P2Start, true, 0, 0)
  }

  /** The state after `n` rolls of the deterministic die, which shows `(count % 100) + 1` on roll `count`. */
  function Play(s: GameState, n: nat): GameState
  {
    if n == 0 then s else Update(Play(s, n - 1), (n - 1) % 100 + 1)
  }

  predicate Over(s: GameState)
  {
    s.p1Score >= 1000 || s.p2Score >= 1000
  }

  lemma PlayNext(s: GameState, n: nat)
    ensures Play(s, n + 1) == Update(Play(s, n), n % 100 + 1)
  {
  }

  lemma {:induction false} PlayValid(s: GameState, n: nat)
    requires Valid(s)
    ensures Valid(Play(s, n))
  {
    if n > 0 {
      PlayValid(s, n - 1);
      UpdateValid(Play(s, n - 1), (n - 1) % 100 + 1);
    }
  }

  /**
   * `part1`: roll until a score reaches 1000, then multiply the losing
   * score by the number of rolls. The game is over after `rolls` rolls
   * and not before.
   */
  method Part1() returns (answer: nat, ghost rolls: nat)
    ensures Over(Play(Start(), rolls))
    ensures forall k :: 0 <= k < rolls ==> !Over(Play(Start(), k))
    ensures answer == Product(Min(Play(Start(), rolls).p1Score, Play(Start(), rolls).p2Score), rolls)
  {
    var state, rollCount := RollUntilOver();
    answer := Product(Min(state.p1Score, state.p2Score), rollCount);
    rolls := rollCount;
  }

  /** The `while` loop of `part1`. */
  method RollUntilOver() returns (state: GameState, rollCount: nat)
    ensures state == Play(Start(), rollCount) && Over(state)
    ensures forall k :: 0 <= k < rollCount ==> !Over(Play(Start(), k))
  {
    rollCount := 0;
    state := Start();
    while state.p1Score < 1000 && state.p2Score < 1000
      invariant state == Play(Start(), rollCount) && Valid(state)
      invariant forall k :: 0 <= k < rollCount ==> !Over(Play(Start(), k))
      decreases Remaining(state, 1000)
    {
      UpdateProgress(state, (rollCount % 100) + 1, 1000);
      UpdateValid(state, (rollCount % 100) + 1);
      PlayNext(Start(), rollCount);
      assert !Over(Play(Start(), rollCount));
      state := Update(state, (rollCount % 100) + 1);
      rollCount := rollCount + 1;
    }
  }

  function Product(a: nat, b: nat): nat
  {
    a * b
  }

  function Min(a: nat, b: nat): nat
  {
    if a < b then a else b
  }

  // ---------------------------------------------------------------------
  // universe, part2
  // ---------------------------------------------------------------------

  /**
   * The universes each player wins from `s`: a score of 21 or more wins
   * (player 1 checked first); otherwise the universe splits on a roll of
   * 1, 2 or 3.
   */
  function Wins(s: GameState): GameResult
    requires s.nthRoll < 3
    decreases Remaining(s, 21)
  {
    if s.p1Score >= 21 then GameResult(1, 0)
    else if s.p2Score >= 21 then GameResult(0, 1)
    else
      UpdateTurn(s, 1);
      UpdateTurn(s, 2);
      UpdateTurn(s, 3);
      UpdateProgress(s, 1, 21);
      UpdateProgress(s, 2, 21);
      UpdateProgress(s, 3, 21);
      Sum([Wins(Update(s, 1)), Wins(Update(s, 2)), Wins(Update(s, 3))])
  }

  /** Every universe has exactly one winner, so from any state at least one universe is won. */
  lemma {:induction false} WinsSomeone(s: GameState)
    requires s.nthRoll < 3
    ensures Wins(s).p1Wins + Wins(s).p2Wins >= 1
    decreases Remaining(s, 21)
  {
    if s.p1Score < 21 && s.p2Score < 21 {
      UpdateTurn(s, 1);
      UpdateProgress(s, 1, 21);
      WinsSomeone(Update(s, 1));
      UpdateTurn(s, 2);
      UpdateTurn(s, 3);
      SumThree(Wins(Update(s, 1)), Wins(Update(s, 2)), Wins(Update(s, 3)));
    }
  }

  /** Every entry of the table holds the universes won from its state. */
  ghost predicate Memo(database: map<GameState, GameResult>)
  {
    forall k :: k in database ==> k.nthRoll < 3 && database[k] == Wins(k)
  }

  /**
   * `universe`: fill `database` in so that it holds `state`, recursing on
   * the three rolls' states that are not there yet; entries already there
   * stay.
   */
  method Universe(state: GameState, database: map<GameState, GameResult>)
    returns (database': map<GameState, GameResult>)
    requires state.nthRoll < 3 && Memo(database)
    ensures Memo(database') && state in database'
    ensures database.Keys <= database'.Keys
    decreases Remaining(state, 21), 1
  {
    if state in database {
      return database;
    } else if state.p1Score >= 21 {
      database' := database[state := GameResult(1, 0)];
    } else if state.p2Score >= 21 {
      database' := database[state := GameResult(0, 1)];
    } else {
      var r1, r2, r3;
      database', r1 := Branch(state, 1, database);
      database', r2 := Branch(state, 2, database');
      database', r3 := Branch(state, 3, database');
      database' := database'[state := Sum([r1, r2, r3])];
    }
  }

  /**
   * One roll of the `map` in `universe`: the entry for the state after
   * `roll`, filling it in first when it is not there.
   */
  method Branch(state: GameState, roll: nat, database: map<GameState, GameResult>)
    returns (database': map<GameState, GameResult>, result: GameResult)
    requires state.nthRoll < 3 && Memo(database) && state.p1Score < 21 && state.p2Score < 21
    ensures Update(state, roll).nthRoll < 3 && result == Wins(Update(state, roll))
    ensures Memo(database') && database.Keys <= database'.Keys
    decreases Remaining(state, 21), 0
  {
    var newState := Update(state, roll);
    UpdateTurn(state, roll);
    UpdateProgress(state, roll, 21);
    database' := database;
    if newState !in database' {
      database' := Universe(newState, database');
    }
    result := database'[newState];
  }

  /** `part2`: the larger of the two players' universe counts from the start. */
  method Part2() returns (answer: nat)
    ensures answer == Max(Wins(Start()).p1Wins, Wins(Start()).p2Wins)
  {
    var database := Universe(Start(), map[]);
    var result := database[Start()];
    answer := Max(result.p1Wins, result.p2Wins);
  }

  function Max(a: nat, b: nat): nat
  {
    if a > b then a else b
  }
}
