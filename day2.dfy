/**
 * Day 2, Dive!: parse "forward 5" / "down 3" / "up 2" commands and steer a
 * submarine whose aim changes with up/down and which dives by aim * value on
 * every forward move.
 */
module Dive {
  import opened Options
  import opened Text

  datatype Direction = Up | Down | Forward

  /** The three ways a command line can fail to parse. */
  datatype CommandParseError = DirectionError | ValueError | CommandError

  datatype Command = Command(value: nat, direction: Direction)

  /** A command as it is written in the input, word and number. */
  predicate IsCommandValue(c: Command)
  {
    c.value < 256
  }

  /** `Direction::from_str`: exactly the three words, anything else is a direction error. */
  function ParseDirection(word: string): (r: Result<Direction, CommandParseError>)
    ensures r.Ok? <==> word == "forward" || word == "down" || word == "up"
    ensures r.Err? ==> r.error == DirectionError
  {
    if word == "forward" then Ok(Forward)
    else if word == "down" then Ok(Down)
    else if word == "up" then Ok(Up)
    else Err(DirectionError)
  }

  /** The word for each direction; `ParseDirection` reads it back. */
  function DirectionWord(d: Direction): string
  {
    match d
    case Forward => "forward"
    case Down => "down"
    case Up => "up"
  }

  lemma DirectionRoundTrip(d: Direction)
    ensures ParseDirection(DirectionWord(d)) == Ok(d)
  {
  }

  // ---------------------------------------------------------------------
  // Commands
  // ---------------------------------------------------------------------

  /**
   * `Command::from_str`: the direction word is parsed first, then the value
   * (missing: command error; not a `u8`: value error); a third piece is a
   * command error.
   */
  function ParseCommand(line: string): (r: Result<Command, CommandParseError>)
    ensures r.Ok? ==> (IsCommandValue(r.value) && |Split(line, " ")| == 2
      && ParseDirection(Split(line, " ")[0]) == Ok(r.value.direction)
      && ParseUnsigned(Split(line, " ")[1], U8) == Some(r.value.value))
    ensures ParseDirection(Split(line, " ")[0]).Err? ==> r == Err(DirectionError)
    ensures ParseDirection(Split(line, " ")[0]).Ok? && |Split(line, " ")| == 1 ==> r == Err(CommandError)
    ensures ParseDirection(Split(line, " ")[0]).Ok? && |Split(line, " ")| >= 2 && ParseUnsigned(Split(line, " ")[1], U8).None? ==> r == Err(ValueError)
    ensures |Split(line, " ")| > 2 ==> r.Err?
  {
    var parts := Split(line, " ");
    match ParseDirection(parts[0])
    case Err(e) => Err(e)
    case Ok(dir) =>
      if |parts| < 2 then Err(CommandError)
      else match ParseUnsigned(parts[1], U8)
        case None => Err(ValueError)
        case Some(val) =>
          if |parts| > 2 then Err(CommandError) else Ok(Command(val, dir))
  }

  /** The text of a command; parsing it gives the command back. */
  function CommandLine(c: Command): string
  {
    DirectionWord(c.direction) + " " + Digits(c.value)
  }

  lemma CommandRoundTrip(c: Command)
    requires IsCommandValue(c)
    ensures ParseCommand(CommandLine(c)) == Ok(c)
  {
    var w := DirectionWord(c.direction);
    var n := Digits(c.value);
    assert ' ' !in w;
    assert ' ' !in n by {
      assert forall k :: 0 <= k < |n| ==> IsDigit(n[k]);
    }
    SplitOnceChar(w, ' ', n);
    assert CommandLine(c) == w + [' '] + n;
    FindNoChar(n, ' ');
    assert Split(n, " ") == [n];
    assert Split(CommandLine(c), " ") == [w, n];
    ParseDigits(c.value, U8);
  }

  /** `parse`: every line must parse; the first failure is returned. */
  function ParseLines(lines: seq<string>): (r: Result<seq<Command>, CommandParseError>)
    ensures r.Ok? ==> |r.value| == |lines| && forall i :: 0 <= i < |lines| ==> ParseCommand(lines[i]) == Ok(r.value[i])
    ensures r.Err? ==> exists i :: 0 <= i < |lines| && ParseCommand(lines[i]) == Err(r.error)
  {
    if lines == [] then Ok([])
    else match ParseCommand(lines[0])
      case Err(e) => Err(e)
      case Ok(c) =>
        match ParseLines(lines[1..])
        case Err(e) => Err(e)
        case Ok(rest) => Ok([c] + rest)
  }

  // ---------------------------------------------------------------------
  // The submarine
  // ---------------------------------------------------------------------

  datatype Submarine = Submarine(horiz: int, depth: int, aim: int)

  /** `move_up`: aim goes down by the value; position and depth stay. */
  function MoveUp(s: Submarine, val: nat): (r: Submarine)
    ensures r.horiz == s.horiz && r.depth == s.depth && r.aim == s.aim - val
  {
    s.(aim := s.aim - val)
  }

  /** `move_down`: aim goes up by the value; position and depth stay. */
  function MoveDown(s: Submarine, val: nat): (r: Submarine)
    ensures r.horiz == s.horiz && r.depth == s.depth && r.aim == s.aim + val
  {
    s.(aim := s.aim + val)
  }

  /** `move_forward`: advance by the value and dive by aim times the value. */
  function MoveForward(s: Submarine, val: nat): (r: Submarine)
    ensures r.horiz == s.horiz + val && r.depth == s.depth + s.aim * val && r.aim == s.aim
  {
    Submarine(s.horiz + val, s.depth + s.aim * val, s.aim)
  }

  /** One step of the fold: the move the command's direction selects. */
  function Apply(s: Submarine, c: Command): (r: Submarine)
    ensures r.horiz == s.horiz + (if c.direction == Forward then c.value else 0)
    ensures r.aim == s.aim + (if c.direction == Down then c.value else if c.direction == Up then -(c.value as int) else 0)
    ensures r.depth == s.depth + (if c.direction == Forward then s.aim * c.value else 0)
  {
    match c.direction
    case Up => MoveUp(s, c.value)
    case Down => MoveDown(s, c.value)
    case Forward => MoveForward(s, c.value)
  }

  /** The fold in `main`, from the submarine at the origin. */
  function Run(commands: seq<Command>): Submarine
  {
    if commands == [] then Submarine(0, 0, 0) else Apply(Run(commands[..|commands| - 1]), commands[|commands| - 1])
  }

  /** The signed sum of the values of commands in one direction. */
  function Total(commands: seq<Command>, d: Direction): int
  {
    if commands == [] then 0
    else Total(commands[..|commands| - 1], d) + (if commands[|commands| - 1].direction == d then commands[|commands| - 1].value else 0)
  }

  /**
   * Part 1 read up/down as depth changes: its depth is the sum of downs
   * minus the sum of ups, which is exactly the final aim, and both parts
   * share the horizontal position, the sum of forwards.
   */
  lemma {:induction false} RunTotals(commands: seq<Command>)
    ensures Run(commands).aim == Total(commands, Down) - Total(commands, Up)
    ensures Run(commands).horiz == Total(commands, Forward)
  {
    if commands != [] {
      RunTotals(commands[..|commands| - 1]);
    }
  }

  /** The two answers: horizontal position times aim, and times depth. */
  function Answers(commands: seq<Command>): (r: (int, int))
    requires |commands| > 0
    ensures r.0 == Total(commands, Forward) * (Total(commands, Down) - Total(commands, Up))
  {
    RunTotals(commands);
    var p := Run(commands);
    (p.horiz * p.aim, p.horiz * p.depth)
  }
}
