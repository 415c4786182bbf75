/**
 * Day 10, Syntax Scoring: lines of brackets. A line is corrupted at the
 * first closer that does not match the last open bracket; otherwise it is
 * incomplete, and closing its open brackets completes it. Part 1 adds up
 * the points of the first bad closers, part 2 is the middle completion score.
 */
module SyntaxScoring {
  import opened Sorting

  predicate IsOpener(c: char)
  {
    c == '[' || c == '{' || c == '(' || c == '<'
  }

  predicate IsCloser(c: char)
  {
    c == ']' || c == '}' || c == ')' || c == '>'
  }

  /** The table `map`: each opener's closer. */
  function CloserOf(c: char): (r: char)
    requires IsOpener(c)
    ensures IsCloser(r)
  {
    match c
    case '[' => ']'
    case '{' => '}'
    case '(' => ')'
    case '<' => '>'
  }

  /** The table `corrupted_points`. */
  function CorruptedPoints(c: char): nat
    requires IsCloser(c)
  {
    match c
    case ')' => 3
    case ']' => 57
    case '}' => 1197
    case '>' => 25137
  }

  /** The table `incomplete_points`. */
  function IncompletePoints(c: char): (p: nat)
    requires IsCloser(c)
    ensures 1 <= p <= 4
  {
    match c
    case ')' => 1
    case ']' => 2
    case '}' => 3
    case '>' => 4
  }

  predicate Openers(stack: seq<char>)
  {
    forall k :: 0 <= k < |stack| ==> IsOpener(stack[k])
  }

  /**
   * Where a line ends up from a stack of open brackets: still open with a
   * stack, corrupted at a closer, or failing. The source panics on a closer
   * with nothing open (`pop().unwrap()`) and on a mismatching character that
   * is not a closer (the `corrupted_points` lookup).
   */
  datatype Status = Open(stack: seq<char>) | Corrupt(closer: char) | Fails

  function Scan(line: string, stack: seq<char>): (r: Status)
    ensures Openers(stack) && r.Open? ==> Openers(r.stack)
    ensures r.Corrupt? ==> IsCloser(r.closer)
  {
    if line == [] then Open(stack)
    else
      var c := line[0];
      if IsOpener(c) then Scan(line[1..], stack + [c])
      else if stack == [] then Fails
      else
        var last := stack[|stack| - 1];
        if IsOpener(last) && CloserOf(last) == c then Scan(line[1..], stack[..|stack| - 1])
        else if IsCloser(c) then Corrupt(c)
        else Fails
  }

  /**
   * The inner loop of `main` for one line: push openers, pop at every
   * closer, and stop at the first closer that does not match.
   */
  method CheckLine(line: string) returns (corrupted: bool, points: nat, opens: seq<char>)
    requires !Scan(line, []).Fails?
    ensures corrupted <==> Scan(line, []).Corrupt?
    ensures corrupted ==> points == CorruptedPoints(Scan(line, []).closer)
    ensures !corrupted ==> points == 0 && opens == Scan(line, []).stack
    ensures !corrupted ==> Openers(opens)
  {
    opens := [];
    corrupted, points := false, 0;
    for i := 0 to |line|
      invariant Openers(opens)
      invariant Scan(line[i..], opens) == Scan(line, [])
    {
      var c := line[i];
      assert line[i..] == [c] + line[i + 1..];
      if IsOpener(c) {
        opens := opens + [c];
      } else {
        var last := opens[|opens| - 1];
        opens := opens[..|opens| - 1];
        if CloserOf(last) != c {
          points := CorruptedPoints(c);
          corrupted := true;
          break;
        }
      }
    }
  }

  // ---------------------------------------------------------------------
  // Completion
  // ---------------------------------------------------------------------

  /** The closers of the open brackets, from the top of the stack down. */
  function Completion(stack: seq<char>): (closers: string)
    requires Openers(stack)
    ensures |closers| == |stack| && forall k :: 0 <= k < |closers| ==> IsCloser(closers[k])
  {
    if stack == [] then [] else [CloserOf(stack[|stack| - 1])] + Completion(stack[..|stack| - 1])
  }

  predicate Closers(s: string)
  {
    forall k :: 0 <= k < |s| ==> IsCloser(s[k])
  }

  /** `completion_score *= 5; completion_score += incomplete_points[&closer]` over the closers. */
  function Score(closers: string): nat
    requires Closers(closers)
  {
    if closers == [] then 0
    else Score(closers[..|closers| - 1]) * 5 + IncompletePoints(closers[|closers| - 1])
  }

  /** The `while let Some(opener) = opens.pop()` loop: the completion string and its score. */
  method Complete(opens: seq<char>) returns (completion: string, score: nat)
    requires Openers(opens)
    ensures completion == Completion(opens)
    ensures score == Score(completion)
  {
    var stack := opens;
    completion, score := [], 0;
    while stack != []
      invariant Openers(stack) && Closers(completion)
      invariant completion + Completion(stack) == Completion(opens)
      invariant score == Score(completion)
      decreases |stack|
    {
      var opener := stack[|stack| - 1];
      stack := stack[..|stack| - 1];
      var closer := CloserOf(opener);
      assert (completion + [closer])[..|completion|] == completion;
      completion := completion + [closer];
      score := score * 5;
      score := score + IncompletePoints(closer);
    }
  }

  /** A line that stays open from `s` leaves the rest of the input to start from its stack. */
  lemma {:induction false} ScanAppend(a: string, b: string, s: seq<char>)
    requires Scan(a, s).Open?
    ensures Scan(a + b, s) == Scan(b, Scan(a, s).stack)
  {
    if a != [] {
      assert (a + b)[1..] == a[1..] + b;
      assert (a + b)[0] == a[0];
      var c := a[0];
      if IsOpener(c) {
        ScanAppend(a[1..], b, s + [c]);
      } else {
        ScanAppend(a[1..], b, s[..|s| - 1]);
      }
    } else {
      assert a + b == b;
    }
  }

  /** The completion closes every open bracket, top first. */
  lemma {:induction false} CompletionCloses(stack: seq<char>)
    requires Openers(stack)
    ensures Scan(Completion(stack), stack) == Open([])
  {
    if stack != [] {
      var front := stack[..|stack| - 1];
      CompletionCloses(front);
      var closers := Completion(stack);
      assert closers[0] == CloserOf(stack[|stack| - 1]) && closers[1..] == Completion(front);
    }
  }

  /** An incomplete line followed by its completion is a line with nothing left open. */
  lemma CompletedLine(line: string)
    requires Scan(line, []).Open?
    ensures Scan(line + Completion(Scan(line, []).stack), []) == Open([])
  {
    var stack := Scan(line, []).stack;
    ScanAppend(line, Completion(stack), []);
    CompletionCloses(stack);
  }

  /** Scores are numbers in base 5 with digits 1 to 4, so different completions score differently. */
  lemma {:induction false} ScoreInjective(a: string, b: string)
    requires Closers(a) && Closers(b) && Score(a) == Score(b)
    ensures a == b
    decreases |a| + |b|
  {
    if a != [] && b != [] {
      var fa, fb := a[..|a| - 1], b[..|b| - 1];
      var la, lb := a[|a| - 1], b[|b| - 1];
      DivideByFive(Score(fa), IncompletePoints(la));
      DivideByFive(Score(fb), IncompletePoints(lb));
      assert IncompletePoints(la) == IncompletePoints(lb);
      assert la == lb;
      ScoreInjective(fa, fb);
      assert a == fa + [la] && b == fb + [lb];
    }
  }

  lemma DivideByFive(q: nat, r: nat)
    requires r < 5
    ensures (q * 5 + r) % 5 == r && (q * 5 + r) / 5 == q
  {
  }

  // ---------------------------------------------------------------------
  // The answers
  // ---------------------------------------------------------------------

  /** What the source needs to get through a line without panicking. */
  predicate Scannable(lines: seq<string>)
  {
    forall i :: 0 <= i < |lines| ==> !Scan(lines[i], []).Fails?
  }

  /** Part 1's reference: the points of the first bad closer of every corrupted line. */
  function CorruptedTotal(lines: seq<string>): nat
    requires Scannable(lines)
  {
    if lines == [] then 0
    else
      var last := Scan(lines[|lines| - 1], []);
      CorruptedTotal(lines[..|lines| - 1]) + (if last.Corrupt? then CorruptedPoints(last.closer) else 0)
  }

  /** The completion scores of the incomplete lines, in order. */
  function IncompleteScores(lines: seq<string>): seq<nat>
    requires Scannable(lines)
  {
    if lines == [] then []
    else
      var last := Scan(lines[|lines| - 1], []);
      IncompleteScores(lines[..|lines| - 1])
      + (if last.Open? then [Score(Completion(last.stack))] else [])
  }

  /**
   * `main`: part 1 totals the corrupted lines' points; part 2 is the score
   * at index `len / 2` of the sorted completion scores (`unwrap` fails when
   * no line is incomplete).
   */
  method Solve(lines: seq<string>) returns (part1: nat, part2: nat)
    requires Scannable(lines) && |IncompleteScores(lines)| > 0
    ensures part1 == CorruptedTotal(lines)
    ensures part2 == Sort(IncompleteScores(lines))[|IncompleteScores(lines)| / 2]
  {
    var total := 0;
    var incompleteScores: seq<nat> := [];
    for i := 0 to |lines|
      invariant total == CorruptedTotal(lines[..i])
      invariant incompleteScores == IncompleteScores(lines[..i])
    {
      assert lines[..i + 1][..i] == lines[..i] && lines[..i + 1][i] == lines[i];
      var corrupted, points, opens := CheckLine(lines[i]);
      total := total + points;
      if !corrupted {
        var completion, score := Complete(opens);
        incompleteScores := incompleteScores + [score];
      }
    }
    assert lines[..|lines|] == lines;
    var sorted := Sort(incompleteScores);
    part1, part2 := total, sorted[|sorted| / 2];
  }
}
