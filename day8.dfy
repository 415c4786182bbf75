/**
 * Day 8, Seven Segment Search: each display's ten wiring patterns are the
 * ten digits with the wires scrambled. The solver works out which wire
 * drives which segment, then reads the four output patterns as digits.
 * A pattern is a 7-entry indicator: entry `w` is 1 when wire `w` is lit.
 */
module SevenSegment {
  import opened Options
  import opened Text

  type Pattern = seq<nat>

  const Wires: nat := 7

  /** `char_to_digit`: wires 'a' to 'g' are 0 to 6; any other letter panics. */
  function CharToDigit(ch: char): (w: nat)
    requires 'a' <= ch <= 'g'
    ensures w < Wires && DigitChar(w) == ch
  {
    if ch == 'a' then 0 else if ch == 'b' then 1 else if ch == 'c' then 2 else if ch == 'd' then 3
    else if ch == 'e' then 4 else if ch == 'f' then 5 else 6
  }

  function DigitChar(w: nat): char
    requires w < Wires
  {
    ('a' as int + w) as char
  }

  lemma DigitCharRoundTrip(w: nat)
    requires w < Wires
    ensures 'a' <= DigitChar(w) <= 'g' && CharToDigit(DigitChar(w)) == w
  {
  }

  predicate WireLetters(word: string)
  {
    forall k :: 0 <= k < |word| ==> 'a' <= word[k] <= 'g'
  }

  predicate Bits(x: Pattern)
  {
    |x| == Wires && forall w :: 0 <= w < Wires ==> x[w] <= 1
  }

  /** The closure in `parse`: start from seven zeros and set the entry of every letter. */
  function Indicator(word: string): (x: Pattern)
    requires WireLetters(word)
    ensures Bits(x)
    ensures forall w :: 0 <= w < Wires ==> (x[w] == 1 <==> DigitChar(w) in word)
  {
    if word == [] then seq(Wires, _ => 0)
    else
      var front := word[..|word| - 1];
      var c := word[|word| - 1];
      assert word == front + [c];
      Indicator(front)[CharToDigit(c) := 1]
  }

  /** Every word of a half is made of wire letters (`char_to_digit` panics otherwise). */
  predicate HalfOk(half: string)
  {
    forall i :: 0 <= i < |Words(half)| ==> WireLetters(Words(half)[i])
  }

  /** What `parse` needs of a line: a `|`, and wire letters on both sides of it. */
  predicate EntryText(line: string)
  {
    SplitOnce(line, "|").Some? && HalfOk(SplitOnce(line, "|").value.0) && HalfOk(SplitOnce(line, "|").value.1)
  }

  function Indicators(words: seq<string>): (xs: seq<Pattern>)
    requires forall i :: 0 <= i < |words| ==> WireLetters(words[i])
    ensures |xs| == |words| && forall i :: 0 <= i < |words| ==> xs[i] == Indicator(words[i])
  {
    if words == [] then [] else [Indicator(words[0])] + Indicators(words[1..])
  }

  /** `parse` for one line: the patterns before the `|` and the output after it, word by word. */
  function ParseEntry(line: string): (r: (seq<Pattern>, seq<Pattern>))
    requires EntryText(line)
    ensures var halves := SplitOnce(line, "|").value;
      r == (Indicators(Words(halves.0)), Indicators(Words(halves.1)))
  {
    var halves := SplitOnce(line, "|").value;
    (Indicators(Words(halves.0)), Indicators(Words(halves.1)))
  }

  // ---------------------------------------------------------------------
  // The canonical digits
  // ---------------------------------------------------------------------

  const SegmentLengths: seq<nat> := [6, 2, 5, 5, 4, 5, 6, 3, 7, 6]
  const Segments: seq<Pattern> := [
    [1, 1, 1, 0, 1, 1, 1], // 0
    [0, 0, 1, 0, 0, 1, 0], // 1
    [1, 0, 1, 1, 1, 0, 1], // 2
    [1, 0, 1, 1, 0, 1, 1], // 3
    [0, 1, 1, 1, 0, 1, 0], // 4
    [1, 1, 0, 1, 0, 1, 1], // 5
    [1, 1, 0, 1, 1, 1, 1], // 6
    [1, 0, 1, 0, 0, 1, 0], // 7
    [1, 1, 1, 1, 1, 1, 1], // 8
    [1, 1, 1, 1, 0, 1, 1]  // 9
  ]

  /** `count_digits`: how many entries are 1. */
  function Ones(x: Pattern): nat
  {
    OnesBelow(x, |x|)
  }

  function OnesBelow(x: Pattern, k: nat): nat
    requires k <= |x|
  {
    if k == 0 then 0 else OnesBelow(x, k - 1) + (if x[k - 1] == 1 then 1 else 0)
  }

  /** The length table agrees with the segment table. */
  lemma SegmentLengthsAgree()
    ensures forall d :: 0 <= d < 10 ==> Bits(Segments[d]) && Ones(Segments[d]) == SegmentLengths[d]
  {
  }

  /** Only 1, 4, 7 and 8 have their number of segments. */
  lemma UniqueLengths(d: nat, e: nat)
    requires d < 10 && e < 10 && SegmentLengths[d] == SegmentLengths[e]
    ensures d in {1, 4, 7, 8} ==> d == e
  {
  }

  // ---------------------------------------------------------------------
  // Wirings
  // ---------------------------------------------------------------------

  /** What `translate_output` needs of a mapping to index with it: seven wires. */
  predicate Mapping(p: seq<nat>)
  {
    |p| == Wires && forall n :: 0 <= n < Wires ==> p[n] < Wires
  }

  /** A wiring sends canonical segment `n` to wire `p[n]`, one to one and onto. */
  predicate Wiring(p: seq<nat>)
  {
    Mapping(p)
    && (forall n, m :: 0 <= n < m < Wires ==> p[n] != p[m])
    && (forall w: nat :: w < Wires ==> w in p)
  }

  /** The loop in `translate_output`: light wire `p[n]` for every segment `n` of `s`, for `n < k`. */
  function RenderBelow(p: seq<nat>, s: Pattern, k: nat): (x: Pattern)
    requires Mapping(p) && Bits(s) && k <= Wires
    ensures |x| == Wires
  {
    if k == 0 then seq(Wires, _ => 0)
    else
      var x := RenderBelow(p, s, k - 1);
      if s[k - 1] == 1 then x[p[k - 1] := 1] else x
  }

  /** A digit as it shows on displays with wiring `p`. */
  function Render(p: seq<nat>, s: Pattern): (x: Pattern)
    requires Mapping(p) && Bits(s)
    ensures |x| == Wires
  {
    RenderBelow(p, s, |s|)
  }

  lemma {:induction false} RenderBelowAt(p: seq<nat>, s: Pattern, k: nat)
    requires Wiring(p) && Bits(s) && k <= Wires
    ensures forall n :: 0 <= n < Wires ==> RenderBelow(p, s, k)[p[n]] == (if n < k then s[n] else 0)
  {
    if k > 0 {
      RenderBelowAt(p, s, k - 1);
    }
  }

  /** Wire `p[n]` is lit exactly when segment `n` is: rendering moves segments, nothing else. */
  lemma RenderAt(p: seq<nat>, s: Pattern)
    requires Wiring(p) && Bits(s)
    ensures Bits(Render(p, s))
    ensures forall n :: 0 <= n < Wires ==> Render(p, s)[p[n]] == s[n]
  {
    RenderBelowAt(p, s, |s|);
    var x := Render(p, s);
    forall w: nat | w < Wires ensures x[w] <= 1 {
      assert w in p;
      var n :| 0 <= n < |p| && p[n] == w;
    }
  }

  /** The wires lit in a pattern. */
  function Lit(x: Pattern): set<nat>
  {
    set w | 0 <= w < |x| && x[w] == 1
  }

  lemma {:induction false} OnesBelowCard(x: Pattern, k: nat)
    requires k <= |x|
    ensures OnesBelow(x, k) == |set w | 0 <= w < k && x[w] == 1|
  {
    if k > 0 {
      OnesBelowCard(x, k - 1);
      var before := set w | 0 <= w < k - 1 && x[w] == 1;
      if x[k - 1] == 1 {
        assert (set w | 0 <= w < k && x[w] == 1) == before + {k - 1};
      } else {
        assert (set w | 0 <= w < k && x[w] == 1) == before;
      }
    }
  }

  lemma {:induction false} InjectiveImage(a: set<nat>, p: seq<nat>)
    requires forall n :: n in a ==> n < |p|
    requires forall n, m :: n in a && m in a && n != m ==> p[n] != p[m]
    ensures |set n | n in a :: p[n]| == |a|
  {
    if a != {} {
      var x :| x in a;
      var rest := a - {x};
      InjectiveImage(rest, p);
      assert (set n | n in a :: p[n]) == (set n | n in rest :: p[n]) + {p[x]};
    }
  }

  /** A rendered digit lights as many wires as the digit has segments. */
  lemma RenderOnes(p: seq<nat>, s: Pattern)
    requires Wiring(p) && Bits(s)
    ensures Ones(Render(p, s)) == Ones(s)
  {
    var x := Render(p, s);
    RenderAt(p, s);
    OnesBelowCard(x, Wires);
    OnesBelowCard(s, Wires);
    var a := set n | 0 <= n < Wires && s[n] == 1;
    InjectiveImage(a, p);
    assert (set w | 0 <= w < Wires && x[w] == 1) == (set n | n in a :: p[n]) by {
      forall w: nat | w < Wires && x[w] == 1 ensures w in (set n | n in a :: p[n]) {
        assert w in p;
        var n :| 0 <= n < |p| && p[n] == w;
      }
    }
  }

  /** Different digits look different on any wiring. */
  lemma RenderInjective(p: seq<nat>, d: nat, e: nat)
    requires Wiring(p) && d < 10 && e < 10 && d != e
    ensures Render(p, Segments[d]) != Render(p, Segments[e])
  {
    SegmentLengthsAgree();
    RenderAt(p, Segments[d]);
    RenderAt(p, Segments[e]);
    var n :| 0 <= n < Wires && Segments[d][n] != Segments[e][n];
    assert Render(p, Segments[d])[p[n]] != Render(p, Segments[e])[p[n]];
  }

  /** Digit `d` as it shows on displays wired by `p`. */
  function Shown(p: seq<nat>, d: nat): (x: Pattern)
    requires Mapping(p) && d < 10
    ensures |x| == Wires
  {
    SegmentLengthsAgree();
    Render(p, Segments[d])
  }

  /** On a wiring, every wire shows one segment of the digit. */
  lemma ShownAt(p: seq<nat>, d: nat, w: nat) returns (n: nat)
    requires Wiring(p) && d < 10 && w < Wires
    ensures n < Wires && p[n] == w && Shown(p, d)[w] == Segments[d][n]
    ensures forall m :: 0 <= m < Wires && m != n ==> p[m] != w
  {
    SegmentLengthsAgree();
    RenderAt(p, Segments[d]);
    assert w in p;
    n :| 0 <= n < |p| && p[n] == w;
  }

  /** Pattern `x` is some digit shown through `p`. */
  predicate ShowsSome(x: Pattern, p: seq<nat>)
    requires Mapping(p)
  {
    exists d :: 0 <= d < 10 && x == Shown(p, d)
  }

  /** Digit `d`, shown through `p`, is among the patterns. */
  predicate AmongPatterns(patterns: seq<Pattern>, p: seq<nat>, d: nat)
    requires Mapping(p) && d < 10
  {
    exists i :: 0 <= i < |patterns| && patterns[i] == Shown(p, d)
  }

  /** The ten patterns of a display: every one a digit shown through `p`, and every digit among them. */
  predicate Scrambled(patterns: seq<Pattern>, p: seq<nat>)
  {
    Wiring(p)
    && (forall i :: 0 <= i < |patterns| ==> ShowsSome(patterns[i], p))
    && (forall d: nat :: d < 10 ==> AmongPatterns(patterns, p, d))
  }

  // ---------------------------------------------------------------------
  // The searches in `deduce_segments`
  // ---------------------------------------------------------------------

  /** `u8` `^` and `&` on the 0/1 entries of a pattern. */
  function Xor(u: nat, v: nat): nat
  {
    if u == v then 0 else 1
  }

  function And(u: nat, v: nat): nat
  {
    if u == 1 && v == 1 then 1 else 0
  }

  /** `.filter(count == k).next()`: the first pattern with `k` lit wires. */
  function FirstWithOnes(ps: seq<Pattern>, k: nat, from: nat): (r: Option<nat>)
    requires from <= |ps|
    ensures r.Some? ==> from <= r.value < |ps| && Ones(ps[r.value]) == k
    ensures r.Some? ==> forall i :: from <= i < r.value ==> Ones(ps[i]) != k
    ensures r.None? ==> forall i :: from <= i < |ps| ==> Ones(ps[i]) != k
    decreases |ps| - from
  {
    if from == |ps| then None
    else if Ones(ps[from]) == k then Some(from)
    else FirstWithOnes(ps, k, from + 1)
  }

  /** The two tests `deduce_segments` puts to the six-segment patterns. */
  datatype Test = LitAll(a: nat, b: nat, c: nat, d: nat) | Differ(a: nat, b: nat)

  predicate TestOk(t: Test)
  {
    match t
    case LitAll(a, b, c, d) => a < Wires && b < Wires && c < Wires && d < Wires
    case Differ(a, b) => a < Wires && b < Wires
  }

  predicate Passes(x: Pattern, t: Test)
    requires |x| == Wires && TestOk(t)
  {
    Ones(x) == 6
    && match t
       case LitAll(a, b, c, d) => And(And(And(x[a], x[b]), x[c]), x[d]) == 1
       case Differ(a, b) => Xor(x[a], x[b]) == 1
  }

  /** `.filter(count_digits == 6).find(test)`. */
  function FindSix(ps: seq<Pattern>, t: Test, from: nat): (r: Option<nat>)
    requires from <= |ps| && TestOk(t) && forall i :: 0 <= i < |ps| ==> |ps[i]| == Wires
    ensures r.Some? ==> from <= r.value < |ps| && Passes(ps[r.value], t)
    ensures r.None? ==> forall i :: from <= i < |ps| ==> !Passes(ps[i], t)
    decreases |ps| - from
  {
    if from == |ps| then None
    else if Passes(ps[from], t) then Some(from)
    else FindSix(ps, t, from + 1)
  }

  /** `(0..10).find(|w| x[w] ^ y[w] == 1)`; on seven-entry patterns the search ends at 7 (the source would panic there). */
  function FirstDifference(x: Pattern, y: Pattern, from: nat): (r: Option<nat>)
    requires |x| == Wires && |y| == Wires && from <= Wires
    ensures r.Some? ==> from <= r.value < Wires && Xor(x[r.value], y[r.value]) == 1
    ensures r.Some? ==> forall v :: from <= v < r.value ==> Xor(x[v], y[v]) == 0
    ensures r.None? ==> forall v :: from <= v < Wires ==> Xor(x[v], y[v]) == 0
    decreases Wires - from
  {
    if from == Wires then None
    else if Xor(x[from], y[from]) == 1 then Some(from)
    else FirstDifference(x, y, from + 1)
  }

  /** `(0..7).find(|w| x[w] == 0)`. */
  function FirstZero(x: Pattern, from: nat): (r: Option<nat>)
    requires |x| == Wires && from <= Wires
    ensures r.Some? ==> from <= r.value < Wires && x[r.value] == 0 && forall v :: from <= v < r.value ==> x[v] != 0
    ensures r.None? ==> forall v :: from <= v < Wires ==> x[v] != 0
    decreases Wires - from
  {
    if from == Wires then None else if x[from] == 0 then Some(from) else FirstZero(x, from + 1)
  }

  /** `(0..7).find(|w| !segments.contains(w))`. */
  function FirstMissing(segments: seq<nat>, from: nat): (r: Option<nat>)
    requires from <= Wires
    ensures r.Some? ==> from <= r.value < Wires && r.value !in segments
    ensures r.Some? ==> forall v: nat :: from <= v < r.value ==> v in segments
    ensures r.None? ==> forall v: nat :: from <= v < Wires ==> v in segments
    decreases Wires - from
  {
    if from == Wires then None else if from !in segments then Some(from) else FirstMissing(segments, from + 1)
  }

  /** The wires below `k` where `x` and `y` differ, in order: what the `for_each` pushes collect. */
  function DiffersBelow(x: Pattern, y: Pattern, k: nat): seq<nat>
    requires |x| == Wires && |y| == Wires && k <= Wires
  {
    if k == 0 then [] else DiffersBelow(x, y, k - 1) + (if Xor(x[k - 1], y[k - 1]) == 1 then [k - 1] else [])
  }

  const Dark: Pattern := [0, 0, 0, 0, 0, 0, 0]

  /** When `x` and `y` differ exactly on wires `a < b`, the pushes collect `[a, b]`. */
  lemma {:induction false} DiffersPair(x: Pattern, y: Pattern, a: nat, b: nat, k: nat)
    requires |x| == Wires && |y| == Wires && k <= Wires && a < b < Wires
    requires forall w :: 0 <= w < Wires ==> (Xor(x[w], y[w]) == 1 <==> w == a || w == b)
    ensures DiffersBelow(x, y, k) == if k <= a then [] else if k <= b then [a] else [a, b]
  {
    if k > 0 {
      DiffersPair(x, y, a, b, k - 1);
    }
  }

  // ---------------------------------------------------------------------
  // What each search finds on a scrambled display
  // ---------------------------------------------------------------------

  /** The easy digits: the first pattern with their number of segments is them. */
  lemma EasyDigit(ps: seq<Pattern>, p: seq<nat>, d: nat)
    requires Scrambled(ps, p) && d in {1, 4, 7, 8}
    ensures FirstWithOnes(ps, SegmentLengths[d], 0).Some?
    ensures ps[FirstWithOnes(ps, SegmentLengths[d], 0).value] == Shown(p, d)
  {
    SegmentLengthsAgree();
    assert AmongPatterns(ps, p, d);
    var i :| 0 <= i < |ps| && ps[i] == Shown(p, d);
    RenderOnes(p, Segments[d]);
    var r := FirstWithOnes(ps, SegmentLengths[d], 0);
    assert Ones(ps[i]) == SegmentLengths[d];
    assert r.Some?;
    var j := r.value;
    assert ShowsSome(ps[j], p);
    var e :| 0 <= e < 10 && ps[j] == Shown(p, e);
    RenderOnes(p, Segments[e]);
    UniqueLengths(d, e);
  }

  /** A pattern with six lit wires is 0, 6 or 9. */
  lemma SixLit(ps: seq<Pattern>, p: seq<nat>, i: nat) returns (e: nat)
    requires Scrambled(ps, p) && i < |ps| && Ones(ps[i]) == 6
    ensures e in {0, 6, 9} && ps[i] == Shown(p, e)
  {
    SegmentLengthsAgree();
    assert ShowsSome(ps[i], p);
    e :| 0 <= e < 10 && ps[i] == Shown(p, e);
    RenderOnes(p, Segments[e]);
  }

  /** Wires `c0, c1` are segments `c` and `f`; wires `b0, b1` are `b` and `d`. */
  predicate Pairs(p: seq<nat>, c0: nat, c1: nat, b0: nat, b1: nat)
    requires |p| == Wires
  {
    ((c0 == p[2] && c1 == p[5]) || (c0 == p[5] && c1 == p[2]))
    && ((b0 == p[1] && b1 == p[3]) || (b0 == p[3] && b1 == p[1]))
  }

  /** The six-segment patterns that pass a test are exactly the given digit. */
  lemma SixSegmentFind(ps: seq<Pattern>, p: seq<nat>, t: Test, digit: nat)
    requires Scrambled(ps, p) && TestOk(t) && forall i :: 0 <= i < |ps| ==> |ps[i]| == Wires
    requires digit < 10 && Ones(Segments[digit]) == 6 && Passes(Shown(p, digit), t)
    requires forall e :: e in {0, 6, 9} && e != digit ==> !Passes(Shown(p, e), t)
    ensures FindSix(ps, t, 0).Some? && ps[FindSix(ps, t, 0).value] == Shown(p, digit)
  {
    assert AmongPatterns(ps, p, digit);
    var i :| 0 <= i < |ps| && ps[i] == Shown(p, digit);
    var r := FindSix(ps, t, 0);
    assert Passes(ps[i], t);
    assert r.Some?;
    var e := SixLit(ps, p, r.value);
  }

  /** Every wire carries exactly one segment. */
  lemma WireOf(p: seq<nat>, w: nat) returns (n: nat)
    requires Wiring(p) && w < Wires
    ensures n < Wires && p[n] == w
  {
    assert w in p;
    n :| 0 <= n < |p| && p[n] == w;
  }

  /** Digit `d` shown through `p` lights wire `p[n]` exactly when the digit has segment `n`. */
  lemma ShownLit(p: seq<nat>, d: nat)
    requires Wiring(p) && d < 10
    ensures Bits(Shown(p, d))
    ensures forall n :: 0 <= n < Wires ==> Shown(p, d)[p[n]] == Segments[d][n]
  {
    SegmentLengthsAgree();
    RenderAt(p, Segments[d]);
  }

  /** When `x` and `y` differ at the wires of segments `n1` and `n2` only, the pushes collect those two wires in order. */
  lemma PairOfWires(p: seq<nat>, x: Pattern, y: Pattern, n1: nat, n2: nat)
    requires Wiring(p) && |x| == Wires && |y| == Wires && n1 < Wires && n2 < Wires && n1 != n2
    requires forall n :: 0 <= n < Wires ==> (Xor(x[p[n]], y[p[n]]) == 1 <==> n == n1 || n == n2)
    ensures DiffersBelow(x, y, Wires) == if p[n1] < p[n2] then [p[n1], p[n2]] else [p[n2], p[n1]]
  {
    var a, b := if p[n1] < p[n2] then p[n1] else p[n2], if p[n1] < p[n2] then p[n2] else p[n1];
    forall w: nat | w < Wires ensures Xor(x[w], y[w]) == 1 <==> w == a || w == b {
      var n := WireOf(p, w);
    }
    DiffersPair(x, y, a, b, Wires);
  }

  /** `c_or_f`: the wires lit by 1 are those of segments `c` and `f`. */
  lemma CorF(p: seq<nat>)
    requires Wiring(p)
    ensures DiffersBelow(Shown(p, 1), Dark, Wires) == if p[2] < p[5] then [p[2], p[5]] else [p[5], p[2]]
  {
    ShownLit(p, 1);
    PairOfWires(p, Shown(p, 1), Dark, 2, 5);
  }

  /** `b_or_d`: the wires 4 lights beyond 1 are those of segments `b` and `d`. */
  lemma BorD(p: seq<nat>)
    requires Wiring(p)
    ensures DiffersBelow(Shown(p, 4), Shown(p, 1), Wires) == if p[1] < p[3] then [p[1], p[3]] else [p[3], p[1]]
  {
    ShownLit(p, 1);
    ShownLit(p, 4);
    PairOfWires(p, Shown(p, 4), Shown(p, 1), 1, 3);
  }

  /** `segments[0]`: 7 lights one wire more than 1, that of segment `a`. */
  lemma TopSegment(p: seq<nat>)
    requires Wiring(p)
    ensures FirstDifference(Shown(p, 7), Shown(p, 1), 0) == Some(p[0])
  {
    ShownLit(p, 7);
    ShownLit(p, 1);
    assert Xor(Shown(p, 7)[p[0]], Shown(p, 1)[p[0]]) == 1;
    var r := FirstDifference(Shown(p, 7), Shown(p, 1), 0);
    assert r.Some?;
    var n := WireOf(p, r.value);
  }

  /** The wire digit `d` leaves dark, when `d` lacks segment `k` alone. */
  lemma SoleDark(p: seq<nat>, d: nat, k: nat)
    requires Wiring(p) && (d, k) in {(9, 4), (0, 3), (6, 2)}
    ensures FirstZero(Shown(p, d), 0) == Some(p[k])
  {
    ShownLit(p, d);
    assert Shown(p, d)[p[k]] == 0;
    var r := FirstZero(Shown(p, d), 0);
    assert r.Some?;
    var n := WireOf(p, r.value);
  }

  /** Segments `a` to `f` placed, `g` still 255: every wire but that of `g` is among them. */
  lemma Placed(p: seq<nat>)
    requires Wiring(p)
    ensures p[6] !in [p[0], p[1], p[2], p[3], p[4], p[5], 255]
    ensures forall n :: 0 <= n < 6 ==> p[n] in [p[0], p[1], p[2], p[3], p[4], p[5], 255]
  {
    var placed := [p[0], p[1], p[2], p[3], p[4], p[5], 255];
    forall n | 0 <= n < 6 ensures p[n] in placed {
      assert placed[n] == p[n];
    }
  }

  /** `segments[6]`: with segments `a` to `f` placed, the first wire not among them is that of `g`. */
  lemma LastSegment(p: seq<nat>)
    requires Wiring(p)
    ensures FirstMissing([p[0], p[1], p[2], p[3], p[4], p[5], 255], 0) == Some(p[6])
  {
    Placed(p);
    var r := FirstMissing([p[0], p[1], p[2], p[3], p[4], p[5], 255], 0);
    assert r.Some?;
    var n := WireOf(p, r.value);
  }

  lemma SevenEntries(s: seq<nat>)
    requires |s| == Wires
    ensures s == [s[0], s[1], s[2], s[3], s[4], s[5], s[6]]
  {
  }

  /** The pushes' sorted pairs are the candidates for `c`, `f` and for `b`, `d`. */
  lemma SortedPairs(p: seq<nat>, cOrF: seq<nat>, bOrD: seq<nat>)
    requires |p| == Wires
    requires cOrF == if p[2] < p[5] then [p[2], p[5]] else [p[5], p[2]]
    requires bOrD == if p[1] < p[3] then [p[1], p[3]] else [p[3], p[1]]
    ensures |cOrF| == 2 && |bOrD| == 2 && Pairs(p, cOrF[0], cOrF[1], bOrD[0], bOrD[1])
  {
  }

  /** Of the two candidates in `pair`, the one that is not `x`. */
  lemma OtherOfPair(pair: seq<nat>, y: nat, x: nat)
    requires |pair| == 2 && x != y && ((pair[0] == x && pair[1] == y) || (pair[0] == y && pair[1] == x))
    ensures (if pair[0] == x then pair[1] else pair[0]) == y
  {
  }

  /** The three searches among the six-segment digits find 9, 0 and 6. */
  lemma FindNine(ps: seq<Pattern>, p: seq<nat>, c0: nat, c1: nat, b0: nat, b1: nat)
    requires Scrambled(ps, p) && forall i :: 0 <= i < |ps| ==> |ps[i]| == Wires
    requires Pairs(p, c0, c1, b0, b1)
    ensures TestOk(LitAll(c0, c1, b0, b1))
    ensures FindSix(ps, LitAll(c0, c1, b0, b1), 0).Some?
    ensures ps[FindSix(ps, LitAll(c0, c1, b0, b1), 0).value] == Shown(p, 9)
  {
    SegmentLengthsAgree();
    ShownLit(p, 0);
    ShownLit(p, 6);
    ShownLit(p, 9);
    RenderOnes(p, Segments[9]);
    var t := LitAll(c0, c1, b0, b1);
    assert !Passes(Shown(p, 0), t) by {
      assert Shown(p, 0)[p[3]] == 0;
    }
    assert !Passes(Shown(p, 6), t) by {
      assert Shown(p, 6)[p[2]] == 0;
    }
    SixSegmentFind(ps, p, t, 9);
  }

  lemma FindZero(ps: seq<Pattern>, p: seq<nat>, c0: nat, c1: nat, b0: nat, b1: nat)
    requires Scrambled(ps, p) && forall i :: 0 <= i < |ps| ==> |ps[i]| == Wires
    requires Pairs(p, c0, c1, b0, b1)
    ensures TestOk(Differ(b0, b1))
    ensures FindSix(ps, Differ(b0, b1), 0).Some?
    ensures ps[FindSix(ps, Differ(b0, b1), 0).value] == Shown(p, 0)
  {
    SegmentLengthsAgree();
    ShownLit(p, 0);
    ShownLit(p, 6);
    ShownLit(p, 9);
    RenderOnes(p, Segments[0]);
    var t := Differ(b0, b1);
    assert Shown(p, 6)[p[1]] == Shown(p, 6)[p[3]];
    assert Shown(p, 9)[p[1]] == Shown(p, 9)[p[3]];
    SixSegmentFind(ps, p, t, 0);
  }

  lemma FindSixDigit(ps: seq<Pattern>, p: seq<nat>, c0: nat, c1: nat, b0: nat, b1: nat)
    requires Scrambled(ps, p) && forall i :: 0 <= i < |ps| ==> |ps[i]| == Wires
    requires Pairs(p, c0, c1, b0, b1)
    ensures TestOk(Differ(c0, c1))
    ensures FindSix(ps, Differ(c0, c1), 0).Some?
    ensures ps[FindSix(ps, Differ(c0, c1), 0).value] == Shown(p, 6)
  {
    SegmentLengthsAgree();
    ShownLit(p, 0);
    ShownLit(p, 6);
    ShownLit(p, 9);
    RenderOnes(p, Segments[6]);
    var t := Differ(c0, c1);
    assert Shown(p, 0)[p[2]] == Shown(p, 0)[p[5]];
    assert Shown(p, 9)[p[2]] == Shown(p, 9)[p[5]];
    SixSegmentFind(ps, p, t, 6);
  }

  lemma ScrambledWidths(ps: seq<Pattern>, p: seq<nat>)
    requires Scrambled(ps, p)
    ensures forall i :: 0 <= i < |ps| ==> |ps[i]| == Wires
  {
    forall i | 0 <= i < |ps| ensures |ps[i]| == Wires {
      assert ShowsSome(ps[i], p);
    }
  }

  // ---------------------------------------------------------------------
  // deduce_segments
  // ---------------------------------------------------------------------

  /** The pushes onto `c_or_f` and `b_or_d`: the wires where `x` and `y` differ, in order. */
  method Differences(x: Pattern, y: Pattern) returns (pushed: seq<nat>)
    requires |x| == Wires && |y| == Wires
    ensures pushed == DiffersBelow(x, y, Wires)
  {
    pushed := [];
    for w := 0 to Wires
      invariant pushed == DiffersBelow(x, y, w)
    {
      if Xor(x[w], y[w]) == 1 {
        pushed := pushed + [w];
      }
    }
  }

  /** The first loop of `deduce_segments`: 1, 4, 7 and 8 by their numbers of segments. */
  method FillEasy(pattern: seq<Pattern>, digits: array<Pattern>, ghost p: seq<nat>)
    requires Scrambled(pattern, p) && digits.Length == 10
    modifies digits
    ensures digits[1] == Shown(p, 1) && digits[4] == Shown(p, 4) && digits[7] == Shown(p, 7) && digits[8] == Shown(p, 8)
  {
    ScrambledWidths(pattern, p);
    var easy := [1, 4, 7, 8];
    for k := 0 to 4
      invariant forall j :: 0 <= j < k ==> digits[easy[j]] == Shown(p, easy[j])
    {
      EasyDigit(pattern, p, easy[k]);
      digits[easy[k]] := pattern[FirstWithOnes(pattern, SegmentLengths[easy[k]], 0).value];
    }
    assert digits[easy[0]] == Shown(p, 1) && digits[easy[1]] == Shown(p, 4);
    assert digits[easy[2]] == Shown(p, 7) && digits[easy[3]] == Shown(p, 8);
  }

  /**
   * The second half of `deduce_segments`: with 9, 0 and 6 in hand, the dark
   * wire of each and the pairs of candidates place segments `b` to `g`.
   */
  method PlaceSegments(wires: array<nat>, nine: Pattern, zero: Pattern, six: Pattern,
                       cOrF: seq<nat>, bOrD: seq<nat>, ghost p: seq<nat>)
    requires Wiring(p) && wires.Length == Wires && wires[0] == p[0]
    requires forall n :: 1 <= n < Wires ==> wires[n] == 255
    requires nine == Shown(p, 9) && zero == Shown(p, 0) && six == Shown(p, 6)
    requires |cOrF| == 2 && |bOrD| == 2 && Pairs(p, cOrF[0], cOrF[1], bOrD[0], bOrD[1])
    modifies wires
    ensures wires[..] == p
  {
    SoleDark(p, 9, 4);
    SoleDark(p, 0, 3);
    SoleDark(p, 6, 2);
    OtherOfPair(bOrD, p[1], p[3]);
    OtherOfPair(cOrF, p[5], p[2]);
    var e := FirstZero(nine, 0).value;
    var d := FirstZero(zero, 0).value;
    var b := if bOrD[0] == d then bOrD[1] else bOrD[0];
    var c := FirstZero(six, 0).value;
    var f := if cOrF[0] == c then cOrF[1] else cOrF[0];
    wires[4], wires[3], wires[1], wires[2], wires[5] := e, d, b, c, f;
    // `g` is the wire left over.
    var placed := wires[..];
    SevenEntries(placed);
    LastSegment(p);
    wires[6] := FirstMissing(placed, 0).value;
    SevenEntries(wires[..]);
    SevenEntries(p);
  }

  /** The first half of `deduce_segments`: the easy digits, the candidates for `c`, `f` and `b`, `d`, and segment `a`. */
  method EasyClues(pattern: seq<Pattern>, digits: array<Pattern>, ghost p: seq<nat>)
    returns (cOrF: seq<nat>, bOrD: seq<nat>, top: nat)
    requires Scrambled(pattern, p) && digits.Length == 10
    modifies digits
    ensures |cOrF| == 2 && |bOrD| == 2 && Pairs(p, cOrF[0], cOrF[1], bOrD[0], bOrD[1])
    ensures top == p[0]
  {
    FillEasy(pattern, digits, p);
    var one, four, seven := digits[1], digits[4], digits[7];

    // The wires 1 lights: those of `c` and `f`.
    ShownLit(p, 1);
    cOrF := Differences(one, Dark);
    CorF(p);

    // 7 is 1 and `a`.
    TopSegment(p);
    top := FirstDifference(seven, one, 0).value;

    // 4 has `b` and `d` over 1.
    bOrD := Differences(four, one);
    BorD(p);
    SortedPairs(p, cOrF, bOrD);
  }

  /**
   * `deduce_segments`: when the ten patterns are the digits shown through
   * some wiring `p`, the segments found are that wiring: entry `n` is the
   * wire that drives canonical segment `n`.
   */
  method DeduceSegments(pattern: seq<Pattern>, ghost p: seq<nat>) returns (segments: seq<nat>)
    requires Scrambled(pattern, p)
    ensures segments == p
  {
    ScrambledWidths(pattern, p);
    var digits := new Pattern[10](_ => Dark);
    var wires := new nat[Wires](_ => 255);
    var cOrF, bOrD, top := EasyClues(pattern, digits, p);
    wires[0] := top;

    // Among 0, 6 and 9 only 9 has all of `b`, `c`, `d`, `f`; 0 has one of `b`, `d`; 6 one of `c`, `f`.
    FindNine(pattern, p, cOrF[0], cOrF[1], bOrD[0], bOrD[1]);
    var nine := pattern[FindSix(pattern, LitAll(cOrF[0], cOrF[1], bOrD[0], bOrD[1]), 0).value];
    digits[9] := nine;
    FindZero(pattern, p, cOrF[0], cOrF[1], bOrD[0], bOrD[1]);
    var zero := pattern[FindSix(pattern, Differ(bOrD[0], bOrD[1]), 0).value];
    digits[0] := zero;
    FindSixDigit(pattern, p, cOrF[0], cOrF[1], bOrD[0], bOrD[1]);
    var six := pattern[FindSix(pattern, Differ(cOrF[0], cOrF[1]), 0).value];
    digits[6] := six;

    PlaceSegments(wires, nine, zero, six, cOrF, bOrD, p);
    segments := wires[..];
  }

  // ---------------------------------------------------------------------
  // translate_output
  // ---------------------------------------------------------------------

  /** The closure over `SEGMENTS` in `translate_output`: digit `s` drawn through `mapping`. */
  method Translate(s: Pattern, mapping: seq<nat>) returns (translation: Pattern)
    requires Mapping(mapping) && Bits(s)
    ensures translation == Render(mapping, s)
  {
    var t := new nat[Wires](_ => 0);
    assert t[..] == RenderBelow(mapping, s, 0);
    for n := 0 to Wires
      invariant t[..] == RenderBelow(mapping, s, n)
    {
      if s[n] == 1 {
        t[mapping[n]] := 1;
      }
    }
    translation := t[..];
  }

  /** `translated_segments`: the ten digits drawn through `mapping`. */
  method TranslatedSegments(mapping: seq<nat>) returns (table: seq<Pattern>)
    requires Mapping(mapping)
    ensures |table| == 10 && forall d :: 0 <= d < 10 ==> table[d] == Shown(mapping, d)
  {
    SegmentLengthsAgree();
    table := [];
    for d := 0 to 10
      invariant |table| == d && forall e :: 0 <= e < d ==> table[e] == Shown(mapping, e)
    {
      var x := Translate(Segments[d], mapping);
      table := table + [x];
    }
  }

  /** Through a wiring, a pattern is at most one digit. */
  lemma ShownInjective(p: seq<nat>, d: nat, e: nat)
    requires Wiring(p) && d < 10 && e < 10 && Shown(p, d) == Shown(p, e)
    ensures d == e
  {
    if d != e {
      RenderInjective(p, d, e);
    }
  }

  /** `.enumerate().find(|(_, x)| *x == num)`: the first digit drawn like `num`. */
  function FirstMatch(table: seq<Pattern>, num: Pattern, from: nat): (r: Option<nat>)
    requires from <= |table|
    ensures r.Some? ==> from <= r.value < |table| && table[r.value] == num
    ensures r.Some? ==> forall d :: from <= d < r.value ==> table[d] != num
    ensures r.None? ==> forall d :: from <= d < |table| ==> table[d] != num
    decreases |table| - from
  {
    if from == |table| then None
    else if table[from] == num then Some(from)
    else FirstMatch(table, num, from + 1)
  }

  /**
   * `translate_output`: every output pattern becomes the first digit that
   * looks like it through `mapping` (the source panics when none does).
   * Through a true wiring the digits look different, so that digit is the
   * one shown.
   */
  method TranslateOutput(output: seq<Pattern>, mapping: seq<nat>) returns (values: seq<nat>)
    requires Mapping(mapping)
    requires forall i :: 0 <= i < |output| ==> ShowsSome(output[i], mapping)
    ensures |values| == |output|
    ensures forall i :: 0 <= i < |output| ==> values[i] < 10 && output[i] == Shown(mapping, values[i])
    ensures forall i, d :: 0 <= i < |output| && 0 <= d < values[i] ==> output[i] != Shown(mapping, d)
    ensures Wiring(mapping) ==>
      forall i, d :: 0 <= i < |output| && 0 <= d < 10 && output[i] == Shown(mapping, d) ==> values[i] == d
  {
    var table := TranslatedSegments(mapping);
    values := [];
    for i := 0 to |output|
      invariant |values| == i
      invariant forall j :: 0 <= j < i ==> values[j] < 10 && output[j] == Shown(mapping, values[j])
      invariant forall j, d :: 0 <= j < i && 0 <= d < values[j] ==> output[j] != Shown(mapping, d)
    {
      assert ShowsSome(output[i], mapping);
      var e :| 0 <= e < 10 && output[i] == Shown(mapping, e);
      var r := FirstMatch(table, output[i], 0);
      assert table[e] == output[i];
      values := values + [r.value];
    }
    if Wiring(mapping) {
      forall i, d | 0 <= i < |output| && 0 <= d < 10 && output[i] == Shown(mapping, d) ensures values[i] == d {
        ShownInjective(mapping, values[i], d);
      }
    }
  }

  // ---------------------------------------------------------------------
  // digits_to_value
  // ---------------------------------------------------------------------

  /** The decimal value of a list of digits, most significant first. */
  function Positional(ds: seq<nat>): nat
  {
    if ds == [] then 0 else Positional(ds[..|ds| - 1]) * 10 + ds[|ds| - 1]
  }

  /** `.map(|x| x.to_string()).join("")` for single digits. */
  function DigitString(ds: seq<nat>): (s: string)
    requires forall i :: 0 <= i < |ds| ==> ds[i] < 10
    ensures |s| == |ds|
  {
    if ds == [] then "" else DigitString(ds[..|ds| - 1]) + [('0' as int + ds[|ds| - 1]) as char]
  }

  lemma {:induction false} DigitStringValue(ds: seq<nat>)
    requires forall i :: 0 <= i < |ds| ==> ds[i] < 10
    ensures AllDigits(DigitString(ds)) && DecimalValue(DigitString(ds)) == Positional(ds)
  {
    if ds != [] {
      var front := ds[..|ds| - 1];
      DigitStringValue(front);
      var s := DigitString(ds);
      assert s[..|s| - 1] == DigitString(front);
    }
  }

  /** `digits_to_value`: the digits parsed back as a `u16` are their positional value. */
  function DigitsToValue(ds: seq<nat>): (v: nat)
    requires forall i :: 0 <= i < |ds| ==> ds[i] < 10
    requires |ds| > 0 && Positional(ds) < U16
    ensures v == Positional(ds) && v < U16
  {
    DigitStringValue(ds);
    ParseUnsigned(DigitString(ds), U16).value
  }

  /** The `unwrap` in `digits_to_value` fails exactly on an empty list or a value beyond `u16`. */
  lemma DigitsToValueDefined(ds: seq<nat>)
    requires forall i :: 0 <= i < |ds| ==> ds[i] < 10
    ensures ParseUnsigned(DigitString(ds), U16).Some? <==> |ds| > 0 && Positional(ds) < U16
  {
    DigitStringValue(ds);
  }

  // ---------------------------------------------------------------------
  // The two answers
  // ---------------------------------------------------------------------

  type Entry = (seq<Pattern>, seq<Pattern>)

  /** An entry whose patterns are scrambled by `p` and whose output shows `digits`. */
  predicate Reading(entry: Entry, p: seq<nat>, digits: seq<nat>)
  {
    Scrambled(entry.0, p)
    && |digits| == |entry.1|
    && forall j :: 0 <= j < |digits| ==> digits[j] < 10 && entry.1[j] == Shown(p, digits[j])
  }

  /** How many of the digits are 1, 4, 7 or 8. */
  function EasyCount(digits: seq<nat>): nat
  {
    if digits == [] then 0 else EasyCount(digits[..|digits| - 1]) + (if digits[|digits| - 1] in {1, 4, 7, 8} then 1 else 0)
  }

  /** How many patterns light 2, 3, 4 or 7 wires: the puzzle's own statement of part 1. */
  function LengthCount(output: seq<Pattern>): nat
  {
    if output == [] then 0 else LengthCount(output[..|output| - 1]) + (if Ones(output[|output| - 1]) in {2, 3, 4, 7} then 1 else 0)
  }

  /** Counting the translated 1, 4, 7 and 8 is counting the patterns by their lengths. */
  lemma {:induction false} EasyByLength(output: seq<Pattern>, p: seq<nat>, digits: seq<nat>)
    requires Wiring(p) && |digits| == |output|
    requires forall j :: 0 <= j < |digits| ==> digits[j] < 10 && output[j] == Shown(p, digits[j])
    ensures EasyCount(digits) == LengthCount(output)
  {
    if digits != [] {
      var k := |digits| - 1;
      EasyByLength(output[..k], p, digits[..k]);
      SegmentLengthsAgree();
      RenderOnes(p, Segments[digits[k]]);
      assert Ones(output[k]) == SegmentLengths[digits[k]];
    }
  }

  function EasyTotal(readings: seq<seq<nat>>, k: nat): nat
    requires k <= |readings|
  {
    if k == 0 then 0 else EasyTotal(readings, k - 1) + EasyCount(readings[k - 1])
  }

  function ValueTotal(readings: seq<seq<nat>>, k: nat): nat
    requires k <= |readings|
  {
    if k == 0 then 0 else ValueTotal(readings, k - 1) + Positional(readings[k - 1])
  }

  /**
   * `main`: deduce every display's wiring, read its output, then count the
   * 1s, 4s, 7s and 8s (part 1) and add up the four-digit values (part 2).
   */
  method Solve(entries: seq<Entry>, ghost wirings: seq<seq<nat>>, ghost readings: seq<seq<nat>>)
    returns (part1: nat, part2: nat)
    requires |wirings| == |entries| && |readings| == |entries|
    requires forall i :: 0 <= i < |entries| ==> Reading(entries[i], wirings[i], readings[i])
    requires forall i :: 0 <= i < |entries| ==> |readings[i]| > 0 && Positional(readings[i]) < U16
    ensures part1 == EasyTotal(readings, |readings|)
    ensures part2 == ValueTotal(readings, |readings|)
  {
    part1, part2 := 0, 0;
    for i := 0 to |entries|
      invariant part1 == EasyTotal(readings, i) && part2 == ValueTotal(readings, i)
    {
      var (patterns, output) := entries[i];
      assert Reading(entries[i], wirings[i], readings[i]);
      var mapping := DeduceSegments(patterns, wirings[i]);
      forall j | 0 <= j < |output| ensures ShowsSome(output[j], mapping) {
        assert output[j] == Shown(mapping, readings[i][j]);
      }
      var values := TranslateOutput(output, mapping);
      assert values == readings[i];
      part1 := part1 + EasyCount(values);
      part2 := part2 + DigitsToValue(values);
    }
  }
}
