/**
 * The string handling the solvers share: `split`, `split_once`,
 * `split_whitespace` and the integer `parse` of the Rust standard library,
 * over strings of characters.
 */
module Text {
  import opened Options

  // ---------------------------------------------------------------------
  // Finding and splitting on a separator
  // ---------------------------------------------------------------------

  predicate OccursAt(s: string, pat: string, k: nat)
  {
    k + |pat| <= |s| && s[k..k + |pat|] == pat
  }

  lemma OccursShift(s: string, pat: string, j: nat)
    requires |s| > 0
    ensures OccursAt(s, pat, j + 1) <==> OccursAt(s[1..], pat, j)
  {
    if j + 1 + |pat| <= |s| {
      assert s[j + 1..j + 1 + |pat|] == s[1..][j..j + |pat|];
    }
  }

  /** The first position where `pat` occurs in `s`. */
  function Find(s: string, pat: string): (r: Option<nat>)
    requires |pat| > 0
    ensures r.Some? ==> OccursAt(s, pat, r.value) && forall k :: 0 <= k < r.value ==> !OccursAt(s, pat, k)
    ensures r.None? ==> forall k :: 0 <= k <= |s| ==> !OccursAt(s, pat, k)
    decreases |s|
  {
    if |s| < |pat| then None
    else if s[..|pat|] == pat then Some(0)
    else
      var rest := Find(s[1..], pat);
      forall k: nat | 0 < k ensures OccursAt(s, pat, k) <==> OccursAt(s[1..], pat, k - 1) {
        OccursShift(s, pat, k - 1);
      }
      assert !OccursAt(s, pat, 0);
      match rest
      case None => None
      case Some(k) => Some(k + 1)
  }

  /** `str::split_once(pat)`: the text before and after the first occurrence. */
  function SplitOnce(s: string, pat: string): (r: Option<(string, string)>)
    requires |pat| > 0
    ensures r.None? <==> Find(s, pat).None?
    ensures r.Some? ==> s == r.value.0 + pat + r.value.1 && Find(r.value.0, pat).None?
  {
    match Find(s, pat)
    case None => None
    case Some(k) =>
      assert s == s[..k] + pat + s[k + |pat|..];
      NoEarlierOccurrence(s, pat, k);
      Some((s[..k], s[k + |pat|..]))
  }

  lemma NoEarlierOccurrence(s: string, pat: string, k: nat)
    requires |pat| > 0 && k <= |s|
    requires forall j :: 0 <= j < k ==> !OccursAt(s, pat, j)
    ensures Find(s[..k], pat).None?
  {
    var p := s[..k];
    forall j | 0 <= j <= |p| ensures !OccursAt(p, pat, j) {
      if j + |pat| <= |p| {
        OccursInPrefix(s, pat, k, j);
      }
    }
  }

  lemma OccursInPrefix(s: string, pat: string, k: nat, j: nat)
    requires j + |pat| <= k <= |s|
    ensures OccursAt(s[..k], pat, j) <==> OccursAt(s, pat, j)
  {
    assert s[..k][j..j + |pat|] == s[j..j + |pat|];
  }

  /** The first occurrence of a separator splits the text there. */
  lemma SplitOnceAt(s: string, pat: string, k: nat)
    requires |pat| > 0 && OccursAt(s, pat, k)
    requires forall j :: 0 <= j < k ==> !OccursAt(s, pat, j)
    ensures SplitOnce(s, pat) == Some((s[..k], s[k + |pat|..]))
  {
    var r := Find(s, pat);
    assert r.Some?;
    assert r.value == k;
  }

  /** Splitting on a one-character separator at its first occurrence. */
  lemma SplitOnceChar(a: string, c: char, b: string)
    requires c !in a
    ensures SplitOnce(a + [c] + b, [c]) == Some((a, b))
  {
    var s := a + [c] + b;
    assert s[|a|..|a| + 1] == [c];
    forall j | 0 <= j < |a| ensures !OccursAt(s, [c], j) {
      assert s[j..j + 1] == [a[j]];
    }
    SplitOnceAt(s, [c], |a|);
    assert s[..|a|] == a;
    assert s[|a| + 1..] == b;
  }

  /** A text without the separator has no occurrence of it. */
  lemma FindNoChar(a: string, c: char)
    requires c !in a
    ensures Find(a, [c]).None?
  {
    forall k | 0 <= k <= |a| ensures !OccursAt(a, [c], k) {
      if k + 1 <= |a| {
        assert a[k..k + 1] == [a[k]];
      }
    }
  }

  /** `str::strip_prefix(p)`: the rest of the text when it starts with `p`. */
  function StripPrefix(s: string, p: string): (r: Option<string>)
    ensures r.Some? <==> |p| <= |s| && s[..|p|] == p
    ensures r.Some? ==> s == p + r.value
  {
    if |p| <= |s| && s[..|p|] == p then Some(s[|p|..]) else None
  }

  /** `str::split(pat)`: every piece between occurrences, empty pieces included. */
  function Split(s: string, pat: string): (parts: seq<string>)
    requires |pat| > 0
    ensures |parts| >= 1
    ensures forall i :: 0 <= i < |parts| ==> Find(parts[i], pat).None?
    decreases |s|
  {
    match SplitOnce(s, pat)
    case None => [s]
    case Some((before, after)) => [before] + Split(after, pat)
  }

  /** Joins pieces with the separator in between. */
  function Join(parts: seq<string>, pat: string): string
    requires |parts| >= 1
  {
    if |parts| == 1 then parts[0] else parts[0] + pat + Join(parts[1..], pat)
  }

  /** Splitting loses nothing: joining the pieces gives the text back. */
  lemma {:induction false} SplitJoin(s: string, pat: string)
    requires |pat| > 0
    ensures Join(Split(s, pat), pat) == s
    decreases |s|
  {
    match SplitOnce(s, pat)
    case None =>
    case Some((before, after)) =>
      SplitJoin(after, pat);
      assert Split(s, pat) == [before] + Split(after, pat);
  }

  /** A text with no separator splits into itself alone. */
  lemma SplitNone(s: string, pat: string)
    requires |pat| > 0 && Find(s, pat).None?
    ensures Split(s, pat) == [s]
  {
  }

  // ---------------------------------------------------------------------
  // `split_whitespace`
  // ---------------------------------------------------------------------

  /**
   * The characters of Unicode's `White_Space` property, on which
   * `split_whitespace` splits: tab, line feed, vertical tab, form feed,
   * carriage return and space, next line, no-break space, the ogham space
   * mark, the spaces from U+2000 to U+200A, the line and paragraph
   * separators, the narrow no-break space, the medium mathematical space and
   * the ideographic space.
   */
  predicate IsSpace(c: char)
  {
    var n := c as int;
    (0x09 <= n <= 0x0D) || n == 0x20 || n == 0x85 || n == 0xA0 || n == 0x1680
    || (0x2000 <= n <= 0x200A) || n == 0x2028 || n == 0x2029 || n == 0x202F
    || n == 0x205F || n == 0x3000
  }

  /** The length of the leading run of non-space characters. */
  function WordLength(s: string): (n: nat)
    ensures n <= |s|
    ensures forall k :: 0 <= k < n ==> !IsSpace(s[k])
    ensures n < |s| ==> IsSpace(s[n])
  {
    if s == [] || IsSpace(s[0]) then 0 else 1 + WordLength(s[1..])
  }

  /** `str::split_whitespace`: the maximal runs of non-space characters. */
  function Words(s: string): (ws: seq<string>)
    ensures forall i :: 0 <= i < |ws| ==> |ws[i]| > 0 && forall k :: 0 <= k < |ws[i]| ==> !IsSpace(ws[i][k])
    decreases |s|
  {
    if s == [] then []
    else if IsSpace(s[0]) then Words(s[1..])
    else
      var n := WordLength(s);
      [s[..n]] + Words(s[n..])
  }

  /** Every character of `g` is a space. */
  predicate Blank(g: string)
  {
    forall k :: 0 <= k < |g| ==> IsSpace(g[k])
  }

  /** A word: at least one character, none of them a space. */
  predicate IsWord(w: string)
  {
    |w| > 0 && forall k :: 0 <= k < |w| ==> !IsSpace(w[k])
  }

  /** Words with runs of spaces around them: `gaps[0] + ws[0] + gaps[1] + ... + gaps[|ws|]`. */
  function Weave(gaps: seq<string>, ws: seq<string>): string
    requires |gaps| == |ws| + 1
  {
    if ws == [] then gaps[0] else gaps[0] + ws[0] + Weave(gaps[1..], ws[1..])
  }

  /** Runs of spaces, of which every one between two words is non-empty. */
  predicate Spacing(gaps: seq<string>)
  {
    (forall i :: 0 <= i < |gaps| ==> Blank(gaps[i])) && forall i :: 0 < i < |gaps| - 1 ==> gaps[i] != []
  }

  /** The runs of spaces of `s` before, between and after its words. */
  function Gaps(s: string): (gaps: seq<string>)
    ensures |gaps| == |Words(s)| + 1
    decreases |s|
  {
    if s == [] then [[]]
    else if IsSpace(s[0]) then
      var g := Gaps(s[1..]);
      [[s[0]] + g[0]] + g[1..]
    else [[]] + Gaps(s[WordLength(s)..])
  }

  /** One more space in front of the first run. */
  lemma WeaveCons(c: char, g: seq<string>, ws: seq<string>)
    requires |g| == |ws| + 1
    ensures Weave([[c] + g[0]] + g[1..], ws) == [c] + Weave(g, ws)
  {
    var h := [[c] + g[0]] + g[1..];
    assert h[1..] == g[1..];
  }

  /**
   * `split_whitespace` drops exactly the spaces: `s` is its words woven with
   * runs of spaces, non-empty between two words, so the words are the
   * maximal runs of non-space characters of `s`, in order.
   */
  lemma {:induction false} WordsWoven(s: string)
    ensures Spacing(Gaps(s)) && Weave(Gaps(s), Words(s)) == s
    decreases |s|
  {
    if s == [] {
    } else if IsSpace(s[0]) {
      WordsWoven(s[1..]);
      WovenSpace(s);
    } else {
      WordsWoven(s[WordLength(s)..]);
      WovenWord(s, WordLength(s));
    }
  }

  lemma WovenSpace(s: string)
    requires s != [] && IsSpace(s[0])
    requires Spacing(Gaps(s[1..])) && Weave(Gaps(s[1..]), Words(s[1..])) == s[1..]
    ensures Spacing(Gaps(s)) && Weave(Gaps(s), Words(s)) == s
  {
    UnfoldSpace(s);
    var g := Gaps(s[1..]);
    WeaveCons(s[0], g, Words(s[1..]));
    assert [s[0]] + s[1..] == s;
    SpacingCons(s[0], g);
  }

  lemma UnfoldSpace(s: string)
    requires s != [] && IsSpace(s[0])
    ensures Gaps(s) == [[s[0]] + Gaps(s[1..])[0]] + Gaps(s[1..])[1..]
    ensures Words(s) == Words(s[1..])
  {
  }

  lemma SpacingCons(c: char, g: seq<string>)
    requires IsSpace(c) && |g| > 0 && Spacing(g)
    ensures Spacing([[c] + g[0]] + g[1..])
  {
    var h := [[c] + g[0]] + g[1..];
    assert Blank(h[0]) by {
      assert Blank(g[0]);
    }
    forall i | 0 < i < |h| ensures h[i] == g[i] {
    }
  }

  lemma WovenWord(s: string, n: nat)
    requires s != [] && !IsSpace(s[0]) && n == WordLength(s)
    requires Spacing(Gaps(s[n..])) && Weave(Gaps(s[n..]), Words(s[n..])) == s[n..]
    ensures Spacing(Gaps(s)) && Weave(Gaps(s), Words(s)) == s
  {
    var rest := s[n..];
    UnfoldWord(s);
    assert s == s[..n] + rest;
    WeaveWord(s[..n], rest, Gaps(rest), Words(rest), s);
    WovenWordSpacing(rest, Gaps(rest));
  }

  lemma WeaveWord(w: string, rest: string, g: seq<string>, ws: seq<string>, s: string)
    requires |g| == |ws| + 1 && Weave(g, ws) == rest && s == w + rest
    ensures Weave([[]] + g, [w] + ws) == s
  {
    WeaveFront([], w, g, ws);
    assert [] + w == w;
  }

  lemma UnfoldWord(s: string)
    requires s != [] && !IsSpace(s[0])
    ensures Gaps(s) == [[]] + Gaps(s[WordLength(s)..])
    ensures Words(s) == [s[..WordLength(s)]] + Words(s[WordLength(s)..])
  {
  }

  lemma WeaveFront(g0: string, w: string, g: seq<string>, ws: seq<string>)
    requires |g| == |ws| + 1
    ensures Weave([g0] + g, [w] + ws) == g0 + w + Weave(g, ws)
  {
    assert ([g0] + g)[1..] == g && ([w] + ws)[1..] == ws;
  }

  lemma WovenWordSpacing(rest: string, g: seq<string>)
    requires g == Gaps(rest) && Spacing(g)
    requires rest == [] || IsSpace(rest[0])
    ensures Spacing([[]] + g)
  {
    if rest != [] {
      assert g[0] == [rest[0]] + Gaps(rest[1..])[0];
    }
    var h := [[]] + g;
    forall i | 0 < i < |h| ensures h[i] == g[i - 1] {
    }
  }

  /** Runs of spaces in front of a text do not change its words. */
  lemma {:induction false} WordsAfterBlank(g: string, t: string)
    requires Blank(g)
    ensures Words(g + t) == Words(t)
    decreases |g|
  {
    if g != [] {
      assert (g + t)[0] == g[0] && IsSpace(g[0]);
      assert (g + t)[1..] == g[1..] + t;
      WordsAfterBlank(g[1..], t);
    } else {
      assert g + t == t;
    }
  }

  lemma {:induction false} WordLengthOf(w: string, t: string)
    requires IsWord(w) && (t == [] || IsSpace(t[0]))
    ensures WordLength(w + t) == |w|
    decreases |w|
  {
    if |w| > 1 {
      assert (w + t)[1..] == w[1..] + t;
      WordLengthOf(w[1..], t);
    } else {
      assert (w + t)[1..] == t;
    }
  }

  /** A word followed by a space or by nothing is the first word. */
  lemma WordsOfWord(w: string, t: string)
    requires IsWord(w) && (t == [] || IsSpace(t[0]))
    ensures Words(w + t) == [w] + Words(t)
  {
    WordLengthOf(w, t);
    assert (w + t)[..|w|] == w && (w + t)[|w|..] == t;
  }

  /** Splitting words woven with runs of spaces gives the words back. */
  lemma {:induction false} WordsOfWoven(gaps: seq<string>, ws: seq<string>)
    requires |gaps| == |ws| + 1 && Spacing(gaps)
    requires forall i :: 0 <= i < |ws| ==> IsWord(ws[i])
    ensures Words(Weave(gaps, ws)) == ws
    decreases |ws|
  {
    assert Blank(gaps[0]);
    if ws == [] {
      WordsAfterBlank(gaps[0], []);
      assert gaps[0] + [] == gaps[0];
    } else {
      var t := Weave(gaps[1..], ws[1..]);
      assert Spacing(gaps[1..]) by {
        forall i | 0 <= i < |gaps| - 1 ensures Blank(gaps[1..][i]) {
          assert gaps[1..][i] == gaps[i + 1];
        }
      }
      WordsOfWoven(gaps[1..], ws[1..]);
      assert IsWord(ws[0]);
      assert t == [] || IsSpace(t[0]) by {
        if ws[1..] == [] {
          assert t == gaps[1] && Blank(gaps[1]);
        } else {
          assert gaps[1] != [] && Blank(gaps[1]);
          assert t[0] == gaps[1][0];
        }
      }
      WordsOfWord(ws[0], t);
      assert Weave(gaps, ws) == gaps[0] + (ws[0] + t);
      WordsAfterBlank(gaps[0], ws[0] + t);
      assert [ws[0]] + ws[1..] == ws;
    }
  }

  // ---------------------------------------------------------------------
  // Integer parsing
  // ---------------------------------------------------------------------

  predicate IsDigit(c: char)
  {
    '0' <= c <= '9'
  }

  predicate AllDigits(s: string)
  {
    forall i :: 0 <= i < |s| ==> IsDigit(s[i])
  }

  function DigitValue(c: char): (d: nat)
    requires IsDigit(c)
    ensures d < 10
  {
    c as int - '0' as int
  }

  /** The decimal value of a string of digits. */
  function DecimalValue(s: string): nat
    requires AllDigits(s)
  {
    if s == [] then 0 else DecimalValue(s[..|s| - 1]) * 10 + DigitValue(s[|s| - 1])
  }

  /** The magnitude part of a number: at least one digit, nothing else. */
  function Magnitude(digits: string): (r: Option<nat>)
    ensures r.Some? <==> |digits| > 0 && AllDigits(digits)
    ensures r.Some? ==> r.value == DecimalValue(digits)
  {
    if |digits| > 0 && AllDigits(digits) then Some(DecimalValue(digits)) else None
  }

  /**
   * `parse::<uN>()` for an unsigned type whose values are below `bound`:
   * an optional `+`, then at least one digit; a `-`, any other character,
   * an empty string or a value out of range fail.
   */
  function ParseUnsigned(s: string, bound: nat): (r: Option<nat>)
    ensures r.Some? ==> r.value < bound
  {
    var digits := if |s| > 0 && s[0] == '+' then s[1..] else s;
    match Magnitude(digits)
    case Some(v) => if v < bound then Some(v) else None
    case None => None
  }

  /** `parse::<iN>()` for a signed type with values in `[lo, hi)`: an optional sign, then digits. */
  function ParseSigned(s: string, lo: int, hi: int): (r: Option<int>)
    ensures r.Some? ==> lo <= r.value < hi
  {
    var negative := |s| > 0 && s[0] == '-';
    var digits := if |s| > 0 && (s[0] == '+' || s[0] == '-') then s[1..] else s;
    match Magnitude(digits)
    case Some(v) =>
      var n: int := if negative then -(v as int) else v as int;
      if lo <= n < hi then Some(n) else None
    case None => None
  }

  /**
   * `.map(parse).collect::<Result<Vec<_>, _>>()`: every piece parsed, or
   * nothing if any piece fails.
   */
  function ParseAll(pieces: seq<string>, bound: nat): (r: Option<seq<nat>>)
    ensures r.Some? <==> forall i :: 0 <= i < |pieces| ==> ParseUnsigned(pieces[i], bound).Some?
    ensures r.Some? ==> |r.value| == |pieces|
    ensures r.Some? ==> forall i :: 0 <= i < |pieces| ==> Some(r.value[i]) == ParseUnsigned(pieces[i], bound)
  {
    if pieces == [] then Some([])
    else
      match (ParseUnsigned(pieces[0], bound), ParseAll(pieces[1..], bound))
      case (Some(v), Some(vs)) =>
        assert forall i :: 0 < i < |pieces| ==> pieces[i] == pieces[1..][i - 1];
        Some([v] + vs)
      case (None, _) => None
      case (_, None) =>
        assert forall i :: 0 <= i < |pieces| - 1 ==> pieces[1..][i] == pieces[i + 1];
        None
  }

  /** `.map(parse::<iN>).collect::<Result<Vec<_>, _>>()` for a signed type with values in `[lo, hi)`. */
  function ParseAllSigned(pieces: seq<string>, lo: int, hi: int): (r: Option<seq<int>>)
    ensures r.Some? <==> forall i :: 0 <= i < |pieces| ==> ParseSigned(pieces[i], lo, hi).Some?
    ensures r.Some? ==> |r.value| == |pieces|
    ensures r.Some? ==> forall i :: 0 <= i < |pieces| ==> Some(r.value[i]) == ParseSigned(pieces[i], lo, hi)
  {
    if pieces == [] then Some([])
    else
      match (ParseSigned(pieces[0], lo, hi), ParseAllSigned(pieces[1..], lo, hi))
      case (Some(v), Some(vs)) =>
        assert forall i :: 0 < i < |pieces| ==> pieces[i] == pieces[1..][i - 1];
        Some([v] + vs)
      case (None, _) => None
      case (_, None) =>
        assert forall i :: 0 <= i < |pieces| - 1 ==> pieces[1..][i] == pieces[i + 1];
        None
  }

  const U8: nat := 0x100
  const U16: nat := 0x1_0000
  const U64: nat := 0x1_0000_0000_0000_0000
  const I64Min: int := -0x8000_0000_0000_0000
  const I64End: int := 0x8000_0000_0000_0000

  /** The decimal digits of a number, most significant first. */
  function Digits(n: nat): (s: string)
    ensures |s| >= 1 && AllDigits(s)
  {
    if n < 10 then [('0' as int + n) as char] else Digits(n / 10) + [('0' as int + n % 10) as char]
  }

  lemma {:induction false} DigitsValue(n: nat)
    ensures DecimalValue(Digits(n)) == n
  {
    if n >= 10 {
      DigitsValue(n / 10);
      assert Digits(n)[..|Digits(n)| - 1] == Digits(n / 10);
    }
  }

  /** Printing a number and parsing it back gives the number. */
  lemma ParseDigits(n: nat, bound: nat)
    requires n < bound
    ensures ParseUnsigned(Digits(n), bound) == Some(n)
  {
    DigitsValue(n);
  }

  /** A negative number printed with its sign parses back. */
  lemma ParseSignedDigits(n: int, lo: int, hi: int)
    requires lo <= n < hi
    ensures ParseSigned(if n < 0 then "-" + Digits(-n) else Digits(n), lo, hi) == Some(n)
  {
    if n < 0 {
      DigitsValue(-n);
      assert ("-" + Digits(-n))[1..] == Digits(-n);
    } else {
      DigitsValue(n);
    }
  }

  // ---------------------------------------------------------------------
  // `lines.split(|l| l.len() == 0)`: sections separated by empty lines
  // ---------------------------------------------------------------------

  /** The index of the first line that is empty, or the number of lines. */
  function BlankAt(lines: seq<string>): (k: nat)
    ensures k <= |lines| && (k < |lines| ==> lines[k] == "")
    ensures forall j :: 0 <= j < k ==> lines[j] != ""
  {
    if lines == [] || lines[0] == "" then 0 else 1 + BlankAt(lines[1..])
  }

  /** There is a second section only when some line is empty. */
  predicate HasSecondSection(lines: seq<string>)
  {
    BlankAt(lines) < |lines|
  }

  /** The lines before the first empty line. */
  function FirstSection(lines: seq<string>): seq<string>
  {
    lines[..BlankAt(lines)]
  }

  /** The lines after the first empty line, up to the next one. */
  function SecondSection(lines: seq<string>): seq<string>
    requires HasSecondSection(lines)
  {
    var rest := lines[BlankAt(lines) + 1..];
    rest[..BlankAt(rest)]
  }

  /** `str::replace(pat, rep)`: every occurrence of `pat` replaced, left to right. */
  function Replace(s: string, pat: string, rep: string): string
    requires |pat| > 0
  {
    Join(Split(s, pat), rep)
  }

  /** Replacing the pattern by itself gives the text back. */
  lemma ReplaceSelf(s: string, pat: string)
    requires |pat| > 0
    ensures Replace(s, pat, pat) == s
  {
    SplitJoin(s, pat);
  }

  /** A text without the pattern is left as it is. */
  lemma ReplaceNone(s: string, pat: string, rep: string)
    requires |pat| > 0 && Find(s, pat).None?
    ensures Replace(s, pat, rep) == s
  {
    SplitNone(s, pat);
  }
}
