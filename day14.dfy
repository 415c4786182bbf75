/**
 * Day 14, Extended Polymerization: a polymer template and pair insertion
 * rules `AB -> C`. Every step inserts the rule's letter between every two
 * neighbours at once. The polymer grows exponentially, so the solver keeps
 * only how often each pair of neighbours occurs, and recovers letter counts
 * from the pair counts at the end.
 */
module ExtendedPolymerization {
  import opened Options
  import opened Text

  type Pair = (char, char)

  /** The two pairs a pair splits into. */
  type Rule = (Pair, Pair)

  type Rules = map<Pair, Rule>

  type Counts = map<Pair, nat>

  // ---------------------------------------------------------------------
  // Sums over counting maps
  // ---------------------------------------------------------------------

  /** `*map.entry(k).or_default()`. */
  function Get<K>(m: map<K, nat>, k: K): nat
  {
    if k in m then m[k] else 0
  }

  ghost function Pick<K>(m: map<K, nat>): (k: K)
    requires m != map[]
    ensures k in m
  {
    var k :| k in m; k
  }

  /** The sum of `m[k] * w(k)` over the keys of `m`, in no particular order. */
  ghost function Weighted<K>(m: map<K, nat>, w: K -> nat): nat
    decreases m.Keys
  {
    if m == map[] then 0
    else
      var k := Pick(m);
      assert (m - {k}).Keys < m.Keys;
      m[k] * w(k) + Weighted(m - {k}, w)
  }

  /** Any key can be taken out of the sum first. */
  lemma {:induction false} WeightedRemove<K>(m: map<K, nat>, w: K -> nat, k: K)
    requires k in m
    ensures Weighted(m, w) == m[k] * w(k) + Weighted(m - {k}, w)
    decreases m.Keys
  {
    var j := Pick(m);
    if j != k {
      assert (m - {j}).Keys < m.Keys;
      WeightedRemove(m - {j}, w, k);
      assert (m - {k}).Keys < m.Keys;
      WeightedRemove(m - {k}, w, j);
      assert m - {j} - {k} == m - {k} - {j};
    }
  }

  /** Changing one entry changes the sum by the change in that entry. */
  lemma WeightedUpdate<K>(m: map<K, nat>, w: K -> nat, k: K, v: nat)
    ensures Weighted(m[k := v], w) + Get(m, k) * w(k) == Weighted(m, w) + v * w(k)
  {
    WeightedRemove(m[k := v], w, k);
    assert m[k := v] - {k} == m - {k};
    if k in m {
      WeightedRemove(m, w, k);
    } else {
      assert m - {k} == m;
    }
  }

  /** Keys of weight zero add nothing. */
  lemma {:induction false} WeightedZero<K>(m: map<K, nat>, w: K -> nat)
    requires forall k :: k in m ==> w(k) == 0
    ensures Weighted(m, w) == 0
    decreases m.Keys
  {
    if m != map[] {
      var k := Pick(m);
      assert (m - {k}).Keys < m.Keys;
      WeightedZero(m - {k}, w);
    }
  }

  /** Any key, counted or not, can be taken out of the sum first. */
  lemma WeightedTake<K>(m: map<K, nat>, w: K -> nat, k: K)
    ensures Weighted(m, w) == Get(m, k) * w(k) + Weighted(m - {k}, w)
  {
    if k in m {
      WeightedRemove(m, w, k);
    } else {
      assert m - {k} == m;
    }
  }

  lemma AgreeRemove<K>(a: map<K, nat>, b: map<K, nat>, k: K)
    requires forall j :: Get(a, j) == Get(b, j)
    ensures forall j :: Get(a - {k}, j) == Get(b - {k}, j)
  {
    forall j ensures Get(a - {k}, j) == Get(b - {k}, j) {
      assert Get(a, j) == Get(b, j);
    }
  }

  /** Maps that differ only in entries that are zero have the same sum. */
  lemma {:induction false} WeightedGet<K>(a: map<K, nat>, b: map<K, nat>, w: K -> nat)
    requires forall k :: Get(a, k) == Get(b, k)
    ensures Weighted(a, w) == Weighted(b, w)
    decreases a.Keys + b.Keys
  {
    if a.Keys + b.Keys != {} {
      var k :| k in a.Keys + b.Keys;
      WeightedTake(a, w, k);
      WeightedTake(b, w, k);
      AgreeRemove(a, b, k);
      assert (a - {k}).Keys + (b - {k}).Keys < a.Keys + b.Keys;
      WeightedGet(a - {k}, b - {k}, w);
    } else {
      assert a == map[] && b == map[];
    }
  }

  /** Adds `d` to the entry of `k`, creating it at zero if it is missing. */
  function Add<K(!new)>(m: map<K, nat>, k: K, d: nat): (r: map<K, nat>)
    ensures r.Keys == m.Keys + {k}
    ensures Get(r, k) == Get(m, k) + d && forall j :: j != k ==> Get(r, j) == Get(m, j)
  {
    m[k := Get(m, k) + d]
  }

  lemma WeightedAdd<K(!new)>(m: map<K, nat>, w: K -> nat, k: K, d: nat)
    ensures Weighted(Add(m, k, d), w) == Weighted(m, w) + d * w(k)
  {
    WeightedUpdate(m, w, k, Get(m, k) + d);
    Distribute(Get(m, k), d, w(k));
  }

  lemma Distribute(a: nat, b: nat, c: nat)
    ensures (a + b) * c == a * c + b * c
  {
  }

  function One(p: Pair): nat
  {
    1
  }

  /** The number of pairs counted. */
  ghost function Total(m: Counts): nat
  {
    Weighted(m, One)
  }

  lemma TotalUpdate(m: Counts, k: Pair, v: nat)
    ensures Total(m[k := v]) + Get(m, k) == Total(m) + v
  {
    WeightedUpdate(m, One, k, v);
    assert One(k) == 1;
    assert Get(m, k) * One(k) == Get(m, k) && v * One(k) == v;
  }

  // ---------------------------------------------------------------------
  // Parsing
  // ---------------------------------------------------------------------

  /** A rule splits its pair `AB` into `AC` and `CB`. */
  predicate Splits(q: Pair, rule: Rule)
  {
    rule.0.0 == q.0 && rule.1.1 == q.1 && rule.0.1 == rule.1.0
  }

  predicate WellFormed(rules: Rules)
  {
    forall q :: q in rules ==> Splits(q, rules[q])
  }

  /** The letters of a rule line once its " -> " is removed. */
  function RuleLetters(line: string): string
  {
    Replace(line, " -> ", "")
  }

  /** The rule of a line's letters: the first two are the pair, the third is inserted between them. */
  function RuleOf(chars: string): (r: (Pair, Rule))
    requires |chars| >= 3
    ensures Splits(r.0, r.1)
  {
    ((chars[0], chars[1]), ((chars[0], chars[2]), (chars[2], chars[1])))
  }

  /** A rule line; fewer than three letters make the source index out of bounds. */
  function ParseInsertion(line: string): (r: (Pair, Rule))
    requires |RuleLetters(line)| >= 3
    ensures Splits(r.0, r.1)
  {
    RuleOf(RuleLetters(line))
  }

  /** "AB -> C" gives the rule splitting `AB` into `AC` and `CB`. */
  lemma ParseInsertionLine(a: char, b: char, c: char)
    requires a != ' ' && b != ' '
    ensures |RuleLetters([a, b] + " -> " + [c])| >= 3
    ensures ParseInsertion([a, b] + " -> " + [c]) == ((a, b), ((a, c), (c, b)))
  {
    var line := [a, b] + " -> " + [c];
    assert OccursAt(line, " -> ", 2);
    assert line[0..4][0] == a && line[1..5][0] == b;
    assert !OccursAt(line, " -> ", 0) && !OccursAt(line, " -> ", 1);
    SplitOnceAt(line, " -> ", 2);
    assert line[..2] == [a, b] && line[6..] == [c];
    assert Split([c], " -> ") == [[c]];
    assert Split(line, " -> ") == [[a, b], [c]];
    assert Join([[a, b], [c]], "") == [a, b] + "" + Join([[c]], "") == [a, b, c];
  }

  predicate Parsable(lines: seq<string>)
  {
    forall i :: 0 <= i < |lines| ==> |RuleLetters(lines[i])| >= 3
  }

  predicate AllRules(letters: seq<string>)
  {
    forall i :: 0 <= i < |letters| ==> |letters[i]| >= 3
  }

  /** The rule for `q` comes from entry `i`, and no later entry has a rule for `q`. */
  predicate LastRuleAt(letters: seq<string>, i: int, q: Pair, rule: Rule)
    requires AllRules(letters)
  {
    0 <= i < |letters| && RuleOf(letters[i]) == (q, rule)
    && forall j :: i < j < |letters| ==> RuleOf(letters[j]).0 != q
  }

  /** Collecting the rules into a map: a later entry replaces an earlier one for the same pair. */
  function RulesOf(letters: seq<string>): (rules: Rules)
    requires AllRules(letters)
    ensures WellFormed(rules)
    ensures forall i :: 0 <= i < |letters| ==> RuleOf(letters[i]).0 in rules
  {
    if letters == [] then map[]
    else
      var front := letters[..|letters| - 1];
      assert forall i :: 0 <= i < |front| ==> front[i] == letters[i];
      var (q, rule) := RuleOf(letters[|letters| - 1]);
      RulesOf(front)[q := rule]
  }

  /** Every rule in the map is the one of the last entry for its pair. */
  lemma {:induction false} RulesOfLast(letters: seq<string>, q: Pair)
    requires AllRules(letters) && q in RulesOf(letters)
    ensures exists i :: LastRuleAt(letters, i, q, RulesOf(letters)[q])
  {
    var front := letters[..|letters| - 1];
    assert forall i :: 0 <= i < |front| ==> front[i] == letters[i];
    var last := |letters| - 1;
    if RuleOf(letters[last]).0 == q {
      assert LastRuleAt(letters, last, q, RulesOf(letters)[q]);
    } else {
      RulesOfLast(front, q);
      var i :| LastRuleAt(front, i, q, RulesOf(front)[q]);
      assert LastRuleAt(letters, i, q, RulesOf(letters)[q]);
    }
  }

  /** `parse_insertions`: the rule of every line, the last line for a pair winning. */
  function ParseInsertions(lines: seq<string>): (rules: Rules)
    requires Parsable(lines)
    ensures WellFormed(rules)
    ensures forall i :: 0 <= i < |lines| ==> ParseInsertion(lines[i]).0 in rules
  {
    var letters := seq(|lines|, i requires 0 <= i < |lines| => RuleLetters(lines[i]));
    assert forall i :: 0 <= i < |lines| ==> ParseInsertion(lines[i]) == RuleOf(letters[i]);
    RulesOf(letters)
  }

  // ---------------------------------------------------------------------
  // The polymer itself, as the reference
  // ---------------------------------------------------------------------

  /** A rule exists for every pair of neighbours. */
  predicate Covered(s: string, rules: Rules)
  {
    forall i :: 0 <= i < |s| - 1 ==> (s[i], s[i + 1]) in rules
  }

  /** One step of pair insertion on the whole polymer. */
  function Grow(s: string, rules: Rules): (r: string)
    requires Covered(s, rules)
    ensures |s| > 0 ==> |r| == 2 * |s| - 1 && r[0] == s[0] && r[|r| - 1] == s[|s| - 1]
  {
    if |s| < 2 then s
    else
      var front := s[..|s| - 1];
      assert Covered(front, rules);
      Grow(front, rules) + [rules[(s[|s| - 2], s[|s| - 1])].0.1, s[|s| - 1]]
  }

  /** The count of each pair of neighbours. */
  function PairCounts(s: string): Counts
  {
    if |s| < 2 then map[] else Add(PairCounts(s[..|s| - 1]), (s[|s| - 2], s[|s| - 1]), 1)
  }

  /** There is one pair per pair of neighbours. */
  lemma {:induction false} PairCountsTotal(s: string)
    requires |s| > 0
    ensures Total(PairCounts(s)) == |s| - 1
  {
    if |s| >= 2 {
      PairCountsTotal(s[..|s| - 1]);
      WeightedAdd(PairCounts(s[..|s| - 1]), One, (s[|s| - 2], s[|s| - 1]), 1);
    }
  }

  function Occurrences(s: string, c: char): nat
  {
    if s == [] then 0 else Occurrences(s[..|s| - 1], c) + (if s[|s| - 1] == c then 1 else 0)
  }

  // ---------------------------------------------------------------------
  // process_insertions
  // ---------------------------------------------------------------------

  /** How many of a rule's two pairs are `p`. */
  function Children(rule: Rule, p: Pair): nat
  {
    (if rule.0 == p then 1 else 0) + (if rule.1 == p then 1 else 0)
  }

  function InflowWeight(rules: Rules, p: Pair): Pair -> nat
  {
    (q: Pair) => if q in rules then Children(rules[q], p) else 0
  }

  lemma ChildrenTimes(rule: Rule, p: Pair, n: nat)
    ensures n * Children(rule, p) == (if rule.0 == p then n else 0) + (if rule.1 == p then n else 0)
  {
  }

  /** The pairs counted and the pairs they split into. */
  ghost function NextKeys(pairs: Counts, rules: Rules): set<Pair>
    requires pairs.Keys <= rules.Keys
  {
    pairs.Keys + (set q | q in pairs :: rules[q].0) + (set q | q in pairs :: rules[q].1)
  }

  /**
   * The counts after a step: every pair's count is handed to the two pairs
   * it splits into, so a pair ends up with the counts of the pairs that
   * split into it. Pairs that were counted stay in the map, at zero if
   * nothing splits into them.
   */
  ghost function Next(pairs: Counts, rules: Rules): Counts
    requires pairs.Keys <= rules.Keys
  {
    map p | p in NextKeys(pairs, rules) :: Weighted(pairs, InflowWeight(rules, p))
  }

  /** The pairs of `pairs` already processed. */
  ghost function Done(pairs: Counts, todo: set<Pair>): Counts
  {
    map q | q in pairs && q !in todo :: pairs[q]
  }

  /** The pairs that the processed pairs split into. */
  ghost function DoneKeys(pairs: Counts, rules: Rules, todo: set<Pair>): set<Pair>
    requires pairs.Keys <= rules.Keys
  {
    pairs.Keys + (set q | q in pairs && q !in todo :: rules[q].0) + (set q | q in pairs && q !in todo :: rules[q].1)
  }

  /** How much of `p`'s own count has already been taken away. */
  ghost function Taken(pairs: Counts, todo: set<Pair>, p: Pair): nat
  {
    if p in pairs && p !in todo then pairs[p] else 0
  }

  /** The state of `update` part-way through the loop of `process_insertions`. */
  ghost predicate Progress(pairs: Counts, rules: Rules, todo: set<Pair>, update: Counts)
    requires pairs.Keys <= rules.Keys
  {
    todo <= pairs.Keys
    && update.Keys == DoneKeys(pairs, rules, todo)
    && CountsSoFar(pairs, rules, todo, update)
    && Total(update) == Total(pairs) + Total(Done(pairs, todo))
  }

  /** Every pair has its own count, less what was taken away, plus what the processed pairs split into it. */
  ghost predicate CountsSoFar(pairs: Counts, rules: Rules, todo: set<Pair>, update: Counts)
  {
    forall p :: Get(update, p) + Taken(pairs, todo, p) == Get(pairs, p) + Weighted(Done(pairs, todo), InflowWeight(rules, p))
  }

  lemma ProgressStart(pairs: Counts, rules: Rules)
    requires pairs.Keys <= rules.Keys
    ensures Progress(pairs, rules, pairs.Keys, pairs)
  {
    assert Done(pairs, pairs.Keys) == map[];
    assert DoneKeys(pairs, rules, pairs.Keys) == pairs.Keys;
  }

  /** The loop body keeps the bookkeeping. */
  lemma ProgressStep(pairs: Counts, rules: Rules, todo: set<Pair>, update: Counts, pair: Pair, u1: Counts, u2: Counts, u3: Counts)
    requires pairs.Keys <= rules.Keys && Progress(pairs, rules, todo, update) && pair in todo
    requires u1 == Add(update, rules[pair].0, pairs[pair])
    requires u2 == Add(u1, rules[pair].1, pairs[pair])
    requires Get(u2, pair) >= pairs[pair] && u3 == u2[pair := Get(u2, pair) - pairs[pair]]
    ensures Progress(pairs, rules, todo - {pair}, u3)
  {
    CountsStep(pairs, rules, todo, update, pair, u1, u2, u3);
    TotalsStep(pairs, todo, update, pair, rules[pair], u1, u2, u3);
    KeysStep(pairs, rules, todo, update, pair, u1, u2, u3);
  }

  lemma TotalsStep(pairs: Counts, todo: set<Pair>, update: Counts, pair: Pair, rule: Rule, u1: Counts, u2: Counts, u3: Counts)
    requires todo <= pairs.Keys && pair in todo && Total(update) == Total(pairs) + Total(Done(pairs, todo))
    requires u1 == Add(update, rule.0, pairs[pair]) && u2 == Add(u1, rule.1, pairs[pair])
    requires Get(u2, pair) >= pairs[pair] && u3 == u2[pair := Get(u2, pair) - pairs[pair]]
    ensures Total(u3) == Total(pairs) + Total(Done(pairs, todo - {pair}))
  {
    DoneStep(pairs, todo, pair);
    TotalStep(Done(pairs, todo), Done(pairs, todo - {pair}), update, u1, u2, u3, rule, pair, pairs[pair]);
  }

  lemma KeysStep(pairs: Counts, rules: Rules, todo: set<Pair>, update: Counts, pair: Pair, u1: Counts, u2: Counts, u3: Counts)
    requires pairs.Keys <= rules.Keys && todo <= pairs.Keys && pair in todo && update.Keys == DoneKeys(pairs, rules, todo)
    requires u1 == Add(update, rules[pair].0, pairs[pair]) && u2 == Add(u1, rules[pair].1, pairs[pair])
    requires Get(u2, pair) >= pairs[pair] && u3 == u2[pair := Get(u2, pair) - pairs[pair]]
    ensures u3.Keys == DoneKeys(pairs, rules, todo - {pair})
  {
    DoneKeysStep(pairs, rules, todo, pair);
    assert u3.Keys == u2.Keys == update.Keys + {rules[pair].0, rules[pair].1};
  }

  lemma CountsStep(pairs: Counts, rules: Rules, todo: set<Pair>, update: Counts, pair: Pair, u1: Counts, u2: Counts, u3: Counts)
    requires pairs.Keys <= rules.Keys && todo <= pairs.Keys && pair in todo && CountsSoFar(pairs, rules, todo, update)
    requires u1 == Add(update, rules[pair].0, pairs[pair])
    requires u2 == Add(u1, rules[pair].1, pairs[pair])
    requires Get(u2, pair) >= pairs[pair] && u3 == u2[pair := Get(u2, pair) - pairs[pair]]
    ensures CountsSoFar(pairs, rules, todo - {pair}, u3)
  {
    var count, rule := pairs[pair], rules[pair];
    var done, done' := Done(pairs, todo), Done(pairs, todo - {pair});
    DoneStep(pairs, todo, pair);
    forall p ensures Get(u3, p) + Taken(pairs, todo - {pair}, p)
                     == Get(pairs, p) + Weighted(done', InflowWeight(rules, p)) {
      var w := InflowWeight(rules, p);
      assert Get(update, p) + Taken(pairs, todo, p) == Get(pairs, p) + Weighted(done, w);
      TakenStep(pairs, todo, pair, p);
      CountStep(done, done', w, update, u1, u2, u3, rule, pair, count, p);
    }
  }

  lemma DoneStep(pairs: Counts, todo: set<Pair>, pair: Pair)
    requires pair in todo && pair in pairs
    ensures pair !in Done(pairs, todo)
    ensures Done(pairs, todo - {pair}) == Done(pairs, todo)[pair := pairs[pair]]
  {
  }

  lemma TakenStep(pairs: Counts, todo: set<Pair>, pair: Pair, p: Pair)
    requires pair in todo && pair in pairs
    ensures Taken(pairs, todo - {pair}, p) == Taken(pairs, todo, p) + (if p == pair then pairs[pair] else 0)
  {
  }

  /** One pair handed on, seen from one pair `p`. */
  lemma CountStep(done: Counts, done': Counts, w: Pair -> nat, update: Counts, u1: Counts, u2: Counts, u3: Counts,
                  rule: Rule, pair: Pair, count: nat, p: Pair)
    requires pair !in done && done' == done[pair := count]
    requires w(pair) == Children(rule, p)
    requires u1 == Add(update, rule.0, count) && u2 == Add(u1, rule.1, count)
    requires Get(u2, pair) >= count && u3 == u2[pair := Get(u2, pair) - count]
    ensures Get(u3, p) + (if p == pair then count else 0) + Weighted(done, w) == Get(update, p) + Weighted(done', w)
  {
    WeightedRemove(done', w, pair);
    assert done' - {pair} == done;
    assert Weighted(done', w) == count * Children(rule, p) + Weighted(done, w);
    ChildrenTimes(rule, p, count);
    AddChain(update, u1, u2, u3, rule, pair, count, p);
  }

  /** The two additions and the subtraction, seen from one pair `p`. */
  lemma AddChain(update: Counts, u1: Counts, u2: Counts, u3: Counts, rule: Rule, pair: Pair, count: nat, p: Pair)
    requires u1 == Add(update, rule.0, count) && u2 == Add(u1, rule.1, count)
    requires Get(u2, pair) >= count && u3 == u2[pair := Get(u2, pair) - count]
    ensures Get(u3, p) + (if p == pair then count else 0)
            == Get(update, p) + (if rule.0 == p then count else 0) + (if rule.1 == p then count else 0)
  {
  }

  /** One pair handed on adds its count to the total. */
  lemma TotalStep(done: Counts, done': Counts, update: Counts, u1: Counts, u2: Counts, u3: Counts,
                  rule: Rule, pair: Pair, count: nat)
    requires pair !in done && done' == done[pair := count]
    requires u1 == Add(update, rule.0, count) && u2 == Add(u1, rule.1, count)
    requires Get(u2, pair) >= count && u3 == u2[pair := Get(u2, pair) - count]
    ensures Total(u3) + Total(done) == Total(update) + Total(done')
  {
    var before := Get(u2, pair);
    TotalRemove(done', pair);
    assert done' - {pair} == done;
    TotalAdd(update, rule.0, count);
    TotalAdd(u1, rule.1, count);
    TotalUpdate(u2, pair, before - count);
    assert Total(u3) + before == Total(u2) + (before - count);
  }

  lemma TotalAdd(m: Counts, k: Pair, d: nat)
    ensures Total(Add(m, k, d)) == Total(m) + d
  {
    WeightedAdd(m, One, k, d);
    assert d * One(k) == d;
  }

  lemma TotalRemove(m: Counts, k: Pair)
    requires k in m
    ensures Total(m) == m[k] + Total(m - {k})
  {
    WeightedRemove(m, One, k);
    assert m[k] * One(k) == m[k];
  }

  lemma DoneKeysStep(pairs: Counts, rules: Rules, todo: set<Pair>, pair: Pair)
    requires pairs.Keys <= rules.Keys && pair in todo && pair in pairs
    ensures DoneKeys(pairs, rules, todo - {pair}) == DoneKeys(pairs, rules, todo) + {rules[pair].0, rules[pair].1}
  {
    var firsts := set q | q in pairs && q !in todo :: rules[q].0;
    var firsts' := set q | q in pairs && q !in todo - {pair} :: rules[q].0;
    var seconds := set q | q in pairs && q !in todo :: rules[q].1;
    var seconds' := set q | q in pairs && q !in todo - {pair} :: rules[q].1;
    assert firsts' == firsts + {rules[pair].0} by {
      forall x | x in firsts' ensures x in firsts + {rules[pair].0} {
        var q :| q in pairs && q !in todo - {pair} && rules[q].0 == x;
        if q != pair {
          assert x in firsts;
        }
      }
    }
    assert seconds' == seconds + {rules[pair].1} by {
      forall x | x in seconds' ensures x in seconds + {rules[pair].1} {
        var q :| q in pairs && q !in todo - {pair} && rules[q].1 == x;
        if q != pair {
          assert x in seconds;
        }
      }
    }
  }

  /** At the end of the loop every pair has been handed on. */
  lemma ProgressDone(pairs: Counts, rules: Rules, update: Counts)
    requires pairs.Keys <= rules.Keys && Progress(pairs, rules, {}, update)
    ensures update.Keys == NextKeys(pairs, rules)
    ensures forall p :: Get(update, p) == Weighted(pairs, InflowWeight(rules, p))
  {
    KeysDone(pairs, rules, update);
    CountsDone(pairs, rules, update);
  }

  lemma NextKeysOf(pairs: Counts, rules: Rules)
    requires pairs.Keys <= rules.Keys
    ensures Next(pairs, rules).Keys == NextKeys(pairs, rules)
  {
  }

  lemma NextAt(pairs: Counts, rules: Rules, update: Counts, p: Pair)
    requires pairs.Keys <= rules.Keys && p in update && update.Keys == NextKeys(pairs, rules)
    requires Get(update, p) == Weighted(pairs, InflowWeight(rules, p))
    ensures p in Next(pairs, rules) && update[p] == Next(pairs, rules)[p]
  {
  }

  /** A map with `Next`'s keys and `Next`'s sums is `Next`. */
  lemma IsNext(pairs: Counts, rules: Rules, update: Counts)
    requires pairs.Keys <= rules.Keys && update.Keys == NextKeys(pairs, rules) == Next(pairs, rules).Keys
    requires forall p :: Get(update, p) == Weighted(pairs, InflowWeight(rules, p))
    ensures update == Next(pairs, rules)
  {
    var next := Next(pairs, rules);
    forall p | p in update ensures update[p] == next[p] {
      NextAt(pairs, rules, update, p);
    }
    SameMaps(update, next);
  }

  /** At the end of the loop the total has doubled. */
  lemma TotalDone(pairs: Counts, rules: Rules, update: Counts)
    requires pairs.Keys <= rules.Keys && Progress(pairs, rules, {}, update)
    ensures Total(update) == 2 * Total(pairs)
  {
    DoneAll(pairs);
  }

  /** Maps with the same keys and the same values are equal. */
  lemma SameMaps<K, V>(a: map<K, V>, b: map<K, V>)
    requires a.Keys == b.Keys && forall k | k in a :: a[k] == b[k]
    ensures a == b
  {
  }

  lemma DoneAll(pairs: Counts)
    ensures Done(pairs, {}) == pairs
  {
  }

  lemma KeysDone(pairs: Counts, rules: Rules, update: Counts)
    requires pairs.Keys <= rules.Keys && update.Keys == DoneKeys(pairs, rules, {})
    ensures update.Keys == NextKeys(pairs, rules)
  {
  }

  lemma CountsDone(pairs: Counts, rules: Rules, update: Counts)
    requires pairs.Keys <= rules.Keys && CountsSoFar(pairs, rules, {}, update)
    ensures forall p :: Get(update, p) == Weighted(pairs, InflowWeight(rules, p))
  {
    DoneAll(pairs);
    forall p ensures Get(update, p) == Weighted(pairs, InflowWeight(rules, p)) {
      assert Taken(pairs, {}, p) == Get(pairs, p);
    }
  }

  /**
   * `process_insertions`: a copy of the counts, then for every pair its
   * count added to each of the two pairs it splits into and taken away from
   * the pair itself. The subtraction never goes below zero, which the
   * source's `usize` relies on.
   */
  method ProcessInsertions(pairs: Counts, rules: Rules) returns (update: Counts)
    requires pairs.Keys <= rules.Keys
    ensures update == Next(pairs, rules)
    ensures Total(update) == 2 * Total(pairs)
  {
    update := pairs;
    var todo := pairs.Keys;
    ProgressStart(pairs, rules);
    while todo != {}
      invariant Progress(pairs, rules, todo, update)
      decreases todo
    {
      var pair :| pair in todo;
      var count := pairs[pair];
      var (first, last) := rules[pair];
      var u1 := Add(update, first, count);
      var u2 := Add(u1, last, count);
      assert Get(update, pair) >= count by {
        assert Get(update, pair) + Taken(pairs, todo, pair)
            == Get(pairs, pair) + Weighted(Done(pairs, todo), InflowWeight(rules, pair));
      }
      var u3 := u2[pair := Get(u2, pair) - count];
      ProgressStep(pairs, rules, todo, update, pair, u1, u2, u3);
      update := u3;
      todo := todo - {pair};
    }
    ProgressDone(pairs, rules, update);
    TotalDone(pairs, rules, update);
    NextKeysOf(pairs, rules);
    IsNext(pairs, rules, update);
  }

  /** On the pair counts of a polymer, a step gives the pair counts of the grown polymer. */
  lemma {:induction false} NextGrows(s: string, rules: Rules)
    requires Covered(s, rules) && WellFormed(rules)
    ensures PairCounts(s).Keys <= rules.Keys
    ensures forall p :: Weighted(PairCounts(s), InflowWeight(rules, p)) == Get(PairCounts(Grow(s, rules)), p)
  {
    if |s| >= 2 {
      var front := s[..|s| - 1];
      assert Covered(front, rules);
      NextGrows(front, rules);
      var q := (s[|s| - 2], s[|s| - 1]);
      var ins := rules[q].0.1;
      var g := Grow(front, rules);
      GrowLast(s, rules);
      var pre, post := PairCounts(front), PairCounts(g);
      PairCountsSnoc(front, s[|s| - 1]);
      assert front + [s[|s| - 1]] == s;
      PairCountsSnoc(g, ins);
      PairCountsSnoc(g + [ins], s[|s| - 1]);
      assert g + [ins] + [s[|s| - 1]] == Grow(s, rules);
      forall p ensures Weighted(PairCounts(s), InflowWeight(rules, p)) == Get(PairCounts(Grow(s, rules)), p) {
        GrowStep(pre, post, rules, q, p);
      }
    }
  }

  /** The grown polymer ends with the inserted letter and the last letter. */
  lemma GrowLast(s: string, rules: Rules)
    requires |s| >= 2 && Covered(s, rules) && WellFormed(rules)
    ensures Covered(s[..|s| - 1], rules)
    ensures var g := Grow(s[..|s| - 1], rules); var q := (s[|s| - 2], s[|s| - 1]);
            |g| > 0 && g[|g| - 1] == s[|s| - 2] && Grow(s, rules) == g + [rules[q].0.1] + [s[|s| - 1]]
            && rules[q].0 == (g[|g| - 1], rules[q].0.1) && rules[q].1 == (rules[q].0.1, s[|s| - 1])
  {
    assert Covered(s[..|s| - 1], rules);
  }

  lemma PairCountsSnoc(t: string, c: char)
    requires |t| > 0
    ensures PairCounts(t + [c]) == Add(PairCounts(t), (t[|t| - 1], c), 1)
  {
    assert (t + [c])[..|t|] == t;
  }

  /** One more pair in the polymer, seen from one pair `p`. */
  lemma GrowStep(pre: Counts, post: Counts, rules: Rules, q: Pair, p: Pair)
    requires q in rules && Weighted(pre, InflowWeight(rules, p)) == Get(post, p)
    ensures Weighted(Add(pre, q, 1), InflowWeight(rules, p)) == Get(Add(Add(post, rules[q].0, 1), rules[q].1, 1), p)
  {
    WeightedAdd(pre, InflowWeight(rules, p), q, 1);
    ChildrenTimes(rules[q], p, 1);
  }

  /** The keys `Next` keeps do not change the sums it is read with. */
  lemma NextGet(pairs: Counts, rules: Rules, p: Pair)
    requires pairs.Keys <= rules.Keys
    ensures Get(Next(pairs, rules), p) == Weighted(pairs, InflowWeight(rules, p))
  {
    if p !in NextKeys(pairs, rules) {
      WeightedZero(pairs, InflowWeight(rules, p));
    }
  }

  // ---------------------------------------------------------------------
  // count_letters
  // ---------------------------------------------------------------------

  /** How many of a pair's two letters are `c`. */
  function LetterWeight(c: char): Pair -> nat
  {
    (q: Pair) => (if q.0 == c then 1 else 0) + (if q.1 == c then 1 else 0)
  }

  lemma LetterTimes(q: Pair, c: char, n: nat)
    ensures n * LetterWeight(c)(q) == (if q.0 == c then n else 0) + (if q.1 == c then n else 0)
  {
  }

  /** The letters of the counted pairs. */
  ghost function Letters(m: Counts): set<char>
  {
    (set q | q in m :: q.0) + (set q | q in m :: q.1)
  }

  /** `count_letters` as written: half of each letter's share of the pairs, plus one for the first and one for the last letter. */
  ghost function LettersAsWritten(m: Counts, start: char, end: char): map<char, nat>
  {
    map c | c in Letters(m) + {start, end} ::
      Weighted(m, LetterWeight(c)) / 2 + (if c == start then 1 else 0) + (if c == end then 1 else 0)
  }

  /** `count_letters` as intended: the first and last letters are the ones missing half a pair. */
  ghost function LettersCorrected(m: Counts, start: char, end: char): map<char, nat>
  {
    map c | c in Letters(m) + {start, end} ::
      (Weighted(m, LetterWeight(c)) + (if c == start then 1 else 0) + (if c == end then 1 else 0)) / 2
  }

  /** Every letter inside the polymer is in two pairs, the first and the last in one. */
  lemma {:induction false} LetterShare(s: string, c: char)
    requires |s| > 0
    ensures Weighted(PairCounts(s), LetterWeight(c)) + (if s[0] == c then 1 else 0) + (if s[|s| - 1] == c then 1 else 0)
            == 2 * Occurrences(s, c)
  {
    if |s| == 1 {
      assert s[..0] == [];
    } else {
      var front := s[..|s| - 1];
      LetterShare(front, c);
      WeightedAdd(PairCounts(front), LetterWeight(c), (s[|s| - 2], s[|s| - 1]), 1);
    }
  }

  /** With the polymer's own ends, the corrected count gives each letter's occurrences. */
  lemma CorrectedCounts(s: string, c: char)
    requires |s| > 0 && c in LettersCorrected(PairCounts(s), s[0], s[|s| - 1])
    ensures LettersCorrected(PairCounts(s), s[0], s[|s| - 1])[c] == Occurrences(s, c)
  {
    LetterShare(s, c);
  }

  /** As written, a letter that both starts and ends the polymer is counted once too often. */
  lemma WrittenCounts(s: string, c: char)
    requires |s| > 0 && c in LettersAsWritten(PairCounts(s), s[0], s[|s| - 1])
    ensures LettersAsWritten(PairCounts(s), s[0], s[|s| - 1])[c]
            == Occurrences(s, c) + (if s[0] == c && s[|s| - 1] == c then 1 else 0)
  {
    LetterShare(s, c);
  }

  /** The template "AA" has two `A`s but `count_letters` reports three. */
  lemma CountLettersOverCounts()
    ensures LettersAsWritten(PairCounts("AA"), 'A', 'A')['A'] == 3
    ensures Occurrences("AA", 'A') == 2
  {
    assert 'A' in LettersAsWritten(PairCounts("AA"), 'A', 'A');
    WrittenCounts("AA", 'A');
  }

  /** The letters of the pairs handed on so far, each with its share. */
  ghost predicate Tally(m: Counts, todo: set<Pair>, charCount: map<char, nat>)
  {
    todo <= m.Keys
    && charCount.Keys == Letters(Done(m, todo))
    && Shares(Done(m, todo), charCount)
  }

  /** Every letter's count is its share of the pairs of `m`. */
  ghost predicate Shares(m: Counts, charCount: map<char, nat>)
  {
    forall c :: Get(charCount, c) == Weighted(m, LetterWeight(c))
  }

  lemma TallyStep(m: Counts, todo: set<Pair>, charCount: map<char, nat>, pair: Pair, c1: map<char, nat>, c2: map<char, nat>)
    requires Tally(m, todo, charCount) && pair in todo
    requires c1 == Add(charCount, pair.0, m[pair]) && c2 == Add(c1, pair.1, m[pair])
    ensures Tally(m, todo - {pair}, c2)
  {
    DoneStep(m, todo, pair);
    SharesStep(Done(m, todo), Done(m, todo - {pair}), charCount, pair, m[pair], c1, c2);
    LettersStep(Done(m, todo), Done(m, todo - {pair}), charCount, pair, m[pair], c1, c2);
  }

  lemma SharesStep(done: Counts, done': Counts, charCount: map<char, nat>, pair: Pair, count: nat, c1: map<char, nat>, c2: map<char, nat>)
    requires pair !in done && done' == done[pair := count] && Shares(done, charCount)
    requires c1 == Add(charCount, pair.0, count) && c2 == Add(c1, pair.1, count)
    ensures Shares(done', c2)
  {
    assert done' - {pair} == done;
    forall c ensures Get(c2, c) == Weighted(done', LetterWeight(c)) {
      WeightedRemove(done', LetterWeight(c), pair);
      LetterTimes(pair, c, count);
    }
  }

  lemma LettersStep(done: Counts, done': Counts, charCount: map<char, nat>, pair: Pair, count: nat, c1: map<char, nat>, c2: map<char, nat>)
    requires done' == done[pair := count] && charCount.Keys == Letters(done)
    requires c1 == Add(charCount, pair.0, count) && c2 == Add(c1, pair.1, count)
    ensures c2.Keys == Letters(done')
  {
  }

  lemma HalfOf(m: Counts, charCount: map<char, nat>, halves: map<char, nat>, c: char)
    requires Shares(m, charCount) && halves == map c | c in charCount :: charCount[c] / 2
    ensures Get(halves, c) == Weighted(m, LetterWeight(c)) / 2
  {
    if c !in charCount {
      assert Get(charCount, c) == 0;
    }
  }

  lemma WrittenKeys(m: Counts, start: char, end: char)
    ensures LettersAsWritten(m, start, end).Keys == Letters(m) + {start, end}
  {
  }

  lemma WrittenAt(m: Counts, start: char, end: char, c: char)
    requires c in Letters(m) + {start, end}
    ensures LettersAsWritten(m, start, end)[c]
            == Weighted(m, LetterWeight(c)) / 2 + (if c == start then 1 else 0) + (if c == end then 1 else 0)
  {
  }

  /** Halving the shares and adding the two ends gives `count_letters`'s result. */
  lemma Halved(m: Counts, charCount: map<char, nat>, start: char, end: char, halves: map<char, nat>)
    requires charCount.Keys == Letters(m) && Shares(m, charCount)
    requires halves == map c | c in charCount :: charCount[c] / 2
    ensures halves.Keys == Letters(m)
    ensures forall c :: Get(halves, c) == Weighted(m, LetterWeight(c)) / 2
  {
    forall c ensures Get(halves, c) == Weighted(m, LetterWeight(c)) / 2 {
      HalfOf(m, charCount, halves, c);
    }
  }

  /** The halves with the two ends added are `count_letters`'s result. */
  lemma IsWritten(m: Counts, start: char, end: char, halves: map<char, nat>, r: map<char, nat>)
    requires halves.Keys == Letters(m) && forall c :: Get(halves, c) == Weighted(m, LetterWeight(c)) / 2
    requires r == Add(Add(halves, start, 1), end, 1)
    ensures r == LettersAsWritten(m, start, end)
  {
    var want := LettersAsWritten(m, start, end);
    WrittenKeys(m, start, end);
    forall c | c in r ensures r[c] == want[c] {
      WrittenEntry(m, start, end, halves, r, c);
    }
    SameMaps(r, want);
  }

  lemma WrittenEntry(m: Counts, start: char, end: char, halves: map<char, nat>, r: map<char, nat>, c: char)
    requires halves.Keys == Letters(m) && Get(halves, c) == Weighted(m, LetterWeight(c)) / 2
    requires r == Add(Add(halves, start, 1), end, 1) && c in r
    ensures c in LettersAsWritten(m, start, end) && r[c] == LettersAsWritten(m, start, end)[c]
  {
    WrittenAt(m, start, end, c);
  }

  /**
   * `count_letters`: both letters of every pair get the pair's count,
   * every letter's share is halved, and the first and the last letter get
   * one more each.
   */
  method CountLetters(pairCount: Counts, start: char, end: char) returns (charCount: map<char, nat>)
    ensures charCount == LettersAsWritten(pairCount, start, end)
  {
    charCount := map[];
    var todo := pairCount.Keys;
    assert Done(pairCount, todo) == map[];
    while todo != {}
      invariant Tally(pairCount, todo, charCount)
      decreases todo
    {
      var pair :| pair in todo;
      var count := pairCount[pair];
      var c1 := Add(charCount, pair.0, count);
      var c2 := Add(c1, pair.1, count);
      TallyStep(pairCount, todo, charCount, pair, c1, c2);
      charCount := c2;
      todo := todo - {pair};
    }
    DoneAll(pairCount);
    var halves := map c | c in charCount :: charCount[c] / 2;
    Halved(pairCount, charCount, start, end, halves);
    charCount := Add(halves, start, 1);
    charCount := Add(charCount, end, 1);
    IsWritten(pairCount, start, end, halves, charCount);
  }

  // ---------------------------------------------------------------------
  // main
  // ---------------------------------------------------------------------

  /**
   * The initial counts: one for every window of two letters of the
   * template.
   */
  method InitialCounts(template: string) returns (counts: Counts)
    ensures counts == PairCounts(template)
    ensures |template| > 0 ==> Total(counts) == |template| - 1
  {
    counts := map[];
    var windows := if |template| < 2 then 0 else |template| - 1;
    for i := 0 to windows
      invariant |template| >= 2 ==> counts == PairCounts(template[..i + 1])
      invariant |template| < 2 ==> counts == map[]
    {
      assert template[..i + 2][..i + 1] == template[..i + 1];
      counts := Add(counts, (template[i], template[i + 1]), 1);
    }
    assert |template| >= 2 ==> template[..windows + 1] == template;
    if |template| > 0 {
      assert template[..|template|] == template;
      PairCountsTotal(template);
    } else {
      assert template == [];
    }
  }

  /** Every one of `k` steps finds a rule for every counted pair (`map[pair]` panics otherwise). */
  ghost predicate Runs(m: Counts, rules: Rules, k: nat)
    decreases k
  {
    k == 0 || (m.Keys <= rules.Keys && Runs(Next(m, rules), rules, k - 1))
  }

  /** The counts after `k` steps. */
  ghost function After(m: Counts, rules: Rules, k: nat): Counts
    requires Runs(m, rules, k)
    decreases k
  {
    if k == 0 then m else After(Next(m, rules), rules, k - 1)
  }

  /** One more step at the end. */
  lemma {:induction false} AfterLast(m: Counts, rules: Rules, k: nat)
    requires Runs(m, rules, k + 1)
    ensures Runs(m, rules, k) && After(m, rules, k).Keys <= rules.Keys
    ensures After(m, rules, k + 1) == Next(After(m, rules, k), rules)
    decreases k
  {
    if k > 0 {
      AfterLast(Next(m, rules), rules, k - 1);
    }
  }

  /** Whether every one of `k` steps finds a rule for every pair of neighbours. */
  predicate GrowsFor(s: string, rules: Rules, k: nat)
    decreases k
  {
    k == 0 || (Covered(s, rules) && GrowsFor(Grow(s, rules), rules, k - 1))
  }

  /** The polymer after `k` steps. */
  function Polymer(s: string, rules: Rules, k: nat): string
    requires GrowsFor(s, rules, k)
    decreases k
  {
    if k == 0 then s else Polymer(Grow(s, rules), rules, k - 1)
  }

  /** Counts that agree with a polymer's pair counts still agree after `k` steps. */
  lemma {:induction false} AfterIsPolymer(m: Counts, s: string, rules: Rules, k: nat)
    requires WellFormed(rules) && Runs(m, rules, k) && GrowsFor(s, rules, k)
    requires forall p :: Get(m, p) == Get(PairCounts(s), p)
    ensures forall p :: Get(After(m, rules, k), p) == Get(PairCounts(Polymer(s, rules, k)), p)
    decreases k
  {
    if k > 0 {
      NextGrows(s, rules);
      forall p ensures Get(Next(m, rules), p) == Get(PairCounts(Grow(s, rules)), p) {
        NextGet(m, rules, p);
        WeightedGet(m, PairCounts(s), InflowWeight(rules, p));
      }
      AfterIsPolymer(Next(m, rules), Grow(s, rules), rules, k - 1);
    }
  }

  /** Fewer steps run when more do. */
  lemma {:induction false} RunsFewer(m: Counts, rules: Rules, j: nat, k: nat)
    requires j <= k && Runs(m, rules, k)
    ensures Runs(m, rules, j)
    decreases j
  {
    if j > 0 {
      RunsFewer(Next(m, rules), rules, j - 1, k - 1);
    }
  }

  /** `j` steps and then `k` more are `j + k` steps. */
  lemma {:induction false} AfterAfter(m: Counts, rules: Rules, j: nat, k: nat)
    requires Runs(m, rules, j + k)
    ensures Runs(m, rules, j) && Runs(After(m, rules, j), rules, k)
    ensures After(After(m, rules, j), rules, k) == After(m, rules, j + k)
    decreases j
  {
    if j > 0 {
      AfterAfter(Next(m, rules), rules, j - 1, k);
    }
  }

  /** The `fold` over a range of steps, one `process_insertions` each. */
  method Generations(counts: Counts, rules: Rules, k: nat) returns (r: Counts)
    requires Runs(counts, rules, k)
    ensures r == After(counts, rules, k)
  {
    r := counts;
    for i := 0 to k
      invariant Runs(counts, rules, i) && r == After(counts, rules, i)
    {
      RunsFewer(counts, rules, i + 1, k);
      AfterLast(counts, rules, i);
      r := ProcessInsertions(r, rules);
    }
  }

  // ---------------------------------------------------------------------
  // The answers
  // ---------------------------------------------------------------------

  predicate IsMax(m: map<char, nat>, v: nat)
  {
    (exists c :: c in m && m[c] == v) && forall c :: c in m ==> m[c] <= v
  }

  predicate IsMin(m: map<char, nat>, v: nat)
  {
    (exists c :: c in m && m[c] == v) && forall c :: c in m ==> v <= m[c]
  }

  /** The largest and the smallest value are each determined by the map. */
  lemma ExtremesUnique(m: map<char, nat>, hi: nat, hi': nat, lo: nat, lo': nat)
    requires IsMax(m, hi) && IsMax(m, hi') && IsMin(m, lo) && IsMin(m, lo')
    ensures hi == hi' && lo == lo'
  {
    var a :| a in m && m[a] == hi;
    var b :| b in m && m[b] == lo;
    assert m[a] <= hi';
    assert lo' <= m[b];
  }

  /** The difference between the most and the least common letter. */
  ghost predicate IsSpread(m: map<char, nat>, d: int)
  {
    exists hi: nat, lo: nat :: IsMax(m, hi) && IsMin(m, lo) && d == hi - lo
  }

  /** `values().max().unwrap()` and `values().min().unwrap()`: both panic on an empty map. */
  method Extremes(m: map<char, nat>) returns (hi: nat, lo: nat)
    requires m != map[]
    ensures IsMax(m, hi) && IsMin(m, lo)
  {
    var first :| first in m;
    hi, lo := m[first], m[first];
    var todo := m.Keys - {first};
    while todo != {}
      invariant todo <= m.Keys && first !in todo
      invariant hi in Values(m) && lo in Values(m)
      invariant forall c :: c in m && c !in todo ==> lo <= m[c] <= hi
      decreases todo
    {
      var c :| c in todo;
      if m[c] > hi {
        hi := m[c];
      }
      if m[c] < lo {
        lo := m[c];
      }
      todo := todo - {c};
    }
  }

  /** The values present in a map. */
  function Values(m: map<char, nat>): set<nat>
  {
    set c | c in m :: m[c]
  }

  /** The template is the first line; the rules follow the first blank line. */
  ghost predicate Solvable(lines: seq<string>)
  {
    |lines| > 0 && lines[0] != "" && HasSecondSection(lines) && Parsable(SecondSection(lines))
    && Runs(PairCounts(lines[0]), ParseInsertions(SecondSection(lines)), 40)
  }

  /** The letter counts after `k` steps, as `count_letters` reports them. */
  ghost function LettersAfter(lines: seq<string>, k: nat): map<char, nat>
    requires Solvable(lines) && k <= 40
  {
    var template, rules := lines[0], ParseInsertions(SecondSection(lines));
    RunsFewer(PairCounts(template), rules, k, 40);
    LettersAsWritten(After(PairCounts(template), rules, k), template[0], template[|template| - 1])
  }

  /** The most minus the least common letter in `count_letters`'s result for `counts`. */
  method Spread(counts: Counts, start: char, end: char) returns (d: int)
    ensures IsSpread(LettersAsWritten(counts, start, end), d)
  {
    var letters := CountLetters(counts, start, end);
    WrittenKeys(counts, start, end);
    assert start in letters;
    var hi, lo := Extremes(letters);
    d := hi - lo;
  }

  /** `main`: ten steps for the first answer, thirty more for the second. */
  method Solve(lines: seq<string>) returns (part1: int, part2: int)
    requires Solvable(lines)
    ensures IsSpread(LettersAfter(lines, 10), part1)
    ensures IsSpread(LettersAfter(lines, 40), part2)
  {
    assert FirstSection(lines)[0] == lines[0];
    var template := FirstSection(lines)[0];
    var start, end := template[0], template[|template| - 1];
    var rules := ParseInsertions(SecondSection(lines));
    var initial := InitialCounts(template);
    AfterAfter(initial, rules, 10, 30);
    var tenth := Generations(initial, rules, 10);
    part1 := Spread(tenth, start, end);
    var fortieth := Generations(tenth, rules, 30);
    part2 := Spread(fortieth, start, end);
  }

  /** Every entry of a result of `count_letters`, present or not. */
  lemma WrittenGet(m: Counts, start: char, end: char, c: char)
    ensures Get(LettersAsWritten(m, start, end), c)
            == Weighted(m, LetterWeight(c)) / 2 + (if c == start then 1 else 0) + (if c == end then 1 else 0)
  {
    if c !in Letters(m) + {start, end} {
      forall q | q in m ensures LetterWeight(c)(q) == 0 {
        assert q.0 in Letters(m) && q.1 in Letters(m);
      }
      WeightedZero(m, LetterWeight(c));
    }
  }

  /** Growing keeps the first and the last letter. */
  lemma {:induction false} PolymerEnds(s: string, rules: Rules, k: nat)
    requires |s| > 0 && GrowsFor(s, rules, k)
    ensures var r := Polymer(s, rules, k); |r| > 0 && r[0] == s[0] && r[|r| - 1] == s[|s| - 1]
    decreases k
  {
    if k > 0 {
      PolymerEnds(Grow(s, rules), rules, k - 1);
    }
  }

  /**
   * What the counts mean: after `k` steps, `count_letters` reports for
   * every letter its number of occurrences in the polymer, one too many
   * for a letter that both starts and ends the template.
   */
  lemma PolymerLetters(template: string, rules: Rules, k: nat, c: char)
    requires |template| > 0 && WellFormed(rules)
    requires Runs(PairCounts(template), rules, k) && GrowsFor(template, rules, k)
    ensures var start, end := template[0], template[|template| - 1];
            Get(LettersAsWritten(After(PairCounts(template), rules, k), start, end), c)
            == Occurrences(Polymer(template, rules, k), c) + (if start == c && end == c then 1 else 0)
  {
    var m, polymer := After(PairCounts(template), rules, k), Polymer(template, rules, k);
    var start, end := template[0], template[|template| - 1];
    AfterIsPolymer(PairCounts(template), template, rules, k);
    WeightedGet(m, PairCounts(polymer), LetterWeight(c));
    PolymerEnds(template, rules, k);
    LetterShare(polymer, c);
    WrittenGet(m, start, end, c);
    HalfShare(Weighted(m, LetterWeight(c)), Occurrences(polymer, c), start == c, end == c);
  }

  lemma HalfShare(w: nat, n: nat, a: bool, b: bool)
    requires w + (if a then 1 else 0) + (if b then 1 else 0) == 2 * n
    ensures w / 2 + (if a then 1 else 0) + (if b then 1 else 0) == n + (if a && b then 1 else 0)
  {
  }
}
