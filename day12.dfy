/**
 * Day 12, Passage Pathing: a cave system given as edges `a-b`. Part 1
 * counts the paths from `start` to `end` that visit small (lowercase)
 * caves at most once; part 2 also lets one small cave other than `start`
 * be visited twice.
 */
module PassagePathing {
  import opened Options
  import opened Text

  type Graph = map<string, seq<string>>

  // ---------------------------------------------------------------------
  // parse
  // ---------------------------------------------------------------------

  /** The caves `line` adds to the neighbour list of `name`: `b` if it is `a-b`, and `a` if it is `name`'s other end. */
  function EdgeEnds(line: string, name: string): seq<string>
  {
    match SplitOnce(line, "-")
    case None => []
    case Some((a, b)) => Ends(a, b, name)
  }

  function Ends(a: string, b: string, name: string): seq<string>
  {
    (if a == name then [b] else []) + (if b == name then [a] else [])
  }

  /** The neighbour list of `name` after the first `|lines|` lines, in the order `parse` pushes it. */
  function Neighbours(lines: seq<string>, name: string): seq<string>
  {
    if lines == [] then [] else Neighbours(lines[..|lines| - 1], name) + EdgeEnds(lines[|lines| - 1], name)
  }

  /** `graph` holds the neighbour lists of the edges in `lines`, and only caves they mention. */
  ghost predicate Built(graph: Graph, lines: seq<string>)
  {
    (forall name :: name in graph <==> Neighbours(lines, name) != [])
    && forall name :: name in graph ==> graph[name] == Neighbours(lines, name)
  }

  /** `entry(name).or_insert(vec![]).push(other)`. */
  function Push(graph: Graph, name: string, other: string): Graph
  {
    graph[name := (if name in graph then graph[name] else []) + [other]]
  }

  lemma AddEdge(graph: Graph, lines: seq<string>, line: string, a: string, b: string)
    requires Built(graph, lines) && SplitOnce(line, "-") == Some((a, b))
    ensures Built(Push(Push(graph, a, b), b, a), lines + [line])
  {
    assert (lines + [line])[..|lines|] == lines;
    forall name ensures Neighbours(lines + [line], name) == Neighbours(lines, name) + Ends(a, b, name) {
      assert EdgeEnds(line, name) == Ends(a, b, name);
    }
    AddEnds(graph, lines, lines + [line], a, b);
  }

  lemma AddEnds(graph: Graph, lines: seq<string>, lines': seq<string>, a: string, b: string)
    requires Built(graph, lines)
    requires forall name :: Neighbours(lines', name) == Neighbours(lines, name) + Ends(a, b, name)
    ensures Built(Push(Push(graph, a, b), b, a), lines')
  {
    var g := Push(Push(graph, a, b), b, a);
    forall name ensures (name in g <==> Neighbours(lines', name) != []) && (name in g ==> g[name] == Neighbours(lines', name)) {
      AddEndsAt(graph, Neighbours(lines, name), Neighbours(lines', name), a, b, name);
    }
  }

  /** One cave's list after pushing both ends of the edge `a-b`. */
  lemma AddEndsAt(graph: Graph, before: seq<string>, after: seq<string>, a: string, b: string, name: string)
    requires (name in graph <==> before != []) && (name in graph ==> graph[name] == before)
    requires after == before + Ends(a, b, name)
    ensures var g := Push(Push(graph, a, b), b, a); (name in g <==> after != []) && (name in g ==> g[name] == after)
  {
    if name == a && name == b {
      assert after == before + [b] + [a];
    } else if name == a {
      assert after == before + [b];
    } else if name == b {
      assert after == before + [a];
    } else {
      assert after == before + [];
    }
  }

  lemma NoEdge(graph: Graph, lines: seq<string>, line: string)
    requires Built(graph, lines) && SplitOnce(line, "-").None?
    ensures Built(graph, lines + [line])
  {
    assert (lines + [line])[..|lines|] == lines;
    forall name ensures Neighbours(lines + [line], name) == Neighbours(lines, name) {
      assert Neighbours(lines, name) + [] == Neighbours(lines, name);
    }
  }

  /** `parse`: every line `a-b` pushes `b` onto `a`'s list and `a` onto `b`'s; other lines are skipped. */
  method Parse(lines: seq<string>) returns (graph: Graph)
    ensures Built(graph, lines)
  {
    graph := map[];
    for i := 0 to |lines|
      invariant Built(graph, lines[..i])
    {
      assert lines[..i + 1] == lines[..i] + [lines[i]];
      match SplitOnce(lines[i], "-")
      case None =>
        NoEdge(graph, lines[..i], lines[i]);
      case Some((a, b)) =>
        AddEdge(graph, lines[..i], lines[i], a, b);
        graph := graph[a := (if a in graph then graph[a] else []) + [b]];
        graph := graph[b := (if b in graph then graph[b] else []) + [a]];
    }
    assert lines[..|lines|] == lines;
  }

  /** Every edge is there in both directions. */
  lemma {:induction false} NeighboursSymmetric(lines: seq<string>, a: string, b: string)
    ensures b in Neighbours(lines, a) <==> a in Neighbours(lines, b)
  {
    if lines != [] {
      var front, last := lines[..|lines| - 1], lines[|lines| - 1];
      NeighboursSymmetric(front, a, b);
      assert b in Neighbours(lines, a) <==> b in Neighbours(front, a) || b in EdgeEnds(last, a);
      assert a in Neighbours(lines, b) <==> a in Neighbours(front, b) || a in EdgeEnds(last, b);
      EdgeEndsSymmetric(last, a, b);
    }
  }

  lemma EdgeEndsSymmetric(line: string, a: string, b: string)
    ensures b in EdgeEnds(line, a) <==> a in EdgeEnds(line, b)
  {
    match SplitOnce(line, "-")
    case None =>
    case Some((x, y)) =>
      assert EdgeEnds(line, a) == Ends(x, y, a) && EdgeEnds(line, b) == Ends(x, y, b);
  }

  /** Every neighbour listed is itself a cave of the graph, so `&graph[node]` never misses. */
  predicate Closed(graph: Graph)
  {
    forall a, b :: a in graph && b in graph[a] ==> b in graph
  }

  lemma ParsedClosed(lines: seq<string>, graph: Graph)
    requires Built(graph, lines)
    ensures Closed(graph)
  {
    forall a, b | a in graph && b in graph[a] ensures b in graph {
      NeighboursSymmetric(lines, a, b);
    }
  }

  // ---------------------------------------------------------------------
  // is_lower
  // ---------------------------------------------------------------------

  /**
   * The characters an all-lowercase name is made of. `is_lower` compares a
   * count of characters with `name.len()`, a count of bytes; any character
   * outside ASCII takes more than one byte, so the two agree exactly when
   * every character is one of `a` to `z`.
   */
  predicate LowerChar(c: char)
  {
    'a' <= c <= 'z'
  }

  /** How many characters of `name` are `a` to `z`: `filter(|c| c.is_lowercase()).count()` as `is_lower` uses it. */
  function LowerCount(name: string): (n: nat)
    ensures n <= |name|
    ensures n == |name| <==> forall i :: 0 <= i < |name| ==> LowerChar(name[i])
  {
    if name == [] then 0
    else
      var n := LowerCount(name[..|name| - 1]) + (if LowerChar(name[|name| - 1]) then 1 else 0);
      assert forall i :: 0 <= i < |name| - 1 ==> name[..|name| - 1][i] == name[i];
      n
  }

  /** `is_lower`: the count of lowercase characters is the length. */
  predicate IsLower(name: string)
    ensures IsLower(name) <==> forall i :: 0 <= i < |name| ==> LowerChar(name[i])
  {
    LowerCount(name) == |name|
  }

  // ---------------------------------------------------------------------
  // explore
  // ---------------------------------------------------------------------

  /**
   * The walk `p` goes on correctly from position `k`: each node after
   * `p[k - 1]` is a neighbour of the one before, it stops at the first
   * `end`, and a small cave seen before is entered again only while the
   * repeat is unused (`!doubled`) and only if it is not `start`.
   */
  predicate FollowsFrom(graph: Graph, p: seq<string>, k: nat, doubled: bool)
    requires 1 <= k <= |p|
    decreases |p| - k
  {
    if p[k - 1] == "end" then k == |p|
    else
      k < |p| && p[k - 1] in graph && p[k] in graph[p[k - 1]]
      && if IsLower(p[k]) && p[k] in p[..k] then
           !doubled && p[k] != "start" && FollowsFrom(graph, p, k + 1, true)
         else
           FollowsFrom(graph, p, k + 1, doubled)
  }

  /** `p` is a path `explore(graph, path, doubled)` can return: it extends `path` and follows the rules. */
  predicate Follows(graph: Graph, path: seq<string>, p: seq<string>, doubled: bool)
  {
    0 < |path| <= |p| && p[..|path|] == path && FollowsFrom(graph, p, |path|, doubled)
  }

  /** A path that goes on from `path` continues through one neighbour `node` of its last cave. */
  lemma FollowsStep(graph: Graph, path: seq<string>, p: seq<string>, doubled: bool, node: string, doubled': bool)
    requires |path| > 0 && path[|path| - 1] != "end" && path[|path| - 1] in graph
    requires node in graph[path[|path| - 1]]
    requires doubled' == (doubled || (IsLower(node) && node in path))
    requires !(IsLower(node) && node in path && (doubled || node == "start"))
    ensures (Follows(graph, path, p, doubled) && |p| > |path| && p[|path|] == node)
            <==> Follows(graph, path + [node], p, doubled')
  {
    if Follows(graph, path + [node], p, doubled') {
      assert p[..|path|] == (path + [node])[..|path|] == path;
      assert p[|path|] == node;
    }
    if Follows(graph, path, p, doubled) && |p| > |path| && p[|path|] == node {
      assert p[..|path| + 1] == p[..|path|] + [p[|path|]];
    }
  }

  /** No path goes on through a cave the rules forbid. */
  lemma FollowsBlocked(graph: Graph, path: seq<string>, p: seq<string>, doubled: bool, node: string)
    requires |path| > 0 && path[|path| - 1] != "end"
    requires IsLower(node) && node in path && (doubled || node == "start")
    ensures !(Follows(graph, path, p, doubled) && |p| > |path| && p[|path|] == node)
  {
  }

  /**
   * `explore`: every path from the end of `path` to the first `end`, under
   * the small-cave rule. The source recurses without a bound (two adjacent
   * big caves make it loop forever); here each level spends one unit of
   * `fuel`, and `None` means it ran out somewhere.
   */
  method Explore(graph: Graph, path: seq<string>, doubled: bool, fuel: nat) returns (paths: Option<seq<seq<string>>>)
    requires |path| > 0 && path[|path| - 1] in graph && Closed(graph)
    ensures paths.Some? ==> forall p :: p in paths.value <==> Follows(graph, path, p, doubled)
    decreases fuel
  {
    var current := path[|path| - 1];
    if current == "end" {
      assert forall p :: Follows(graph, path, p, doubled) ==> p == path;
      return Some([path]);
    }
    if fuel == 0 {
      return None;
    }
    var newPaths: seq<seq<string>> := [];
    var nodes := graph[current];
    for j := 0 to |nodes|
      invariant forall p :: p in newPaths <==> Follows(graph, path, p, doubled) && |p| > |path| && p[|path|] in nodes[..j]
    {
      var node := nodes[j];
      assert nodes[..j + 1] == nodes[..j] + [node];
      var doubled' := doubled;
      if IsLower(node) && node in path {
        if doubled' || node == "start" {
          forall p ensures !(Follows(graph, path, p, doubled) && |p| > |path| && p[|path|] == node) {
            FollowsBlocked(graph, path, p, doubled, node);
          }
          continue;
        } else {
          doubled' := true;
        }
      }
      var newPath := path + [node];
      var sub := Explore(graph, newPath, doubled', fuel - 1);
      if sub.None? {
        return None;
      }
      forall p ensures (Follows(graph, path, p, doubled) && |p| > |path| && p[|path|] == node)
                       <==> Follows(graph, newPath, p, doubled') {
        FollowsStep(graph, path, p, doubled, node, doubled');
      }
      newPaths := newPaths + sub.value;
    }
    assert nodes[..|nodes|] == nodes;
    forall p | Follows(graph, path, p, doubled) ensures |p| > |path| && p[|path|] in nodes {
    }
    return Some(newPaths);
  }

  // ---------------------------------------------------------------------
  // main
  // ---------------------------------------------------------------------

  /** A path of part 1: small caves at most once. */
  lemma SmallCavesOnce(graph: Graph, path: seq<string>, p: seq<string>)
    requires Follows(graph, path, p, true)
    ensures forall k :: |path| <= k < |p| && IsLower(p[k]) ==> p[k] !in p[..k]
  {
    SmallCavesOnceFrom(graph, p, |path|);
  }

  lemma {:induction false} SmallCavesOnceFrom(graph: Graph, p: seq<string>, k: nat)
    requires 1 <= k <= |p| && FollowsFrom(graph, p, k, true)
    ensures forall l :: k <= l < |p| && IsLower(p[l]) ==> p[l] !in p[..l]
    decreases |p| - k
  {
    if p[k - 1] != "end" {
      SmallCavesOnceFrom(graph, p, k + 1);
    }
  }

  /** The repeated small caves from position `k` on. */
  function Repeats(p: seq<string>, k: nat): nat
    requires k <= |p|
    decreases |p| - k
  {
    if k == |p| then 0 else (if IsLower(p[k]) && p[k] in p[..k] then 1 else 0) + Repeats(p, k + 1)
  }

  /** A path of part 2 repeats at most one small cave visit, and never goes back to `start`. */
  lemma {:induction false} OneRepeatFrom(graph: Graph, p: seq<string>, k: nat, doubled: bool)
    requires 1 <= k <= |p| && FollowsFrom(graph, p, k, doubled) && "start" in p[..k]
    ensures Repeats(p, k) <= (if doubled then 0 else 1)
    ensures forall l :: k <= l < |p| ==> p[l] != "start"
    decreases |p| - k
  {
    if p[k - 1] != "end" {
      assert p[..k + 1] == p[..k] + [p[k]];
      if IsLower(p[k]) && p[k] in p[..k] {
        OneRepeatFrom(graph, p, k + 1, true);
      } else {
        assert p[k] != "start" by {
          assert IsLower("start");
        }
        OneRepeatFrom(graph, p, k + 1, doubled);
      }
    }
  }

  lemma OneRepeat(graph: Graph, path: seq<string>, p: seq<string>)
    requires Follows(graph, path, p, false) && "start" in path
    ensures Repeats(p, |path|) <= 1
    ensures forall k :: |path| <= k < |p| ==> p[k] != "start"
  {
    OneRepeatFrom(graph, p, |path|, false);
  }

  /**
   * `main`: part 1 counts `explore(["start"], true)`, part 2
   * `explore(["start"], false)`; `graph["start"]` panics without a start cave.
   */
  method Solve(lines: seq<string>, fuel: nat)
    returns (part1: Option<nat>, part2: Option<nat>, ghost graph: Graph, ghost walks1: seq<seq<string>>, ghost walks2: seq<seq<string>>)
    requires Neighbours(lines, "start") != []
    ensures Built(graph, lines) && Closed(graph) && "start" in graph
    ensures part1.Some? ==> part1.value == |walks1| && forall p :: p in walks1 <==> Follows(graph, ["start"], p, true)
    ensures part2.Some? ==> part2.value == |walks2| && forall p :: p in walks2 <==> Follows(graph, ["start"], p, false)
  {
    var g := Parse(lines);
    ParsedClosed(lines, g);
    graph := g;
    var paths1 := Explore(g, ["start"], true, fuel);
    var paths2 := Explore(g, ["start"], false, fuel);
    walks1 := if paths1.Some? then paths1.value else [];
    walks2 := if paths2.Some? then paths2.value else [];
    part1 := if paths1.Some? then Some(|paths1.value|) else None;
    part2 := if paths2.Some? then Some(|paths2.value|) else None;
  }
}
