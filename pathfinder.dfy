/**
 * A* search over the node dictionary (`aStar`, `heuristic`, `reconstructPath`
 * in alf.js). There is no closed set: a node goes back into the open set
 * whenever its g-score strictly decreases. The open set is a JavaScript `Set`,
 * so it iterates in insertion order and a node that is deleted and re-added
 * moves to the end.
 *
 * `Search` states the algorithm one iteration at a time as pure functions;
 * `AStarSearch` is the loop itself and is proved to compute `Search`. The
 * properties of the result are lemmas about `Search`.
 */
module Pathfinder {
  import opened JsText
  import opened JsObject
  import opened CostModel
  import opened GraphTypes

  function Abs(x: int): nat {
    if x < 0 then -x else x
  }

  /**
   * Distance between the first digit runs of the two ids. None where the source
   * throws: an id without a digit has no digit run to read.
   */
  function Heuristic(current: string, target: string): (h: Option<nat>)
    ensures h.Some? <==> HasDigit(current) && HasDigit(target)
  {
    match (FirstDigitRun(current), FirstDigitRun(target))
    case (Some(a), Some(b)) => Some(Abs(DigitsValue(b) - DigitsValue(a)))
    case _ => None
  }

  /** For the generated ids `node-<i>` the heuristic is the distance between the counters. */
  lemma HeuristicOfGeneratedIds(i: nat, j: nat)
    ensures Heuristic("node-" + NatToString(i), "node-" + NatToString(j)) == Some(Abs(j - i))
  {
    NodePrefixHasNoDigit();
    GeneratedIdDigitRun("node-", i);
    GeneratedIdDigitRun("node-", j);
    NatToStringRoundTrip(i);
    NatToStringRoundTrip(j);
    HeuristicOfRuns("node-" + NatToString(i), "node-" + NatToString(j), NatToString(i), NatToString(j));
  }

  lemma NodePrefixHasNoDigit()
    ensures !HasDigit("node-")
  {
  }

  /** The heuristic reads the first digit run of each id. */
  lemma HeuristicOfRuns(current: string, target: string, a: string, b: string)
    requires FirstDigitRun(current) == Some(a) && FirstDigitRun(target) == Some(b)
    ensures AllDigits(a) && AllDigits(b)
    ensures Heuristic(current, target) == Some(Abs(DigitsValue(b) - DigitsValue(a)))
  {
  }

  /** The outcome of one call. Found and NoPath are the two results `aStar` returns. */
  datatype SearchOutcome =
    | Found(result: PathResult)
    | NoPath
    | Throws     // the heuristic met an id without a digit
    | Diverges   // the source loops forever
    | Undecided  // the iteration budget ran out, or the open set holds only Infinity scores and a node is named "null"

  /**
   * How the open node to expand is chosen. The source keeps the first node whose
   * f-score is strictly below the lowest seen so far, starting from Infinity, so
   * it chooses nothing when every open f-score is Infinity. The corrected rule
   * falls back to the first open node in that case.
   */
  datatype Selection = StrictBelowInfinity | FallBackToFirst

  datatype SearchState = SearchState(
    open: seq<string>,
    cameFrom: map<string, string>,
    g: map<string, Cost>,
    f: map<string, Cost>)

  /** A score looked up in a score table; a missing entry never wins a comparison. */
  function Score(scores: map<string, Cost>, id: string): Cost {
    if id in scores then scores[id] else Infinite
  }

  // ---------------------------------------------------------------------------
  // Choosing the node to expand

  /** The selection scan from position `i` on, `cur`/`lowest` being the best so far. */
  function Scan(open: seq<string>, f: map<string, Cost>, i: nat, cur: int, lowest: Cost): (r: int)
    requires i <= |open| && -1 <= cur < |open|
    ensures -1 <= r < |open|
    decreases |open| - i
  {
    if i == |open| then cur
    else if Score(f, open[i]).Below(lowest) then Scan(open, f, i + 1, i, Score(f, open[i]))
    else Scan(open, f, i + 1, cur, lowest)
  }

  function Lowest(open: seq<string>, f: map<string, Cost>, rule: Selection): (r: int)
    ensures -1 <= r < |open|
    ensures rule == FallBackToFirst && |open| > 0 ==> r >= 0
  {
    var r := Scan(open, f, 0, -1, Infinite);
    if r < 0 && rule == FallBackToFirst && |open| > 0 then 0 else r
  }

  /** What the scan computes: the first open node of least finite f-score, or -1 when there is none. */
  lemma {:induction false} ScanFindsFirstLeast(open: seq<string>, f: map<string, Cost>, i: nat, cur: int, lowest: Cost)
    requires i <= |open| && -1 <= cur < i
    requires cur < 0 ==> lowest == Infinite
    requires cur >= 0 ==> lowest == Score(f, open[cur]) && lowest.Finite?
    requires forall k :: 0 <= k < i ==> !Score(f, open[k]).Below(lowest)
    requires forall k :: 0 <= k < cur ==> lowest.Below(Score(f, open[k]))
    ensures var r := Scan(open, f, i, cur, lowest);
      && (r < 0 <==> forall k :: 0 <= k < |open| ==> Score(f, open[k]).Infinite?)
      && (r >= 0 ==> Score(f, open[r]).Finite?
                      && (forall k :: 0 <= k < |open| ==> !Score(f, open[k]).Below(Score(f, open[r])))
                      && (forall k :: 0 <= k < r ==> Score(f, open[r]).Below(Score(f, open[k]))))
    decreases |open| - i
  {
    if i < |open| {
      var s := Score(f, open[i]);
      if s.Below(lowest) {
        forall k | 0 <= k < i ensures s.Below(Score(f, open[k])) {
          assert !Score(f, open[k]).Below(lowest);
        }
        ScanFindsFirstLeast(open, f, i + 1, i, s);
      } else {
        ScanFindsFirstLeast(open, f, i + 1, cur, lowest);
      }
    } else if cur < 0 {
      forall k | 0 <= k < |open| ensures Score(f, open[k]).Infinite? {
        assert !Score(f, open[k]).Below(Infinite);
      }
    }
  }

  /** The selection loop of `aStar`. */
  method SelectLowest(open: seq<string>, f: map<string, Cost>, rule: Selection) returns (idx: int)
    ensures idx == Lowest(open, f, rule)
  {
    var cur := -1;
    var lowest := Infinite;
    var i := 0;
    while i < |open|
      invariant 0 <= i <= |open| && -1 <= cur < |open|
      invariant Scan(open, f, 0, -1, Infinite) == Scan(open, f, i, cur, lowest)
    {
      if Score(f, open[i]).Below(lowest) {
        cur := i;
        lowest := Score(f, open[i]);
      }
      i := i + 1;
    }
    idx := cur;
    if idx < 0 && rule == FallBackToFirst && |open| > 0 {
      idx := 0;
    }
  }

  // ---------------------------------------------------------------------------
  // Rebuilding the path

  function Elems(s: seq<string>): set<string> {
    set x | x in s
  }

  lemma MeasureDrops(keys: set<string>, s: seq<string>, p: string)
    requires p !in s
    ensures p in keys ==> |keys - Elems([p] + s)| == |keys - Elems(s)| - 1
    ensures p !in keys ==> |keys - Elems([p] + s)| == |keys - Elems(s)|
  {
    assert Elems([p] + s) == Elems(s) + {p};
    if p in keys {
      assert keys - Elems(s) == (keys - Elems([p] + s)) + {p};
    } else {
      assert keys - Elems([p] + s) == keys - Elems(s);
    }
  }

  /**
   * `reconstructPath` from the partial path `acc`, whose head is the node being
   * looked up. None when the predecessor chain runs into a node already on the
   * path: the source's walk back along the predecessors then never ends.
   */
  function ReconstructFrom(cameFrom: map<string, string>, acc: seq<string>): Option<seq<string>>
    requires |acc| > 0 && Distinct(acc)
    decreases |cameFrom.Keys - Elems(acc)| + (if acc[0] in cameFrom then 1 else 0)
  {
    if acc[0] !in cameFrom then Some(acc)
    else
      var prev := cameFrom[acc[0]];
      if prev in acc then None
      else
        MeasureDrops(cameFrom.Keys, acc, prev);
        ReconstructFrom(cameFrom, [prev] + acc)
  }

  function Reconstruct(cameFrom: map<string, string>, current: string): Option<seq<string>> {
    ReconstructFrom(cameFrom, [current])
  }

  /** `p` follows predecessor links: each node is recorded as the predecessor of the next. */
  predicate LinksBack(cameFrom: map<string, string>, p: seq<string>) {
    forall i :: 0 <= i < |p| - 1 ==> Follows(cameFrom, p[i], p[i + 1])
  }

  predicate Follows(cameFrom: map<string, string>, a: string, b: string) {
    b in cameFrom && cameFrom[b] == a
  }

  /** A rebuilt path follows the predecessor links from a node without one to `acc`'s last node. */
  lemma {:induction false} ReconstructFollowsLinks(cameFrom: map<string, string>, acc: seq<string>)
    requires |acc| > 0 && Distinct(acc) && LinksBack(cameFrom, acc)
    ensures var r := ReconstructFrom(cameFrom, acc);
      r.Some? ==> && |r.value| > 0 && r.value[|r.value| - 1] == acc[|acc| - 1]
                  && r.value[0] !in cameFrom && LinksBack(cameFrom, r.value)
    decreases |cameFrom.Keys - Elems(acc)| + (if acc[0] in cameFrom then 1 else 0)
  {
    if acc[0] in cameFrom {
      var prev := cameFrom[acc[0]];
      if prev !in acc {
        MeasureDrops(cameFrom.Keys, acc, prev);
        var acc' := [prev] + acc;
        assert LinksBack(cameFrom, acc') by {
          forall i | 0 <= i < |acc'| - 1 ensures Follows(cameFrom, acc'[i], acc'[i + 1]) {
            if i > 0 {
              assert acc'[i + 1] == acc[i] && acc'[i] == acc[i - 1];
            }
          }
        }
        ReconstructFollowsLinks(cameFrom, acc');
        assert ReconstructFrom(cameFrom, acc) == ReconstructFrom(cameFrom, acc');
        assert acc'[|acc'| - 1] == acc[|acc| - 1];
      }
    }
  }

  /** The `unshift` loop of `reconstructPath`. */
  method ReconstructPath(cameFrom: map<string, string>, current: string) returns (path: Option<seq<string>>)
    ensures path == Reconstruct(cameFrom, current)
  {
    var total := [current];
    var cur := current;
    while cur in cameFrom
      invariant |total| > 0 && total[0] == cur && Distinct(total)
      invariant Reconstruct(cameFrom, current) == ReconstructFrom(cameFrom, total)
      decreases |cameFrom.Keys - Elems(total)| + (if cur in cameFrom then 1 else 0)
    {
      var prev := cameFrom[cur];
      if prev in total {
        return None;
      }
      MeasureDrops(cameFrom.Keys, total, prev);
      cur := prev;
      total := [prev] + total;
    }
    return Some(total);
  }

  // ---------------------------------------------------------------------------
  // One iteration

  function RemoveAt(s: seq<string>, i: nat): seq<string>
    requires i < |s|
  {
    s[..i] + s[i + 1..]
  }

  /** The neighbour loop: relax each edge of `current` in turn, in the order `for...in` visits them. */
  function Relax(nodes: Nodes, target: string, current: string, edges: OMap<Edge>, ns: seq<string>, st: SearchState): Option<SearchState>
    requires forall k :: k in ns ==> k in edges.entries
    decreases |ns|
  {
    if |ns| == 0 then Some(st)
    else
      var n := ns[0];
      var tentative := Score(st.g, current).Plus(edges.entries[n].weight);
      if n !in st.g || tentative.Below(st.g[n]) then
        match Heuristic(n, target)
        case None => None
        case Some(h) =>
          var open := if n in st.open then st.open else st.open + [n];
          Relax(nodes, target, current, edges, ns[1..],
            SearchState(open, st.cameFrom[n := current], st.g[n := tentative], st.f[n := tentative.Plus(Finite(h as real))]))
      else
        Relax(nodes, target, current, edges, ns[1..], st)
  }

  /** The targets of `current`'s edges in the order `for...in` visits them. */
  function NeighbourIds(nodes: Nodes, current: string): (ns: seq<string>)
    requires NodesValid(nodes) && current in nodes.entries
    ensures forall k :: k in ns <==> k in nodes.entries[current].edges.entries
  {
    KeysEnumerateEntries(nodes.entries[current].edges);
    nodes.entries[current].edges.Keys()
  }

  datatype Verdict = Continue(next: SearchState) | Done(outcome: SearchOutcome)

  /** One pass of the `while (openSet.size > 0)` loop. */
  function Step(nodes: Nodes, target: string, st: SearchState, rule: Selection): Verdict
    requires NodesValid(nodes)
  {
    if |st.open| == 0 then Done(NoPath)
    else
      var idx := Lowest(st.open, st.f, rule);
      if idx < 0 then
        // `current` stays null: nothing is deleted and `nodes[null]` is looked up.
        if "null" in nodes.entries then Done(Undecided) else Done(Diverges)
      else
        var current := st.open[idx];
        if current == target then
          match Reconstruct(st.cameFrom, current)
          case None => Done(Diverges)
          case Some(p) => Done(Found(PathResult(p, Score(st.g, current))))
        else
          var popped := st.(open := RemoveAt(st.open, idx));
          if current !in nodes.entries then Continue(popped)
          else
            match Relax(nodes, target, current, nodes.entries[current].edges, NeighbourIds(nodes, current), popped)
            case None => Done(Throws)
            case Some(next) => Continue(next)
  }

  /** At most `fuel` passes of the loop. */
  function Run(nodes: Nodes, target: string, st: SearchState, fuel: nat, rule: Selection): SearchOutcome
    requires NodesValid(nodes)
    decreases fuel
  {
    if fuel == 0 then Undecided
    else
      match Step(nodes, target, st, rule)
      case Done(o) => o
      case Continue(next) => Run(nodes, target, next, fuel - 1, rule)
  }

  function InitialState(start: string, h: nat): SearchState {
    SearchState([start], map[], map[start := Finite(0.0)], map[start := Finite(h as real)])
  }

  /** `aStar(start, target)` without the memo, with at most `fuel` passes of the main loop. */
  function Search(nodes: Nodes, start: string, target: string, fuel: nat, rule: Selection): SearchOutcome
    requires NodesValid(nodes)
  {
    match Heuristic(start, target)
    case None => Throws
    case Some(h) => Run(nodes, target, InitialState(start, h), fuel, rule)
  }

  /** The neighbour loop of `aStar` for the node `current` just taken from the open set. */
  method ExpandNode(nodes: Nodes, target: string, current: string, st: SearchState) returns (next: Option<SearchState>)
    requires NodesValid(nodes) && current in nodes.entries
    ensures next == Relax(nodes, target, current, nodes.entries[current].edges, NeighbourIds(nodes, current), st)
  {
    var edges := nodes.entries[current].edges;
    var ns := NeighbourIds(nodes, current);
    var cur := st;
    var j := 0;
    while j < |ns|
      invariant 0 <= j <= |ns|
      invariant Relax(nodes, target, current, edges, ns, st) == Relax(nodes, target, current, edges, ns[j..], cur)
    {
      var step := RelaxFirst(nodes, target, current, edges, ns[j..], cur);
      if step.None? {
        return None;
      }
      assert ns[j..][1..] == ns[j + 1..];
      cur := step.value;
      j := j + 1;
    }
    return Some(cur);
  }

  /** One pass of the neighbour loop: the edge to `ns[0]` relaxed, or None where the heuristic throws. */
  method RelaxFirst(nodes: Nodes, target: string, current: string, edges: OMap<Edge>, ns: seq<string>, st: SearchState)
    returns (next: Option<SearchState>)
    requires |ns| > 0 && forall k :: k in ns ==> k in edges.entries
    ensures next.None? ==> Relax(nodes, target, current, edges, ns, st) == None
    ensures next.Some? ==> Relax(nodes, target, current, edges, ns, st) == Relax(nodes, target, current, edges, ns[1..], next.value)
  {
    var open, cameFrom, g, f := st.open, st.cameFrom, st.g, st.f;
    var n := ns[0];
    var tentative := Score(g, current).Plus(edges.entries[n].weight);
    if n !in g || tentative.Below(g[n]) {
      var h := Heuristic(n, target);
      if h.None? {
        return None;
      }
      cameFrom := cameFrom[n := current];
      g := g[n := tentative];
      f := f[n := tentative.Plus(Finite(h.value as real))];
      if n !in open {
        open := open + [n];
      }
    }
    return Some(SearchState(open, cameFrom, g, f));
  }

  /** One pass of the main loop: choose, finish or expand. */
  method SearchPass(nodes: Nodes, target: string, st: SearchState, rule: Selection) returns (verdict: Verdict)
    requires NodesValid(nodes)
    ensures verdict == Step(nodes, target, st, rule)
  {
    if |st.open| == 0 {
      return Done(NoPath);
    }
    var idx := SelectLowest(st.open, st.f, rule);
    if idx < 0 {
      if "null" in nodes.entries {
        return Done(Undecided);
      }
      return Done(Diverges);
    }
    var current := st.open[idx];
    if current == target {
      var path := ReconstructPath(st.cameFrom, current);
      if path.None? {
        return Done(Diverges);
      }
      return Done(Found(PathResult(path.value, Score(st.g, current))));
    }
    var popped := st.(open := RemoveAt(st.open, idx));
    if current !in nodes.entries {
      return Continue(popped);
    }
    var next := ExpandNode(nodes, target, current, popped);
    if next.None? {
      return Done(Throws);
    }
    return Continue(next.value);
  }

  /** `aStar` without its memo: the initial scores, then the main loop. */
  method AStarSearch(nodes: Nodes, start: string, target: string, fuel: nat, rule: Selection) returns (outcome: SearchOutcome)
    requires NodesValid(nodes)
    ensures outcome == Search(nodes, start, target, fuel, rule)
  {
    var h := Heuristic(start, target);
    if h.None? {
      return Throws;
    }
    outcome := SearchLoop(nodes, target, InitialState(start, h.value), fuel, rule);
  }

  /** The `while (openSet.size > 0)` loop of `aStar`, at most `fuel` passes. */
  method SearchLoop(nodes: Nodes, target: string, init: SearchState, fuel: nat, rule: Selection) returns (outcome: SearchOutcome)
    requires NodesValid(nodes)
    ensures outcome == Run(nodes, target, init, fuel, rule)
  {
    var open, cameFrom, g, f := init.open, init.cameFrom, init.g, init.f;
    var left := fuel;
    while left > 0
      invariant Run(nodes, target, init, fuel, rule) == Run(nodes, target, SearchState(open, cameFrom, g, f), left, rule)
      decreases left
    {
      var verdict := SearchPass(nodes, target, SearchState(open, cameFrom, g, f), rule);
      RunUnfolds(nodes, target, SearchState(open, cameFrom, g, f), left, rule);
      if verdict.Done? {
        return verdict.outcome;
      }
      open, cameFrom, g, f := verdict.next.open, verdict.next.cameFrom, verdict.next.g, verdict.next.f;
      left := left - 1;
    }
    return Undecided;
  }

  lemma RunUnfolds(nodes: Nodes, target: string, st: SearchState, fuel: nat, rule: Selection)
    requires NodesValid(nodes) && fuel > 0
    ensures var v := Step(nodes, target, st, rule);
      Run(nodes, target, st, fuel, rule) == if v.Done? then v.outcome else Run(nodes, target, v.next, fuel - 1, rule)
  {
  }
}

/** What the search result means: the properties of `Search`. */
module PathfinderFacts {
  import opened JsText
  import opened JsObject
  import opened CostModel
  import opened GraphTypes
  import opened Pathfinder

  /** Consecutive ids are joined by an edge of the graph. */
  predicate IsEdgePath(nodes: Nodes, p: seq<string>) {
    forall i :: 0 <= i < |p| - 1 ==> HasEdge(nodes, p[i], p[i + 1])
  }

  /** Every edge out of `v`, if `v` is a node, leads to an id that has a g-score. */
  predicate Expanded(nodes: Nodes, g: map<string, Cost>, v: string) {
    v in nodes.entries ==> forall n :: n in nodes.entries[v].edges.entries ==> n in g
  }

  /** The search-state invariant, leaving out the closure of the node being expanded. */
  predicate Core(nodes: Nodes, start: string, target: string, st: SearchState) {
    && Distinct(st.open)
    && (forall v :: v in st.open ==> v in st.g)
    && start in st.g
    && (forall v :: v in st.g ==> v == start || v in st.cameFrom)
    && (forall v :: v in st.cameFrom ==> st.cameFrom[v] in st.g && HasEdge(nodes, st.cameFrom[v], v))
    && (target in st.g ==> target in st.open)
  }

  /** Every scored node that has left the open set, other than `skip`, has been expanded. */
  predicate ClosedBut(nodes: Nodes, st: SearchState, skip: string) {
    forall v :: v in st.g && v !in st.open && v != skip ==> Expanded(nodes, st.g, v)
  }

  /** Every scored node that has left the open set has been expanded. */
  predicate Closed(nodes: Nodes, st: SearchState) {
    forall v :: v in st.g && v !in st.open ==> Expanded(nodes, st.g, v)
  }

  predicate Inv(nodes: Nodes, start: string, target: string, st: SearchState) {
    Core(nodes, start, target, st) && Closed(nodes, st)
  }

  lemma RemoveAtMembers(s: seq<string>, i: nat)
    requires i < |s| && Distinct(s)
    ensures Distinct(RemoveAt(s, i))
    ensures forall x :: x in RemoveAt(s, i) <==> x in s && x != s[i]
  {
    var r := RemoveAt(s, i);
    forall x ensures x in r <==> x in s && x != s[i] {
      if x in s && x != s[i] {
        var k :| 0 <= k < |s| && s[k] == x;
        if k < i { assert r[k] == x; } else { assert r[k - 1] == x; }
      }
    }
    forall a, b | 0 <= a < b < |r| ensures r[a] != r[b] {
      var a' := if a < i then a else a + 1;
      var b' := if b < i then b else b + 1;
      assert r[a] == s[a'] && r[b] == s[b'];
    }
  }

  /** Recording `current` as the predecessor of a neighbour `n` keeps the invariant. */
  lemma UpdateKeepsInvariant(nodes: Nodes, start: string, target: string, current: string, n: string,
                             st: SearchState, gn: Cost, fn: Cost)
    requires Core(nodes, start, target, st) && ClosedBut(nodes, st, current)
    requires current in st.g && HasEdge(nodes, current, n)
    ensures var st' := SearchState(if n in st.open then st.open else st.open + [n],
                                   st.cameFrom[n := current], st.g[n := gn], st.f[n := fn]);
      Core(nodes, start, target, st') && ClosedBut(nodes, st', current)
  {
    var st' := SearchState(if n in st.open then st.open else st.open + [n],
                           st.cameFrom[n := current], st.g[n := gn], st.f[n := fn]);
    assert Distinct(st'.open);
    forall v | v in st'.g && v !in st'.open && v != current ensures Expanded(nodes, st'.g, v) {
      assert v != n && v in st.g && v !in st.open;
      assert Expanded(nodes, st.g, v);
    }
  }

  /** Relaxing the remaining neighbours keeps the invariant and scores every neighbour. */
  lemma {:induction false} RelaxKeepsInvariant(nodes: Nodes, start: string, target: string, current: string,
                                                ns: seq<string>, st: SearchState)
    requires NodesValid(nodes) && current in nodes.entries && current in st.g
    requires forall k :: k in ns ==> k in nodes.entries[current].edges.entries
    requires Core(nodes, start, target, st) && ClosedBut(nodes, st, current)
    requires forall n :: n in nodes.entries[current].edges.entries ==> n in ns || n in st.g
    ensures var r := Relax(nodes, target, current, nodes.entries[current].edges, ns, st);
      r.Some? ==> && Core(nodes, start, target, r.value) && ClosedBut(nodes, r.value, current)
                  && current in r.value.g
                  && (forall n :: n in nodes.entries[current].edges.entries ==> n in r.value.g)
    decreases |ns|
  {
    var edges := nodes.entries[current].edges;
    if |ns| > 0 {
      var n := ns[0];
      var tentative := Score(st.g, current).Plus(edges.entries[n].weight);
      var next := st;
      if n !in st.g || tentative.Below(st.g[n]) {
        var h := Heuristic(n, target);
        if h.None? {
          return;
        }
        next := SearchState(if n in st.open then st.open else st.open + [n],
                            st.cameFrom[n := current], st.g[n := tentative], st.f[n := tentative.Plus(Finite(h.value as real))]);
        UpdateKeepsInvariant(nodes, start, target, current, n, st, tentative, tentative.Plus(Finite(h.value as real)));
      }
      assert Relax(nodes, target, current, edges, ns, st) == Relax(nodes, target, current, edges, ns[1..], next);
      forall m | m in edges.entries ensures m in ns[1..] || m in next.g {
        if m !in next.g {
          var k :| 0 <= k < |ns| && ns[k] == m;
          assert k != 0;
          assert ns[1..][k - 1] == m;
        }
      }
      RelaxKeepsInvariant(nodes, start, target, current, ns[1..], next);
    }
  }

  /** A pass that goes on keeps the invariant. */
  lemma StepKeepsInvariant(nodes: Nodes, start: string, target: string, st: SearchState, rule: Selection)
    requires NodesValid(nodes) && Inv(nodes, start, target, st)
    ensures Step(nodes, target, st, rule).Continue? ==> Inv(nodes, start, target, Step(nodes, target, st, rule).next)
  {
    if |st.open| > 0 {
      var idx := Lowest(st.open, st.f, rule);
      if idx >= 0 && st.open[idx] != target {
        var current := st.open[idx];
        var popped := st.(open := RemoveAt(st.open, idx));
        RemoveAtMembers(st.open, idx);
        assert Core(nodes, start, target, popped);
        assert ClosedBut(nodes, popped, current);
        if current in nodes.entries {
          RelaxKeepsInvariant(nodes, start, target, current, NeighbourIds(nodes, current), popped);
        }
      }
    }
  }

  /** A path rebuilt from a state satisfying the invariant runs from `start` to `current` along edges. */
  lemma RebuiltPathIsEdgePath(nodes: Nodes, start: string, target: string, st: SearchState, current: string)
    requires Inv(nodes, start, target, st) && current in st.g
    requires Reconstruct(st.cameFrom, current).Some?
    ensures var p := Reconstruct(st.cameFrom, current).value;
      |p| > 0 && p[0] == start && p[|p| - 1] == current && IsEdgePath(nodes, p)
  {
    ReconstructFollowsLinks(st.cameFrom, [current]);
    var p := Reconstruct(st.cameFrom, current).value;
    if |p| > 1 {
      assert Follows(st.cameFrom, p[0], p[1]);
    }
    assert p[0] in st.g;
    LinksBackFollowEdges(nodes, st.cameFrom, p);
  }

  /** Predecessor links that each record an edge make an edge path. */
  lemma LinksBackFollowEdges(nodes: Nodes, cameFrom: map<string, string>, p: seq<string>)
    requires forall v :: v in cameFrom ==> HasEdge(nodes, cameFrom[v], v)
    requires LinksBack(cameFrom, p)
    ensures IsEdgePath(nodes, p)
  {
    forall i | 0 <= i < |p| - 1 ensures HasEdge(nodes, p[i], p[i + 1]) {
      assert Follows(cameFrom, p[i], p[i + 1]);
    }
  }

  /** In a closed set of scored ids, every edge path from a scored id stays scored. */
  lemma {:induction false} ClosedSetHoldsPaths(nodes: Nodes, st: SearchState, p: seq<string>, i: nat)
    requires |st.open| == 0 && Closed(nodes, st)
    requires IsEdgePath(nodes, p) && i < |p| && p[0] in st.g
    ensures p[i] in st.g
  {
    if i > 0 {
      ClosedSetHoldsPaths(nodes, st, p, i - 1);
      assert HasEdge(nodes, p[i - 1], p[i]);
      assert Expanded(nodes, st.g, p[i - 1]);
    }
  }

  predicate FoundEdgePath(nodes: Nodes, start: string, target: string, o: SearchOutcome) {
    o.Found? ==> EdgePathFromTo(nodes, start, target, o.result.path)
  }

  /** `p` follows edges of the graph from `start` to `target`. */
  predicate EdgePathFromTo(nodes: Nodes, start: string, target: string, p: seq<string>) {
    |p| > 0 && p[0] == start && p[|p| - 1] == target && IsEdgePath(nodes, p)
  }

  ghost predicate Unreachable(nodes: Nodes, start: string, target: string) {
    forall p :: IsEdgePath(nodes, p) && |p| > 0 && p[0] == start ==> p[|p| - 1] != target
  }

  lemma StepFound(nodes: Nodes, start: string, target: string, st: SearchState, rule: Selection)
    requires NodesValid(nodes) && Inv(nodes, start, target, st)
    requires Step(nodes, target, st, rule).Done?
    ensures FoundEdgePath(nodes, start, target, Step(nodes, target, st, rule).outcome)
  {
    if |st.open| > 0 {
      var idx := Lowest(st.open, st.f, rule);
      if idx >= 0 && st.open[idx] == target && Reconstruct(st.cameFrom, target).Some? {
        RebuiltPathIsEdgePath(nodes, start, target, st, target);
      }
    }
  }

  lemma StepNoPath(nodes: Nodes, start: string, target: string, st: SearchState, rule: Selection)
    requires NodesValid(nodes) && Inv(nodes, start, target, st)
    requires Step(nodes, target, st, rule) == Done(NoPath)
    ensures Unreachable(nodes, start, target)
  {
    assert |st.open| == 0;
    forall p | IsEdgePath(nodes, p) && |p| > 0 && p[0] == start ensures p[|p| - 1] != target {
      ClosedSetHoldsPaths(nodes, st, p, |p| - 1);
    }
  }

  /** Every found path of a run from a state that keeps the invariant is an edge path from `start` to `target`. */
  lemma RunFindsEdgePaths(nodes: Nodes, start: string, target: string, st: SearchState, fuel: nat, rule: Selection)
    requires NodesValid(nodes) && Inv(nodes, start, target, st)
    ensures FoundEdgePath(nodes, start, target, Run(nodes, target, st, fuel, rule))
  {
    var o := Run(nodes, target, st, fuel, rule);
    if o.Found? {
      RunFound(nodes, start, target, st, fuel, rule, o.result);
    }
  }

  /** The same, for one result `r`, by induction on the passes of the run. */
  lemma {:induction false} RunFound(nodes: Nodes, start: string, target: string, st: SearchState, fuel: nat, rule: Selection,
                                    r: PathResult)
    requires NodesValid(nodes) && Inv(nodes, start, target, st)
    ensures Run(nodes, target, st, fuel, rule) == Found(r) ==> EdgePathFromTo(nodes, start, target, r.path)
    decreases fuel
  {
    if fuel > 0 {
      var v := Step(nodes, target, st, rule);
      if v.Continue? {
        StepKeepsInvariant(nodes, start, target, st, rule);
        RunFound(nodes, start, target, v.next, fuel - 1, rule, r);
      } else if v.outcome == Found(r) {
        StepFound(nodes, start, target, st, rule);
      }
    }
  }

  /** A run from a state that keeps the invariant reports no path only when `target` is unreachable. */
  lemma {:induction false} RunNoPath(nodes: Nodes, start: string, target: string, st: SearchState, fuel: nat, rule: Selection)
    requires NodesValid(nodes) && Inv(nodes, start, target, st)
    ensures Run(nodes, target, st, fuel, rule) == NoPath ==> Unreachable(nodes, start, target)
    decreases fuel
  {
    if fuel > 0 {
      var v := Step(nodes, target, st, rule);
      if v.Continue? {
        StepKeepsInvariant(nodes, start, target, st, rule);
        RunNoPath(nodes, start, target, v.next, fuel - 1, rule);
      } else if v.outcome.NoPath? {
        StepNoPath(nodes, start, target, st, rule);
      }
    }
  }

  /**
   * A found path starts at `start`, ends at `target`, and follows edges of the
   * graph; the path may end at an id that is only the target of an edge.
   */
  lemma SearchFindsEdgePaths(nodes: Nodes, start: string, target: string, fuel: nat, rule: Selection)
    requires NodesValid(nodes)
    ensures var o := Search(nodes, start, target, fuel, rule);
      o.Found? ==> var p := o.result.path; |p| > 0 && p[0] == start && p[|p| - 1] == target && IsEdgePath(nodes, p)
  {
    var h := Heuristic(start, target);
    if h.Some? {
      InitialStateInv(nodes, start, target, h.value);
      RunFindsEdgePaths(nodes, start, target, InitialState(start, h.value), fuel, rule);
      assert Search(nodes, start, target, fuel, rule) == Run(nodes, target, InitialState(start, h.value), fuel, rule);
    }
  }

  lemma InitialStateInv(nodes: Nodes, start: string, target: string, h: nat)
    ensures Inv(nodes, start, target, InitialState(start, h))
  {
    var st := InitialState(start, h);
    assert Distinct(st.open);
    assert forall v :: v in st.g ==> v == start;
  }

  /** The no-path result is only returned when no edge path leads from `start` to `target`. */
  lemma NoPathMeansUnreachable(nodes: Nodes, start: string, target: string, fuel: nat, rule: Selection)
    requires NodesValid(nodes)
    ensures Search(nodes, start, target, fuel, rule) == NoPath ==>
      forall p :: IsEdgePath(nodes, p) && |p| > 0 && p[0] == start ==> p[|p| - 1] != target
  {
    var h := Heuristic(start, target);
    if h.Some? {
      InitialStateInv(nodes, start, target, h.value);
      RunNoPath(nodes, start, target, InitialState(start, h.value), fuel, rule);
      assert Search(nodes, start, target, fuel, rule) == Run(nodes, target, InitialState(start, h.value), fuel, rule);
    }
  }

  /** From a node to itself the search returns the one-node path at cost 0. */
  lemma SearchFromTargetToItself(nodes: Nodes, start: string, fuel: nat, rule: Selection)
    requires NodesValid(nodes) && HasDigit(start) && fuel > 0
    ensures Search(nodes, start, start, fuel, rule) == Found(PathResult([start], Finite(0.0)))
  {
    var h := Heuristic(start, start);
    assert h == Some(0);
    var st := InitialState(start, 0);
    assert Scan(st.open, st.f, 1, 0, Finite(0.0)) == 0;
    assert Lowest(st.open, st.f, rule) == 0;
    assert Reconstruct(map[], start) == Some([start]);
  }

  /** The heuristic throws on an id without a digit, before any search. */
  lemma SearchNeedsDigits(nodes: Nodes, start: string, target: string, fuel: nat, rule: Selection)
    requires NodesValid(nodes)
    ensures Search(nodes, start, target, fuel, rule) == Throws <== !HasDigit(start) || !HasDigit(target)
  {
  }

  /** With the corrected selection a pass only fails to return when the predecessor chain is cyclic. */
  lemma FallBackOnlyDivergesOnCycles(nodes: Nodes, target: string, st: SearchState)
    requires NodesValid(nodes)
    ensures Step(nodes, target, st, FallBackToFirst) == Done(Diverges) ==>
      target in st.open && Reconstruct(st.cameFrom, target).None?
  {
  }

  /** `a1` reaches `b2` only through an edge of weight Infinity, as `addCompressedPathToGraph` stores when no path exists. */
  function InfinityEdgeGraph(): (nodes: Nodes)
    ensures NodesValid(nodes)
  {
    var a := Node(NoFields, OMap(["b2"], map["b2" := Edge(Infinite, "compressed")]), "task");
    var b := Node(NoFields, Empty(), "task");
    OMap(["a1", "b2"], map["a1" := a, "b2" := b])
  }

  lemma InfinityEdgeGraphFacts()
    ensures IsEdgePath(InfinityEdgeGraph(), ["a1", "b2"])
    ensures NeighbourIds(InfinityEdgeGraph(), "a1") == ["b2"]
    ensures Heuristic("a1", "b2") == Some(1) && Heuristic("b2", "b2") == Some(0)
  {
    EdgeKeysOfA1();
    HeuristicOnA1B2();
  }

  lemma EdgeKeysOfA1()
    ensures NeighbourIds(InfinityEdgeGraph(), "a1") == ["b2"]
  {
    var edges := InfinityEdgeGraph().entries["a1"].edges;
    assert !IsIndexKey("b2");
    assert ["b2"][..0] == [];
    assert IndexKeys(edges.order) == [] && NamedKeys(edges.order) == ["b2"];
  }

  lemma HeuristicOnA1B2()
    ensures Heuristic("a1", "b2") == Some(1) && Heuristic("b2", "b2") == Some(0)
  {
    assert "a1" == ['a', '1'] && "b2" == ['b', '2'];
    TwoCharDigitRun('a', '1');
    TwoCharDigitRun('b', '2');
    SingleDigitValue('1');
    SingleDigitValue('2');
    HeuristicOfRuns("a1", "b2", "1", "2");
    HeuristicOfRuns("b2", "b2", "2", "2");
  }

  lemma SingleDigitValue(d: char)
    requires IsDigit(d)
    ensures AllDigits([d]) && DigitsValue([d]) == d as int - '0' as int
  {
    assert [d][..0] == [];
  }

  lemma TwoCharDigitRun(letter: char, digit: char)
    requires !IsDigit(letter) && IsDigit(digit)
    ensures FirstDigitRun([letter, digit]) == Some([digit])
  {
    assert [letter, digit][1..] == [digit];
    assert SkipToDigit([letter, digit]) == [digit];
    assert [digit][1..] == [];
    assert DigitPrefix([digit]) == [digit];
  }

  /** The state after `a1` is expanded: `b2` is open with g- and f-score Infinity. */
  function StateAfterA1(): SearchState {
    SearchState(["b2"], map["b2" := "a1"], map["a1" := Finite(0.0), "b2" := Infinite],
                map["a1" := Finite(1.0), "b2" := Infinite])
  }

  lemma InfinityEdgeFirstPass(rule: Selection)
    ensures Step(InfinityEdgeGraph(), "b2", InitialState("a1", 1), rule) == Continue(StateAfterA1())
  {
    EdgeKeysOfA1();
    ExpandOnlyOpen(InfinityEdgeGraph(), "b2", InitialState("a1", 1), rule);
    InfinityEdgeRelax();
  }

  /** A pass over a single open node other than the target, with a finite f-score, expands it. */
  lemma ExpandOnlyOpen(nodes: Nodes, target: string, st: SearchState, rule: Selection)
    requires NodesValid(nodes) && |st.open| == 1 && st.open[0] != target && st.open[0] in nodes.entries
    requires Score(st.f, st.open[0]).Finite?
    ensures var current := st.open[0];
      Step(nodes, target, st, rule)
        == match Relax(nodes, target, current, nodes.entries[current].edges, NeighbourIds(nodes, current), st.(open := []))
           case None => Done(Throws)
           case Some(next) => Continue(next)
  {
    assert Scan(st.open, st.f, 1, 0, Score(st.f, st.open[0])) == 0;
    assert Scan(st.open, st.f, 0, -1, Infinite) == 0;
    assert RemoveAt(st.open, 0) == [];
  }

  /** Relaxing the one edge of `a1` scores `b2` with Infinity. */
  lemma InfinityEdgeRelax()
    ensures var nodes := InfinityEdgeGraph();
      Relax(nodes, "b2", "a1", nodes.entries["a1"].edges, ["b2"],
        SearchState([], map[], map["a1" := Finite(0.0)], map["a1" := Finite(1.0)])) == Some(StateAfterA1())
  {
    HeuristicOnA1B2();
    var nodes := InfinityEdgeGraph();
    var st := SearchState([], map[], map["a1" := Finite(0.0)], map["a1" := Finite(1.0)]);
    RelaxFreshNeighbour(nodes, "b2", "a1", nodes.entries["a1"].edges, "b2", st, 0);
    assert [] + ["b2"] == ["b2"];
  }

  /** Relaxing a single edge into an unscored, digit-named neighbour scores and opens it. */
  lemma RelaxFreshNeighbour(nodes: Nodes, target: string, current: string, edges: OMap<Edge>, n: string, st: SearchState, h: nat)
    requires n in edges.entries && n !in st.g && Heuristic(n, target) == Some(h)
    ensures var t := Score(st.g, current).Plus(edges.entries[n].weight);
      Relax(nodes, target, current, edges, [n], st)
        == Some(SearchState(if n in st.open then st.open else st.open + [n], st.cameFrom[n := current],
                            st.g[n := t], st.f[n := t.Plus(Finite(h as real))]))
  {
    assert [n][1..] == [];
  }

  lemma SecondPassAsWritten()
    ensures Step(InfinityEdgeGraph(), "b2", StateAfterA1(), StrictBelowInfinity) == Done(Diverges)
  {
    var st := StateAfterA1();
    assert Scan(st.open, st.f, 1, -1, Infinite) == -1;
    assert Lowest(st.open, st.f, StrictBelowInfinity) == -1;
    assert "null" !in InfinityEdgeGraph().entries;
  }

  lemma SecondPassCorrected()
    ensures Step(InfinityEdgeGraph(), "b2", StateAfterA1(), FallBackToFirst) == Done(Found(PathResult(["a1", "b2"], Infinite)))
  {
    var st := StateAfterA1();
    assert Scan(st.open, st.f, 1, -1, Infinite) == -1;
    assert Lowest(st.open, st.f, FallBackToFirst) == 0;
    assert ReconstructFrom(st.cameFrom, ["a1", "b2"]) == Some(["a1", "b2"]);
    assert ["a1"] + ["b2"] == ["a1", "b2"];
    assert "a1" !in ["b2"];
    assert Reconstruct(st.cameFrom, "b2") == ReconstructFrom(st.cameFrom, ["a1"] + ["b2"]);
  }

  /**
   * With an edge of weight Infinity on the way, the search as written never
   * returns although `a1` reaches `b2`; the corrected selection finds the path
   * at cost Infinity.
   */
  lemma InfinityEdgeStallsSearch()
    ensures && IsEdgePath(InfinityEdgeGraph(), ["a1", "b2"])
      && Search(InfinityEdgeGraph(), "a1", "b2", 2, StrictBelowInfinity) == Diverges
      && Search(InfinityEdgeGraph(), "a1", "b2", 2, FallBackToFirst) == Found(PathResult(["a1", "b2"], Infinite))
  {
    InfinityEdgeGraphFacts();
    var nodes := InfinityEdgeGraph();
    InfinityEdgeFirstPass(StrictBelowInfinity);
    InfinityEdgeFirstPass(FallBackToFirst);
    SecondPassAsWritten();
    SecondPassCorrected();
    assert Search(nodes, "a1", "b2", 2, StrictBelowInfinity) == Run(nodes, "b2", StateAfterA1(), 1, StrictBelowInfinity);
    assert Search(nodes, "a1", "b2", 2, FallBackToFirst) == Run(nodes, "b2", StateAfterA1(), 1, FallBackToFirst);
  }
}
