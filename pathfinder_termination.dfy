/**
 * When `aStar` returns. Over edges whose weights are finite and not negative
 * (what `calculateWeight` gives for ratings on their scales, and the 0 of a
 * compressed detour), every node the search scores has a finite g-score, and
 * its recorded predecessor comes strictly before it: a lower g-score, or the
 * same g-score reached over fewer edges of weight 0. The edge count is a ghost
 * `rank` that the lemmas carry alongside the search state. So the selection
 * always finds an open node with a finite f-score, the two selection rules
 * make the same choices, and the predecessor chain of the target never runs
 * into itself: the search never loops forever. Only an edge of weight Infinity
 * can stall it (see `InfinityEdgeStallsSearch`).
 *
 * Independently of the weights, a run that has decided keeps its outcome when
 * it is given more passes.
 */
module PathfinderTermination {
  import opened JsObject
  import opened GraphTypes
  import opened Pathfinder
  import opened PathfinderFacts

  /** Every edge in `edges` weighs a finite amount of at least 0. */
  predicate NonNegativeEdges(edges: OMap<Edge>) {
    forall n :: n in edges.entries ==> edges.entries[n].weight.Finite? && edges.entries[n].weight.value >= 0.0
  }

  /** Every edge of the graph weighs a finite amount of at least 0. */
  predicate NonNegativeWeights(nodes: Nodes) {
    forall id :: id in nodes.entries ==> NonNegativeEdges(nodes.entries[id].edges)
  }

  /** `a` and `b` are scored finitely and ranked, and `a` comes strictly before `b`. */
  predicate Before(g: map<string, Cost>, rank: map<string, nat>, a: string, b: string) {
    && a in g && b in g && a in rank && b in rank && g[a].Finite? && g[b].Finite?
    && (g[a].value < g[b].value || (g[a].value == g[b].value && rank[a] < rank[b]))
  }

  /** `a` and `b` are scored finitely and ranked, and `a` does not come after `b`. */
  predicate NotAfter(g: map<string, Cost>, rank: map<string, nat>, a: string, b: string) {
    && a in g && b in g && a in rank && b in rank && g[a].Finite? && g[b].Finite?
    && (g[a].value < g[b].value || (g[a].value == g[b].value && rank[a] <= rank[b]))
  }

  /** Every recorded predecessor comes strictly before the node it precedes. */
  predicate PredecessorsBefore(cameFrom: map<string, string>, g: map<string, Cost>, rank: map<string, nat>) {
    forall n :: n in cameFrom ==> Before(g, rank, cameFrom[n], n)
  }

  /** The scores a search over non-negative weights keeps: finite and ranked, open nodes scored, predecessors before. */
  predicate Rising(st: SearchState, rank: map<string, nat>) {
    && (forall n :: n in st.g ==> st.g[n].Finite? && n in rank)
    && (forall n :: n in st.open ==> n in st.g && n in st.f && st.f[n].Finite?)
    && PredecessorsBefore(st.cameFrom, st.g, rank)
  }

  lemma InitialStateRising(start: string, h: nat)
    ensures Rising(InitialState(start, h), map[start := 0])
  {
  }

  /** Relaxing one edge from a scored node keeps the scores rising; the neighbour is ranked one past `current`. */
  lemma RelaxEdgeRising(st: SearchState, rank: map<string, nat>, current: string, n: string, w: Cost, h: nat)
    requires Rising(st, rank) && current in st.g && w.Finite? && w.value >= 0.0
    requires var t := Score(st.g, current).Plus(w); n !in st.g || t.Below(st.g[n])
    ensures var t := Score(st.g, current).Plus(w);
      var open := if n in st.open then st.open else st.open + [n];
      Rising(SearchState(open, st.cameFrom[n := current], st.g[n := t], st.f[n := t.Plus(Finite(h as real))]),
             rank[n := rank[current] + 1])
  {
    var t := Score(st.g, current).Plus(w);
    assert n != current;
    var cameFrom, g, rank' := st.cameFrom[n := current], st.g[n := t], rank[n := rank[current] + 1];
    forall m | m in cameFrom
      ensures Before(g, rank', cameFrom[m], m)
    {
      if m != n && cameFrom[m] == n {
        assert Before(st.g, rank, n, m);
        assert g[n].value < st.g[n].value;
      }
    }
  }

  /** The neighbour loop keeps the scores rising when no edge it relaxes is negative. */
  lemma {:induction false} RelaxRising(nodes: Nodes, target: string, current: string, edges: OMap<Edge>, ns: seq<string>,
                                       st: SearchState, rank: map<string, nat>)
    returns (rank': map<string, nat>)
    requires forall k :: k in ns ==> k in edges.entries
    requires NonNegativeEdges(edges) && Rising(st, rank) && current in st.g
    ensures var r := Relax(nodes, target, current, edges, ns, st); r.Some? ==> Rising(r.value, rank')
    decreases |ns|
  {
    rank' := rank;
    if |ns| > 0 {
      var n := ns[0];
      var w := edges.entries[n].weight;
      var t := Score(st.g, current).Plus(w);
      if n !in st.g || t.Below(st.g[n]) {
        var h := Heuristic(n, target);
        if h.Some? {
          RelaxEdgeRising(st, rank, current, n, w, h.value);
          var open := if n in st.open then st.open else st.open + [n];
          var next := SearchState(open, st.cameFrom[n := current], st.g[n := t], st.f[n := t.Plus(Finite(h.value as real))]);
          rank' := RelaxRising(nodes, target, current, edges, ns[1..], next, rank[n := rank[current] + 1]);
        }
      } else {
        rank' := RelaxRising(nodes, target, current, edges, ns[1..], st, rank);
      }
    }
  }

  /** A pass of the main loop over non-negative weights keeps the scores rising. */
  lemma StepRising(nodes: Nodes, target: string, st: SearchState, rank: map<string, nat>, rule: Selection)
    returns (rank': map<string, nat>)
    requires NodesValid(nodes) && NonNegativeWeights(nodes) && Rising(st, rank)
    ensures var v := Step(nodes, target, st, rule); v.Continue? ==> Rising(v.next, rank')
  {
    rank' := rank;
    if |st.open| > 0 {
      var idx := Lowest(st.open, st.f, rule);
      if idx >= 0 && st.open[idx] != target {
        var current := st.open[idx];
        var popped := st.(open := RemoveAt(st.open, idx));
        PoppedRising(st, rank, idx);
        if current in nodes.entries {
          var ns := NeighbourIds(nodes, current);
          rank' := RelaxRising(nodes, target, current, nodes.entries[current].edges, ns, popped, rank);
          var r := Relax(nodes, target, current, nodes.entries[current].edges, ns, popped);
          assert Step(nodes, target, st, rule) == if r.None? then Done(Throws) else Continue(r.value);
        } else {
          assert Step(nodes, target, st, rule) == Continue(popped);
        }
      }
    }
  }

  /** Taking a node out of the open set keeps the scores rising, and the node stays scored. */
  lemma PoppedRising(st: SearchState, rank: map<string, nat>, idx: nat)
    requires Rising(st, rank) && idx < |st.open|
    ensures Rising(st.(open := RemoveAt(st.open, idx)), rank) && st.open[idx] in st.g
  {
    assert forall x :: x in RemoveAt(st.open, idx) ==> x in st.open;
  }

  /** Walking predecessors from the earliest node of `acc` never meets a node of `acc` again. */
  lemma {:induction false} ChainEnds(cameFrom: map<string, string>, g: map<string, Cost>, rank: map<string, nat>, acc: seq<string>)
    requires PredecessorsBefore(cameFrom, g, rank)
    requires |acc| > 0 && Distinct(acc)
    requires forall i :: 0 <= i < |acc| ==> NotAfter(g, rank, acc[0], acc[i])
    ensures ReconstructFrom(cameFrom, acc).Some?
    decreases |cameFrom.Keys - Elems(acc)| + (if acc[0] in cameFrom then 1 else 0)
  {
    if acc[0] in cameFrom {
      var prev := cameFrom[acc[0]];
      assert Before(g, rank, prev, acc[0]);
      assert prev !in acc by {
        forall i | 0 <= i < |acc| ensures acc[i] != prev {
          assert NotAfter(g, rank, acc[0], acc[i]);
        }
      }
      MeasureDrops(cameFrom.Keys, acc, prev);
      var acc' := [prev] + acc;
      forall i | 0 <= i < |acc'| ensures NotAfter(g, rank, acc'[0], acc'[i]) {
        if i > 0 {
          assert acc'[i] == acc[i - 1];
          assert NotAfter(g, rank, acc[0], acc[i - 1]);
        }
      }
      ChainEnds(cameFrom, g, rank, acc');
    }
  }

  /** Over rising scores a pass never diverges, and both selection rules make it the same. */
  lemma StepNeverDiverges(nodes: Nodes, target: string, st: SearchState, rank: map<string, nat>)
    requires NodesValid(nodes) && Rising(st, rank)
    ensures Step(nodes, target, st, StrictBelowInfinity) == Step(nodes, target, st, FallBackToFirst)
    ensures Step(nodes, target, st, FallBackToFirst) != Done(Diverges)
  {
    if |st.open| > 0 {
      ScanFindsFirstLeast(st.open, st.f, 0, -1, Infinite);
      assert Score(st.f, st.open[0]).Finite?;
      var idx := Lowest(st.open, st.f, FallBackToFirst);
      assert idx == Lowest(st.open, st.f, StrictBelowInfinity) >= 0;
      var current := st.open[idx];
      if current == target {
        ChainEnds(st.cameFrom, st.g, rank, [current]);
      }
    }
  }

  /** From rising scores, no run over non-negative weights diverges, and the two rules give the same outcome. */
  lemma {:induction false} RunNeverDiverges(nodes: Nodes, target: string, st: SearchState, rank: map<string, nat>, fuel: nat)
    requires NodesValid(nodes) && NonNegativeWeights(nodes) && Rising(st, rank)
    ensures Run(nodes, target, st, fuel, StrictBelowInfinity) == Run(nodes, target, st, fuel, FallBackToFirst)
    ensures Run(nodes, target, st, fuel, FallBackToFirst) != Diverges
    decreases fuel
  {
    if fuel > 0 {
      StepNeverDiverges(nodes, target, st, rank);
      var v := Step(nodes, target, st, FallBackToFirst);
      if v.Continue? {
        var rank' := StepRising(nodes, target, st, rank, FallBackToFirst);
        RunNeverDiverges(nodes, target, v.next, rank', fuel - 1);
      }
    }
  }

  /**
   * Over edges of finite, non-negative weight, `aStar` never loops forever, and
   * the selection as written behaves exactly like the corrected one.
   */
  lemma SearchNeverDiverges(nodes: Nodes, start: string, target: string, fuel: nat)
    requires NodesValid(nodes) && NonNegativeWeights(nodes)
    ensures Search(nodes, start, target, fuel, StrictBelowInfinity) == Search(nodes, start, target, fuel, FallBackToFirst)
    ensures Search(nodes, start, target, fuel, StrictBelowInfinity) != Diverges
  {
    var h := Heuristic(start, target);
    if h.Some? {
      InitialStateRising(start, h.value);
      RunNeverDiverges(nodes, target, InitialState(start, h.value), map[start := 0], fuel);
    }
  }

  /** A run that has decided within `fuel` passes decides the same with more. */
  lemma {:induction false} RunMoreFuel(nodes: Nodes, target: string, st: SearchState, fuel: nat, more: nat, rule: Selection)
    requires NodesValid(nodes) && Run(nodes, target, st, fuel, rule) != Undecided
    ensures Run(nodes, target, st, fuel + more, rule) == Run(nodes, target, st, fuel, rule)
    decreases fuel
  {
    var v := Step(nodes, target, st, rule);
    if v.Continue? {
      RunMoreFuel(nodes, target, v.next, fuel - 1, more, rule);
      assert Run(nodes, target, st, fuel + more, rule) == Run(nodes, target, v.next, fuel - 1 + more, rule);
    }
  }

  /** A search that has decided within `fuel` passes decides the same with more. */
  lemma SearchMoreFuel(nodes: Nodes, start: string, target: string, fuel: nat, more: nat, rule: Selection)
    requires NodesValid(nodes) && Search(nodes, start, target, fuel, rule) != Undecided
    ensures Search(nodes, start, target, fuel + more, rule) == Search(nodes, start, target, fuel, rule)
  {
    var h := Heuristic(start, target);
    if h.Some? {
      RunMoreFuel(nodes, target, InitialState(start, h.value), fuel, more, rule);
    }
  }
}
