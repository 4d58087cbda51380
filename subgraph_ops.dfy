/**
 * Sub-graphs (`createSubGraph` and `mergeSubGraph` in alf.js) as pure
 * functions over the store: the two nodes a new sub-graph starts with, and the
 * "add_nodes" merge, which copies every inner node of the sub-graph into the
 * parent graph under the id `<parent>_<id>`, hangs it off the parent node, and
 * copies the edges between inner nodes.
 */
module SubGraphOps {
  import opened JsText
  import opened JsObject
  import opened CostModel
  import opened GraphTypes
  import opened GraphOps

  const SubStart: string := "sub_start"
  const SubEnd: string := "sub_end"
  const AddNodesStrategy: string := "add_nodes"

  function SubStartTitle(goal: string): string {
    "Sub-Graph Start (" + goal + ")"
  }

  /** The store a new sub-graph holds after its two `addNode` calls, and their events. */
  function NewSubGraph(goal: string): (e: Effect)
    ensures Wellformed(e.store)
    ensures e.store == Store(e.store.nodes, map[], [], [])
    ensures e.events == [AddNodeEvent(SubStart, Titled(SubStartTitle(goal)), "start"), AddNodeEvent(SubEnd, Titled("Sub-Graph End"), "end")]
  {
    var started := AddNodeOp(EmptyStore(), SubStart, Titled(SubStartTitle(goal)), "start");
    Then(started, AddNodeOp(started.store, SubEnd, Titled("Sub-Graph End"), "end"))
  }

  /** A new sub-graph holds exactly two nodes: its start and its end. */
  lemma NewSubGraphKeys(goal: string)
    ensures NewSubGraph(goal).store.nodes.entries.Keys == {SubStart, SubEnd}
  {
    var started := AddNodeOp(EmptyStore(), SubStart, Titled(SubStartTitle(goal)), "start");
    assert started.store.nodes.entries.Keys == {SubStart};
  }

  /** The start node is titled after the goal and the end node "Sub-Graph End". */
  lemma NewSubGraphTitles(goal: string)
    ensures var nodes := NewSubGraph(goal).store.nodes;
      && SubStart in nodes.entries && SubEnd in nodes.entries
      && nodes.entries[SubStart] == Node(Titled(SubStartTitle(goal)), nodes.entries[SubStart].edges, "start")
      && nodes.entries[SubEnd] == Node(Titled("Sub-Graph End"), nodes.entries[SubEnd].edges, "end")
  {
  }

  // ---------------------------------------------------------------------------
  // mergeSubGraph

  /** The id an inner node of the sub-graph gets in the parent graph. */
  function Inner(parent: string, id: string): (r: string)
    ensures |r| > |parent| && r != parent
  {
    parent + "_" + id
  }

  lemma InnerInjective(parent: string, a: string, b: string)
    requires Inner(parent, a) == Inner(parent, b)
    ensures a == b
  {
    var n := |parent| + 1;
    assert a == Inner(parent, a)[n..];
    assert b == Inner(parent, b)[n..];
  }

  /** The two nodes every sub-graph starts with; the merge skips them and their edges. */
  predicate IsEndpoint(id: string) {
    id == SubStart || id == SubEnd
  }

  /** The parent-graph ids of the inner nodes among `ks`. */
  function InnerIds(parent: string, ks: seq<string>): set<string> {
    if |ks| == 0 then {}
    else (if IsEndpoint(ks[0]) then {} else {Inner(parent, ks[0])}) + InnerIds(parent, ks[1..])
  }

  /** One pass of the node loop: copy the node, then `addEdge(parent, newId)`. */
  function CopyNode(e: Effect, parent: string, k: string, n: Node): (r: Effect)
    ensures Wellformed(e.store) ==> Wellformed(r.store)
    ensures r.store.nodes.entries.Keys == e.store.nodes.entries.Keys + {Inner(parent, k)}
    ensures r.store == e.store.(nodes := r.store.nodes)
  {
    var added := Then(e, AddNodeOp(e.store, Inner(parent, k), n.data, n.kind));
    Then(added, AddEdgeOp(added.store, parent, Inner(parent, k), None, "sequence"))
  }

  /** The loop over the sub-graph's nodes, in key order, of the "add_nodes" merge. */
  function CopyNodes(e: Effect, parent: string, sub: Nodes, ks: seq<string>): (r: Effect)
    requires forall k :: k in ks ==> k in sub.entries
    ensures Wellformed(e.store) ==> Wellformed(r.store)
    ensures r.store.nodes.entries.Keys == e.store.nodes.entries.Keys + InnerIds(parent, ks)
    ensures r.store == e.store.(nodes := r.store.nodes)
    decreases |ks|
  {
    if |ks| == 0 then e
    else
      var k := ks[0];
      assert forall m :: m in ks[1..] ==> m in ks;
      CopyNodes(if IsEndpoint(k) then e else CopyNode(e, parent, k, sub.entries[k]), parent, sub, ks[1..])
  }

  /** What a pass over `edges` may do: add or overwrite edges, and nothing else. */
  ghost predicate EdgesOnlyGrow(a: Store, b: Store) {
    && b == a.(nodes := b.nodes)
    && b.nodes.entries.Keys == a.nodes.entries.Keys
    && (forall id :: id in a.nodes.entries ==>
          b.nodes.entries[id].data == a.nodes.entries[id].data && b.nodes.entries[id].kind == a.nodes.entries[id].kind)
    && (forall x, y :: HasEdge(a.nodes, x, y) ==> HasEdge(b.nodes, x, y))
  }

  lemma EdgesOnlyGrowTransitive(a: Store, b: Store, c: Store)
    requires EdgesOnlyGrow(a, b) && EdgesOnlyGrow(b, c)
    ensures EdgesOnlyGrow(a, c)
  {
  }

  /** One `addEdge` only adds or overwrites an edge. */
  lemma AddEdgeGrows(s: Store, from: string, to: string, weight: Option<Cost>, edgeType: string)
    ensures EdgesOnlyGrow(s, AddEdgeOp(s, from, to, weight, edgeType).store)
  {
    var t := AddEdgeOp(s, from, to, weight, edgeType).store;
    forall x, y | HasEdge(s.nodes, x, y) ensures HasEdge(t.nodes, x, y) {
    }
  }

  /** The inner loop over the edges of one sub-graph node `from`. */
  function CopyEdgesFrom(e: Effect, parent: string, from: string, edges: OMap<Edge>, ts: seq<string>): (r: Effect)
    requires forall t :: t in ts ==> t in edges.entries
    ensures Wellformed(e.store) ==> Wellformed(r.store)
    ensures EdgesOnlyGrow(e.store, r.store)
    decreases |ts|
  {
    if |ts| == 0 then e
    else
      var to := ts[0];
      assert forall m :: m in ts[1..] ==> m in ts;
      var skip := IsEndpoint(from) || IsEndpoint(to);
      var next :=
        if skip then e
        else Then(e, AddEdgeOp(e.store, Inner(parent, from), Inner(parent, to), Some(edges.entries[to].weight), edges.entries[to].edgeType));
      assert EdgesOnlyGrow(e.store, next.store) by {
        if !skip {
          AddEdgeGrows(e.store, Inner(parent, from), Inner(parent, to), Some(edges.entries[to].weight), edges.entries[to].edgeType);
        }
      }
      var r := CopyEdgesFrom(next, parent, from, edges, ts[1..]);
      EdgesOnlyGrowTransitive(e.store, next.store, r.store);
      r
  }

  /** The outer loop over the sub-graph's nodes, in key order, that copies their edges. */
  function CopyEdges(e: Effect, parent: string, sub: Nodes, ks: seq<string>): (r: Effect)
    requires NodesValid(sub) && forall k :: k in ks ==> k in sub.entries
    ensures Wellformed(e.store) ==> Wellformed(r.store)
    ensures EdgesOnlyGrow(e.store, r.store)
    decreases |ks|
  {
    if |ks| == 0 then e
    else
      var from := ks[0];
      assert forall m :: m in ks[1..] ==> m in ks;
      var edges := sub.entries[from].edges;
      KeysEnumerateEntries(edges);
      var next := CopyEdgesFrom(e, parent, from, edges, edges.Keys());
      var r := CopyEdges(next, parent, sub, ks[1..]);
      EdgesOnlyGrowTransitive(e.store, next.store, r.store);
      r
  }

  /** `mergeSubGraph` finds a parent: the sub-graph's parent id is truthy and names a node. */
  predicate HasParent(s: Store, parent: Option<string>) {
    parent.Some? && parent.value != "" && parent.value in s.nodes.entries
  }

  /**
   * `mergeSubGraph(subGraph, strategy)`: without a parent nothing happens and
   * nothing is emitted. Otherwise the "add_nodes" strategy copies the inner
   * nodes and then the edges between them; the other strategies copy nothing.
   * Either way `merge_subgraph` is emitted last.
   */
  function MergeOp(s: Store, sub: Nodes, parent: Option<string>, goal: Option<string>, strategy: string): (e: Effect)
    requires NodesValid(sub)
    ensures Wellformed(s) ==> Wellformed(e.store)
    ensures e.store == s.(nodes := e.store.nodes)
    ensures !HasParent(s, parent) ==> e == Effect(s, [])
    ensures HasParent(s, parent) ==> |e.events| > 0 && e.events[|e.events| - 1] == MergeSubgraphEvent(parent.value, goal, strategy)
    ensures HasParent(s, parent) && strategy != AddNodesStrategy ==> e == Effect(s, [MergeSubgraphEvent(parent.value, goal, strategy)])
    ensures HasParent(s, parent) && strategy == AddNodesStrategy ==>
      e.store.nodes.entries.Keys == s.nodes.entries.Keys + InnerIds(parent.value, sub.Keys())
  {
    if !HasParent(s, parent) then Effect(s, [])
    else
      var p := parent.value;
      KeysEnumerateEntries(sub);
      var merged :=
        if strategy == AddNodesStrategy then
          var copied := CopyNodes(Effect(s, []), p, sub, sub.Keys());
          CopyEdges(copied, p, sub, sub.Keys())
        else Effect(s, []);
      Then(merged, Effect(merged.store, [MergeSubgraphEvent(p, goal, strategy)]))
  }

  /** The merge with a parent: the copies the strategy asks for, then `merge_subgraph`. */
  lemma MergeSteps(s: Store, sub: Nodes, p: string, goal: Option<string>, strategy: string) returns (merged: Effect)
    requires NodesValid(sub) && HasParent(s, Some(p))
    ensures forall k :: k in sub.Keys() ==> k in sub.entries
    ensures merged == if strategy == AddNodesStrategy then
        CopyEdges(CopyNodes(Effect(s, []), p, sub, sub.Keys()), p, sub, sub.Keys())
      else Effect(s, [])
    ensures MergeOp(s, sub, Some(p), goal, strategy) == Then(merged, Effect(merged.store, [MergeSubgraphEvent(p, goal, strategy)]))
  {
    KeysEnumerateEntries(sub);
    merged := if strategy == AddNodesStrategy then
        CopyEdges(CopyNodes(Effect(s, []), p, sub, sub.Keys()), p, sub, sub.Keys())
      else Effect(s, []);
  }

  // ---------------------------------------------------------------------------
  // What the merge guarantees

  /** The copy of inner node `k` is in place: same data and kind, and an edge from the parent to it. */
  predicate Linked(nodes: Nodes, parent: string, k: string, n: Node) {
    && parent in nodes.entries
    && Inner(parent, k) in nodes.entries
    && nodes.entries[Inner(parent, k)].data == n.data
    && nodes.entries[Inner(parent, k)].kind == n.kind
    && HasEdge(nodes, parent, Inner(parent, k))
  }

  lemma CopyNodeLinks(e: Effect, parent: string, k: string, n: Node)
    requires parent in e.store.nodes.entries
    ensures Linked(CopyNode(e, parent, k, n).store.nodes, parent, k, n)
  {
    var added := Then(e, AddNodeOp(e.store, Inner(parent, k), n.data, n.kind));
    assert parent in added.store.nodes.entries && Inner(parent, k) in added.store.nodes.entries;
  }

  /** Copying another node, or the same node again, keeps a copy in place. */
  lemma CopyNodeKeepsLinked(e: Effect, parent: string, k: string, n: Node, k2: string, n2: Node)
    requires Linked(e.store.nodes, parent, k, n) && (k2 == k ==> n2 == n)
    ensures Linked(CopyNode(e, parent, k2, n2).store.nodes, parent, k, n)
  {
    if k2 == k {
      CopyNodeLinks(e, parent, k, n);
    } else {
      assert Inner(parent, k2) != Inner(parent, k) by {
        if Inner(parent, k2) == Inner(parent, k) { InnerInjective(parent, k2, k); }
      }
      var added := Then(e, AddNodeOp(e.store, Inner(parent, k2), n2.data, n2.kind));
      assert Linked(added.store.nodes, parent, k, n);
    }
  }

  lemma {:induction false} CopyNodesKeepsLinked(e: Effect, parent: string, sub: Nodes, ks: seq<string>, k: string)
    requires forall m :: m in ks ==> m in sub.entries
    requires k in sub.entries && Linked(e.store.nodes, parent, k, sub.entries[k])
    ensures Linked(CopyNodes(e, parent, sub, ks).store.nodes, parent, k, sub.entries[k])
    decreases |ks|
  {
    if |ks| > 0 {
      var k2 := ks[0];
      var next := if IsEndpoint(k2) then e else CopyNode(e, parent, k2, sub.entries[k2]);
      if !IsEndpoint(k2) {
        CopyNodeKeepsLinked(e, parent, k, sub.entries[k], k2, sub.entries[k2]);
      }
      assert forall m :: m in ks[1..] ==> m in ks;
      CopyNodesKeepsLinked(next, parent, sub, ks[1..], k);
    }
  }

  lemma {:induction false} CopyNodesLinks(e: Effect, parent: string, sub: Nodes, ks: seq<string>, k: string)
    requires forall m :: m in ks ==> m in sub.entries
    requires parent in e.store.nodes.entries && k in ks && !IsEndpoint(k)
    ensures Linked(CopyNodes(e, parent, sub, ks).store.nodes, parent, k, sub.entries[k])
    decreases |ks|
  {
    var k2 := ks[0];
    var next := if IsEndpoint(k2) then e else CopyNode(e, parent, k2, sub.entries[k2]);
    assert forall m :: m in ks[1..] ==> m in ks;
    if k2 == k {
      CopyNodeLinks(e, parent, k, sub.entries[k]);
      CopyNodesKeepsLinked(next, parent, sub, ks[1..], k);
    } else {
      assert parent in next.store.nodes.entries;
      CopyNodesLinks(next, parent, sub, ks[1..], k);
    }
  }

  /**
   * After an "add_nodes" merge into an existing parent, every inner node of the
   * sub-graph has a copy under `<parent>_<id>` with its data and kind, and the
   * parent has an edge to it.
   */
  lemma MergeLinksInnerNodes(s: Store, sub: Nodes, parent: string, goal: Option<string>, k: string)
    requires NodesValid(sub) && HasParent(s, Some(parent))
    requires k in sub.entries && !IsEndpoint(k)
    ensures Linked(MergeOp(s, sub, Some(parent), goal, AddNodesStrategy).store.nodes, parent, k, sub.entries[k])
  {
    KeysEnumerateEntries(sub);
    var copied := CopyNodes(Effect(s, []), parent, sub, sub.Keys());
    CopyNodesLinks(Effect(s, []), parent, sub, sub.Keys(), k);
    var merged := CopyEdges(copied, parent, sub, sub.Keys());
    assert EdgesOnlyGrow(copied.store, merged.store);
  }

  lemma {:induction false} InnerIdsOfEndpoints(parent: string, ks: seq<string>)
    requires forall k :: k in ks ==> IsEndpoint(k)
    ensures InnerIds(parent, ks) == {}
    decreases |ks|
  {
    if |ks| > 0 {
      assert forall m :: m in ks[1..] ==> m in ks;
      InnerIdsOfEndpoints(parent, ks[1..]);
    }
  }

  /** A sub-graph that holds nothing but its start and end nodes adds no node when merged. */
  lemma MergeWithoutInnerNodes(s: Store, sub: Nodes, parent: string, goal: Option<string>)
    requires NodesValid(sub) && HasParent(s, Some(parent))
    requires forall k :: k in sub.entries ==> IsEndpoint(k)
    ensures MergeOp(s, sub, Some(parent), goal, AddNodesStrategy).store.nodes.entries.Keys == s.nodes.entries.Keys
  {
    KeysEnumerateEntries(sub);
    InnerIdsOfEndpoints(parent, sub.Keys());
  }

  /** In particular, merging a sub-graph straight after `createSubGraph` adds no node. */
  lemma MergeUntouchedSubGraph(s: Store, goal: string, parent: string)
    requires HasParent(s, Some(parent))
    ensures MergeOp(s, NewSubGraph(goal).store.nodes, Some(parent), Some(goal), AddNodesStrategy).store.nodes.entries.Keys
         == s.nodes.entries.Keys
  {
    NewSubGraphKeys(goal);
    MergeWithoutInnerNodes(s, NewSubGraph(goal).store.nodes, parent, Some(goal));
  }

  lemma {:induction false} CopyEdgesFromAdds(e: Effect, parent: string, from: string, edges: OMap<Edge>, ts: seq<string>, to: string)
    requires forall t :: t in ts ==> t in edges.entries
    requires to in ts && !IsEndpoint(from) && !IsEndpoint(to)
    requires Inner(parent, from) in e.store.nodes.entries && Inner(parent, to) in e.store.nodes.entries
    ensures HasEdge(CopyEdgesFrom(e, parent, from, edges, ts).store.nodes, Inner(parent, from), Inner(parent, to))
    decreases |ts|
  {
    var t := ts[0];
    var skip := IsEndpoint(from) || IsEndpoint(t);
    var next :=
      if skip then e
      else Then(e, AddEdgeOp(e.store, Inner(parent, from), Inner(parent, t), Some(edges.entries[t].weight), edges.entries[t].edgeType));
    assert forall m :: m in ts[1..] ==> m in ts;
    if t == to {
      assert HasEdge(next.store.nodes, Inner(parent, from), Inner(parent, to));
      assert EdgesOnlyGrow(next.store, CopyEdgesFrom(next, parent, from, edges, ts[1..]).store);
    } else {
      if !skip {
        AddEdgeGrows(e.store, Inner(parent, from), Inner(parent, t), Some(edges.entries[t].weight), edges.entries[t].edgeType);
      }
      CopyEdgesFromAdds(next, parent, from, edges, ts[1..], to);
    }
  }

  lemma {:induction false} CopyEdgesAdds(e: Effect, parent: string, sub: Nodes, ks: seq<string>, from: string, to: string)
    requires NodesValid(sub) && forall k :: k in ks ==> k in sub.entries
    requires from in ks && to in sub.entries[from].edges.entries && !IsEndpoint(from) && !IsEndpoint(to)
    requires Inner(parent, from) in e.store.nodes.entries && Inner(parent, to) in e.store.nodes.entries
    ensures HasEdge(CopyEdges(e, parent, sub, ks).store.nodes, Inner(parent, from), Inner(parent, to))
    decreases |ks|
  {
    var f := ks[0];
    var edges := sub.entries[f].edges;
    KeysEnumerateEntries(edges);
    var next := CopyEdgesFrom(e, parent, f, edges, edges.Keys());
    assert forall m :: m in ks[1..] ==> m in ks;
    if f == from {
      CopyEdgesFromAdds(e, parent, f, edges, edges.Keys(), to);
      assert EdgesOnlyGrow(next.store, CopyEdges(next, parent, sub, ks[1..]).store);
    } else {
      CopyEdgesAdds(next, parent, sub, ks[1..], from, to);
    }
  }

  /** The edge from `a` to `b` exists and is `edge`. */
  predicate EdgeIs(nodes: Nodes, a: string, b: string, edge: Edge) {
    a in nodes.entries && b in nodes.entries[a].edges.entries && nodes.entries[a].edges.entries[b] == edge
  }

  /** The inner edge loop leaves alone every edge it does not write. */
  lemma {:induction false} CopyEdgesFromKeeps(e: Effect, parent: string, from: string, edges: OMap<Edge>, ts: seq<string>,
                                              a: string, b: string, edge: Edge)
    requires forall t :: t in ts ==> t in edges.entries
    requires EdgeIs(e.store.nodes, a, b, edge)
    requires forall t :: t in ts ==> a != Inner(parent, from) || b != Inner(parent, t)
    ensures EdgeIs(CopyEdgesFrom(e, parent, from, edges, ts).store.nodes, a, b, edge)
    decreases |ts|
  {
    if |ts| > 0 {
      var t := ts[0];
      var skip := IsEndpoint(from) || IsEndpoint(t);
      var next :=
        if skip then e
        else Then(e, AddEdgeOp(e.store, Inner(parent, from), Inner(parent, t), Some(edges.entries[t].weight), edges.entries[t].edgeType));
      assert forall m :: m in ts[1..] ==> m in ts;
      CopyEdgesFromKeeps(next, parent, from, edges, ts[1..], a, b, edge);
    }
  }

  /** The outer edge loop leaves alone the edges out of nodes that are not copies of its keys. */
  lemma {:induction false} CopyEdgesKeeps(e: Effect, parent: string, sub: Nodes, ks: seq<string>, a: string, b: string, edge: Edge)
    requires NodesValid(sub) && forall k :: k in ks ==> k in sub.entries
    requires EdgeIs(e.store.nodes, a, b, edge)
    requires forall k :: k in ks ==> a != Inner(parent, k)
    ensures EdgeIs(CopyEdges(e, parent, sub, ks).store.nodes, a, b, edge)
    decreases |ks|
  {
    if |ks| > 0 {
      var f := ks[0];
      var edges := sub.entries[f].edges;
      KeysEnumerateEntries(edges);
      CopyEdgesFromKeeps(e, parent, f, edges, edges.Keys(), a, b, edge);
      assert forall m :: m in ks[1..] ==> m in ks;
      CopyEdgesKeeps(CopyEdgesFrom(e, parent, f, edges, edges.Keys()), parent, sub, ks[1..], a, b, edge);
    }
  }

  /** The inner edge loop over distinct targets copies the edge to `to` with its weight and type. */
  lemma {:induction false} CopyEdgesFromCarries(e: Effect, parent: string, from: string, edges: OMap<Edge>, ts: seq<string>, to: string)
    requires forall t :: t in ts ==> t in edges.entries
    requires Distinct(ts) && to in ts && !IsEndpoint(from) && !IsEndpoint(to)
    requires Inner(parent, from) in e.store.nodes.entries && Inner(parent, to) in e.store.nodes.entries
    ensures EdgeIs(CopyEdgesFrom(e, parent, from, edges, ts).store.nodes, Inner(parent, from), Inner(parent, to), edges.entries[to])
    decreases |ts|
  {
    var t := ts[0];
    var skip := IsEndpoint(from) || IsEndpoint(t);
    var next :=
      if skip then e
      else Then(e, AddEdgeOp(e.store, Inner(parent, from), Inner(parent, t), Some(edges.entries[t].weight), edges.entries[t].edgeType));
    assert forall m :: m in ts[1..] ==> m in ts;
    if t == to {
      forall m | m in ts[1..] ensures Inner(parent, to) != Inner(parent, m) {
        if Inner(parent, to) == Inner(parent, m) { InnerInjective(parent, to, m); }
        var j :| 0 <= j < |ts[1..]| && ts[1..][j] == m;
        assert ts[0] != ts[j + 1];
      }
      CopyEdgesFromKeeps(next, parent, from, edges, ts[1..], Inner(parent, from), Inner(parent, to), edges.entries[to]);
    } else {
      assert Distinct(ts[1..]) by {
        forall i, j | 0 <= i < j < |ts[1..]| ensures ts[1..][i] != ts[1..][j] {
          assert ts[i + 1] != ts[j + 1];
        }
      }
      CopyEdgesFromCarries(next, parent, from, edges, ts[1..], to);
    }
  }

  /** The outer edge loop over distinct keys copies every inner edge with its weight and type. */
  lemma {:induction false} CopyEdgesCarries(e: Effect, parent: string, sub: Nodes, ks: seq<string>, from: string, to: string)
    requires NodesValid(sub) && forall k :: k in ks ==> k in sub.entries
    requires Distinct(ks) && from in ks && to in sub.entries[from].edges.entries && !IsEndpoint(from) && !IsEndpoint(to)
    requires Inner(parent, from) in e.store.nodes.entries && Inner(parent, to) in e.store.nodes.entries
    ensures EdgeIs(CopyEdges(e, parent, sub, ks).store.nodes, Inner(parent, from), Inner(parent, to),
                   sub.entries[from].edges.entries[to])
    decreases |ks|
  {
    var f := ks[0];
    var edges := sub.entries[f].edges;
    KeysEnumerateEntries(edges);
    var next := CopyEdgesFrom(e, parent, f, edges, edges.Keys());
    assert forall m :: m in ks[1..] ==> m in ks;
    if f == from {
      KeysDistinct(edges);
      CopyEdgesFromCarries(e, parent, f, edges, edges.Keys(), to);
      forall m | m in ks[1..] ensures Inner(parent, from) != Inner(parent, m) {
        if Inner(parent, from) == Inner(parent, m) { InnerInjective(parent, from, m); }
        var j :| 0 <= j < |ks[1..]| && ks[1..][j] == m;
        assert ks[0] != ks[j + 1];
      }
      CopyEdgesKeeps(next, parent, sub, ks[1..], Inner(parent, from), Inner(parent, to), edges.entries[to]);
    } else {
      assert Distinct(ks[1..]) by {
        forall i, j | 0 <= i < j < |ks[1..]| ensures ks[1..][i] != ks[1..][j] {
          assert ks[i + 1] != ks[j + 1];
        }
      }
      CopyEdgesCarries(next, parent, sub, ks[1..], from, to);
    }
  }

  /**
   * Every edge between two inner nodes of the sub-graph has a copy between
   * their copies, with the sub-graph edge's weight and type.
   */
  lemma MergeCopiesInnerEdges(s: Store, sub: Nodes, parent: string, goal: Option<string>, from: string, to: string)
    requires NodesValid(sub) && HasParent(s, Some(parent))
    requires HasEdge(sub, from, to) && to in sub.entries && !IsEndpoint(from) && !IsEndpoint(to)
    ensures HasEdge(MergeOp(s, sub, Some(parent), goal, AddNodesStrategy).store.nodes, Inner(parent, from), Inner(parent, to))
    ensures MergeOp(s, sub, Some(parent), goal, AddNodesStrategy).store.nodes.entries[Inner(parent, from)].edges.entries[Inner(parent, to)]
         == sub.entries[from].edges.entries[to]
  {
    KeysEnumerateEntries(sub);
    KeysDistinct(sub);
    var copied := CopyNodes(Effect(s, []), parent, sub, sub.Keys());
    CopyNodesLinks(Effect(s, []), parent, sub, sub.Keys(), from);
    CopyNodesLinks(Effect(s, []), parent, sub, sub.Keys(), to);
    CopyEdgesCarries(copied, parent, sub, sub.Keys(), from, to);
  }
}
