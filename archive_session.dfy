/**
 * The older page of _archive/main.js. It keeps its own store, made of arrays:
 * `nodes` and `edges` with their id counters, the selection
 * `selectedNodeIds`, and the observatory ("focus") with copies of the
 * selected nodes and edges between them. A script player steps through step
 * objects with one field per command, as the player of main.js does, but
 * calls the functions of this page instead of a `Graph`.
 */
module ArchiveSession {
  import opened JsText
  import opened Playback
  import Main = MainSession

  // ---------------------------------------------------------------------------
  // The store

  /** A node of `nodes` or `focusNodes`: its id, `label` (here `caption`) and `type` (the coordinates are not modelled). */
  datatype Node = Node(id: string, caption: Option<string>, kind: Option<string>)

  datatype Edge = Edge(id: string, node1Id: string, node2Id: string)

  /**
   * The module-level arrays and counters: `nodes`, `edges`, `nextNodeId`,
   * `nextEdgeId`, `selectedNodeIds`, `focusNodes`, `focusEdges`,
   * `nextFocusNodeId` and `nextFocusEdgeId`.
   */
  datatype Canvas = Canvas(
    nodes: seq<Node>,
    edges: seq<Edge>,
    nextNodeId: nat,
    nextEdgeId: nat,
    selected: seq<string>,
    focusNodes: seq<Node>,
    focusEdges: seq<Edge>,
    nextFocusNodeId: nat,
    nextFocusEdgeId: nat)

  /** The store at load time and after `resetGraph`. */
  const Blank: Canvas := Canvas([], [], 0, 0, [], [], [], 0, 0)

  function Ids(nodes: seq<Node>): set<string> {
    set n | n in nodes :: n.id
  }

  /** `edge-${k}`. */
  function EdgeId(k: nat): string {
    "edge-" + NatToString(k)
  }

  lemma EdgeIdInjective(a: nat, b: nat)
    requires EdgeId(a) == EdgeId(b)
    ensures a == b
  {
    assert EdgeId(a)[5..] == NatToString(a);
    assert EdgeId(b)[5..] == NatToString(b);
    NatToStringInjective(a, b);
  }

  /** The ids `edge-0` up to `edge-(n-1)`. */
  function EdgeIds(n: nat): set<string> {
    set k: nat | k < n :: EdgeId(k)
  }

  /** The counter value an id of `EdgeIds(n)` was made from. */
  lemma EdgeIdIndex(id: string, n: nat) returns (k: nat)
    requires id in EdgeIds(n)
    ensures k < n && id == EdgeId(k)
  {
    k :| k < n && id == EdgeId(k);
  }

  /**
   * What every operation keeps: each edge joins two nodes (`removeNode` takes
   * a node's edges with it and `createEdge` checks both ends), and the edges
   * have distinct ids taken from the counter.
   */
  predicate Consistent(c: Canvas) {
    && (forall e :: e in c.edges ==> e.node1Id in Ids(c.nodes) && e.node2Id in Ids(c.nodes))
    && (forall e :: e in c.edges ==> e.id in EdgeIds(c.nextEdgeId))
    && (forall i, j :: 0 <= i < j < |c.edges| ==> c.edges[i].id != c.edges[j].id)
  }

  /** `resetFocusArea`: no focus nodes or edges and both focus counters at 0; the rest stays. */
  function ResetFocus(c: Canvas): (r: Canvas)
    ensures r.focusNodes == [] && r.focusEdges == [] && r.nextFocusNodeId == 0 && r.nextFocusEdgeId == 0
    ensures r.(focusNodes := c.focusNodes, focusEdges := c.focusEdges,
               nextFocusNodeId := c.nextFocusNodeId, nextFocusEdgeId := c.nextFocusEdgeId) == c
  {
    c.(focusNodes := [], focusEdges := [], nextFocusNodeId := 0, nextFocusEdgeId := 0)
  }

  /** What `createNode` reads of its `config`: `id`, `label` and `type`; None is a missing value. */
  datatype NodeConfig = NodeConfig(id: Option<string>, caption: Option<string>, kind: Option<string>)

  /** A config with no fields, as the layouts pass (they give only coordinates). */
  const Unnamed: NodeConfig := NodeConfig(None, None, None)

  /** The store after `createNode`, and the id it returns. */
  datatype Created = Created(canvas: Canvas, id: string)

  /**
   * `createNode`: appends a node named `config.id`, or, when that is falsy,
   * `node-${nextNodeId}`, in which case the counter moves on.
   */
  function CreateNodeOp(c: Canvas, config: NodeConfig): (r: Created)
    ensures r.canvas.nodes == c.nodes + [Node(r.id, config.caption, config.kind)]
    ensures Truthy(config.id) ==> r.id == config.id.value && r.canvas.nextNodeId == c.nextNodeId
    ensures !Truthy(config.id) ==> r.id == NodeId(c.nextNodeId) && r.canvas.nextNodeId == c.nextNodeId + 1
    ensures r.canvas == c.(nodes := r.canvas.nodes, nextNodeId := r.canvas.nextNodeId)
    ensures Consistent(c) ==> Consistent(r.canvas)
  {
    var id := if Truthy(config.id) then config.id.value else NodeId(c.nextNodeId);
    var next := if Truthy(config.id) then c.nextNodeId else c.nextNodeId + 1;
    Created(c.(nodes := c.nodes + [Node(id, config.caption, config.kind)], nextNodeId := next), id)
  }

  /** The nodes whose id is not `id`, in their order (what `removeNode` keeps). */
  function Without(nodes: seq<Node>, id: string): (r: seq<Node>)
    ensures forall n :: n in r <==> n in nodes && n.id != id
    ensures Ids(r) == Ids(nodes) - {id}
  {
    if |nodes| == 0 then []
    else
      var rest := Without(nodes[1..], id);
      assert nodes == [nodes[0]] + nodes[1..];
      if nodes[0].id != id then [nodes[0]] + rest else rest
  }

  /** The edges that touch `id` at neither end, in their order; their ids stay distinct. */
  function Detached(edges: seq<Edge>, id: string): (r: seq<Edge>)
    ensures forall e :: e in r <==> e in edges && e.node1Id != id && e.node2Id != id
    ensures (forall i, j :: 0 <= i < j < |edges| ==> edges[i].id != edges[j].id) ==>
      forall i, j :: 0 <= i < j < |r| ==> r[i].id != r[j].id
  {
    if |edges| == 0 then []
    else
      var rest := Detached(edges[1..], id);
      assert edges == [edges[0]] + edges[1..];
      if edges[0].node1Id != id && edges[0].node2Id != id then
        assert forall e :: e in rest ==> e in edges[1..];
        [edges[0]] + rest
      else rest
  }

  /** `removeNode(id)`: every node named `id` goes, and so does every edge at either end of which it was. */
  function RemoveNodeOp(c: Canvas, id: string): (r: Canvas)
    ensures forall n :: n in r.nodes <==> n in c.nodes && n.id != id
    ensures forall e :: e in r.edges <==> e in c.edges && e.node1Id != id && e.node2Id != id
    ensures r == c.(nodes := r.nodes, edges := r.edges)
    ensures Consistent(c) ==> Consistent(r)
  {
    c.(nodes := Without(c.nodes, id), edges := Detached(c.edges, id))
  }

  /** The two ends `createEdge` accepts: truthy ids of nodes. */
  predicate Linkable(c: Canvas, node1Id: Option<string>, node2Id: Option<string>) {
    Truthy(node1Id) && Truthy(node2Id) && node1Id.value in Ids(c.nodes) && node2Id.value in Ids(c.nodes)
  }

  /** `createEdge`: appends `edge-${nextEdgeId}` between the two nodes; nothing happens to other ends. */
  function CreateEdgeOp(c: Canvas, node1Id: Option<string>, node2Id: Option<string>): (r: Canvas)
    ensures !Linkable(c, node1Id, node2Id) ==> r == c
    ensures Linkable(c, node1Id, node2Id) ==>
      && r.edges == c.edges + [Edge(EdgeId(c.nextEdgeId), node1Id.value, node2Id.value)]
      && r == c.(edges := r.edges, nextEdgeId := c.nextEdgeId + 1)
    ensures Consistent(c) ==> Consistent(r)
  {
    if !Linkable(c, node1Id, node2Id) then c
    else
      var e := Edge(EdgeId(c.nextEdgeId), node1Id.value, node2Id.value);
      var r := c.(edges := c.edges + [e], nextEdgeId := c.nextEdgeId + 1);
      assert Consistent(c) ==> Consistent(r) by {
        if Consistent(c) {
          forall x | x in r.edges
            ensures x.id in EdgeIds(r.nextEdgeId)
          {
            if x != e {
              assert x in c.edges;
              var k := EdgeIdIndex(x.id, c.nextEdgeId);
              assert x.id == EdgeId(k) && k < r.nextEdgeId;
            }
          }
          forall i | 0 <= i < |c.edges|
            ensures c.edges[i].id != e.id
          {
            assert c.edges[i] in c.edges;
            var k := EdgeIdIndex(c.edges[i].id, c.nextEdgeId);
            if c.edges[i].id == e.id {
              EdgeIdInjective(k, c.nextEdgeId);
            }
          }
        }
      }
      r
  }

  /** A throwing call leaves what it did before the throw. */
  datatype Outcome = Outcome(canvas: Canvas, completed: bool)

  // ---------------------------------------------------------------------------
  // The layouts

  /** The nodes `node-first`, `node-(first+1)`, ... with no label or type, as the layouts create them. */
  function Plain(first: nat, count: nat): (r: seq<Node>)
    ensures |r| == count && forall i :: 0 <= i < count ==> r[i] == Node(NodeId(first + i), None, None)
  {
    seq(count, i requires 0 <= i < count => Node(NodeId(first + i), None, None))
  }

  /** A cleared store holding the first `count` plain nodes. */
  function Layout(count: nat): (r: Canvas)
    ensures Consistent(r)
  {
    Blank.(nodes := Plain(0, count), nextNodeId := count)
  }

  /** One more `createNode({x, y})` on a layout adds the next plain node. */
  lemma LayoutGrows(count: nat)
    ensures CreateNodeOp(Layout(count), Unnamed).canvas == Layout(count + 1)
  {
    assert Plain(0, count) + [Node(NodeId(count), None, None)] == Plain(0, count + 1);
  }

  /** The nodes the per-ring loop of the circular layout creates, summed over the ring sizes. */
  function RingNodes(sizes: seq<real>): nat {
    if |sizes| == 0 then 0 else RingNodes(sizes[..|sizes| - 1]) + CountBelow(sizes[|sizes| - 1])
  }

  /**
   * `applyRingLayout`: clears the store, then creates the nodes of each ring
   * in turn. A value that is not an array throws at `forEach`, after the
   * clearing.
   */
  function RingLayoutOp(ringSizes: Option<seq<real>>): (r: Outcome)
    ensures Consistent(r.canvas) && r.completed == ringSizes.Some?
    ensures ringSizes.None? ==> r.canvas == Blank
    ensures ringSizes.Some? ==> r.canvas == Layout(RingNodes(ringSizes.value))
  {
    if ringSizes.None? then Outcome(Blank, false) else Outcome(Layout(RingNodes(ringSizes.value)), true)
  }

  /** `applyTriangularGridLayout`: clears the store, then creates one centre node and six more per further ring. */
  function GridLayoutOp(numRings: real): (r: Canvas)
    ensures Consistent(r)
    ensures |r.nodes| == GridCount(CountBelow(numRings))
  {
    Layout(GridCount(CountBelow(numRings)))
  }

  /**
   * The layouts number their nodes from `node-0`: with whole positive ring
   * sizes, a ring layout has as many nodes as the sizes add up to, and a grid
   * of n >= 1 rings has 1 + 3n(n-1).
   */
  lemma LayoutSizes(sizes: seq<real>, n: nat)
    requires forall i :: 0 <= i < |sizes| ==> PositiveInteger(sizes[i])
    requires n >= 1
    ensures var r := RingLayoutOp(Some(sizes)).canvas;
      |r.nodes| == RingTotal(sizes) && forall i :: 0 <= i < |r.nodes| ==> r.nodes[i].id == NodeId(i)
    ensures |GridLayoutOp(n as real).nodes| == 1 + 3 * n * (n - 1)
  {
    RingNodesOfWholeSizes(sizes);
    GridCountClosedForm(n);
    assert CountBelow(n as real) == n;
  }

  /** For whole positive sizes the loop bound and the ring size agree. */
  lemma {:induction false} RingNodesOfWholeSizes(sizes: seq<real>)
    requires forall i :: 0 <= i < |sizes| ==> PositiveInteger(sizes[i])
    ensures RingNodes(sizes) == RingTotal(sizes)
  {
    if |sizes| > 0 {
      var init := sizes[..|sizes| - 1];
      RingNodesOfWholeSizes(init);
      assert RingCounts(sizes)[..|sizes| - 1] == RingCounts(init);
    }
  }

  // ---------------------------------------------------------------------------
  // The selection

  /** The first node whose id is `id`, if there is one. */
  function Find(nodes: seq<Node>, id: string): (r: Option<Node>)
    ensures r.Some? ==> r.value in nodes && r.value.id == id
    ensures r.None? <==> id !in Ids(nodes)
  {
    if |nodes| == 0 then None
    else if nodes[0].id == id then Some(nodes[0])
    else
      assert nodes == [nodes[0]] + nodes[1..];
      Find(nodes[1..], id)
  }

  /** What `selectPath` keeps of `ps`: each `node-${p}` that names a node, in order. */
  function Present(nodes: seq<Node>, ps: seq<string>): (r: seq<string>)
    ensures forall id :: id in r ==> id in Ids(nodes)
    ensures forall p :: p in ps && "node-" + p in Ids(nodes) ==> "node-" + p in r
    ensures |r| <= |ps|
  {
    if |ps| == 0 then []
    else
      var init := ps[..|ps| - 1];
      var id := "node-" + ps[|ps| - 1];
      assert ps == init + [ps[|ps| - 1]];
      Present(nodes, init) + if id in Ids(nodes) then [id] else []
  }

  /**
   * `selectPath(pathIds)`: the selection is emptied and then refilled from
   * `pathIds`; a value that is not an array throws at `forEach`, leaving the
   * selection empty.
   */
  function SelectPathOp(c: Canvas, pathIds: Option<seq<string>>): (r: Outcome)
    ensures r.completed == pathIds.Some?
    ensures r.canvas == c.(selected := if pathIds.Some? then Present(c.nodes, pathIds.value) else [])
  {
    if pathIds.None? then Outcome(c.(selected := []), false)
    else Outcome(c.(selected := Present(c.nodes, pathIds.value)), true)
  }

  /**
   * `selectPath` prefixes `node-` itself, so ids that already carry the
   * prefix, as the demo scripts of the page pass them, select nothing on a
   * store of layout nodes.
   */
  lemma PrefixedIdsSelectNothing(count: nat, ps: seq<string>)
    requires forall i :: 0 <= i < |ps| ==> |ps[i]| >= 5 && ps[i][..5] == "node-"
    ensures SelectPathOp(Layout(count), Some(ps)).canvas.selected == []
  {
    var nodes := Layout(count).nodes;
    var r := Present(nodes, ps);
    if |r| > 0 {
      PresentFrom(nodes, ps, r[0]);
      var i :| 0 <= i < |ps| && r[0] == "node-" + ps[i];
      assert r[0][5] == ps[i][0] == 'n';
      LayoutIdDigit(count, r[0]);
    }
  }

  /** Layout node ids have a digit after `node-`. */
  lemma LayoutIdDigit(count: nat, id: string)
    requires id in Ids(Layout(count).nodes)
    ensures |id| > 5 && IsDigit(id[5])
  {
    var k :| 0 <= k < count && Layout(count).nodes[k].id == id;
    NatToStringRoundTrip(k);
    assert id[5] == NatToString(k)[0];
  }

  /** Every kept id is `node-` followed by one of the given ids. */
  lemma {:induction false} PresentFrom(nodes: seq<Node>, ps: seq<string>, id: string)
    requires id in Present(nodes, ps)
    ensures exists i :: 0 <= i < |ps| && id == "node-" + ps[i]
  {
    var init := ps[..|ps| - 1];
    if id in Present(nodes, init) {
      PresentFrom(nodes, init, id);
      var i :| 0 <= i < |init| && id == "node-" + init[i];
      assert ps[i] == init[i];
    } else {
      assert id == "node-" + ps[|ps| - 1];
    }
  }

  // ---------------------------------------------------------------------------
  // The observatory

  /** `focus-${i}`. */
  function FocusId(i: nat): string {
    "focus-" + NatToString(i)
  }

  /** `focus-edge-${k}`. */
  function FocusEdgeId(k: nat): string {
    "focus-edge-" + NatToString(k)
  }

  lemma FocusIdInjective(a: nat, b: nat)
    requires FocusId(a) == FocusId(b)
    ensures a == b
  {
    assert FocusId(a)[6..] == NatToString(a);
    assert FocusId(b)[6..] == NatToString(b);
    NatToStringInjective(a, b);
  }

  /**
   * The copies `moveCopiedPathToObs` makes: for the selected id at position
   * i that names a node, that node renamed `focus-${i}`; ids that name no
   * node are dropped.
   */
  function Copies(nodes: seq<Node>, selected: seq<string>): (r: seq<Node>)
    ensures |r| <= |selected|
  {
    if |selected| == 0 then []
    else
      var init := selected[..|selected| - 1];
      Copies(nodes, init) + CopyFor(nodes, selected[|selected| - 1], |selected| - 1)
  }

  /** The copy made for the selected id at position i: none when it names no node. */
  function CopyFor(nodes: seq<Node>, id: string, i: nat): seq<Node> {
    match Find(nodes, id)
    case Some(n) => [n.(id := FocusId(i))]
    case None => []
  }

  /** `find` on a concatenation looks in the second part only when the first has no match. */
  lemma {:induction false} FindAppend(a: seq<Node>, b: seq<Node>, id: string)
    ensures Find(a + b, id) == if Find(a, id).Some? then Find(a, id) else Find(b, id)
  {
    if |a| > 0 {
      assert (a + b)[1..] == a[1..] + b;
      FindAppend(a[1..], b, id);
    } else {
      assert a + b == b;
    }
  }

  /** No copy is named after a position past the selection. */
  lemma {:induction false} NoCopyBeyond(nodes: seq<Node>, selected: seq<string>, i: nat)
    requires i >= |selected|
    ensures Find(Copies(nodes, selected), FocusId(i)) == None
  {
    if |selected| > 0 {
      var last := |selected| - 1;
      var init := selected[..last];
      var tail := CopyFor(nodes, selected[last], last);
      NoCopyBeyond(nodes, init, i);
      FindAppend(Copies(nodes, init), tail, FocusId(i));
      if tail != [] && FocusId(last) == FocusId(i) {
        FocusIdInjective(last, i);
      }
    }
  }

  /** The copy named `focus-${i}` is the copy of the node the selection names at position i. */
  lemma {:induction false} CopyAt(nodes: seq<Node>, selected: seq<string>, i: nat)
    requires i < |selected| && selected[i] in Ids(nodes)
    ensures Find(Copies(nodes, selected), FocusId(i)) == Some(Find(nodes, selected[i]).value.(id := FocusId(i)))
  {
    var last := |selected| - 1;
    var init := selected[..last];
    var tail := CopyFor(nodes, selected[last], last);
    assert Copies(nodes, selected) == Copies(nodes, init) + tail;
    FindAppend(Copies(nodes, init), tail, FocusId(i));
    if i < last {
      assert init[i] == selected[i];
      CopyAt(nodes, init, i);
    } else {
      NoCopyBeyond(nodes, init, i);
      assert tail[0].id == FocusId(i);
    }
  }

  /** The second dash-separated part of an id: the text between the first dash and the next; undefined without a dash. */
  function SecondPart(id: string): Option<string> {
    match AfterDash(id)
    case None => None
    case Some(rest) => Some(UpToDash(rest))
  }

  function AfterDash(s: string): Option<string> {
    if |s| == 0 then None else if s[0] == '-' then Some(s[1..]) else AfterDash(s[1..])
  }

  function UpToDash(s: string): string {
    if |s| == 0 || s[0] == '-' then "" else [s[0]] + UpToDash(s[1..])
  }

  /** For a generated id, the second part is the number. */
  lemma SecondPartOfGenerated(word: string, k: nat)
    requires '-' !in word
    ensures SecondPart(word + "-" + NatToString(k)) == Some(NatToString(k))
  {
    NatToStringRoundTrip(k);
    DashFreeWord(word, NatToString(k));
    DigitsUpToDash(NatToString(k));
  }

  lemma {:induction false} DashFreeWord(word: string, rest: string)
    requires '-' !in word
    ensures AfterDash(word + "-" + rest) == Some(rest)
  {
    if |word| > 0 {
      assert (word + "-" + rest)[1..] == word[1..] + "-" + rest;
      DashFreeWord(word[1..], rest);
    } else {
      assert word + "-" + rest == "-" + rest;
    }
  }

  lemma {:induction false} DigitsUpToDash(s: string)
    requires AllDigits(s)
    ensures UpToDash(s) == s
  {
    if |s| > 0 {
      assert IsDigit(s[0]);
      DigitsUpToDash(s[1..]);
    }
  }

  /** The first focus node whose id starts with the focus prefix and whose second dash-separated part is `part`. */
  function FindByPart(focus: seq<Node>, part: Option<string>): (r: Option<Node>)
    ensures r.Some? ==> r.value in focus && SecondPart(r.value.id) == part
  {
    if |focus| == 0 then None
    else if |focus[0].id| >= 6 && focus[0].id[..6] == "focus-" && SecondPart(focus[0].id) == part then Some(focus[0])
    else FindByPart(focus[1..], part)
  }

  /**
   * The `edges.forEach` of `moveCopiedPathToObs` as written: an edge whose
   * ends are both selected is copied between the focus nodes whose id's
   * number equals the number in the id of each end. The copies are numbered
   * by position in the selection, not by the number of the node they copy,
   * so this pairs the wrong copies or none (see `FocusEdgeLostAsWritten`).
   */
  function JoinedEdgesAsWritten(edges: seq<Edge>, selected: seq<string>, focus: seq<Node>): (r: seq<Edge>)
    ensures |r| <= |edges|
    ensures forall k :: 0 <= k < |r| ==>
      r[k].id == FocusEdgeId(k) && r[k].node1Id in Ids(focus) && r[k].node2Id in Ids(focus)
  {
    if |edges| == 0 then []
    else
      var init := JoinedEdgesAsWritten(edges[..|edges| - 1], selected, focus);
      var e := edges[|edges| - 1];
      if e.node1Id in selected && e.node2Id in selected then
        match (FindByPart(focus, SecondPart(e.node1Id)), FindByPart(focus, SecondPart(e.node2Id)))
        case (Some(f1), Some(f2)) => init + [Edge(FocusEdgeId(|init|), f1.id, f2.id)]
        case _ => init
      else init
  }

  /** The first position of `x` in `s`, as `indexOf` finds it. */
  function IndexOf(s: seq<string>, x: string): (i: nat)
    requires x in s
    ensures i < |s| && s[i] == x && forall j :: 0 <= j < i ==> s[j] != x
  {
    if s[0] == x then 0 else 1 + IndexOf(s[1..], x)
  }

  /**
   * The focus edges as intended: each edge whose ends are both selected,
   * copied between the copies of its ends, which are named after the ends'
   * positions in the selection.
   */
  function JoinedEdges(edges: seq<Edge>, selected: seq<string>): (r: seq<Edge>)
    ensures |r| <= |edges|
    ensures forall k :: 0 <= k < |r| ==> r[k].id == FocusEdgeId(k)
  {
    if |edges| == 0 then []
    else
      var init := JoinedEdges(edges[..|edges| - 1], selected);
      var e := edges[|edges| - 1];
      if e.node1Id in selected && e.node2Id in selected then
        init + [Edge(FocusEdgeId(|init|), FocusId(IndexOf(selected, e.node1Id)), FocusId(IndexOf(selected, e.node2Id)))]
      else init
  }

  /** Every edge between two selected nodes has its focus edge. */
  lemma {:induction false} JoinedEdgesComplete(edges: seq<Edge>, selected: seq<string>, e: Edge)
    requires e in edges && e.node1Id in selected && e.node2Id in selected
    ensures exists f ::
      && f in JoinedEdges(edges, selected)
      && f.node1Id == FocusId(IndexOf(selected, e.node1Id)) && f.node2Id == FocusId(IndexOf(selected, e.node2Id))
  {
    var prefix := edges[..|edges| - 1];
    var r := JoinedEdges(edges, selected);
    var init := JoinedEdges(prefix, selected);
    if e == edges[|edges| - 1] {
      assert r[|r| - 1].node1Id == FocusId(IndexOf(selected, e.node1Id));
      assert r[|r| - 1].node2Id == FocusId(IndexOf(selected, e.node2Id));
    } else {
      assert edges == prefix + [edges[|edges| - 1]];
      JoinedEdgesComplete(prefix, selected, e);
      var f :| f in init &&
        f.node1Id == FocusId(IndexOf(selected, e.node1Id)) && f.node2Id == FocusId(IndexOf(selected, e.node2Id));
      assert f in r;
    }
  }

  /**
   * `moveCopiedPathToObs`: clears the focus and fills it with the copies of
   * the selected nodes and of the edges between them, paired as written (see
   * `JoinedEdgesAsWritten`). The store's edges all join nodes, so each `find`
   * of an edge's end succeeds.
   */
  function MoveToFocusOp(c: Canvas): (r: Canvas)
    requires Consistent(c)
    ensures r.focusNodes == Copies(c.nodes, c.selected) && r.nextFocusNodeId == 0
    ensures forall k :: 0 <= k < |r.focusEdges| ==>
      r.focusEdges[k].id == FocusEdgeId(k) && r.focusEdges[k].node1Id in Ids(r.focusNodes) && r.focusEdges[k].node2Id in Ids(r.focusNodes)
    ensures r.nextFocusEdgeId == |r.focusEdges| <= |c.edges|
    ensures r.(focusNodes := c.focusNodes, focusEdges := c.focusEdges,
               nextFocusNodeId := c.nextFocusNodeId, nextFocusEdgeId := c.nextFocusEdgeId) == c
  {
    var focus := Copies(c.nodes, c.selected);
    var joined := JoinedEdgesAsWritten(c.edges, c.selected, focus);
    ResetFocus(c).(focusNodes := focus, focusEdges := joined, nextFocusEdgeId := |joined|)
  }

  /** `moveCopiedPathToObs` as intended: the focus edges join the copies of their ends (see `JoinedEdges`). */
  function MoveToFocusCorrected(c: Canvas): (r: Canvas)
    requires Consistent(c)
    ensures r.focusNodes == MoveToFocusOp(c).focusNodes
    ensures r.(focusEdges := c.focusEdges, nextFocusEdgeId := c.nextFocusEdgeId)
         == MoveToFocusOp(c).(focusEdges := c.focusEdges, nextFocusEdgeId := c.nextFocusEdgeId)
  {
    var joined := JoinedEdges(c.edges, c.selected);
    ResetFocus(c).(focusNodes := Copies(c.nodes, c.selected), focusEdges := joined, nextFocusEdgeId := |joined|)
  }

  /**
   * What the observatory is for, with the corrected pairing: every edge
   * between two selected nodes has a focus edge between their copies, where
   * the copy named after a position in the selection copies the node named
   * there.
   */
  lemma FocusEdgesJoinCopies(c: Canvas, e: Edge)
    requires Consistent(c)
    requires e in c.edges && e.node1Id in c.selected && e.node2Id in c.selected
    ensures var r := MoveToFocusCorrected(c);
      var i, j := IndexOf(c.selected, e.node1Id), IndexOf(c.selected, e.node2Id);
      && (exists f :: f in r.focusEdges && f.node1Id == FocusId(i) && f.node2Id == FocusId(j))
      && Find(r.focusNodes, FocusId(i)) == Some(Find(c.nodes, e.node1Id).value.(id := FocusId(i)))
      && Find(r.focusNodes, FocusId(j)) == Some(Find(c.nodes, e.node2Id).value.(id := FocusId(j)))
  {
    JoinedEdgesComplete(c.edges, c.selected, e);
    CopyAt(c.nodes, c.selected, IndexOf(c.selected, e.node1Id));
    CopyAt(c.nodes, c.selected, IndexOf(c.selected, e.node2Id));
  }

  /** The counterexample: a ring of three nodes with an edge from `node-1` to `node-2`, both selected. */
  const LostEdgeCanvas: Canvas :=
    Layout(3).(edges := [Edge(EdgeId(0), NodeId(1), NodeId(2))], nextEdgeId := 1, selected := [NodeId(1), NodeId(2)])

  /**
   * As written, that edge gets no focus edge: its ends are copied as
   * `focus-0` and `focus-1`, and no copy has the number 2 of `node-2`.
   */
  lemma FocusEdgeLostAsWritten()
    ensures Consistent(LostEdgeCanvas)
    ensures MoveToFocusOp(LostEdgeCanvas).focusEdges == []
    ensures |MoveToFocusCorrected(LostEdgeCanvas).focusEdges| == 1
  {
    var c := LostEdgeCanvas;
    LostEdgeCanvasConsistent();
    var focus := LostEdgeCopies();
    NoCopyNumberedTwo(focus);
    assert c.edges[..0] == [];
  }

  lemma LostEdgeCanvasConsistent()
    ensures Consistent(LostEdgeCanvas)
  {
    var c := LostEdgeCanvas;
    assert c.nodes[1].id == NodeId(1) && c.nodes[2].id == NodeId(2);
    assert EdgeId(0) in EdgeIds(1);
  }

  /** The copies in the counterexample are `focus-0` and `focus-1`. */
  lemma LostEdgeCopies() returns (focus: seq<Node>)
    ensures focus == Copies(LostEdgeCanvas.nodes, LostEdgeCanvas.selected)
    ensures |focus| == 2 && focus[0].id == FocusId(0) && focus[1].id == FocusId(1)
  {
    var c := LostEdgeCanvas;
    assert Find(c.nodes, NodeId(1)).Some? by { assert c.nodes[1].id == NodeId(1); }
    assert Find(c.nodes, NodeId(2)).Some? by { assert c.nodes[2].id == NodeId(2); }
    assert c.selected[..1] == [NodeId(1)];
    assert c.selected[..1][..0] == [];
    focus := Copies(c.nodes, c.selected);
  }

  /** No focus node named `focus-0` or `focus-1` has the second part of `node-2`. */
  lemma NoCopyNumberedTwo(focus: seq<Node>)
    requires |focus| == 2 && focus[0].id == FocusId(0) && focus[1].id == FocusId(1)
    ensures FindByPart(focus, SecondPart(NodeId(2))) == None
  {
    assert NatToString(0) == "0" && NatToString(1) == "1" && NatToString(2) == "2";
    SecondPartOfGenerated("node", 2);
    SecondPartOfGenerated("focus", 0);
    SecondPartOfGenerated("focus", 1);
    assert "node" + "-" + NatToString(2) == NodeId(2);
    assert "focus" + "-" + NatToString(0) == FocusId(0);
    assert "focus" + "-" + NatToString(1) == FocusId(1);
    assert focus[1..][1..] == [];
  }

  /**
   * `compressPathInFocus`: with more than two focus nodes, the focus is
   * cleared and refilled with the first and the last of them and one edge
   * `0` between them; otherwise nothing changes.
   */
  function CompressOp(c: Canvas): (r: Canvas)
    ensures |c.focusNodes| <= 2 ==> r == c
    ensures |c.focusNodes| > 2 ==>
      var first, last := c.focusNodes[0], c.focusNodes[|c.focusNodes| - 1];
      && r.focusNodes == [first, last]
      && r.focusEdges == [Edge("0", first.id, last.id)]
      && r.nextFocusNodeId == 0 && r.nextFocusEdgeId == 1
      && r.(focusNodes := c.focusNodes, focusEdges := c.focusEdges,
            nextFocusNodeId := c.nextFocusNodeId, nextFocusEdgeId := c.nextFocusEdgeId) == c
  {
    if |c.focusNodes| <= 2 then c
    else
      var first, last := c.focusNodes[0], c.focusNodes[|c.focusNodes| - 1];
      ResetFocus(c).(focusNodes := [first, last], focusEdges := [Edge("0", first.id, last.id)], nextFocusEdgeId := 1)
  }

  /** Compressing twice is compressing once: the result has two focus nodes. */
  lemma CompressIdempotent(c: Canvas)
    ensures CompressOp(CompressOp(c)) == CompressOp(c)
  {
  }

  /**
   * `addCompressedPathToGraph`: with exactly two focus nodes, creates two
   * nodes labelled after them ("... Start", "... End", types "...Start",
   * "...End"), joins them with an edge, and clears the focus.
   */
  function AddCompressedOp(c: Canvas): (r: Canvas)
    ensures |c.focusNodes| != 2 ==> r == c
    ensures Consistent(c) ==> Consistent(r)
  {
    if |c.focusNodes| != 2 then c
    else
      var start, end := c.focusNodes[0], c.focusNodes[1];
      var s := CreateNodeOp(c, NodeConfig(None, Some(KeyOf(start.caption) + " Start"), Some(KeyOf(start.kind) + "Start")));
      var t := CreateNodeOp(s.canvas, NodeConfig(None, Some(KeyOf(end.caption) + " End"), Some(KeyOf(end.kind) + "End")));
      ResetFocus(CreateEdgeOp(t.canvas, Some(s.id), Some(t.id)))
  }

  /**
   * After `compressPathInFocus` on more than two focus nodes,
   * `addCompressedPathToGraph` adds two generated nodes, the copies of the
   * first and the last focus node, and one edge from the first to the second,
   * and leaves the focus empty.
   */
  lemma CompressThenAdd(c: Canvas)
    requires |c.focusNodes| > 2
    ensures var k, r := c.nextNodeId, AddCompressedOp(CompressOp(c));
      var first, last := c.focusNodes[0], c.focusNodes[|c.focusNodes| - 1];
      && r.nodes == c.nodes + [Node(NodeId(k), Some(KeyOf(first.caption) + " Start"), Some(KeyOf(first.kind) + "Start")),
                               Node(NodeId(k + 1), Some(KeyOf(last.caption) + " End"), Some(KeyOf(last.kind) + "End"))]
      && r.edges == c.edges + [Edge(EdgeId(c.nextEdgeId), NodeId(k), NodeId(k + 1))]
      && r.nextNodeId == k + 2 && r.nextEdgeId == c.nextEdgeId + 1
      && r.focusNodes == [] && r.focusEdges == [] && r.selected == c.selected
  {
    var d := CompressOp(c);
    var first, last := c.focusNodes[0], c.focusNodes[|c.focusNodes| - 1];
    var s := CreateNodeOp(d, NodeConfig(None, Some(KeyOf(first.caption) + " Start"), Some(KeyOf(first.kind) + "Start")));
    var t := CreateNodeOp(s.canvas, NodeConfig(None, Some(KeyOf(last.caption) + " End"), Some(KeyOf(last.kind) + "End")));
    assert s.id in Ids(t.canvas.nodes) by { assert t.canvas.nodes[|c.nodes|] == s.canvas.nodes[|c.nodes|]; }
    assert t.id in Ids(t.canvas.nodes) by { assert t.canvas.nodes[|c.nodes| + 1].id == t.id; }
  }

  /** The `edges.forEach` of `moveCopiedPathToObs`, from an empty focus: the focus edges and the counter after them. */
  method JoinEdges(edges: seq<Edge>, selected: seq<string>, focus: seq<Node>) returns (focusEdges: seq<Edge>, nextFocusEdgeId: nat)
    ensures focusEdges == JoinedEdgesAsWritten(edges, selected, focus) && nextFocusEdgeId == |focusEdges|
  {
    focusEdges, nextFocusEdgeId := [], 0;
    for k := 0 to |edges|
      invariant focusEdges == JoinedEdgesAsWritten(edges[..k], selected, focus) && nextFocusEdgeId == |focusEdges|
    {
      assert edges[..k + 1][..k] == edges[..k];
      var edge := edges[k];
      if edge.node1Id in selected && edge.node2Id in selected {
        var from, to := FindByPart(focus, SecondPart(edge.node1Id)), FindByPart(focus, SecondPart(edge.node2Id));
        if from.Some? && to.Some? {
          focusEdges := focusEdges + [Edge(FocusEdgeId(nextFocusEdgeId), from.value.id, to.value.id)];
          nextFocusEdgeId := nextFocusEdgeId + 1;
        }
      }
    }
    assert edges[..|edges|] == edges;
  }

  // ---------------------------------------------------------------------------
  // The steps

  /**
   * A step object of the archived page: the fields of main.js, with
   * `add_node` holding `createNode`'s config and `add_triangular_grid` a
   * number. `add_circular_rings` and `select_path` carry None when their
   * truthy value is not an array (the call then throws).
   */
  datatype StepObject = StepObject(
    message: Option<string>,
    reset: Main.Flag,
    add_circular_rings: Main.Field<Option<seq<real>>>,
    add_triangular_grid: Main.Field<real>,
    add_node: Main.Field<NodeConfig>,
    remove_node: Main.Flag,
    connect_nodes: Main.Field<Main.Link>,
    select_path: Main.Field<Option<seq<string>>>,
    copy_move_to_focus: Main.Flag,
    straighten_path: Main.Flag,
    compress_path: Main.Flag,
    add_compressed_path_to_graph: Main.Flag)

  /** A step object with no fields. */
  const Bare: StepObject := StepObject(
    None, Main.Undefined, Main.Undefined, Main.Undefined, Main.Undefined, Main.Undefined,
    Main.Undefined, Main.Undefined, Main.Undefined, Main.Undefined, Main.Undefined, Main.Undefined)

  /** The field tests of `executeStep`, from `reset` to `add_compressed_path_to_graph`. */
  const TestCount := 11

  /** A step field that throws when its test calls: a truthy value that is not an array. */
  predicate Throws(st: StepObject, k: nat) {
    || (k == 1 && st.add_circular_rings == Main.Given(None))
    || (k == 6 && st.select_path == Main.Given(None))
  }

  /**
   * Test `k` of `executeStep` and the call it makes. `reset` and
   * `remove_node` act only when exactly null, the other fields when truthy (a
   * number `add_triangular_grid` of 0 is falsy). `straighten_path` only moves
   * coordinates, which are not modelled.
   */
  function Perform(c: Canvas, st: StepObject, k: nat): (r: Outcome)
    requires Consistent(c) && k < TestCount
    ensures Consistent(r.canvas)
    ensures r.completed <==> !Throws(st, k)
  {
    if k == 0 then Outcome(if st.reset.Null? then Blank else c, true)
    else if k == 1 then
      if st.add_circular_rings.Given? then RingLayoutOp(st.add_circular_rings.value) else Outcome(c, true)
    else if k == 2 then
      var grid := st.add_triangular_grid;
      Outcome(if grid.Given? && grid.value != 0.0 then GridLayoutOp(grid.value) else c, true)
    else if k == 3 then
      Outcome(if st.add_node.Given? then CreateNodeOp(c, st.add_node.value).canvas else c, true)
    else if k == 4 then
      Outcome(if st.remove_node.Null? && |c.nodes| > 0 then RemoveNodeOp(c, c.nodes[|c.nodes| - 1].id) else c, true)
    else if k == 5 then
      var link := st.connect_nodes;
      Outcome(if link.Given? then CreateEdgeOp(c, link.value.node1, link.value.node2) else c, true)
    else if k == 6 then
      if st.select_path.Given? then SelectPathOp(c, st.select_path.value) else Outcome(c, true)
    else if k == 7 then Outcome(if st.copy_move_to_focus.Given? then MoveToFocusOp(c) else c, true)
    else if k == 8 then Outcome(c, true)
    else if k == 9 then Outcome(if st.compress_path.Given? then CompressOp(c) else c, true)
    else Outcome(if st.add_compressed_path_to_graph.Given? then AddCompressedOp(c) else c, true)
  }

  /** Tests `k` onwards, stopping at the first that throws. */
  function RunFrom(c: Canvas, st: StepObject, k: nat): (r: Outcome)
    requires Consistent(c) && k <= TestCount
    ensures Consistent(r.canvas)
    decreases TestCount - k
  {
    if k == TestCount then Outcome(c, true)
    else
      var o := Perform(c, st, k);
      if o.completed then RunFrom(o.canvas, st, k + 1) else o
  }

  /** The tests from `k` on return unless one of them throws. */
  lemma {:induction false} RunFromReturns(c: Canvas, st: StepObject, k: nat)
    requires Consistent(c) && k <= TestCount
    ensures RunFrom(c, st, k).completed <==> forall j :: k <= j < TestCount ==> !Throws(st, j)
    decreases TestCount - k
  {
    if k < TestCount {
      var o := Perform(c, st, k);
      if o.completed {
        assert RunFrom(c, st, k) == RunFrom(o.canvas, st, k + 1);
        RunFromReturns(o.canvas, st, k + 1);
      } else {
        assert RunFrom(c, st, k) == o && Throws(st, k);
      }
    }
  }

  /** The tests from `k` on: test `k`, then, unless it threw, the ones after it. */
  lemma Advance(c: Canvas, st: StepObject, k: nat)
    requires Consistent(c) && k < TestCount
    ensures var o := Perform(c, st, k);
      RunFrom(c, st, k) == if o.completed then RunFrom(o.canvas, st, k + 1) else o
  {
  }

  /** The store after a step, the message history, and whether the step returned (false: it threw). */
  datatype Stepped = Stepped(canvas: Canvas, history: seq<string>, completed: bool)

  /**
   * `executeStep`: nothing for a missing step; otherwise a truthy message is
   * pushed onto the history of the last three, and the tests run in turn.
   */
  function Execute(c: Canvas, history: seq<string>, step: Option<StepObject>): (r: Stepped)
    requires Consistent(c)
    ensures Consistent(r.canvas)
    ensures |history| <= 3 ==> |r.history| <= 3
    ensures step.None? ==> r == Stepped(c, history, true)
    ensures step.Some? ==> r.canvas == RunFrom(c, step.value, 0).canvas && r.completed == RunFrom(c, step.value, 0).completed
    ensures step.Some? && Truthy(step.value.message) ==> r.history == Push3(history, step.value.message.value)
    ensures step.Some? && !Truthy(step.value.message) ==> r.history == history
  {
    if step.None? then Stepped(c, history, true)
    else
      var st := step.value;
      var o := RunFrom(c, st, 0);
      Stepped(o.canvas, if Truthy(st.message) then Push3(history, st.message.value) else history, o.completed)
  }

  /**
   * A step returns unless its `add_circular_rings` or `select_path` is truthy
   * but not an array; the store a step leaves does not depend on the message
   * history.
   */
  lemma StepReturns(c: Canvas, history: seq<string>, other: seq<string>, st: StepObject)
    requires Consistent(c)
    ensures Execute(c, history, Some(st)).completed <==>
      st.add_circular_rings != Main.Given(None) && st.select_path != Main.Given(None)
    ensures Execute(c, history, Some(st)).canvas == Execute(c, other, Some(st)).canvas
  {
    RunFromReturns(c, st, 0);
    if st.add_circular_rings == Main.Given(None) {
      assert Throws(st, 1);
    }
    if st.select_path == Main.Given(None) {
      assert Throws(st, 6);
    }
  }

  /** A ring layout that throws has already cleared the store, and nothing after it runs. */
  lemma RingThrowLeavesBlank(c: Canvas, history: seq<string>)
    requires Consistent(c)
    ensures Execute(c, history, Some(Bare.(add_circular_rings := Main.Given(None)))) == Stepped(Blank, history, false)
  {
    var st := Bare.(add_circular_rings := Main.Given(None));
    assert Perform(c, st, 0) == Outcome(c, true);
    assert RunFrom(c, st, 0) == RunFrom(c, st, 1);
  }

  // ---------------------------------------------------------------------------
  // Playback

  type Player = Playhead<StepObject, string>

  /** What a player call leaves: the store, the player's variables, and whether it returned. */
  datatype Turn = Turn(canvas: Canvas, head: Player, completed: bool)

  /** `stepForward`: stops playing, then runs the next step if there is one; at the last step only stops. */
  function StepForwardOp(c: Canvas, p: Player): (t: Turn)
    requires Consistent(c) && Ready(p)
    ensures Consistent(t.canvas) && Ready(t.head)
    ensures !t.head.playing && t.head.steps == p.steps
    ensures t.head.index == Forward(p.index, |p.steps|)
    ensures p.index == |p.steps| - 1 ==> t == Turn(c, p.(playing := false), true)
    ensures p.index < |p.steps| - 1 ==>
      var o := Execute(c, p.history, p.steps[p.index + 1]);
      t.canvas == o.canvas && t.head.history == o.history && t.completed == o.completed
  {
    if p.index < |p.steps| - 1 then
      var o := Execute(c, p.history, p.steps[p.index + 1]);
      Turn(o.canvas, p.(index := p.index + 1, playing := false, history := o.history), o.completed)
    else
      Turn(c, p.(playing := false), true)
  }

  /**
   * `stepBackward`: stops playing; from a step after the first, runs the step
   * before it again on the current store; from the first step, goes back to
   * -1 and clears the store; at -1 does nothing.
   */
  function StepBackwardOp(c: Canvas, p: Player): (t: Turn)
    requires Consistent(c) && Ready(p)
    ensures Consistent(t.canvas) && Ready(t.head)
    ensures !t.head.playing && t.head.steps == p.steps
    ensures t.head.index == Backward(p.index)
    ensures p.index == 0 ==> t == Turn(Blank, p.(index := -1, playing := false), true)
    ensures p.index < 0 ==> t == Turn(c, p.(playing := false), true)
    ensures p.index > 0 ==>
      var o := Execute(c, p.history, p.steps[p.index - 1]);
      t.canvas == o.canvas && t.head.history == o.history && t.completed == o.completed
  {
    if p.index > 0 then
      var o := Execute(c, p.history, p.steps[p.index - 1]);
      Turn(o.canvas, p.(index := p.index - 1, playing := false, history := o.history), o.completed)
    else if p.index == 0 then
      Turn(Blank, p.(index := -1, playing := false), true)
    else
      Turn(c, p.(playing := false), true)
  }

  /**
   * `playScript` (and `togglePlayPause`, which does the same): pauses when
   * playing; otherwise starts playing, first clearing the store and rewinding
   * to -1 when the last step has been reached.
   */
  function PlayScriptOp(c: Canvas, p: Player): (t: Turn)
    requires Consistent(c) && Ready(p)
    ensures Consistent(t.canvas) && Ready(t.head) && t.completed
    ensures t.head.playing == !p.playing
    ensures t.head.steps == p.steps && t.head.history == p.history
    ensures !p.playing && p.index >= |p.steps| - 1 ==> t.canvas == Blank && t.head.index == -1
    ensures p.playing || p.index < |p.steps| - 1 ==> t.canvas == c && t.head.index == p.index
  {
    if p.playing then Turn(c, p.(playing := false), true)
    else if p.index >= |p.steps| - 1 then Turn(Blank, p.(index := -1, playing := true), true)
    else Turn(c, p.(playing := true), true)
  }

  /**
   * `loadScript`: for a known script, orders its entries by step number,
   * clears the store, stops and runs the first step, keeping the message
   * history; for an unknown name, empties the step list and rewinds.
   */
  function LoadScriptOp(c: Canvas, p: Player, script: Option<seq<Main.Entry<StepObject>>>): (t: Turn)
    requires Consistent(c) && Ready(p)
    requires script.Some? ==> Main.AllNumbered(script.value)
    ensures Consistent(t.canvas) && Ready(t.head)
    ensures script.None? ==> t == Turn(c, p.(steps := [], index := -1), true)
    ensures script.Some? ==>
      var sorted := Main.SortEntries(script.value);
      && Main.InStepOrder(sorted) && multiset(sorted) == multiset(script.value)
      && t.head.steps == Main.StepValues(sorted) && !t.head.playing
      && t.head.index == (if |script.value| > 0 then 0 else -1)
    ensures script.Some? && |script.value| > 0 ==>
      var o := Execute(Blank, p.history, Main.StepValues(Main.SortEntries(script.value))[0]);
      t.canvas == o.canvas && t.head.history == o.history && t.completed == o.completed
    ensures script.Some? && |script.value| == 0 ==> t.canvas == Blank && t.head.history == p.history
  {
    if script.None? then Turn(c, p.(steps := [], index := -1), true)
    else
      var steps := Main.StepValues(Main.SortEntries(script.value));
      StepForwardOp(Blank, Playhead(steps, -1, false, p.history))
  }

  /**
   * Because going back from the first step clears the store, stepping back
   * and then forward again after loading a script rebuilds the store the
   * first step built.
   */
  lemma BackThenForwardReplaysFirstStep(c: Canvas, p: Player, script: seq<Main.Entry<StepObject>>)
    requires Consistent(c) && Ready(p) && Main.AllNumbered(script) && |script| > 0
    ensures var loaded := LoadScriptOp(c, p, Some(script));
      var back := StepBackwardOp(loaded.canvas, loaded.head);
      var again := StepForwardOp(back.canvas, back.head);
      again.canvas == loaded.canvas && again.head.index == loaded.head.index
  {
    var loaded := LoadScriptOp(c, p, Some(script));
    var back := StepBackwardOp(loaded.canvas, loaded.head);
    var first := loaded.head.steps[0];
    if first.Some? {
      StepReturns(Blank, p.history, back.head.history, first.value);
    }
  }

  // ---------------------------------------------------------------------------
  // The store as the page keeps it

  /** The page's module-level variables and the functions that update them in place. */
  class Board {
    var nodes: seq<Node>
    var edges: seq<Edge>
    var nextNodeId: nat
    var nextEdgeId: nat
    var selected: seq<string>
    var focusNodes: seq<Node>
    var focusEdges: seq<Edge>
    var nextFocusNodeId: nat
    var nextFocusEdgeId: nat

    function State(): Canvas
      reads this
    {
      Canvas(nodes, edges, nextNodeId, nextEdgeId, selected, focusNodes, focusEdges, nextFocusNodeId, nextFocusEdgeId)
    }

    predicate Valid()
      reads this
    {
      Consistent(State())
    }

    constructor ()
      ensures State() == Blank && Valid()
    {
      nodes, edges, nextNodeId, nextEdgeId, selected := [], [], 0, 0, [];
      focusNodes, focusEdges, nextFocusNodeId, nextFocusEdgeId := [], [], 0, 0;
    }

    method ResetFocusArea()
      modifies this`focusNodes, this`focusEdges, this`nextFocusNodeId, this`nextFocusEdgeId
      ensures State() == ResetFocus(old(State()))
    {
      focusNodes, focusEdges, nextFocusNodeId, nextFocusEdgeId := [], [], 0, 0;
    }

    /** `resetGraph`. */
    method ResetGraph()
      modifies this
      ensures State() == Blank
    {
      nodes, edges, nextNodeId, nextEdgeId, selected := [], [], 0, 0, [];
      ResetFocusArea();
    }

    method CreateNode(config: NodeConfig) returns (id: string)
      modifies this`nodes, this`nextNodeId
      ensures var r := CreateNodeOp(old(State()), config); State() == r.canvas && id == r.id
    {
      if Truthy(config.id) {
        id := config.id.value;
      } else {
        id := NodeId(nextNodeId);
        nextNodeId := nextNodeId + 1;
      }
      nodes := nodes + [Node(id, config.caption, config.kind)];
    }

    method RemoveNode(id: string)
      modifies this`nodes, this`edges
      ensures State() == RemoveNodeOp(old(State()), id)
    {
      nodes := Without(nodes, id);
      edges := Detached(edges, id);
    }

    method CreateEdge(node1Id: Option<string>, node2Id: Option<string>)
      modifies this`edges, this`nextEdgeId
      ensures State() == CreateEdgeOp(old(State()), node1Id, node2Id)
    {
      if !Truthy(node1Id) || !Truthy(node2Id) {
        return;
      }
      var node1 := Find(nodes, node1Id.value);
      var node2 := Find(nodes, node2Id.value);
      if node1.Some? && node2.Some? {
        edges := edges + [Edge(EdgeId(nextEdgeId), node1Id.value, node2Id.value)];
        nextEdgeId := nextEdgeId + 1;
      }
    }

    /** The inner loop of the layouts: `count` more `createNode({x, y})` calls. */
    method AddPlainNodes(created: nat, count: nat)
      requires State() == Layout(created)
      modifies this`nodes, this`nextNodeId
      ensures State() == Layout(created + count)
    {
      for i := 0 to count
        invariant State() == Layout(created + i)
      {
        LayoutGrows(created + i);
        var _ := CreateNode(Unnamed);
      }
    }

    /** `applyRingLayout`; `completed` is false when `forEach` throws on a value that is not an array. */
    method ApplyRingLayout(ringSizes: Option<seq<real>>) returns (completed: bool)
      modifies this
      ensures var r := RingLayoutOp(ringSizes); State() == r.canvas && completed == r.completed
    {
      nodes, edges, nextNodeId, nextEdgeId, selected := [], [], 0, 0, [];
      ResetFocusArea();
      if ringSizes.None? {
        return false;
      }
      var sizes := ringSizes.value;
      for r := 0 to |sizes|
        invariant State() == Layout(RingNodes(sizes[..r]))
      {
        assert sizes[..r + 1][..r] == sizes[..r];
        AddPlainNodes(RingNodes(sizes[..r]), CountBelow(sizes[r]));
      }
      assert sizes[..|sizes|] == sizes;
      return true;
    }

    /** `applyTriangularGridLayout`. */
    method ApplyTriangularGridLayout(numRings: real)
      modifies this
      ensures State() == GridLayoutOp(numRings)
    {
      nodes, edges, nextNodeId, nextEdgeId, selected := [], [], 0, 0, [];
      ResetFocusArea();
      for ring := 0 to CountBelow(numRings)
        invariant State() == Layout(GridCount(ring))
      {
        var nodesInRing := if ring == 0 then 1 else 6 * ring;
        AddPlainNodes(GridCount(ring), nodesInRing);
      }
    }

    /** `selectPath`; `completed` is false when `forEach` throws on a value that is not an array. */
    method SelectPath(pathIds: Option<seq<string>>) returns (completed: bool)
      modifies this`selected
      ensures var r := SelectPathOp(old(State()), pathIds); State() == r.canvas && completed == r.completed
    {
      selected := [];
      if pathIds.None? {
        return false;
      }
      var ps := pathIds.value;
      for i := 0 to |ps|
        invariant selected == Present(nodes, ps[..i])
      {
        assert ps[..i + 1][..i] == ps[..i];
        var node := Find(nodes, "node-" + ps[i]);
        if node.Some? {
          selected := selected + [node.value.id];
        }
      }
      assert ps[..|ps|] == ps;
      return true;
    }

    /** `moveCopiedPathToObs`: the copies of the selected nodes, and the edges between them paired as written. */
    method MoveCopiedPathToObs()
      requires Valid()
      modifies this`focusNodes, this`focusEdges, this`nextFocusNodeId, this`nextFocusEdgeId
      ensures State() == MoveToFocusOp(old(State()))
    {
      ResetFocusArea();
      focusNodes := Copies(nodes, selected);
      focusEdges, nextFocusEdgeId := JoinEdges(edges, selected, focusNodes);
    }

    method CompressPathInFocus()
      modifies this`focusNodes, this`focusEdges, this`nextFocusNodeId, this`nextFocusEdgeId
      ensures State() == CompressOp(old(State()))
    {
      if |focusNodes| > 2 {
        var first, last := focusNodes[0], focusNodes[|focusNodes| - 1];
        ResetFocusArea();
        focusNodes := [first, last];
        focusEdges := [Edge("0", first.id, last.id)];
        nextFocusEdgeId := 1;
      }
    }

    method AddCompressedPathToGraph()
      modifies this
      ensures State() == AddCompressedOp(old(State()))
    {
      if |focusNodes| == 2 {
        var start, end := focusNodes[0], focusNodes[1];
        var startId := CreateNode(NodeConfig(None, Some(KeyOf(start.caption) + " Start"), Some(KeyOf(start.kind) + "Start")));
        var endId := CreateNode(NodeConfig(None, Some(KeyOf(end.caption) + " End"), Some(KeyOf(end.kind) + "End")));
        CreateEdge(Some(startId), Some(endId));
        ResetFocusArea();
      }
    }
  }

  // ---------------------------------------------------------------------------
  // The session

  /** The player's module-level variables and the store they drive. */
  class Session {
    const board: Board
    var steps: seq<Option<StepObject>>
    var index: int
    var playing: bool
    var history: seq<string>

    function Head(): Player
      reads this
    {
      Playhead(steps, index, playing, history)
    }

    predicate Valid()
      reads this, board
    {
      board.Valid() && Ready(Head())
    }

    /** The page at load time: an empty store and no script. */
    constructor ()
      ensures Valid() && board.State() == Blank && Head() == Playhead([], -1, false, [])
    {
      board := new Board();
      steps := [];
      index := -1;
      playing := false;
      history := [];
    }

    /** The tests of `executeStep` that build the store; a ring layout can throw. */
    method RunBuildTests(st: StepObject) returns (completed: bool)
      requires board.Valid()
      modifies board
      ensures board.Valid()
      ensures var o := RunFrom(old(board.State()), st, 0);
        if completed then RunFrom(board.State(), st, 4) == o else o == Outcome(board.State(), false)
    {
      ghost var c := board.State();
      if st.reset.Null? {
        board.ResetGraph();
      }
      assert RunFrom(c, st, 0) == RunFrom(board.State(), st, 1);
      c := board.State();
      if st.add_circular_rings.Given? {
        completed := board.ApplyRingLayout(st.add_circular_rings.value);
        if !completed {
          return;
        }
      }
      assert RunFrom(c, st, 1) == RunFrom(board.State(), st, 2);
      c := board.State();
      if st.add_triangular_grid.Given? && st.add_triangular_grid.value != 0.0 {
        board.ApplyTriangularGridLayout(st.add_triangular_grid.value);
      }
      assert RunFrom(c, st, 2) == RunFrom(board.State(), st, 3);
      c := board.State();
      if st.add_node.Given? {
        var _ := board.CreateNode(st.add_node.value);
      }
      assert RunFrom(c, st, 3) == RunFrom(board.State(), st, 4);
      completed := true;
    }

    /** The `remove_node` test: the last node goes. */
    method RemoveTest(st: StepObject)
      requires board.Valid()
      modifies board
      ensures board.Valid() && Perform(old(board.State()), st, 4) == Outcome(board.State(), true)
    {
      if st.remove_node.Null? && |board.nodes| > 0 {
        board.RemoveNode(board.nodes[|board.nodes| - 1].id);
      }
    }

    /** The `connect_nodes` test. */
    method ConnectTest(st: StepObject)
      requires board.Valid()
      modifies board
      ensures board.Valid() && Perform(old(board.State()), st, 5) == Outcome(board.State(), true)
    {
      if st.connect_nodes.Given? {
        board.CreateEdge(st.connect_nodes.value.node1, st.connect_nodes.value.node2);
      }
    }

    /** The `select_path` test. */
    method SelectTest(st: StepObject) returns (completed: bool)
      requires board.Valid()
      modifies board
      ensures board.Valid() && Perform(old(board.State()), st, 6) == Outcome(board.State(), completed)
    {
      completed := true;
      if st.select_path.Given? {
        completed := board.SelectPath(st.select_path.value);
      }
    }

    /** The tests of `executeStep` from `remove_node` to `select_path`; only the last can throw. */
    method RunPathTests(st: StepObject) returns (completed: bool)
      requires board.Valid()
      modifies board
      ensures board.Valid()
      ensures var o := RunFrom(old(board.State()), st, 4);
        if completed then RunFrom(board.State(), st, 7) == o else o == Outcome(board.State(), false)
    {
      ghost var c := board.State();
      Advance(c, st, 4);
      RemoveTest(st);
      c := board.State();
      Advance(c, st, 5);
      ConnectTest(st);
      c := board.State();
      Advance(c, st, 6);
      completed := SelectTest(st);
    }

    /** The `copy_move_to_focus` test. */
    method CopyTest(st: StepObject)
      requires board.Valid()
      modifies board
      ensures board.Valid() && Perform(old(board.State()), st, 7) == Outcome(board.State(), true)
    {
      if st.copy_move_to_focus.Given? {
        board.MoveCopiedPathToObs();
      }
    }

    /** The `compress_path` test. */
    method CompressTest(st: StepObject)
      requires board.Valid()
      modifies board
      ensures board.Valid() && Perform(old(board.State()), st, 9) == Outcome(board.State(), true)
    {
      if st.compress_path.Given? {
        board.CompressPathInFocus();
      }
    }

    /** The `add_compressed_path_to_graph` test. */
    method AddCompressedTest(st: StepObject)
      requires board.Valid()
      modifies board
      ensures board.Valid() && Perform(old(board.State()), st, 10) == Outcome(board.State(), true)
    {
      ghost var c := board.State();
      if st.add_compressed_path_to_graph.Given? {
        board.AddCompressedPathToGraph();
        assert board.State() == AddCompressedOp(c);
      }
    }

    /** The focus tests of `executeStep`; none of them throws. */
    method RunFocusTests(st: StepObject)
      requires board.Valid()
      modifies board
      ensures board.Valid()
      ensures RunFrom(old(board.State()), st, 7) == Outcome(board.State(), true)
    {
      ghost var c := board.State();
      Advance(c, st, 7);
      CopyTest(st);
      // `alignObservatoryPaths` for a truthy `straighten_path` moves coordinates only.
      c := board.State();
      Advance(c, st, 8);
      Advance(c, st, 9);
      CompressTest(st);
      c := board.State();
      Advance(c, st, 10);
      AddCompressedTest(st);
    }

    method ExecuteStep(step: Option<StepObject>) returns (completed: bool)
      requires board.Valid()
      modifies this`history, board
      ensures board.Valid()
      ensures var o := Execute(old(board.State()), old(history), step);
        board.State() == o.canvas && history == o.history && completed == o.completed
    {
      if step.None? {
        return true;
      }
      var st := step.value;
      if Truthy(st.message) {
        history := Push3(history, st.message.value);
      }
      completed := RunBuildTests(st);
      if completed {
        completed := RunPathTests(st);
      }
      if completed {
        RunFocusTests(st);
      }
    }

    method StopPlaying()
      modifies this`playing
      ensures !playing
    {
      playing := false;
    }

    method StepForward() returns (completed: bool)
      requires Valid()
      modifies this`index, this`playing, this`history, board
      ensures Valid()
      ensures var t := StepForwardOp(old(board.State()), old(Head()));
        board.State() == t.canvas && Head() == t.head && completed == t.completed
    {
      StopPlaying();
      completed := true;
      if index < |steps| - 1 {
        index := index + 1;
        completed := ExecuteStep(steps[index]);
      }
    }

    method StepBackward() returns (completed: bool)
      requires Valid()
      modifies this`index, this`playing, this`history, board
      ensures Valid()
      ensures var t := StepBackwardOp(old(board.State()), old(Head()));
        board.State() == t.canvas && Head() == t.head && completed == t.completed
    {
      StopPlaying();
      completed := true;
      if index > 0 {
        index := index - 1;
        completed := ExecuteStep(steps[index]);
      } else if index == 0 {
        index := -1;
        board.ResetGraph();
      }
    }

    method PlayScript()
      requires Valid()
      modifies this`index, this`playing, board
      ensures Valid()
      ensures var t := PlayScriptOp(old(board.State()), old(Head()));
        board.State() == t.canvas && Head() == t.head
    {
      if playing {
        StopPlaying();
      } else {
        playing := true;
        if index >= |steps| - 1 {
          index := -1;
          board.ResetGraph();
        }
      }
    }

    method TogglePlayPause()
      requires Valid()
      modifies this`index, this`playing, board
      ensures Valid()
      ensures var t := PlayScriptOp(old(board.State()), old(Head()));
        board.State() == t.canvas && Head() == t.head
    {
      if playing {
        StopPlaying();
      } else {
        PlayScript();
      }
    }

    /** `loadScript(name)`, where `script` is `Object.entries` of the named script, or None for an unknown name. */
    method LoadScript(script: Option<seq<Main.Entry<StepObject>>>) returns (completed: bool)
      requires Valid()
      requires script.Some? ==> Main.AllNumbered(script.value)
      modifies this, board
      ensures Valid()
      ensures var t := LoadScriptOp(old(board.State()), old(Head()), script);
        board.State() == t.canvas && Head() == t.head && completed == t.completed
    {
      if script.None? {
        steps := [];
        index := -1;
        return true;
      }
      var sorted := Main.SortEntries(script.value);
      steps := Main.StepValues(sorted);
      index := -1;
      board.ResetGraph();
      StopPlaying();
      assert Head() == Playhead(Main.StepValues(Main.SortEntries(script.value)), -1, false, old(history));
      completed := StepForward();
    }
  }
}
