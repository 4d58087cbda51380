/**
 * The values the graph store is made of: path costs (which may be Infinity),
 * edges, nodes, the node dictionary, and the events reported to the render
 * callback. Also the two pure state transitions every mutation is built from:
 * storing a fresh node under an id, and storing an edge under its source and target.
 */
module GraphTypes {
  import opened JsText
  import opened JsObject
  import opened CostModel

  /** A JavaScript number that is either finite or `Infinity`. */
  datatype Cost = Finite(value: real) | Infinite {

    function Plus(other: Cost): (r: Cost)
      ensures r.Infinite? <==> Infinite? || other.Infinite?
    {
      if Finite? && other.Finite? then Finite(value + other.value) else Infinite
    }

    /** JavaScript `<` on these numbers: every finite value is below Infinity, and Infinity is below nothing. */
    predicate Below(other: Cost) {
      match (this, other)
      case (Finite(a), Finite(b)) => a < b
      case (Finite(_), Infinite) => true
      case (Infinite, _) => false
    }
  }

  datatype Edge = Edge(weight: Cost, edgeType: string)

  datatype Node = Node(data: TaskData, edges: OMap<Edge>, kind: string)

  /** `this.nodes`: node id to node, in JavaScript key order. */
  type Nodes = OMap<Node>

  /** The node dictionary and every node's edge dictionary are well formed. */
  predicate NodesValid(nodes: Nodes) {
    && nodes.Valid()
    && (forall id :: id in nodes.entries ==> nodes.entries[id].edges.Valid())
  }

  predicate HasNode(nodes: Nodes, id: string) {
    id in nodes.entries
  }

  predicate HasEdge(nodes: Nodes, from: string, to: string) {
    from in nodes.entries && to in nodes.entries[from].edges.entries
  }

  datatype PathResult = PathResult(path: seq<string>, cost: Cost)

  /** A ring-size list (None when the argument is not an array) and a ring count (None when not a number). */
  type RingSizes = Option<seq<real>>
  type RingCount = Option<real>

  /** One call of the render callback. */
  datatype Event =
    | ResetEvent
    | AddNodeEvent(nodeId: string, data: TaskData, kind: string)
    | ConnectNodesEvent(node1: string, node2: string, weight: Cost, edgeType: string)
    | RemoveNodeEvent(removedId: string)
    | CopyMoveToFocusEvent(focusIds: seq<string>)
    | StraightenPathEvent(straightIds: seq<string>)
    | CompressPathEvent(startNodeId: string, endNodeId: string, intermediateNodes: seq<string>)
    | AddCompressedPathEvent(fromId: string, toId: string, compressedNodeId: string, compressedWeight: Cost)
    | AddCircularRingsEvent(ringSizes: RingSizes)
    | AddTriangularGridEvent(numRings: RingCount)
    | CreateSubgraphEvent(parentNodeId: string, subGraphId: string)
    | MergeSubgraphEvent(mergedParentId: string, mergedGoal: Option<string>, mergeStrategy: string)

  /** Storing a node with no edges under `id`: a fresh node, replacing any node of that id and its edges. */
  function WithNode(nodes: Nodes, id: string, data: TaskData, kind: string): (r: Nodes)
    ensures NodesValid(nodes) ==> NodesValid(r)
    ensures r.entries.Keys == nodes.entries.Keys + {id}
    ensures r.entries[id].edges.entries == map[]
    ensures forall other :: other in nodes.entries && other != id ==> r.entries[other] == nodes.entries[other]
  {
    nodes.Put(id, Node(data, Empty(), kind))
  }

  /** The weight `addEdge` stores: the given one, or the target's `calculateWeight` when it is null. */
  function EdgeWeight(nodes: Nodes, to: string, weight: Option<Cost>): Cost
    requires to in nodes.entries
  {
    if weight.Some? then weight.value else Finite(CalculateWeight(nodes.entries[to].data))
  }

  /** Storing `edge` under `to` in the edges of `from`, overwriting any earlier edge from `from` to `to`. */
  function WithEdge(nodes: Nodes, from: string, to: string, edge: Edge): (r: Nodes)
    requires from in nodes.entries
    ensures NodesValid(nodes) ==> NodesValid(r)
    ensures r.entries.Keys == nodes.entries.Keys
    ensures r.order == nodes.order
    ensures r.entries[from].edges.entries == nodes.entries[from].edges.entries[to := edge]
    ensures r.entries[from].data == nodes.entries[from].data && r.entries[from].kind == nodes.entries[from].kind
    ensures forall other :: other in nodes.entries && other != from ==> r.entries[other] == nodes.entries[other]
  {
    var n := nodes.entries[from];
    nodes.Put(from, n.(edges := n.edges.Put(to, edge)))
  }
}
