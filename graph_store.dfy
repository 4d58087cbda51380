/**
 * The `Graph` class of alf.js: the fields its methods update in place, and the
 * render callback, which here appends each event to a shared log. Every method
 * is proved to leave the store and the log exactly as the matching function of
 * module GraphOps (or SubGraphOps) says, so the properties proved there hold
 * of the class.
 */
module GraphStore {
  import opened JsText
  import opened JsObject
  import opened CostModel
  import opened GraphTypes
  import opened Pathfinder
  import opened GraphOps
  import opened SubGraphOps

  /** The render callback: each call appends its event. A graph and the sub-graphs it creates share one. */
  class EventSink {
    var log: seq<Event>

    constructor ()
      ensures log == []
    {
      log := [];
    }

    method Emit(ev: Event)
      modifies this
      ensures log == old(log) + [ev]
    {
      log := log + [ev];
    }
  }

  class Graph {
    var nodes: Nodes
    var memo: map<string, PathResult>
    var selectedPath: seq<string>
    var focusArea: seq<string>
    /** Set on sub-graphs only, by `createSubGraph`. */
    const goal: Option<string>
    const parentNodeId: Option<string>
    const sink: EventSink

    function State(): Store
      reads this
    {
      Store(nodes, memo, selectedPath, focusArea)
    }

    /** The store is `e.store` and the log is `before` followed by the events of `e`. */
    predicate Applied(e: Effect, before: seq<Event>)
      reads this, sink
    {
      State() == e.store && sink.log == before + e.events
    }

    predicate Valid()
      reads this
    {
      Wellformed(State())
    }

    constructor (sink: EventSink)
      ensures State() == EmptyStore() && goal == None && parentNodeId == None && this.sink == sink
    {
      nodes := Empty();
      memo := map[];
      selectedPath := [];
      focusArea := [];
      goal := None;
      parentNodeId := None;
      this.sink := sink;
    }

    /** A graph created by `createSubGraph`, which sets its goal and parent id. */
    constructor SubGraph(sink: EventSink, goal: string, parentNodeId: string)
      ensures State() == EmptyStore() && this.goal == Some(goal) && this.parentNodeId == Some(parentNodeId)
      ensures this.sink == sink
    {
      nodes := Empty();
      memo := map[];
      selectedPath := [];
      focusArea := [];
      this.goal := Some(goal);
      this.parentNodeId := Some(parentNodeId);
      this.sink := sink;
    }

    /** `resetGraph`: everything emptied, then a `reset` event. */
    method ResetGraph()
      modifies this, sink
      ensures Applied(Effect(EmptyStore(), [ResetEvent]), old(sink.log))
    {
      nodes := Empty();
      memo := map[];
      selectedPath := [];
      focusArea := [];
      sink.Emit(ResetEvent);
    }

    method AddNode(id: string, data: TaskData, kind: string)
      modifies this, sink
      ensures Applied(AddNodeOp(old(State()), id, data, kind), old(sink.log))
    {
      nodes := WithNode(nodes, id, data, kind);
      sink.Emit(AddNodeEvent(id, data, kind));
    }

    method AddEdge(from: string, to: string, weight: Option<Cost>, edgeType: string)
      modifies this, sink
      ensures Applied(AddEdgeOp(old(State()), from, to, weight, edgeType), old(sink.log))
    {
      if from !in nodes.entries || to !in nodes.entries {
        return;
      }
      var w := EdgeWeight(nodes, to, weight);
      nodes := WithEdge(nodes, from, to, Edge(w, edgeType));
      sink.Emit(ConnectNodesEvent(from, to, w, edgeType));
    }

    method RemoveNode()
      modifies this, sink
      ensures Applied(RemoveNodeOp(old(State())), old(sink.log))
    {
      ghost var s, log := State(), sink.log;
      var last := LastKey(nodes);
      if last.Some? && last.value != "" {
        ghost var e := RemoveLast(s, last.value);
        nodes := nodes.Remove(last.value);
        sink.Emit(RemoveNodeEvent(last.value));
        selectedPath := Without(selectedPath, last.value);
        focusArea := Without(focusArea, last.value);
        assert State() == e.store && sink.log == log + e.events;
      }
    }

    method SelectPath(ids: seq<string>)
      modifies this`selectedPath
      ensures State() == SelectPathOp(old(State()), ids).store
    {
      selectedPath := KeepPresent(ids, nodes);
    }

    /** `copyMoveToFocus`: the `forEach` over the selection pushes each focus id and emits its copy. */
    method CopyMoveToFocus()
      requires Valid()
      modifies this, sink
      ensures Applied(CopyMoveToFocusOp(old(State())), old(sink.log))
    {
      if |selectedPath| > 0 {
        ghost var s, log := State(), sink.log;
        var selected := selectedPath;
        focusArea := [];
        for i := 0 to |selected|
          invariant nodes == s.nodes && memo == s.memo && selectedPath == s.selectedPath
          invariant focusArea == FocusIds(selected[..i])
          invariant sink.log == log + FocusCopies(s.nodes, selected[..i])
        {
          FocusStep(nodes, selected, i);
          CopyToFocus(selected[i]);
        }
        assert selected[..|selected|] == selected;
        ghost var copies := FocusCopies(s.nodes, selected);
        sink.Emit(CopyMoveToFocusEvent(focusArea));
        assert sink.log == log + (copies + [CopyMoveToFocusEvent(focusArea)]);
      }
    }

    /** One pass of the `copyMoveToFocus` loop: the focus id of `id` and its copy event. */
    method CopyToFocus(id: string)
      requires id in nodes.entries
      modifies this`focusArea, sink
      ensures focusArea == old(focusArea) + [FocusPrefix + id]
      ensures sink.log == old(sink.log) + [AddNodeEvent(FocusPrefix + id, nodes.entries[id].data, nodes.entries[id].kind)]
    {
      focusArea := focusArea + [FocusPrefix + id];
      sink.Emit(AddNodeEvent(FocusPrefix + id, nodes.entries[id].data, nodes.entries[id].kind));
    }

    method StraightenPath()
      modifies sink
      ensures sink.log == old(sink.log) + StraightenPathOp(State()).events
    {
      if |focusArea| == 0 {
        return;
      }
      sink.Emit(StraightenPathEvent(focusArea));
    }

    method CompressPath()
      modifies sink
      ensures sink.log == old(sink.log) + CompressPathOp(State()).events
    {
      if |focusArea| < 2 {
        return;
      }
      sink.Emit(CompressPathEvent(focusArea[0], focusArea[|focusArea| - 1], focusArea[1..|focusArea| - 1]));
    }

    /** `addCircularRings`: only the event; the ring layout is drawn by the callback. */
    method AddCircularRings(ringSizes: RingSizes)
      modifies sink
      ensures sink.log == old(sink.log) + [AddCircularRingsEvent(ringSizes)]
    {
      sink.Emit(AddCircularRingsEvent(ringSizes));
    }

    /** `addTriangularGrid`: only the event. */
    method AddTriangularGrid(numRings: RingCount)
      modifies sink
      ensures sink.log == old(sink.log) + [AddTriangularGridEvent(numRings)]
    {
      sink.Emit(AddTriangularGridEvent(numRings));
    }

    /** `aStar(startId, endId)`, with at most `fuel` passes of its main loop. */
    method AStar(start: string, target: string, fuel: nat) returns (outcome: SearchOutcome)
      requires Valid()
      modifies this`memo
      ensures Searched(State(), outcome) == AStarOp(old(State()), start, target, fuel)
    {
      if start in memo {
        outcome := Found(memo[start]);
      } else {
        outcome := AStarSearch(nodes, start, target, fuel, StrictBelowInfinity);
        if outcome.Found? {
          memo := memo[start := outcome.result];
        }
      }
    }

    /** `generateUniqueTaskId`: try the slug, then the slug with counters 1, 2, ... until one is free. */
    method GenerateUniqueTaskId(title: string) returns (id: string)
      ensures id == UniqueTaskId(nodes.entries.Keys, title)
    {
      var keys := nodes.entries.Keys;
      var base := Slug(title);
      id := base;
      var counter := 1;
      while id in nodes.entries
        invariant counter >= 1 && counter - 1 <= |keys|
        invariant counter == 1 ==> id == base
        invariant counter > 1 ==>
          && base in keys && id == Suffixed(base, counter - 1)
          && (forall j :: 1 <= j < counter - 1 ==> Suffixed(base, j) in keys)
          && FreeCounter(keys, base, 1) == FreeCounter(keys, base, counter - 1)
        decreases |keys| - (counter - 1)
      {
        TakenSuffixesBound(keys, base, counter - 1);
        id := Suffixed(base, counter);
        counter := counter + 1;
      }
    }

    /** `addTask`: the task under a fresh id, its solution node, and the edge between them. */
    method AddTask(data: TaskData) returns (id: string)
      requires data.title.Some? && data.manualHuman.Some?
      modifies this, sink
      ensures Applied(AddTaskOp(old(State()), data), old(sink.log))
      ensures id == UniqueTaskId(old(nodes.entries.Keys), data.title.value)
    {
      ghost var s, log := State(), sink.log;
      id := GenerateUniqueTaskId(data.title.value);
      var sol := SolutionId(id);
      AddNode(id, data, "task");
      ghost var e1 := AddNodeOp(s, id, data, "task");
      AddNode(sol, data.manualHuman.value, "solution");
      ghost var e2 := AddNodeOp(e1.store, sol, data.manualHuman.value, "solution");
      LogThen(log, e1, e2);
      AddEdge(id, sol, None, "sequence");
      LogThen(log, Then(e1, e2), AddEdgeOp(e2.store, id, sol, None, "sequence"));
    }

    /**
     * `addCompressedPathToGraph`: with two or more focus ids whose stripped
     * ends name nodes, adds the compressed task, searches from start to end
     * and links the detour. Returns false where the source would throw or
     * loop: the search did not return a result.
     */
    method AddCompressedPathToGraph(fuel: nat) returns (completed: bool)
      requires Valid()
      modifies this, sink
      ensures Applied(AddCompressedPathOp(old(State()), fuel).effect, old(sink.log))
      ensures completed == AddCompressedPathOp(old(State()), fuel).completed
    {
      if |focusArea| < 2 {
        return true;
      }
      var start := StripFocus(focusArea[0]);
      var end := StripFocus(focusArea[|focusArea| - 1]);
      if start !in nodes.entries || end !in nodes.entries {
        return true;
      }
      completed := Compress(start, end, fuel);
    }

    /** The part of `addCompressedPathToGraph` after its checks. */
    method Compress(start: string, end: string, fuel: nat) returns (completed: bool)
      requires Valid() && CanCompress(State()) && CompressEnds(State()) == (start, end)
      modifies this, sink
      ensures Applied(AddCompressedPathOp(old(State()), fuel).effect, old(sink.log))
      ensures completed == AddCompressedPathOp(old(State()), fuel).completed
    {
      ghost var s, log := State(), sink.log;
      var id, weight := SearchCompressed(start, end, fuel, s, log);
      if weight.None? {
        AddCompressedPathStalls(s, fuel);
        return false;
      }
      CompressedSearchEnds(s, fuel);
      LinkCompressed(start, end, id, weight.value, CompressedTask(s), log);
      AddCompressedPathLinked(s, fuel, start, end, id, weight.value, State(), sink.log, log);
      return true;
    }

    /** The compressed task, then the A* search from the first end to the last. */
    method SearchCompressed(start: string, end: string, fuel: nat, ghost s: Store, ghost log: seq<Event>)
      returns (id: string, weight: Option<Cost>)
      requires Valid() && State() == s && sink.log == log && CanCompress(s) && CompressEnds(s) == (start, end)
      modifies this, sink
      ensures State() == CompressedSearch(s, fuel).store && sink.log == log + CompressedTask(s).events
      ensures id == CompressedId(s) && weight == CompressedWeight(CompressedSearch(s, fuel).outcome)
    {
      id := AddCompressedTask(start, end);
      var outcome := AStar(start, end, fuel);
      weight := CompressedWeight(outcome);
    }

    /** The `addTask` call for the compressed task named after the two ends. */
    method AddCompressedTask(start: string, end: string) returns (id: string)
      requires Valid() && CanCompress(State()) && CompressEnds(State()) == (start, end)
      modifies this, sink
      ensures Applied(CompressedTask(old(State())), old(sink.log)) && id == CompressedId(old(State()))
    {
      var name := CompressedTaskName(nodes.entries[start].data, nodes.entries[end].data);
      id := AddTask(SuggestedTaskData(name));
    }

    /** The two `addEdge` calls and the `addCompressedPath` event, once the search returned a weight. */
    method LinkCompressed(start: string, end: string, id: string, cost: Cost, ghost done: Effect, ghost log: seq<Event>)
      requires sink.log == log + done.events
      requires start in nodes.entries && end in nodes.entries && id in nodes.entries && id != start
      modifies this, sink
      ensures var e := LinkDetour(old(State()), start, end, id, cost);
        State() == e.store && sink.log == (log + (done.events + e.events)) + [AddCompressedPathEvent(start, end, id, cost)]
    {
      LinkDetourInto(start, end, id, cost, done, log);
      sink.Emit(AddCompressedPathEvent(start, end, id, cost));
    }

    /** The two `addEdge` calls of `addCompressedPathToGraph`. */
    method LinkDetourInto(start: string, end: string, id: string, cost: Cost, ghost done: Effect, ghost log: seq<Event>)
      requires sink.log == log + done.events
      requires start in nodes.entries && end in nodes.entries && id in nodes.entries && id != start
      modifies this, sink
      ensures Applied(Effect(LinkDetour(old(State()), start, end, id, cost).store,
                             done.events + LinkDetour(old(State()), start, end, id, cost).events), log)
    {
      ghost var s := State();
      AddEdge(start, id, Some(cost), "compressed");
      ghost var e1 := AddEdgeOp(s, start, id, Some(cost), "compressed");
      AddEdge(id, end, Some(Finite(0.0)), "compressed");
      assert LinkDetour(s, start, end, id, cost) == Then(e1, AddEdgeOp(e1.store, id, end, Some(Finite(0.0)), "compressed"));
    }

    /** The loop over the neighbours of `id`: each edge of `id` gets its target's weight. */
    method RecomputeOutgoingEdges(id: string) returns (ok: bool)
      requires Valid() && id in nodes.entries
      modifies this`nodes
      ensures State() == old(State()).(nodes := RecomputeOutgoing(old(nodes), id).nodes)
      ensures ok == RecomputeOutgoing(old(nodes), id).ok
    {
      var edges := nodes.entries[id].edges;
      KeysEnumerateEntries(edges);
      nodes, ok := RecomputeEach(nodes, id, edges.Keys());
    }

    /**
     * `updateWeights(feedback)`: for each node the feedback names, copy a
     * truthy refined value and recompute the node's outgoing edges; then clear
     * the memo. Returns false where the source throws.
     */
    method UpdateWeights(feedback: OMap<Option<real>>) returns (completed: bool)
      requires Valid() && feedback.Valid()
      modifies this`nodes, this`memo
      ensures State() == UpdateWeightsOp(old(State()), feedback).effect.store
      ensures completed == UpdateWeightsOp(old(State()), feedback).completed
    {
      completed := ReweighAll(feedback);
      if completed {
        memo := map[];
      }
    }

    /** The loop of `updateWeights`, up to the first throw. */
    method ReweighAll(feedback: OMap<Option<real>>) returns (completed: bool)
      requires Valid() && feedback.Valid()
      modifies this`nodes
      ensures Valid()
      ensures Partial(nodes, completed) == FeedbackPass(old(nodes), feedback)
    {
      var ks := feedback.Keys();
      KeysEnumerateEntries(feedback);
      for i := 0 to |ks|
        invariant Valid()
        invariant FeedbackPass(old(nodes), feedback) == FeedbackLoop(nodes, feedback, ks[i..])
      {
        var ok := ReweighFirst(feedback, ks[i..]);
        if !ok {
          return false;
        }
      }
      return true;
    }

    /** One turn of the `updateWeights` loop, on the first key of `ks`. */
    method ReweighFirst(feedback: OMap<Option<real>>, ks: seq<string>) returns (ok: bool)
      requires Valid() && |ks| > 0 && forall k :: k in ks ==> k in feedback.entries
      modifies this`nodes
      ensures Valid()
      ensures ok ==> FeedbackLoop(old(nodes), feedback, ks) == FeedbackLoop(nodes, feedback, ks[1..])
      ensures !ok ==> FeedbackLoop(old(nodes), feedback, ks) == Partial(nodes, false)
    {
      var k := ks[0];
      assert forall m :: m in ks[1..] ==> m in ks;
      ok := true;
      if k in nodes.entries {
        nodes := WithData(nodes, k, Refine(nodes.entries[k].data, feedback.entries[k]));
        ok := RecomputeOutgoingEdges(k);
      }
    }

    /** `updateWeightsBasedOnFeedback(nodeId, feedback)`: the memo is kept. Returns false where the source throws. */
    method UpdateWeightsBasedOnFeedback(id: string, fb: Feedback) returns (completed: bool)
      requires Valid()
      modifies this`nodes
      ensures State() == FeedbackOp(old(State()), id, fb).effect.store
      ensures completed == FeedbackOp(old(State()), id, fb).completed
    {
      if id !in nodes.entries {
        return true;
      }
      nodes := WithData(nodes, id, ApplyFeedback(nodes.entries[id].data, fb));
      completed := RecomputeOutgoingEdges(id);
    }

    /** `loadTasks(tasksJson)`: start and end, each task chained from the previous one, the last to end. */
    method LoadTasks(tasks: OMap<TaskData>)
      requires tasks.Valid()
      modifies this, sink
      ensures Applied(LoadTasksOp(old(State()), tasks), old(sink.log))
    {
      ghost var s, log := State(), sink.log;
      AddStartAndEnd(s, log);
      ghost var first := StartAndEnd(s);
      ghost var done := first;
      var prev := "start";
      var ks := tasks.Keys();
      KeysEnumerateEntries(tasks);
      for i := 0 to |ks|
        invariant Applied(done, log)
        invariant ChainTasks(first, "start", tasks, ks) == ChainTasks(done, prev, tasks, ks[i..])
      {
        var k := ks[i];
        assert forall m :: m in ks[i + 1..] ==> m in ks[i..];
        LinkNext(prev, k, tasks.entries[k], done, log);
        done := LinkTask(done, prev, k, tasks.entries[k]);
        prev := k;
      }
      AddEdge(prev, "end", None, "sequence");
      LogThen(log, done, AddEdgeOp(done.store, prev, "end", None, "sequence"));
    }

    /** The start and end nodes `loadTasks` adds first. */
    method AddStartAndEnd(ghost s: Store, ghost log: seq<Event>)
      requires State() == s && sink.log == log
      modifies this, sink
      ensures Applied(StartAndEnd(s), log)
    {
      AddNode("start", Titled("Start Project"), "start");
      ghost var e1 := AddNodeOp(s, "start", Titled("Start Project"), "start");
      AddNode("end", Titled("End Project"), "end");
      LogThen(log, e1, AddNodeOp(e1.store, "end", Titled("End Project"), "end"));
    }

    /** One pass of the loop of `loadTasks`: the task's node, then the edge to it from the task before. */
    method LinkNext(prev: string, k: string, data: TaskData, ghost done: Effect, ghost log: seq<Event>)
      requires Applied(done, log)
      modifies this, sink
      ensures Applied(LinkTask(done, prev, k, data), log)
    {
      AddNode(k, data, "task");
      ghost var added := Then(done, AddNodeOp(done.store, k, data, "task"));
      LogThen(log, done, AddNodeOp(done.store, k, data, "task"));
      AddEdge(prev, k, None, "sequence");
      LogThen(log, added, AddEdgeOp(added.store, prev, k, None, "sequence"));
    }

    /**
     * `createSubGraph(parentNodeId, goal)`: without the parent node, null and
     * no event. Otherwise a new graph on the same callback holding its start
     * and end nodes, then `create_subgraph`. This graph does not change.
     */
    method CreateSubGraph(parent: string, goal: string) returns (sub: Graph?)
      modifies sink
      ensures parent !in nodes.entries ==> sub == null && sink.log == old(sink.log)
      ensures parent in nodes.entries ==>
        && sub != null && fresh(sub) && sub.sink == sink
        && sub.goal == Some(goal) && sub.parentNodeId == Some(parent)
        && sub.State() == NewSubGraph(goal).store
        && sink.log == old(sink.log) + NewSubGraph(goal).events + [CreateSubgraphEvent(parent, goal)]
    {
      if parent !in nodes.entries {
        return null;
      }
      sub := new Graph.SubGraph(sink, goal, parent);
      sub.AddSubEnds(goal, sink.log);
      sink.Emit(CreateSubgraphEvent(parent, goal));
    }

    /** The start and end nodes a new sub-graph gets. */
    method AddSubEnds(subGoal: string, ghost log: seq<Event>)
      requires State() == EmptyStore() && sink.log == log
      modifies this, sink
      ensures Applied(NewSubGraph(subGoal), log)
    {
      AddNode(SubStart, Titled(SubStartTitle(subGoal)), "start");
      ghost var e1 := AddNodeOp(EmptyStore(), SubStart, Titled(SubStartTitle(subGoal)), "start");
      AddNode(SubEnd, Titled("Sub-Graph End"), "end");
      LogThen(log, e1, AddNodeOp(e1.store, SubEnd, Titled("Sub-Graph End"), "end"));
    }

    /**
     * `mergeSubGraph(subGraph, mergeStrategy)`: copies the sub-graph into this
     * graph as `MergeOp` says. The sub-graph is another graph and does not change.
     */
    method MergeSubGraph(sub: Graph, strategy: string)
      requires Valid() && sub.Valid() && sub != this
      modifies this, sink
      ensures Applied(MergeOp(old(State()), old(sub.nodes), sub.parentNodeId, sub.goal, strategy), old(sink.log))
    {
      ghost var s, log := State(), sink.log;
      var subNodes := sub.nodes;
      if sub.parentNodeId.None? || sub.parentNodeId.value == "" || sub.parentNodeId.value !in nodes.entries {
        return;
      }
      var p := sub.parentNodeId.value;
      ghost var merged := MergeSteps(s, subNodes, p, sub.goal, strategy);
      if strategy == AddNodesStrategy {
        CopyInto(p, subNodes, log);
      }
      Report(MergeSubgraphEvent(p, sub.goal, strategy), merged, log);
    }

    /** Emits `ev` after the effect `done`. */
    method Report(ev: Event, ghost done: Effect, ghost log: seq<Event>)
      requires Applied(done, log)
      modifies sink
      ensures Applied(Then(done, Effect(done.store, [ev])), log)
    {
      sink.Emit(ev);
      LogThen(log, done, Effect(done.store, [ev]));
    }

    /** The node loop and then the edge loops of the "add_nodes" merge. */
    method CopyInto(p: string, sub: Nodes, ghost log: seq<Event>)
      requires Valid() && NodesValid(sub) && sink.log == log
      requires forall k :: k in sub.Keys() ==> k in sub.entries
      modifies this, sink
      ensures var s := old(State());
        Applied(CopyEdges(CopyNodes(Effect(s, []), p, sub, sub.Keys()), p, sub, sub.Keys()), log)
    {
      ghost var s := State();
      var ks := sub.Keys();
      CopyNodesInto(p, sub, ks, Effect(s, []), log);
      ghost var copied := CopyNodes(Effect(s, []), p, sub, ks);
      CopyEdgesInto(p, sub, ks, copied, log);
    }

    /** The node loop of the "add_nodes" merge, applied after `done`. */
    method CopyNodesInto(p: string, sub: Nodes, ks: seq<string>, ghost done: Effect, ghost log: seq<Event>)
      requires Applied(done, log) && forall k :: k in ks ==> k in sub.entries
      modifies this, sink
      ensures Applied(CopyNodes(done, p, sub, ks), log)
    {
      ghost var cur := done;
      for i := 0 to |ks|
        invariant Applied(cur, log)
        invariant CopyNodes(done, p, sub, ks) == CopyNodes(cur, p, sub, ks[i..])
      {
        var k := ks[i];
        assert forall m :: m in ks[i + 1..] ==> m in ks[i..];
        if !IsEndpoint(k) {
          CopyNodeInto(p, k, sub.entries[k], cur, log);
          cur := CopyNode(cur, p, k, sub.entries[k]);
        }
      }
    }

    /** The edge loops of the "add_nodes" merge, applied after `done`. */
    method CopyEdgesInto(p: string, sub: Nodes, ks: seq<string>, ghost done: Effect, ghost log: seq<Event>)
      requires Applied(done, log) && NodesValid(sub) && forall k :: k in ks ==> k in sub.entries
      modifies this, sink
      ensures Applied(CopyEdges(done, p, sub, ks), log)
    {
      ghost var cur := done;
      for i := 0 to |ks|
        invariant Applied(cur, log)
        invariant CopyEdges(done, p, sub, ks) == CopyEdges(cur, p, sub, ks[i..])
      {
        var from := ks[i];
        assert forall m :: m in ks[i + 1..] ==> m in ks[i..];
        var edges := sub.entries[from].edges;
        var ts := edges.Keys();
        KeysEnumerateEntries(edges);
        CopyEdgesFromInto(p, from, edges, ts, cur, log);
        cur := CopyEdgesFrom(cur, p, from, edges, ts);
      }
    }

    /** The inner loop over one sub-graph node's edges, applied after `done`. */
    method CopyEdgesFromInto(p: string, from: string, edges: OMap<Edge>, ts: seq<string>, ghost done: Effect, ghost log: seq<Event>)
      requires Applied(done, log) && forall t :: t in ts ==> t in edges.entries
      modifies this, sink
      ensures Applied(CopyEdgesFrom(done, p, from, edges, ts), log)
    {
      ghost var cur := done;
      for j := 0 to |ts|
        invariant Applied(cur, log)
        invariant CopyEdgesFrom(done, p, from, edges, ts) == CopyEdgesFrom(cur, p, from, edges, ts[j..])
      {
        var to := ts[j];
        assert forall m :: m in ts[j + 1..] ==> m in ts[j..];
        if !IsEndpoint(from) && !IsEndpoint(to) {
          var edge := edges.entries[to];
          ghost var added := AddEdgeOp(cur.store, Inner(p, from), Inner(p, to), Some(edge.weight), edge.edgeType);
          AddEdge(Inner(p, from), Inner(p, to), Some(edge.weight), edge.edgeType);
          LogThen(log, cur, added);
          cur := Then(cur, added);
        }
      }
    }

    /** One pass of the node loop of `mergeSubGraph`: the copy, then the edge from the parent. */
    method CopyNodeInto(p: string, k: string, n: Node, ghost done: Effect, ghost log: seq<Event>)
      requires Applied(done, log)
      modifies this, sink
      ensures Applied(CopyNode(done, p, k, n), log)
    {
      AddNode(Inner(p, k), n.data, n.kind);
      ghost var added := Then(done, AddNodeOp(done.store, Inner(p, k), n.data, n.kind));
      LogThen(log, done, AddNodeOp(done.store, Inner(p, k), n.data, n.kind));
      AddEdge(p, Inner(p, k), None, "sequence");
      LogThen(log, added, AddEdgeOp(added.store, p, Inner(p, k), None, "sequence"));
    }
  }

  /** The store the search leaves still holds both ends and the compressed task, which is not the start. */
  lemma CompressedSearchEnds(s: Store, fuel: nat)
    requires Wellformed(s) && CanCompress(s)
    ensures var n := CompressedSearch(s, fuel).store.nodes;
      && CompressEnds(s).0 in n.entries && CompressEnds(s).1 in n.entries
      && CompressedId(s) in n.entries && CompressedId(s) != CompressEnds(s).0
  {
  }

  /** The store and log after the detour edges and the final event are what `AddCompressedPathOp` says. */
  lemma AddCompressedPathLinked(s: Store, fuel: nat, start: string, end: string, id: string, cost: Cost,
                                st: Store, events: seq<Event>, log: seq<Event>)
    requires Wellformed(s) && CanCompress(s) && CompressEnds(s) == (start, end) && id == CompressedId(s)
    requires CompressedWeight(CompressedSearch(s, fuel).outcome) == Some(cost)
    requires var e := LinkDetour(CompressedSearch(s, fuel).store, start, end, id, cost);
      st == e.store && events == (log + (CompressedTask(s).events + e.events)) + [AddCompressedPathEvent(start, end, id, cost)]
    ensures st == AddCompressedPathOp(s, fuel).effect.store && events == log + AddCompressedPathOp(s, fuel).effect.events
  {
    AddCompressedPathStore(s, fuel);
    var e := LinkDetour(CompressedSearch(s, fuel).store, start, end, id, cost);
    LogAppend(log, CompressedTask(s).events + e.events, AddCompressedPathEvent(start, end, id, cost));
  }

  /** The neighbour loop of `recomputeOutgoingEdges` over the keys `ns`, on the nodes as values. */
  method RecomputeEach(nodes: Nodes, id: string, ns: seq<string>) returns (current: Nodes, ok: bool)
    requires id in nodes.entries && forall n :: n in ns ==> n in nodes.entries[id].edges.entries
    ensures Partial(current, ok) == RecomputeEdges(nodes, id, ns)
  {
    current := nodes;
    ok := true;
    for j := 0 to |ns|
      invariant id in current.entries && forall n :: n in ns[j..] ==> n in current.entries[id].edges.entries
      invariant RecomputeEdges(nodes, id, ns) == if ok then RecomputeEdges(current, id, ns[j..]) else Partial(current, false)
    {
      var n := ns[j];
      RecomputeStep(current, id, ns, j);
      if ok {
        if n in current.entries {
          current := Recomputed(current, id, n);
        } else {
          ok := false;
        }
      }
    }
  }

  /** Appending the events of `Then(e, f)` is appending those of `e`, then those of `f`. */
  lemma LogThen(before: seq<Event>, e: Effect, f: Effect)
    ensures before + Then(e, f).events == (before + e.events) + f.events
  {
  }

  lemma LogAppend(before: seq<Event>, events: seq<Event>, ev: Event)
    ensures (before + events) + [ev] == before + (events + [ev])
  {
  }

  /** One pass of the `copyMoveToFocus` loop adds one focus id and one copy event. */
  lemma FocusStep(nodes: Nodes, ids: seq<string>, i: nat)
    requires i < |ids| && forall x :: x in ids ==> x in nodes.entries
    ensures FocusIds(ids[..i + 1]) == FocusIds(ids[..i]) + [FocusPrefix + ids[i]]
    ensures FocusCopies(nodes, ids[..i + 1]) ==
      FocusCopies(nodes, ids[..i]) + [AddNodeEvent(FocusPrefix + ids[i], nodes.entries[ids[i]].data, nodes.entries[ids[i]].kind)]
  {
    assert ids[..i + 1] == ids[..i] + [ids[i]];
  }
}
