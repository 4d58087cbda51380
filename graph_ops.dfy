/**
 * What each `Graph` method of alf.js does to the store, as pure functions: the
 * new `nodes`, `memo`, `selectedPath` and `focusArea`, and the render-callback
 * events emitted on the way, in order. The `Graph` class in module GraphStore
 * performs these changes in place and is proved to follow them.
 */
module GraphOps {
  import opened JsText
  import opened JsObject
  import opened CostModel
  import opened GraphTypes
  import opened Pathfinder
  import opened PathfinderFacts

  /** The fields of a `Graph` that its methods update. */
  datatype Store = Store(
    nodes: Nodes,
    memo: map<string, PathResult>,
    selectedPath: seq<string>,
    focusArea: seq<string>)

  /** A store after a call, and the events the call passed to the render callback. */
  datatype Effect = Effect(store: Store, events: seq<Event>)

  /** An effect, and whether the call returned (false: it threw, or it is still looping). */
  datatype Attempt = Attempt(effect: Effect, completed: bool)

  /** The dictionaries are well formed and every selected id names a node. */
  predicate Wellformed(s: Store) {
    && NodesValid(s.nodes)
    && (forall id :: id in s.selectedPath ==> id in s.nodes.entries)
  }

  /** What the constructor and `resetGraph` leave behind. */
  function EmptyStore(): (s: Store)
    ensures Wellformed(s)
    ensures s.nodes.Keys() == [] && s.memo == map[] && s.selectedPath == [] && s.focusArea == []
  {
    Store(Empty(), map[], [], [])
  }

  /** Runs `f` on the store `e` left and appends its events. */
  function Then(e: Effect, f: Effect): Effect {
    Effect(f.store, e.events + f.events)
  }

  // ---------------------------------------------------------------------------
  // addNode, addEdge, removeNode

  /** `addNode`: the node is (re)created with no edges; nothing else changes. */
  function AddNodeOp(s: Store, id: string, data: TaskData, kind: string): (e: Effect)
    ensures Wellformed(s) ==> Wellformed(e.store)
    ensures e.store.nodes.entries.Keys == s.nodes.entries.Keys + {id}
    ensures e.store.nodes.entries[id] == Node(data, e.store.nodes.entries[id].edges, kind)
    ensures e.store.nodes.entries[id].edges.entries == map[]
    ensures forall other :: other in s.nodes.entries && other != id ==> e.store.nodes.entries[other] == s.nodes.entries[other]
    ensures e.store.memo == s.memo && e.store.selectedPath == s.selectedPath && e.store.focusArea == s.focusArea
    ensures e.events == [AddNodeEvent(id, data, kind)]
  {
    Effect(s.(nodes := WithNode(s.nodes, id, data, kind)), [AddNodeEvent(id, data, kind)])
  }

  /**
   * `addEdge`: with both endpoints present, sets the one edge `from -> to`
   * (overwriting an earlier one) to the given weight, or to the target's
   * weight when none is given, and emits `connect_nodes`; otherwise nothing.
   */
  function AddEdgeOp(s: Store, from: string, to: string, weight: Option<Cost>, edgeType: string): (e: Effect)
    ensures Wellformed(s) ==> Wellformed(e.store)
    ensures e.store.nodes.entries.Keys == s.nodes.entries.Keys
    ensures e.store.memo == s.memo && e.store.selectedPath == s.selectedPath && e.store.focusArea == s.focusArea
    ensures from !in s.nodes.entries || to !in s.nodes.entries ==> e == Effect(s, [])
    ensures from in s.nodes.entries && to in s.nodes.entries ==>
      var w := if weight.Some? then weight.value else Finite(CalculateWeight(s.nodes.entries[to].data));
      && e.store.nodes.entries[from].edges.entries == s.nodes.entries[from].edges.entries[to := Edge(w, edgeType)]
      && e.store.nodes.entries[from].data == s.nodes.entries[from].data
      && e.store.nodes.entries[from].kind == s.nodes.entries[from].kind
      && (forall other :: other in s.nodes.entries && other != from ==> e.store.nodes.entries[other] == s.nodes.entries[other])
      && e.events == [ConnectNodesEvent(from, to, w, edgeType)]
  {
    if from !in s.nodes.entries || to !in s.nodes.entries then Effect(s, [])
    else
      var w := EdgeWeight(s.nodes, to, weight);
      Effect(s.(nodes := WithEdge(s.nodes, from, to, Edge(w, edgeType))), [ConnectNodesEvent(from, to, w, edgeType)])
  }

  /** The key `removeNode` pops: the last one `Object.keys` lists, if any. */
  function LastKey(nodes: Nodes): (r: Option<string>)
    ensures r.None? <==> |nodes.Keys()| == 0
    ensures nodes.Valid() && r.Some? ==> r.value in nodes.entries
  {
    var keys := nodes.Keys();
    if |keys| == 0 then None
    else
      assert nodes.Valid() ==> keys[|keys| - 1] in nodes.entries by {
        if nodes.Valid() { LastKeyPresent(nodes); }
      }
      Some(keys[|keys| - 1])
  }

  /**
   * `removeNode`: deletes the last key of `nodes` unless there is none or it is
   * the empty string (which is falsy), and filters it out of the selection and
   * the focus area. Edges of other nodes that point at it stay.
   */
  function RemoveNodeOp(s: Store): (e: Effect)
    ensures Wellformed(s) ==> Wellformed(e.store)
    ensures e.store.memo == s.memo
    ensures LastKey(s.nodes) == None || LastKey(s.nodes) == Some("") ==> e == Effect(s, [])
    ensures LastKey(s.nodes).Some? && LastKey(s.nodes) != Some("") ==>
      var last := LastKey(s.nodes).value;
      && e.store.nodes.entries == s.nodes.entries - {last}
      && e.store.selectedPath == Without(s.selectedPath, last)
      && e.store.focusArea == Without(s.focusArea, last)
      && (forall id :: id in e.store.selectedPath <==> id in s.selectedPath && id != last)
      && (forall id :: id in e.store.focusArea <==> id in s.focusArea && id != last)
      && e.events == [RemoveNodeEvent(last)]
  {
    match LastKey(s.nodes)
    case None => Effect(s, [])
    case Some(last) =>
      if last == "" then Effect(s, [])
      else
        Effect(Store(s.nodes.Remove(last), s.memo, Without(s.selectedPath, last), Without(s.focusArea, last)),
               [RemoveNodeEvent(last)])
  }

  /** The effect of `removeNode` when it has a node to take: the last key goes from the nodes and from both lists. */
  lemma RemoveLast(s: Store, last: string) returns (e: Effect)
    requires LastKey(s.nodes) == Some(last) && last != ""
    ensures e == RemoveNodeOp(s)
    ensures e == Effect(Store(s.nodes.Remove(last), s.memo, Without(s.selectedPath, last), Without(s.focusArea, last)),
                        [RemoveNodeEvent(last)])
  {
    e := RemoveNodeOp(s);
  }

  /** A fresh named node is the one `removeNode` takes away again: add then remove restores the nodes and the selection. */
  lemma AddNodeThenRemoveNode(s: Store, id: string, data: TaskData, kind: string)
    requires Wellformed(s) && id !in s.nodes.entries && !IsIndexKey(id) && id != ""
    ensures var r := RemoveNodeOp(AddNodeOp(s, id, data, kind).store);
      && r.store.nodes == s.nodes && r.store.selectedPath == s.selectedPath
      && r.events == [RemoveNodeEvent(id)]
  {
    var added := AddNodeOp(s, id, data, kind).store;
    PutThenRemoveLast(s.nodes, id, Node(data, Empty(), kind));
    assert LastKey(added.nodes) == Some(id);
    assert id !in s.selectedPath;
    WithoutAbsent(s.selectedPath, id);
  }

  /** `removeNode` leaves dangling edges: an edge into the removed node survives in its source. */
  lemma RemoveNodeLeavesDanglingEdges(s: Store, from: string)
    requires LastKey(s.nodes).Some? && LastKey(s.nodes) != Some("")
    requires from != LastKey(s.nodes).value && HasEdge(s.nodes, from, LastKey(s.nodes).value)
    ensures var last := LastKey(s.nodes).value; var r := RemoveNodeOp(s).store;
      && !HasNode(r.nodes, last) && HasEdge(r.nodes, from, last)
  {
  }

  // ---------------------------------------------------------------------------
  // selectPath, copyMoveToFocus, straightenPath, compressPath

  /** The ids that name a node, in their order. */
  function KeepPresent(ids: seq<string>, nodes: Nodes): (r: seq<string>)
    ensures |r| <= |ids|
    ensures forall id :: id in r <==> id in ids && id in nodes.entries
  {
    if |ids| == 0 then []
    else KeepPresent(ids[..|ids| - 1], nodes) + (if ids[|ids| - 1] in nodes.entries then [ids[|ids| - 1]] else [])
  }

  /** The filter keeps order: filtering a concatenation concatenates the filtered parts. */
  lemma {:induction false} KeepPresentDistributes(a: seq<string>, b: seq<string>, nodes: Nodes)
    ensures KeepPresent(a + b, nodes) == KeepPresent(a, nodes) + KeepPresent(b, nodes)
    decreases |b|
  {
    if |b| == 0 {
      assert a + b == a;
    } else {
      var b' := b[..|b| - 1];
      assert (a + b)[..|a + b| - 1] == a + b';
      KeepPresentDistributes(a, b', nodes);
    }
  }

  /** Ids that all name nodes are kept as they are, so filtering twice is filtering once. */
  lemma {:induction false} KeepPresentOfPresent(ids: seq<string>, nodes: Nodes)
    requires forall id :: id in ids ==> id in nodes.entries
    ensures KeepPresent(ids, nodes) == ids
  {
    if |ids| > 0 {
      KeepPresentOfPresent(ids[..|ids| - 1], nodes);
      assert ids == ids[..|ids| - 1] + [ids[|ids| - 1]];
    }
  }

  /** `selectPath`: the selection becomes the given ids that name nodes, with no event. */
  function SelectPathOp(s: Store, ids: seq<string>): (e: Effect)
    ensures Wellformed(s) ==> Wellformed(e.store)
    ensures e.store.nodes == s.nodes && e.store.memo == s.memo && e.store.focusArea == s.focusArea
    ensures forall id :: id in e.store.selectedPath <==> id in ids && id in s.nodes.entries
    ensures (forall id :: id in ids ==> id in s.nodes.entries) ==> e.store.selectedPath == ids
    ensures e.events == []
  {
    assert (forall id :: id in ids ==> id in s.nodes.entries) ==> KeepPresent(ids, s.nodes) == ids by {
      if forall id :: id in ids ==> id in s.nodes.entries { KeepPresentOfPresent(ids, s.nodes); }
    }
    Effect(s.(selectedPath := KeepPresent(ids, s.nodes)), [])
  }

  const FocusPrefix: string := "focus_"

  /** The focus copy of each id: `focus_${nodeId}`. */
  function FocusIds(ids: seq<string>): (r: seq<string>)
    ensures |r| == |ids|
    ensures forall i :: 0 <= i < |ids| ==> r[i] == FocusPrefix + ids[i]
  {
    if |ids| == 0 then [] else [FocusPrefix + ids[0]] + FocusIds(ids[1..])
  }

  /** `id` without a leading focus prefix, if it has one. */
  function StripFocus(id: string): string {
    if |id| >= |FocusPrefix| && id[..|FocusPrefix|] == FocusPrefix then id[|FocusPrefix|..] else id
  }

  /** Stripping the prefix undoes adding it: focus ids lead back to the nodes they copy. */
  lemma StripFocusRoundTrip(id: string)
    ensures StripFocus(FocusPrefix + id) == id
  {
    assert (FocusPrefix + id)[..|FocusPrefix|] == FocusPrefix;
    assert (FocusPrefix + id)[|FocusPrefix|..] == id;
  }

  /** The `add_node` events for the focus copies of the selected nodes. */
  function FocusCopies(nodes: Nodes, ids: seq<string>): (r: seq<Event>)
    requires forall id :: id in ids ==> id in nodes.entries
    ensures |r| == |ids|
    ensures forall i :: 0 <= i < |ids| ==>
      r[i] == AddNodeEvent(FocusPrefix + ids[i], nodes.entries[ids[i]].data, nodes.entries[ids[i]].kind)
  {
    if |ids| == 0 then []
    else
      var n := nodes.entries[ids[0]];
      [AddNodeEvent(FocusPrefix + ids[0], n.data, n.kind)] + FocusCopies(nodes, ids[1..])
  }

  /**
   * `copyMoveToFocus`: with a selection, the focus area becomes the focus ids
   * of the selection and the copies exist only as events; the nodes stay.
   */
  function CopyMoveToFocusOp(s: Store): (e: Effect)
    requires Wellformed(s)
    ensures Wellformed(e.store)
    ensures e.store.nodes == s.nodes && e.store.memo == s.memo && e.store.selectedPath == s.selectedPath
    ensures |s.selectedPath| == 0 ==> e == Effect(s, [])
    ensures |s.selectedPath| > 0 ==>
      && e.store.focusArea == FocusIds(s.selectedPath)
      && |e.events| == |s.selectedPath| + 1
      && e.events[..|s.selectedPath|] == FocusCopies(s.nodes, s.selectedPath)
      && e.events[|s.selectedPath|] == CopyMoveToFocusEvent(e.store.focusArea)
  {
    if |s.selectedPath| == 0 then Effect(s, [])
    else
      var focus := FocusIds(s.selectedPath);
      Effect(s.(focusArea := focus), FocusCopies(s.nodes, s.selectedPath) + [CopyMoveToFocusEvent(focus)])
  }

  /** `straightenPath`: only an event, and only with a focus area. */
  function StraightenPathOp(s: Store): (e: Effect)
    ensures e.store == s
    ensures e.events == if |s.focusArea| == 0 then [] else [StraightenPathEvent(s.focusArea)]
  {
    if |s.focusArea| == 0 then Effect(s, []) else Effect(s, [StraightenPathEvent(s.focusArea)])
  }

  /** `compressPath`: only an event naming the first, last and inner focus ids, and only for two or more. */
  function CompressPathOp(s: Store): (e: Effect)
    ensures e.store == s
    ensures |s.focusArea| < 2 ==> e.events == []
    ensures |s.focusArea| >= 2 ==>
      && |e.events| == 1 && e.events[0].CompressPathEvent?
      && [e.events[0].startNodeId] + e.events[0].intermediateNodes + [e.events[0].endNodeId] == s.focusArea
  {
    var f := s.focusArea;
    if |f| < 2 then Effect(s, [])
    else
      assert [f[0]] + f[1..|f| - 1] + [f[|f| - 1]] == f;
      Effect(s, [CompressPathEvent(f[0], f[|f| - 1], f[1..|f| - 1])])
  }

  // ---------------------------------------------------------------------------
  // aStar with its memo

  /** The result of an `aStar` call, and the store after it. */
  datatype Searched = Searched(store: Store, outcome: SearchOutcome)

  /**
   * `aStar`: a memo entry for `start` is returned whatever the target; otherwise
   * the search runs, with the selection as written (it never returns once
   * every open f-score is Infinity), and only a found path is memoised,
   * under `start`.
   */
  function AStarOp(s: Store, start: string, target: string, fuel: nat): (r: Searched)
    requires NodesValid(s.nodes)
    ensures r.store.nodes == s.nodes && r.store.selectedPath == s.selectedPath && r.store.focusArea == s.focusArea
    ensures start in s.memo ==> r == Searched(s, Found(s.memo[start]))
    ensures start !in s.memo ==> r.outcome == Search(s.nodes, start, target, fuel, StrictBelowInfinity)
    ensures start !in s.memo ==>
      r.store.memo == if r.outcome.Found? then s.memo[start := r.outcome.result] else s.memo
  {
    if start in s.memo then Searched(s, Found(s.memo[start]))
    else
      var o := Search(s.nodes, start, target, fuel, StrictBelowInfinity);
      if o.Found? then Searched(s.(memo := s.memo[start := o.result]), o) else Searched(s, o)
  }

  /**
   * Without a memo entry, a found path runs from `start` to `target` along
   * edges, and "no path" means no edge path exists and nothing is memoised.
   */
  lemma AStarResults(s: Store, start: string, target: string, fuel: nat)
    requires NodesValid(s.nodes) && start !in s.memo
    ensures var r := AStarOp(s, start, target, fuel);
      && (r.outcome.Found? ==> var p := r.outcome.result.path;
            |p| > 0 && p[0] == start && p[|p| - 1] == target && IsEdgePath(s.nodes, p)
            && r.store.memo[start] == r.outcome.result)
      && (r.outcome == NoPath ==>
            && r.store == s
            && forall p :: IsEdgePath(s.nodes, p) && |p| > 0 && p[0] == start ==> p[|p| - 1] != target)
  {
    SearchFindsEdgePaths(s.nodes, start, target, fuel, StrictBelowInfinity);
    NoPathMeansUnreachable(s.nodes, start, target, fuel, StrictBelowInfinity);
  }

  /** A search from a node to itself returns `([start], 0)` and memoises it. */
  lemma AStarToItself(s: Store, start: string, fuel: nat)
    requires NodesValid(s.nodes) && start !in s.memo && HasDigit(start) && fuel > 0
    ensures AStarOp(s, start, start, fuel).outcome == Found(PathResult([start], Finite(0.0)))
    ensures AStarOp(s, start, start, fuel).store.memo == s.memo[start := PathResult([start], Finite(0.0))]
  {
    SearchFromTargetToItself(s.nodes, start, fuel, StrictBelowInfinity);
  }

  /** The memo is keyed by the start only: after a search to `a`, a search to any other target answers with the path to `a`. */
  lemma MemoIgnoresTarget(s: Store, start: string, a: string, b: string, fuel: nat, fuel': nat)
    requires NodesValid(s.nodes) && start !in s.memo
    requires AStarOp(s, start, a, fuel).outcome.Found?
    ensures var first := AStarOp(s, start, a, fuel);
      AStarOp(first.store, start, b, fuel').outcome == first.outcome
  {
  }

  // ---------------------------------------------------------------------------
  // generateUniqueTaskId, createTaskDataFromLLMSuggestion, addTask

  /** `${baseId}_${counter}`. */
  function Suffixed(base: string, k: nat): string {
    base + "_" + NatToString(k)
  }

  lemma SuffixedInjective(base: string, j: nat, k: nat)
    requires Suffixed(base, j) == Suffixed(base, k)
    ensures j == k
  {
    var n := |base| + 1;
    assert Suffixed(base, j)[n..] == NatToString(j);
    assert Suffixed(base, k)[n..] == NatToString(k);
    NatToStringInjective(j, k);
  }

  /** The base and its first `k` suffixed forms: `k + 1` distinct ids. */
  ghost function BaseAndSuffixes(base: string, k: nat): (r: set<string>)
    ensures |r| == k + 1
    ensures base in r && forall j :: 1 <= j <= k ==> Suffixed(base, j) in r
    ensures forall x :: x in r ==> x == base || exists j :: 1 <= j <= k && x == Suffixed(base, j)
    ensures forall j :: j > k ==> Suffixed(base, j) !in r
  {
    if k == 0 then {base}
    else
      var r := BaseAndSuffixes(base, k - 1);
      assert Suffixed(base, k) !in r;
      assert forall j :: j > k ==> Suffixed(base, j) != Suffixed(base, k) by {
        forall j | j > k ensures Suffixed(base, j) != Suffixed(base, k) {
          if Suffixed(base, j) == Suffixed(base, k) { SuffixedInjective(base, j, k); }
        }
      }
      r + {Suffixed(base, k)}
  }

  /** While the base and its first `k` suffixed forms are all taken, `k` is below the number of taken ids. */
  lemma TakenSuffixesBound(keys: set<string>, base: string, k: nat)
    requires base in keys && forall j :: 1 <= j <= k ==> Suffixed(base, j) in keys
    ensures k < |keys|
  {
    var r := BaseAndSuffixes(base, k);
    assert r <= keys;
    assert |keys| == |r| + |keys - r| by {
      assert keys == r + (keys - r);
    }
  }

  /**
   * The counter `generateUniqueTaskId` stops at when it starts at `k`: the
   * first `n >= k` whose suffixed id is free.
   */
  function FreeCounter(keys: set<string>, base: string, k: nat): (n: nat)
    requires base in keys && k >= 1 && forall j :: 1 <= j < k ==> Suffixed(base, j) in keys
    ensures n >= k && Suffixed(base, n) !in keys
    ensures forall j :: 1 <= j < n ==> Suffixed(base, j) in keys
    decreases |keys| - k
  {
    if Suffixed(base, k) !in keys then k
    else
      TakenSuffixesBound(keys, base, k);
      FreeCounter(keys, base, k + 1)
  }

  /**
   * `generateUniqueTaskId`: the slug of the title when that id is free, else
   * the slug suffixed with the smallest counter from 1 whose id is free.
   */
  function UniqueTaskId(keys: set<string>, title: string): (id: string)
    ensures id !in keys
    ensures Slug(title) !in keys ==> id == Slug(title)
    ensures Slug(title) in keys ==>
      exists n :: (n >= 1 && id == Suffixed(Slug(title), n) && forall j :: 1 <= j < n ==> Suffixed(Slug(title), j) in keys)
  {
    var base := Slug(title);
    if base !in keys then base else Suffixed(base, FreeCounter(keys, base, 1))
  }

  /** The solution node `addTask` hangs under a task: `${taskId}_manual_human`. */
  function SolutionId(taskId: string): string {
    taskId + "_manual_human"
  }

  /** The task record `createTaskDataFromLLMSuggestion` returns; the model reply is not used. */
  function SuggestedTaskData(name: string): (d: TaskData)
    ensures d.title == Some(name) && d.manualHuman.Some?
    ensures CalculateWeight(d) == 3.75 && CalculateWeight(d.manualHuman.value) == 3.75
  {
    var manual := NoFields.(painLevel := Some(4.0), complexity := Some(4.0), timeEstimate := Some(4.0),
                            humanInLoopRefined := Some(1.0), scales := map["human_in_loop_feedback_initial" := 1.0]);
    NoFields.(title := Some(name), manualHuman := Some(manual))
  }

  /**
   * `addTask`: a task node under a fresh id, its `manual_human` solution node,
   * and the edge between them weighted by the solution.
   */
  function AddTaskOp(s: Store, data: TaskData): (e: Effect)
    requires data.title.Some? && data.manualHuman.Some?
    ensures Wellformed(s) ==> Wellformed(e.store)
    ensures e.store.memo == s.memo && e.store.selectedPath == s.selectedPath && e.store.focusArea == s.focusArea
    ensures var id := UniqueTaskId(s.nodes.entries.Keys, data.title.value); var sol := SolutionId(id);
      && id !in s.nodes.entries
      && e.store.nodes.entries.Keys == s.nodes.entries.Keys + {id, sol}
      && e.store.nodes.entries[id].data == data && e.store.nodes.entries[id].kind == "task"
      && e.store.nodes.entries[id].edges.entries == map[sol := Edge(Finite(CalculateWeight(data.manualHuman.value)), "sequence")]
      && e.store.nodes.entries[sol].data == data.manualHuman.value && e.store.nodes.entries[sol].kind == "solution"
      && e.store.nodes.entries[sol].edges.entries == map[]
      && (forall other :: other in s.nodes.entries && other != sol ==> e.store.nodes.entries[other] == s.nodes.entries[other])
      && e.events == [AddNodeEvent(id, data, "task"), AddNodeEvent(sol, data.manualHuman.value, "solution"),
                      ConnectNodesEvent(id, sol, Finite(CalculateWeight(data.manualHuman.value)), "sequence")]
  {
    var id := UniqueTaskId(s.nodes.entries.Keys, data.title.value);
    var sol := SolutionId(id);
    assert sol != id by { assert |sol| > |id|; }
    var e1 := AddNodeOp(s, id, data, "task");
    var e2 := AddNodeOp(e1.store, sol, data.manualHuman.value, "solution");
    var e3 := AddEdgeOp(e2.store, id, sol, None, "sequence");
    Then(Then(e1, e2), e3)
  }

  // ---------------------------------------------------------------------------
  // addCompressedPathToGraph

  /** A title in a template string: an absent one prints as "undefined". */
  function TitleText(d: TaskData): string {
    if d.title.Some? then d.title.value else "undefined"
  }

  /** `Compressed_${startNode.data.title}_to_${endNode.data.title}`. */
  function CompressedTaskName(from: TaskData, to: TaskData): string {
    "Compressed_" + TitleText(from) + "_to_" + TitleText(to)
  }

  /** The weight the compressed edge gets: the found cost, or Infinity when no path exists. */
  function CompressedWeight(o: SearchOutcome): Option<Cost> {
    match o
    case Found(r) => Some(r.cost)
    case NoPath => Some(Infinite)
    case _ => None
  }

  /** The focus ids with the `focus_` prefix stripped from both ends. */
  function CompressEnds(s: Store): (r: (string, string))
    requires |s.focusArea| >= 2
  {
    (StripFocus(s.focusArea[0]), StripFocus(s.focusArea[|s.focusArea| - 1]))
  }

  /** Both stripped ends of the focus area name nodes: `addCompressedPathToGraph` goes ahead. */
  predicate CanCompress(s: Store) {
    |s.focusArea| >= 2 && CompressEnds(s).0 in s.nodes.entries && CompressEnds(s).1 in s.nodes.entries
  }

  /** The id the compressed task gets. */
  function CompressedId(s: Store): (id: string)
    requires CanCompress(s)
    ensures id !in s.nodes.entries
  {
    var start := CompressEnds(s).0;
    var end := CompressEnds(s).1;
    UniqueTaskId(s.nodes.entries.Keys, CompressedTaskName(s.nodes.entries[start].data, s.nodes.entries[end].data))
  }

  /**
   * `addCompressedPathToGraph`: with two or more focus ids whose stripped
   * endpoints are nodes, adds a task for the compressed path, searches from
   * start to end, and links start -> task (weighted by the search cost) and
   * task -> end (weight 0). Incomplete when the search does not return.
   */
  function AddCompressedPathOp(s: Store, fuel: nat): (a: Attempt)
    requires Wellformed(s)
    ensures Wellformed(a.effect.store)
    ensures a.effect.store.selectedPath == s.selectedPath && a.effect.store.focusArea == s.focusArea
    ensures !CanCompress(s) ==> a == Attempt(Effect(s, []), true)
  {
    if !CanCompress(s) then Attempt(Effect(s, []), true)
    else
      var start := CompressEnds(s).0;
      var end := CompressEnds(s).1;
      var id := CompressedId(s);
      var r := CompressedSearch(s, fuel);
      var w := CompressedWeight(r.outcome);
      if w.None? then Attempt(Effect(r.store, CompressedTask(s).events), false)
      else
        var e2 := LinkDetour(r.store, start, end, id, w.value);
        Attempt(Effect(e2.store, CompressedTask(s).events + e2.events + [AddCompressedPathEvent(start, end, id, w.value)]), true)
  }

  /** The `addTask` call for the compressed task. */
  function CompressedTask(s: Store): (e: Effect)
    requires Wellformed(s) && CanCompress(s)
    ensures Wellformed(e.store)
    ensures e.store.selectedPath == s.selectedPath && e.store.focusArea == s.focusArea
    ensures CompressEnds(s).0 in e.store.nodes.entries && CompressEnds(s).1 in e.store.nodes.entries
    ensures CompressedId(s) in e.store.nodes.entries
  {
    var start := CompressEnds(s).0;
    var end := CompressEnds(s).1;
    AddTaskOp(s, SuggestedTaskData(CompressedTaskName(s.nodes.entries[start].data, s.nodes.entries[end].data)))
  }

  /** The `aStar(startNodeId, endNodeId)` call made after the compressed task is added. */
  function CompressedSearch(s: Store, fuel: nat): (r: Searched)
    requires Wellformed(s) && CanCompress(s)
    ensures Wellformed(r.store)
    ensures r.store.nodes == CompressedTask(s).store.nodes
    ensures r.store.selectedPath == s.selectedPath && r.store.focusArea == s.focusArea
  {
    AStarOp(CompressedTask(s).store, CompressEnds(s).0, CompressEnds(s).1, fuel)
  }

  /** The two `addEdge` calls of `addCompressedPathToGraph`: start -> id at `cost`, id -> end at 0. */
  function LinkDetour(s: Store, start: string, end: string, id: string, cost: Cost): (e: Effect)
    requires start in s.nodes.entries && end in s.nodes.entries && id in s.nodes.entries && id != start
    ensures Wellformed(s) ==> Wellformed(e.store)
    ensures e.store.selectedPath == s.selectedPath && e.store.focusArea == s.focusArea
    ensures e.store.nodes.entries.Keys == s.nodes.entries.Keys
    ensures e.store.nodes.entries[start].edges.entries == s.nodes.entries[start].edges.entries[id := Edge(cost, "compressed")]
    ensures Detour(e.store.nodes, start, id, end, cost)
    ensures e.events == [ConnectNodesEvent(start, id, cost, "compressed"), ConnectNodesEvent(id, end, Finite(0.0), "compressed")]
  {
    var e1 := AddEdgeOp(s, start, id, Some(cost), "compressed");
    var e2 := AddEdgeOp(e1.store, id, end, Some(Finite(0.0)), "compressed");
    Then(e1, e2)
  }

  /** Edges `start -> id` of weight `cost` and `id -> end` of weight 0, both of type "compressed". */
  predicate Detour(nodes: Nodes, start: string, id: string, end: string, cost: Cost) {
    && HasEdge(nodes, start, id) && nodes.entries[start].edges.entries[id] == Edge(cost, "compressed")
    && HasEdge(nodes, id, end) && nodes.entries[id].edges.entries[end] == Edge(Finite(0.0), "compressed")
  }

  /**
   * A completed `addCompressedPathToGraph` leaves a fresh task on a two-edge
   * detour from start to end: the first edge carries the search cost
   * (Infinity when there is no path), the second 0, and the last event
   * reports that cost.
   */
  lemma AddCompressedPathLinks(s: Store, fuel: nat)
    requires Wellformed(s) && CanCompress(s) && AddCompressedPathOp(s, fuel).completed
    ensures CompressedWeight(CompressedSearch(s, fuel).outcome).Some?
    ensures var cost := CompressedWeight(CompressedSearch(s, fuel).outcome).value;
      var a := AddCompressedPathOp(s, fuel);
      && CompressedId(s) !in s.nodes.entries
      && Detour(a.effect.store.nodes, CompressEnds(s).0, CompressedId(s), CompressEnds(s).1, cost)
      && a.effect.events[|a.effect.events| - 1] == AddCompressedPathEvent(CompressEnds(s).0, CompressEnds(s).1, CompressedId(s), cost)
  {
    AddCompressedPathUnfolds(s, fuel);
    AddCompressedPathStore(s, fuel);
  }

  lemma AddCompressedPathUnfolds(s: Store, fuel: nat)
    requires Wellformed(s) && CanCompress(s) && AddCompressedPathOp(s, fuel).completed
    ensures CompressedWeight(CompressedSearch(s, fuel).outcome).Some?
  {
  }

  lemma AddCompressedPathStore(s: Store, fuel: nat)
    requires Wellformed(s) && CanCompress(s) && CompressedWeight(CompressedSearch(s, fuel).outcome).Some?
    ensures var start := CompressEnds(s).0; var end := CompressEnds(s).1; var id := CompressedId(s);
      var r := CompressedSearch(s, fuel); var cost := CompressedWeight(r.outcome).value;
      var e := LinkDetour(r.store, start, end, id, cost);
      && AddCompressedPathOp(s, fuel).effect.store == e.store
      && AddCompressedPathOp(s, fuel).effect.events == CompressedTask(s).events + e.events + [AddCompressedPathEvent(start, end, id, cost)]
  {
  }

  /** When the search does not return, the call stops after adding the compressed task. */
  lemma AddCompressedPathStalls(s: Store, fuel: nat)
    requires Wellformed(s) && CanCompress(s) && CompressedWeight(CompressedSearch(s, fuel).outcome).None?
    ensures AddCompressedPathOp(s, fuel) == Attempt(Effect(CompressedSearch(s, fuel).store, CompressedTask(s).events), false)
  {
  }

  /** With the focus taken from a selection, the compressed detour joins the first and last selected nodes. */
  lemma CompressedEndpointsAreSelectedEnds(s: Store)
    requires Wellformed(s) && |s.selectedPath| >= 2
    ensures var f := CopyMoveToFocusOp(s).store.focusArea;
      StripFocus(f[0]) == s.selectedPath[0] && StripFocus(f[|f| - 1]) == s.selectedPath[|s.selectedPath| - 1]
  {
    StripFocusRoundTrip(s.selectedPath[0]);
    StripFocusRoundTrip(s.selectedPath[|s.selectedPath| - 1]);
  }

  // ---------------------------------------------------------------------------
  // updateWeights, updateWeightsBasedOnFeedback

  /** Nodes part-way through a loop, and whether the loop got to its end without throwing. */
  datatype Partial = Partial(nodes: Nodes, ok: bool)

  /**
   * The loop over the neighbours of `id`: each listed edge of `id`
   * gets the weight of its target's task data. Stops (the source throws) at a
   * target that is not a node.
   */
  function RecomputeEdges(nodes: Nodes, id: string, ns: seq<string>): (r: Partial)
    requires id in nodes.entries
    requires forall n :: n in ns ==> n in nodes.entries[id].edges.entries
    ensures NodesValid(nodes) ==> NodesValid(r.nodes)
    ensures r.nodes.order == nodes.order && r.nodes.entries.Keys == nodes.entries.Keys
    ensures r.ok <==> forall n :: n in ns ==> n in nodes.entries
    ensures forall k :: k in nodes.entries && k != id ==> r.nodes.entries[k] == nodes.entries[k]
    ensures r.nodes.entries[id].data == nodes.entries[id].data && r.nodes.entries[id].kind == nodes.entries[id].kind
    ensures r.nodes.entries[id].edges.order == nodes.entries[id].edges.order
    ensures r.nodes.entries[id].edges.entries.Keys == nodes.entries[id].edges.entries.Keys
    decreases |ns|
  {
    if |ns| == 0 then Partial(nodes, true)
    else
      var n := ns[0];
      if n !in nodes.entries then Partial(nodes, false)
      else
        var old_ := nodes.entries[id].edges.entries[n];
        var next := WithEdge(nodes, id, n, Edge(Finite(CalculateWeight(nodes.entries[n].data)), old_.edgeType));
        assert next.entries[id].edges.order == nodes.entries[id].edges.order;
        assert forall m :: m in ns[1..] ==> m in ns;
        RecomputeEdges(next, id, ns[1..])
  }

  /**
   * When the loop completes, each listed edge weighs what its target's task
   * data gives and keeps its type; the other edges are untouched.
   */
  lemma {:induction false} RecomputeEdgesWeights(nodes: Nodes, id: string, ns: seq<string>, n: string)
    requires id in nodes.entries && n in nodes.entries[id].edges.entries
    requires forall m :: m in ns ==> m in nodes.entries[id].edges.entries
    requires RecomputeEdges(nodes, id, ns).ok
    ensures RecomputeEdges(nodes, id, ns).nodes.entries[id].edges.entries[n] ==
      if n in ns then Edge(Finite(CalculateWeight(nodes.entries[n].data)), nodes.entries[id].edges.entries[n].edgeType)
      else nodes.entries[id].edges.entries[n]
    decreases |ns|
  {
    if |ns| > 0 {
      var m := ns[0];
      assert m in nodes.entries;
      var e := nodes.entries[id].edges.entries[m];
      var next := WithEdge(nodes, id, m, Edge(Finite(CalculateWeight(nodes.entries[m].data)), e.edgeType));
      assert forall k :: k in ns[1..] ==> k in ns;
      assert RecomputeEdges(nodes, id, ns) == RecomputeEdges(next, id, ns[1..]);
      RecomputeEdgesWeights(next, id, ns[1..], n);
      assert n in ns <==> n == m || n in ns[1..];
      assert n in ns ==> n in nodes.entries && next.entries[n].data == nodes.entries[n].data;
    }
  }

  /** The weight `recomputeOutgoingEdges` gives the edge from `id` to `n`. */
  function Recomputed(nodes: Nodes, id: string, n: string): (r: Nodes)
    requires id in nodes.entries && n in nodes.entries && n in nodes.entries[id].edges.entries
    ensures r.entries.Keys == nodes.entries.Keys && r.entries[id].edges.entries.Keys == nodes.entries[id].edges.entries.Keys
  {
    WithEdge(nodes, id, n, Edge(Finite(CalculateWeight(nodes.entries[n].data)), nodes.entries[id].edges.entries[n].edgeType))
  }

  /** One pass of the loop of `RecomputeEdges`: a throw, or one edge reweighed. */
  lemma RecomputeStep(nodes: Nodes, id: string, ns: seq<string>, j: nat)
    requires id in nodes.entries && j < |ns| && forall n :: n in ns[j..] ==> n in nodes.entries[id].edges.entries
    ensures ns[j] !in nodes.entries ==> RecomputeEdges(nodes, id, ns[j..]) == Partial(nodes, false)
    ensures ns[j] in nodes.entries ==>
      && (forall n :: n in ns[j + 1..] ==> n in Recomputed(nodes, id, ns[j]).entries[id].edges.entries)
      && RecomputeEdges(nodes, id, ns[j..]) == RecomputeEdges(Recomputed(nodes, id, ns[j]), id, ns[j + 1..])
  {
    assert ns[j..][1..] == ns[j + 1..];
    assert forall m :: m in ns[j + 1..] ==> m in ns[j..];
  }

  /** The neighbour loop over the current edges of `id`, in `for...in` order. */
  function RecomputeOutgoing(nodes: Nodes, id: string): (r: Partial)
    requires NodesValid(nodes) && id in nodes.entries
    ensures NodesValid(r.nodes) && r.nodes.entries.Keys == nodes.entries.Keys
    ensures r.ok <==> forall n :: n in nodes.entries[id].edges.entries ==> n in nodes.entries
    ensures r.nodes.entries[id].data == nodes.entries[id].data
  {
    KeysEnumerateEntries(nodes.entries[id].edges);
    RecomputeEdges(nodes, id, nodes.entries[id].edges.Keys())
  }

  /** `feedback[nodeId].human_in_loop_feedback_refined`, copied when truthy. */
  function Refine(d: TaskData, refined: Option<real>): TaskData {
    if refined.Some? && refined.value != 0.0 then d.(humanInLoopRefined := refined) else d
  }

  /** Replacing the task data of a node that exists. */
  function WithData(nodes: Nodes, id: string, data: TaskData): (r: Nodes)
    requires id in nodes.entries
    ensures NodesValid(nodes) ==> NodesValid(r)
    ensures r.order == nodes.order && r.entries.Keys == nodes.entries.Keys
    ensures r.entries[id] == nodes.entries[id].(data := data)
    ensures forall k :: k in nodes.entries && k != id ==> r.entries[k] == nodes.entries[k]
  {
    nodes.Put(id, nodes.entries[id].(data := data))
  }

  /** The body of `updateWeights` for the ids in `ks`, in order. */
  function FeedbackLoop(nodes: Nodes, feedback: OMap<Option<real>>, ks: seq<string>): (r: Partial)
    requires NodesValid(nodes)
    requires forall k :: k in ks ==> k in feedback.entries
    ensures NodesValid(r.nodes)
    ensures r.nodes.entries.Keys == nodes.entries.Keys
    decreases |ks|
  {
    if |ks| == 0 then Partial(nodes, true)
    else
      var k := ks[0];
      assert forall m :: m in ks[1..] ==> m in ks;
      if k !in nodes.entries then FeedbackLoop(nodes, feedback, ks[1..])
      else
        var r := Reweigh(nodes, k, Refine(nodes.entries[k].data, feedback.entries[k]));
        if !r.ok then r else FeedbackLoop(r.nodes, feedback, ks[1..])
  }

  /** The loop of `updateWeights` over the keys of `feedback`. */
  function FeedbackPass(nodes: Nodes, feedback: OMap<Option<real>>): (r: Partial)
    requires NodesValid(nodes) && feedback.Valid()
    ensures NodesValid(r.nodes) && r.nodes.entries.Keys == nodes.entries.Keys
  {
    KeysEnumerateEntries(feedback);
    FeedbackLoop(nodes, feedback, feedback.Keys())
  }

  /** Replacing the task data of a node that exists, then its outgoing edges recomputed. */
  function Reweigh(nodes: Nodes, id: string, data: TaskData): (r: Partial)
    requires NodesValid(nodes) && id in nodes.entries
    ensures NodesValid(r.nodes) && r.nodes.entries.Keys == nodes.entries.Keys
    ensures r.nodes.entries[id].data == data
    ensures r.ok <==> forall n :: n in nodes.entries[id].edges.entries ==> n in nodes.entries
  {
    RecomputeOutgoing(WithData(nodes, id, data), id)
  }

  /**
   * `updateWeights(feedback)`: for each node named by the feedback, copy a
   * truthy refined human-in-the-loop value and recompute its outgoing edges;
   * then clear the memo. Throws at an edge into a missing node.
   */
  function UpdateWeightsOp(s: Store, feedback: OMap<Option<real>>): (a: Attempt)
    requires Wellformed(s) && feedback.Valid()
    ensures Wellformed(a.effect.store)
    ensures a.effect.events == []
    ensures a.effect.store.nodes.entries.Keys == s.nodes.entries.Keys
    ensures a.effect.store.selectedPath == s.selectedPath && a.effect.store.focusArea == s.focusArea
    ensures a.effect.store.memo == if a.completed then map[] else s.memo
  {
    var r := FeedbackPass(s.nodes, feedback);
    if r.ok then Attempt(Effect(s.(nodes := r.nodes, memo := map[]), []), true)
    else Attempt(Effect(s.(nodes := r.nodes), []), false)
  }

  /** The edges `now` are the edges `orig`, each weighing what its target's task data in `at` gives. */
  predicate Weighed(orig: OMap<Edge>, now: OMap<Edge>, at: Nodes) {
    && now.entries.Keys == orig.entries.Keys
    && forall n :: n in orig.entries ==>
         n in at.entries && now.entries[n] == Edge(Finite(CalculateWeight(at.entries[n].data)), orig.entries[n].edgeType)
  }

  /** Every node of `a` other than `id` is in `b` unchanged. */
  predicate OthersKept(a: Nodes, b: Nodes, id: string) {
    forall k :: k in a.entries && k != id ==> k in b.entries && b.entries[k] == a.entries[k]
  }

  /** Reweighing a node changes no other node, nor the node's kind or the targets of its edges. */
  lemma ReweighKeepsShape(nodes: Nodes, id: string, data: TaskData)
    requires NodesValid(nodes) && id in nodes.entries
    ensures var r := Reweigh(nodes, id, data);
      && OthersKept(nodes, r.nodes, id)
      && r.nodes.entries[id].kind == nodes.entries[id].kind
      && r.nodes.entries[id].edges.entries.Keys == nodes.entries[id].edges.entries.Keys
  {
    var w := WithData(nodes, id, data);
    var ns := w.entries[id].edges.Keys();
    KeysEnumerateEntries(w.entries[id].edges);
    assert Reweigh(nodes, id, data) == RecomputeEdges(w, id, ns);
  }

  /** When the loop over all the edges of `id` completes, they are all weighed by their targets' data. */
  lemma RecomputeAllWeighed(nodes: Nodes, id: string, ns: seq<string>)
    requires id in nodes.entries
    requires forall n :: n in ns <==> n in nodes.entries[id].edges.entries
    ensures var r := RecomputeEdges(nodes, id, ns);
      r.ok ==> Weighed(nodes.entries[id].edges, r.nodes.entries[id].edges, r.nodes)
  {
    var r := RecomputeEdges(nodes, id, ns);
    if r.ok {
      forall n | n in nodes.entries[id].edges.entries
        ensures n in r.nodes.entries
        ensures r.nodes.entries[id].edges.entries[n]
             == Edge(Finite(CalculateWeight(r.nodes.entries[n].data)), nodes.entries[id].edges.entries[n].edgeType)
      {
        RecomputeEdgesWeights(nodes, id, ns, n);
        assert r.nodes.entries[n].data == nodes.entries[n].data;
      }
    }
  }

  /**
   * Once every target is a node, each edge of a reweighed node weighs what its
   * target's task data gives, the node's own new data for a self-loop.
   */
  lemma ReweighWeights(nodes: Nodes, id: string, data: TaskData)
    requires NodesValid(nodes) && id in nodes.entries
    ensures var r := Reweigh(nodes, id, data);
      r.ok ==> Weighed(nodes.entries[id].edges, r.nodes.entries[id].edges, r.nodes)
  {
    var w := WithData(nodes, id, data);
    KeysEnumerateEntries(w.entries[id].edges);
    RecomputeAllWeighed(w, id, w.entries[id].edges.Keys());
  }

  /**
   * The weights `updateWeightsBasedOnFeedback` leaves: no other node changes,
   * and when it completes every edge of the node weighs what its target's task
   * data gives (after the feedback, for a self-loop) and keeps its type.
   */
  lemma FeedbackWeights(s: Store, id: string, fb: Feedback)
    requires Wellformed(s) && id in s.nodes.entries
    ensures var a := FeedbackOp(s, id, fb); var t := a.effect.store.nodes;
      && OthersKept(s.nodes, t, id)
      && t.entries[id].kind == s.nodes.entries[id].kind
      && t.entries[id].edges.entries.Keys == s.nodes.entries[id].edges.entries.Keys
      && (a.completed ==> Weighed(s.nodes.entries[id].edges, t.entries[id].edges, t))
  {
    ReweighKeepsShape(s.nodes, id, ApplyFeedback(s.nodes.entries[id].data, fb));
    ReweighWeights(s.nodes, id, ApplyFeedback(s.nodes.entries[id].data, fb));
  }

  /** Each node of `before` named in `ks` holds its refined value in `after`; the others keep their data. */
  predicate DataRefined(before: Nodes, after: Nodes, feedback: OMap<Option<real>>, ks: seq<string>) {
    forall k :: k in before.entries ==>
      && k in after.entries
      && after.entries[k].data
         == if k in ks && k in feedback.entries then Refine(before.entries[k].data, feedback.entries[k]) else before.entries[k].data
  }

  /** The nodes of `before` not named in `ks` keep their edges in `after`. */
  predicate EdgesKeptOutside(before: Nodes, after: Nodes, ks: seq<string>) {
    forall k :: k in before.entries && k !in ks ==> k in after.entries && after.entries[k].edges == before.entries[k].edges
  }

  /**
   * The edges `now` are the edges `orig`, each weighing what its target's data
   * was when they were reweighed: the data in `before` for a target in
   * `later`, which is refined afterwards, the data in `after` otherwise.
   */
  predicate WeighedWhenReached(orig: OMap<Edge>, now: OMap<Edge>, before: Nodes, after: Nodes, later: seq<string>) {
    && now.entries.Keys == orig.entries.Keys
    && forall n :: n in orig.entries ==>
         && n in before.entries && n in after.entries
         && now.entries[n]
            == Edge(Finite(CalculateWeight(if n in later then before.entries[n].data else after.entries[n].data)), orig.entries[n].edgeType)
  }

  /** The result of the `updateWeights` loop over `ks` from `nodes`, when it completes. */
  predicate LoopWeighed(nodes: Nodes, r: Nodes, feedback: OMap<Option<real>>, ks: seq<string>) {
    && DataRefined(nodes, r, feedback, ks)
    && EdgesKeptOutside(nodes, r, ks)
    && forall i :: 0 <= i < |ks| && ks[i] in nodes.entries ==>
         ks[i] in r.entries && WeighedWhenReached(nodes.entries[ks[i]].edges, r.entries[ks[i]].edges, nodes, r, ks[i + 1..])
  }

  /**
   * The weights the `updateWeights` loop leaves, when no edge leads to a
   * missing node: each listed node gets its refined value, the edges of the
   * other nodes are untouched, and an edge of the node at position i weighs
   * what its target's data was when the loop reached that node.
   */
  lemma {:induction false} FeedbackLoopWeights(nodes: Nodes, feedback: OMap<Option<real>>, ks: seq<string>)
    requires NodesValid(nodes) && Distinct(ks)
    requires forall k :: k in ks ==> k in feedback.entries
    ensures var r := FeedbackLoop(nodes, feedback, ks);
      r.ok ==> LoopWeighed(nodes, r.nodes, feedback, ks)
    decreases |ks|
  {
    var r := FeedbackLoop(nodes, feedback, ks);
    if |ks| > 0 && r.ok {
      var k0, rest := ks[0], ks[1..];
      assert forall m :: m in rest ==> m in ks;
      assert Distinct(rest) by {
        forall a, b | 0 <= a < b < |rest| ensures rest[a] != rest[b] { assert rest[a] == ks[a + 1] && rest[b] == ks[b + 1]; }
      }
      assert k0 !in rest by {
        forall j | 0 <= j < |rest| ensures rest[j] != k0 { assert rest[j] == ks[j + 1]; }
      }
      if k0 !in nodes.entries {
        FeedbackLoopWeights(nodes, feedback, rest);
        SkipAbsent(nodes, r.nodes, feedback, ks);
      } else {
        var p := Reweigh(nodes, k0, Refine(nodes.entries[k0].data, feedback.entries[k0]));
        ReweighKeepsShape(nodes, k0, Refine(nodes.entries[k0].data, feedback.entries[k0]));
        ReweighWeights(nodes, k0, Refine(nodes.entries[k0].data, feedback.entries[k0]));
        FeedbackLoopWeights(p.nodes, feedback, rest);
        PrependReweighed(nodes, p.nodes, r.nodes, feedback, ks);
      }
    }
  }

  /** A first listed id that names no node changes nothing the rest of the loop does not. */
  lemma SkipAbsent(nodes: Nodes, r: Nodes, feedback: OMap<Option<real>>, ks: seq<string>)
    requires |ks| > 0 && ks[0] !in nodes.entries && Distinct(ks)
    requires LoopWeighed(nodes, r, feedback, ks[1..])
    ensures LoopWeighed(nodes, r, feedback, ks)
  {
    forall i | 0 <= i < |ks| && ks[i] in nodes.entries
      ensures ks[i] in r.entries && WeighedWhenReached(nodes.entries[ks[i]].edges, r.entries[ks[i]].edges, nodes, r, ks[i + 1..])
    {
      assert i > 0 && ks[i] == ks[1..][i - 1] && ks[i + 1..] == ks[1..][i..];
    }
  }

  /** The loop from `nodes` is the first node reweighed into `p`, then the loop over the rest from `p`. */
  lemma PrependReweighed(nodes: Nodes, p: Nodes, r: Nodes, feedback: OMap<Option<real>>, ks: seq<string>)
    requires |ks| > 0 && ks[0] in nodes.entries && ks[0] in feedback.entries && ks[0] !in ks[1..] && Distinct(ks)
    requires OthersKept(nodes, p, ks[0]) && p.entries.Keys == nodes.entries.Keys
    requires p.entries[ks[0]].data == Refine(nodes.entries[ks[0]].data, feedback.entries[ks[0]])
    requires Weighed(nodes.entries[ks[0]].edges, p.entries[ks[0]].edges, p)
    requires LoopWeighed(p, r, feedback, ks[1..])
    ensures LoopWeighed(nodes, r, feedback, ks)
  {
    PrependData(nodes, p, r, feedback, ks);
    forall i | 0 <= i < |ks| && ks[i] in nodes.entries
      ensures ks[i] in r.entries && WeighedWhenReached(nodes.entries[ks[i]].edges, r.entries[ks[i]].edges, nodes, r, ks[i + 1..])
    {
      if i == 0 {
        FirstReached(nodes, p, r, feedback, ks);
      } else {
        LaterReached(nodes, p, r, feedback, ks, i);
      }
    }
  }

  /** The data and the untouched edges after the first node and the rest of the loop. */
  lemma PrependData(nodes: Nodes, p: Nodes, r: Nodes, feedback: OMap<Option<real>>, ks: seq<string>)
    requires |ks| > 0 && ks[0] in nodes.entries && ks[0] in feedback.entries && ks[0] !in ks[1..]
    requires OthersKept(nodes, p, ks[0]) && p.entries.Keys == nodes.entries.Keys
    requires p.entries[ks[0]].data == Refine(nodes.entries[ks[0]].data, feedback.entries[ks[0]])
    requires DataRefined(p, r, feedback, ks[1..]) && EdgesKeptOutside(p, r, ks[1..])
    ensures DataRefined(nodes, r, feedback, ks) && EdgesKeptOutside(nodes, r, ks)
  {
    assert forall k :: k in ks <==> k == ks[0] || k in ks[1..];
  }

  /** The edges of a node listed after the first, carried over from the loop that starts at `p`. */
  lemma LaterReached(nodes: Nodes, p: Nodes, r: Nodes, feedback: OMap<Option<real>>, ks: seq<string>, i: nat)
    requires 0 < i < |ks| && ks[i] in nodes.entries && Distinct(ks)
    requires OthersKept(nodes, p, ks[0]) && p.entries.Keys == nodes.entries.Keys
    requires LoopWeighed(p, r, feedback, ks[1..])
    ensures ks[i] in r.entries && WeighedWhenReached(nodes.entries[ks[i]].edges, r.entries[ks[i]].edges, nodes, r, ks[i + 1..])
  {
    var rest := ks[1..];
    assert ks[i] == rest[i - 1] && ks[i + 1..] == rest[i..];
    assert ks[i] != ks[0];
    assert ks[0] !in rest[i..] by {
      forall j | 0 <= j < |rest[i..]| ensures rest[i..][j] != ks[0] { assert rest[i..][j] == ks[i + 1 + j]; }
    }
    SwapBefore(nodes.entries[ks[i]].edges, r.entries[ks[i]].edges, p, nodes, r, rest[i..]);
  }

  /** The edges of the first listed node, reweighed from `p` and untouched by the rest of the loop. */
  lemma FirstReached(nodes: Nodes, p: Nodes, r: Nodes, feedback: OMap<Option<real>>, ks: seq<string>)
    requires |ks| > 0 && ks[0] in nodes.entries && ks[0] !in ks[1..]
    requires OthersKept(nodes, p, ks[0]) && p.entries.Keys == nodes.entries.Keys
    requires Weighed(nodes.entries[ks[0]].edges, p.entries[ks[0]].edges, p)
    requires DataRefined(p, r, feedback, ks[1..]) && EdgesKeptOutside(p, r, ks[1..])
    ensures ks[0] in r.entries && WeighedWhenReached(nodes.entries[ks[0]].edges, r.entries[ks[0]].edges, nodes, r, ks[1..])
  {
  }

  /** The data before a later refinement can be read from any dictionary that agrees on it. */
  lemma SwapBefore(orig: OMap<Edge>, now: OMap<Edge>, b1: Nodes, b2: Nodes, after: Nodes, later: seq<string>)
    requires WeighedWhenReached(orig, now, b1, after, later)
    requires forall n :: n in b1.entries ==> n in b2.entries && (n in later ==> b2.entries[n].data == b1.entries[n].data)
    ensures WeighedWhenReached(orig, now, b2, after, later)
  {
  }

  /**
   * The weights `updateWeights` leaves when it completes: each node the
   * feedback names holds its refined value, nodes it does not name keep their
   * edges, and an edge of the i-th named node weighs what its target's data
   * was when the loop reached that node (so a target named later is weighed
   * before its own refinement).
   */
  lemma UpdateWeightsWeights(s: Store, feedback: OMap<Option<real>>)
    requires Wellformed(s) && feedback.Valid()
    ensures var a := UpdateWeightsOp(s, feedback);
      a.completed ==> LoopWeighed(s.nodes, a.effect.store.nodes, feedback, feedback.Keys())
  {
    KeysEnumerateEntries(feedback);
    KeysDistinct(feedback);
    FeedbackLoopWeights(s.nodes, feedback, feedback.Keys());
  }

  /** Two node dictionaries that differ at most in the task data of `id`. */
  predicate DifferOnlyInData(a: Nodes, b: Nodes, id: string) {
    && a.order == b.order && a.entries.Keys == b.entries.Keys
    && (forall k :: k in a.entries && k != id ==> a.entries[k] == b.entries[k])
    && (id in a.entries ==> a.entries[id].edges == b.entries[id].edges && a.entries[id].kind == b.entries[id].kind)
  }

  lemma {:induction false} RecomputeIgnoresOwnData(a: Nodes, b: Nodes, id: string, ns: seq<string>)
    requires id in a.entries && DifferOnlyInData(a, b, id) && id !in ns
    requires forall n :: n in ns ==> n in a.entries[id].edges.entries
    ensures var ra := RecomputeEdges(a, id, ns); var rb := RecomputeEdges(b, id, ns);
      ra.ok == rb.ok && DifferOnlyInData(ra.nodes, rb.nodes, id)
    decreases |ns|
  {
    if |ns| > 0 && ns[0] in a.entries {
      var n := ns[0];
      var e := a.entries[id].edges.entries[n];
      var w := Edge(Finite(CalculateWeight(a.entries[n].data)), e.edgeType);
      assert a.entries[n] == b.entries[n];
      var a' := WithEdge(a, id, n, w);
      var b' := WithEdge(b, id, n, w);
      assert a'.entries[id].edges == b'.entries[id].edges;
      assert forall m :: m in ns[1..] ==> m in ns;
      RecomputeIgnoresOwnData(a', b', id, ns[1..]);
    }
  }

  /**
   * A node's own task data never reaches its edge weights: the edges leaving it
   * are recomputed from its neighbours' data, so unless the node is its own
   * neighbour, any two data values give the same edges everywhere. In
   * particular the refined value an `updateWeights` entry copies in, and the
   * rating `updateWeightsBasedOnFeedback` records, change no weight of the
   * edges leaving the node they are about.
   */
  lemma OwnDataDoesNotReachEdges(nodes: Nodes, id: string, x: TaskData, y: TaskData)
    requires NodesValid(nodes) && id in nodes.entries && id !in nodes.entries[id].edges.entries
    ensures Reweigh(nodes, id, x).ok == Reweigh(nodes, id, y).ok
    ensures forall k :: k in nodes.entries ==>
      Reweigh(nodes, id, x).nodes.entries[k].edges == Reweigh(nodes, id, y).nodes.entries[k].edges
  {
    WithDataDiffersOnlyInData(nodes, id, x, y);
    OutgoingIgnoresOwnData(WithData(nodes, id, x), WithData(nodes, id, y), id);
    SameEdges(Reweigh(nodes, id, x).nodes, Reweigh(nodes, id, y).nodes, id);
  }

  lemma SameEdges(a: Nodes, b: Nodes, id: string)
    requires DifferOnlyInData(a, b, id)
    ensures forall k :: k in a.entries ==> a.entries[k].edges == b.entries[k].edges
  {
  }

  lemma WithDataDiffersOnlyInData(nodes: Nodes, id: string, x: TaskData, y: TaskData)
    requires NodesValid(nodes) && id in nodes.entries
    ensures var a := WithData(nodes, id, x); var b := WithData(nodes, id, y);
      NodesValid(a) && NodesValid(b) && DifferOnlyInData(a, b, id)
      && a.entries[id].edges == nodes.entries[id].edges
  {
  }

  lemma OutgoingIgnoresOwnData(a: Nodes, b: Nodes, id: string)
    requires NodesValid(a) && NodesValid(b) && id in a.entries && DifferOnlyInData(a, b, id)
    requires id !in a.entries[id].edges.entries
    ensures var ra := RecomputeOutgoing(a, id); var rb := RecomputeOutgoing(b, id);
      ra.ok == rb.ok && DifferOnlyInData(ra.nodes, rb.nodes, id)
  {
    var ns := a.entries[id].edges.Keys();
    KeysEnumerateEntries(a.entries[id].edges);
    RecomputeIgnoresOwnData(a, b, id, ns);
  }

  /** One piece of human feedback, as `requestHumanFeedback` shapes it. */
  datatype Feedback =
    | Rating(scale: Option<string>, rating: real)
    | YesNo(question: string, answer: bool)
    | Comment(text: string)
    | OtherFeedback

  const SuccessIfYes: real := 0.95
  const SuccessIfNo: real := 0.5

  /** The task data after one piece of feedback. */
  function ApplyFeedback(d: TaskData, fb: Feedback): (r: TaskData)
    ensures fb.YesNo? && Includes(fb.question, "successful") ==>
      r == d.(successProbability := Some(if fb.answer then SuccessIfYes else SuccessIfNo))
    ensures fb.YesNo? && !Includes(fb.question, "successful") ==> r == d
    ensures fb.Rating? && (fb.scale.None? || fb.scale.value == "") ==> r == d
    ensures fb.Rating? && fb.scale.Some? && fb.scale.value !in CostFieldNames ==> CalculateWeight(r) == CalculateWeight(d)
    ensures fb.Comment? || fb.OtherFeedback? ==> r == d
  {
    match fb
    case Rating(scale, v) => if scale.Some? && scale.value != "" then SetField(d, scale.value, v) else d
    case YesNo(q, yes) => if Includes(q, "successful") then d.(successProbability := Some(if yes then SuccessIfYes else SuccessIfNo)) else d
    case _ => d
  }

  /**
   * `updateWeightsBasedOnFeedback`: applies the feedback to the node's data and
   * recomputes its outgoing edges; the memo is left as it is.
   */
  function FeedbackOp(s: Store, id: string, fb: Feedback): (a: Attempt)
    requires Wellformed(s)
    ensures Wellformed(a.effect.store) && a.effect.store.nodes.entries.Keys == s.nodes.entries.Keys
    ensures a.effect == Effect(s.(nodes := a.effect.store.nodes), [])
    ensures id !in s.nodes.entries ==> a == Attempt(Effect(s, []), true)
    ensures id in s.nodes.entries ==> a.effect.store.nodes.entries[id].data == ApplyFeedback(s.nodes.entries[id].data, fb)
  {
    if id !in s.nodes.entries then Attempt(Effect(s, []), true)
    else
      var r := Reweigh(s.nodes, id, ApplyFeedback(s.nodes.entries[id].data, fb));
      Attempt(Effect(s.(nodes := r.nodes), []), r.ok)
  }

  /** Feedback keeps the memo: a search from a memoised start still answers with the path found before. */
  lemma StaleMemoAfterFeedback(s: Store, id: string, fb: Feedback, start: string, target: string, fuel: nat)
    requires Wellformed(s) && start in s.memo
    ensures AStarOp(FeedbackOp(s, id, fb).effect.store, start, target, fuel).outcome == Found(s.memo[start])
  {
  }

  // ---------------------------------------------------------------------------
  // loadTasks

  /** The loop over the task ids of the parsed plan: add each task and chain it to the previous one. */
  function ChainTasks(e: Effect, prev: string, tasks: OMap<TaskData>, ks: seq<string>): (r: (Effect, string))
    requires forall k :: k in ks ==> k in tasks.entries
    ensures Wellformed(e.store) ==> Wellformed(r.0.store)
    ensures forall id :: id in r.0.store.nodes.entries <==> id in e.store.nodes.entries || id in ks
    ensures r.0.store.memo == e.store.memo && r.0.store.selectedPath == e.store.selectedPath
    ensures r.0.store.focusArea == e.store.focusArea
    ensures r.1 == if |ks| == 0 then prev else ks[|ks| - 1]
    decreases |ks|
  {
    if |ks| == 0 then (e, prev)
    else
      var k := ks[0];
      assert forall m :: m in ks <==> m == k || m in ks[1..];
      ChainTasks(LinkTask(e, prev, k, tasks.entries[k]), k, tasks, ks[1..])
  }

  /** One pass of the `loadTasks` loop: add the task, then the edge from the previous one. */
  function LinkTask(e: Effect, prev: string, k: string, data: TaskData): (r: Effect)
    ensures Wellformed(e.store) ==> Wellformed(r.store)
    ensures r.store.nodes.entries.Keys == e.store.nodes.entries.Keys + {k}
    ensures r.store.memo == e.store.memo && r.store.selectedPath == e.store.selectedPath
    ensures r.store.focusArea == e.store.focusArea
  {
    var added := Then(e, AddNodeOp(e.store, k, data, "task"));
    Then(added, AddEdgeOp(added.store, prev, k, None, "sequence"))
  }

  /** A pass of the loop extends an edge path ending at the previous task by the new task. */
  lemma LinkTaskExtends(e: Effect, path: seq<string>, k: string, data: TaskData)
    requires |path| > 0 && IsEdgePath(e.store.nodes, path) && k !in path
    requires path[|path| - 1] in e.store.nodes.entries
    ensures IsEdgePath(LinkTask(e, path[|path| - 1], k, data).store.nodes, path + [k])
  {
    var prev := path[|path| - 1];
    var added := Then(e, AddNodeOp(e.store, k, data, "task"));
    PathSurvivesAddNode(e.store, path, k, data, "task");
    PathSurvivesAddEdge(added.store, path, prev, k, None, "sequence");
    ExtendPath(LinkTask(e, prev, k, data).store.nodes, path, k);
  }

  /** `loadTasks`: start and end nodes, then every task chained from start in key order, then the last to end. */
  function LoadTasksOp(s: Store, tasks: OMap<TaskData>): (e: Effect)
    requires tasks.Valid()
    ensures Wellformed(s) ==> Wellformed(e.store)
    ensures forall id :: id in e.store.nodes.entries <==> id in s.nodes.entries || id in tasks.entries || id in {"start", "end"}
    ensures e.store.memo == s.memo && e.store.selectedPath == s.selectedPath && e.store.focusArea == s.focusArea
  {
    KeysEnumerateEntries(tasks);
    var chained := ChainTasks(StartAndEnd(s), "start", tasks, tasks.Keys());
    Then(chained.0, AddEdgeOp(chained.0.store, chained.1, "end", None, "sequence"))
  }

  /** The first two steps of `loadTasks`: the start and end nodes. */
  function StartAndEnd(s: Store): (e: Effect)
    ensures Wellformed(s) ==> Wellformed(e.store)
    ensures forall id :: id in e.store.nodes.entries <==> id in s.nodes.entries || id in {"start", "end"}
    ensures e.store.memo == s.memo && e.store.selectedPath == s.selectedPath && e.store.focusArea == s.focusArea
  {
    var e1 := AddNodeOp(s, "start", Titled("Start Project"), "start");
    Then(e1, AddNodeOp(e1.store, "end", Titled("End Project"), "end"))
  }

  /** Adding a node that is not on an edge path keeps the path. */
  lemma PathSurvivesAddNode(s: Store, path: seq<string>, id: string, data: TaskData, kind: string)
    requires IsEdgePath(s.nodes, path) && id !in path
    ensures IsEdgePath(AddNodeOp(s, id, data, kind).store.nodes, path)
  {
    var r := AddNodeOp(s, id, data, kind).store.nodes;
    forall i | 0 <= i < |path| - 1 ensures HasEdge(r, path[i], path[i + 1]) {
      assert HasEdge(s.nodes, path[i], path[i + 1]);
    }
  }

  /** Adding an edge keeps every edge path. */
  lemma PathSurvivesAddEdge(s: Store, path: seq<string>, from: string, to: string, weight: Option<Cost>, edgeType: string)
    requires IsEdgePath(s.nodes, path)
    ensures IsEdgePath(AddEdgeOp(s, from, to, weight, edgeType).store.nodes, path)
  {
    var r := AddEdgeOp(s, from, to, weight, edgeType).store.nodes;
    forall i | 0 <= i < |path| - 1 ensures HasEdge(r, path[i], path[i + 1]) {
      assert HasEdge(s.nodes, path[i], path[i + 1]);
    }
  }

  /** An edge path extended by an edge from its last node. */
  lemma ExtendPath(nodes: Nodes, path: seq<string>, k: string)
    requires |path| > 0 && IsEdgePath(nodes, path) && HasEdge(nodes, path[|path| - 1], k)
    ensures IsEdgePath(nodes, path + [k])
  {
    var p' := path + [k];
    forall i | 0 <= i < |p'| - 1 ensures HasEdge(nodes, p'[i], p'[i + 1]) {
      if i < |path| - 1 {
        assert p'[i] == path[i] && p'[i + 1] == path[i + 1];
      }
    }
  }

  lemma AppendHead(path: seq<string>, ks: seq<string>)
    requires |ks| > 0
    ensures (path + [ks[0]]) + ks[1..] == path + ks
  {
    assert ks == [ks[0]] + ks[1..];
  }

  lemma DistinctTail(ks: seq<string>)
    requires |ks| > 0 && Distinct(ks)
    ensures Distinct(ks[1..]) && ks[0] !in ks[1..]
  {
    forall i, j | 0 <= i < j < |ks[1..]| ensures ks[1..][i] != ks[1..][j] {
      assert ks[1..][i] == ks[i + 1] && ks[1..][j] == ks[j + 1];
    }
    forall j | 0 <= j < |ks[1..]| ensures ks[1..][j] != ks[0] {
      assert ks[1..][j] == ks[j + 1];
    }
  }

  lemma {:induction false} ChainTasksLinks(e: Effect, path: seq<string>, tasks: OMap<TaskData>, ks: seq<string>)
    requires |path| > 0 && IsEdgePath(e.store.nodes, path)
    requires path[|path| - 1] in e.store.nodes.entries
    requires forall k :: k in ks ==> k in tasks.entries && k !in path
    requires Distinct(ks)
    ensures IsEdgePath(ChainTasks(e, path[|path| - 1], tasks, ks).0.store.nodes, path + ks)
    decreases |ks|
  {
    if |ks| == 0 {
      assert path + ks == path;
    } else {
      var prev := path[|path| - 1];
      var k := ks[0];
      var linked := LinkTask(e, prev, k, tasks.entries[k]);
      LinkTaskExtends(e, path, k, tasks.entries[k]);
      var path' := path + [k];
      DistinctTail(ks);
      assert forall m :: m in ks[1..] ==> m in ks && m != k;
      ChainTasksLinks(linked, path', tasks, ks[1..]);
      AppendHead(path, ks);
    }
  }

  /**
   * After `loadTasks` with task ids other than "start" and "end", edges lead
   * from "start" through every task, in key order, to "end".
   */
  lemma LoadTasksChainsStartToEnd(s: Store, tasks: OMap<TaskData>)
    requires tasks.Valid() && "start" !in tasks.entries && "end" !in tasks.entries
    ensures IsEdgePath(LoadTasksOp(s, tasks).store.nodes, ["start"] + tasks.Keys() + ["end"])
  {
    KeysEnumerateEntries(tasks);
    KeysDistinct(tasks);
    var e2 := StartAndEnd(s);
    ChainTasksLinks(e2, ["start"], tasks, tasks.Keys());
    var chain := ["start"] + tasks.Keys();
    var chained := ChainTasks(e2, "start", tasks, tasks.Keys());
    assert chained.1 == chain[|chain| - 1];
    ClosePath(chained.0.store, chain, "end");
  }

  /** The last `addEdge` of `loadTasks` closes an edge path into `end`. */
  lemma ClosePath(s: Store, chain: seq<string>, end: string)
    requires |chain| > 0 && IsEdgePath(s.nodes, chain)
    requires chain[|chain| - 1] in s.nodes.entries && end in s.nodes.entries
    ensures IsEdgePath(AddEdgeOp(s, chain[|chain| - 1], end, None, "sequence").store.nodes, chain + [end])
  {
    var last := chain[|chain| - 1];
    PathSurvivesAddEdge(s, chain, last, end, None, "sequence");
    ExtendPath(AddEdgeOp(s, last, end, None, "sequence").store.nodes, chain, end);
  }
}
