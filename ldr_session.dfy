/**
 * The interpreter of ldr.js. `exampleLdrProcessor` reports which render
 * function each step of a script object reaches. The script player steps
 * through a script and calls, for each step, the render function its first
 * key names; of those, only `select_path` and the ring and grid layouts reach
 * the `Graph` (through the graph controller), and the layouts number their
 * nodes from the player's `nextNodeId`. The other render functions only draw.
 */
module LdrSession {
  import opened JsText
  import opened JsObject
  import opened CostModel
  import opened GraphTypes
  import opened GraphOps
  import opened GraphStore
  import opened Playback

  // ---------------------------------------------------------------------------
  // exampleLdrProcessor

  /** What the processor does with one step: warn about it, or call a render function with its parameters. */
  datatype Report =
    | InvalidStep(stepNumber: string)
    | MissingCommand(stepNumber: string)
    | Rendered(stepNumber: string, command: string, params: Params)
    | UnknownAction(command: string)

  function ReportOf(stepNumber: string, step: Option<Step>): Report {
    if step.None? then InvalidStep(stepNumber)
    else if step.value.command == "" then MissingCommand(stepNumber)
    else if step.value.command in Commands then Rendered(stepNumber, step.value.command, step.value.params)
    else UnknownAction(step.value.command)
  }

  /**
   * The steps under `keys`, in order: one report each, so a skipped step never
   * stops the ones after it, and a render call exactly for the steps whose
   * command is one of the fourteen names.
   */
  function Reports(script: OMap<Option<Step>>, keys: seq<string>): (r: seq<Report>)
    requires forall k :: k in keys ==> k in script.entries
    ensures |r| == |keys|
    ensures forall i :: 0 <= i < |keys| ==>
      (r[i].Rendered? <==> script.entries[keys[i]].Some? && script.entries[keys[i]].value.command in Commands)
    ensures forall i :: 0 <= i < |keys| && r[i].Rendered? ==>
      r[i] == Rendered(keys[i], script.entries[keys[i]].value.command, script.entries[keys[i]].value.params)
  {
    if |keys| == 0 then []
    else
      var last := keys[|keys| - 1];
      assert "" !in Commands;
      Reports(script, keys[..|keys| - 1]) + [ReportOf(last, script.entries[last])]
  }

  /** The reports for the whole script, in the order `for...in` visits its keys. */
  function ScriptReports(script: OMap<Option<Step>>): (r: seq<Report>)
    requires script.Valid()
    ensures |r| == |script.Keys()|
  {
    KeysEnumerateEntries(script);
    Reports(script, script.Keys())
  }

  lemma ReportsSnoc(script: OMap<Option<Step>>, keys: seq<string>, i: nat)
    requires forall k :: k in keys ==> k in script.entries
    requires i < |keys|
    ensures Reports(script, keys[..i + 1]) == Reports(script, keys[..i]) + [ReportOf(keys[i], script.entries[keys[i]])]
  {
    assert keys[..i + 1][..i] == keys[..i];
  }

  /** `exampleLdrProcessor`: nothing for a missing script, else every step in key order. */
  method ProcessScript(script: Option<OMap<Option<Step>>>) returns (reports: seq<Report>)
    requires script.Some? ==> script.value.Valid()
    ensures script.None? ==> reports == []
    ensures script.Some? ==> reports == ScriptReports(script.value)
  {
    if script.None? {
      return [];
    }
    var m := script.value;
    var keys := m.Keys();
    KeysEnumerateEntries(m);
    reports := [];
    for i := 0 to |keys|
      invariant reports == Reports(m, keys[..i])
    {
      var k := keys[i];
      var step := m.entries[k];
      var report;
      if step.None? {
        report := InvalidStep(k);
      } else if step.value.command == "" {
        report := MissingCommand(k);
      } else if step.value.command in Commands {
        report := Rendered(k, step.value.command, step.value.params);
      } else {
        report := UnknownAction(step.value.command);
      }
      ReportsSnoc(m, keys, i);
      reports := reports + [report];
    }
    assert keys[..|keys|] == keys;
  }

  // ---------------------------------------------------------------------------
  // Steps

  /** The store and events after a step, the message history and `nextNodeId`. */
  datatype Outcome = Outcome(effect: Effect, history: seq<string>, nextNodeId: nat)

  /** `renderMessageOnly`: a truthy message joins the history, which keeps its three most recent entries. */
  function Record(history: seq<string>, m: Option<string>): (r: seq<string>)
    ensures !Truthy(m) ==> r == history
    ensures |history| <= 3 && Truthy(m) ==> r == LastThree(history + [m.value])
    ensures |history| <= 3 ==> |r| <= 3
  {
    if Truthy(m) then
      if |history| <= 3 then
        Push3KeepsLastThree(history, m.value);
        Push3(history, m.value)
      else Push3(history, m.value)
    else history
  }

  /** The nodes `ids` added in that order with `addNode`, their data an object with no task fields. */
  function AddNodesRun(e: Effect, ids: seq<string>, kind: string): (r: Effect)
    ensures r.store.memo == e.store.memo && r.store.selectedPath == e.store.selectedPath
    ensures r.store.focusArea == e.store.focusArea
    decreases |ids|
  {
    if |ids| == 0 then e
    else AddNodesRun(Then(e, AddNodeOp(e.store, ids[0], NoFields, kind)), ids[1..], kind)
  }

  /** One `add_node` event per node of a run, in order. */
  function RunEvents(ids: seq<string>, kind: string): (r: seq<Event>)
    ensures |r| == |ids|
    decreases |ids|
  {
    if |ids| == 0 then [] else [AddNodeEvent(ids[0], NoFields, kind)] + RunEvents(ids[1..], kind)
  }

  /** Adding `a + b` is adding `a`, then `b`. */
  lemma {:induction false} AddNodesRunAppend(e: Effect, a: seq<string>, b: seq<string>, kind: string)
    ensures AddNodesRun(e, a + b, kind) == AddNodesRun(AddNodesRun(e, a, kind), b, kind)
    decreases |a|
  {
    if |a| == 0 {
      assert a + b == b;
    } else {
      assert (a + b)[0] == a[0] && (a + b)[1..] == a[1..] + b;
      AddNodesRunAppend(Then(e, AddNodeOp(e.store, a[0], NoFields, kind)), a[1..], b, kind);
    }
  }

  /** A run reports one `add_node` event per node, in order, after the events before it. */
  lemma {:induction false} AddNodesRunEvents(e: Effect, ids: seq<string>, kind: string)
    ensures AddNodesRun(e, ids, kind).events == e.events + RunEvents(ids, kind)
    decreases |ids|
  {
    if |ids| == 0 {
      assert e.events + [] == e.events;
    } else {
      var ev := AddNodeEvent(ids[0], NoFields, kind);
      AddNodesRunEvents(Then(e, AddNodeOp(e.store, ids[0], NoFields, kind)), ids[1..], kind);
      ConcatAssoc(e.events, [ev], RunEvents(ids[1..], kind));
    }
  }

  lemma ConcatAssoc<T>(a: seq<T>, b: seq<T>, c: seq<T>)
    ensures (a + b) + c == a + (b + c)
  {
  }

  /** A run keeps the store well formed. */
  lemma {:induction false} AddNodesRunWellformed(e: Effect, ids: seq<string>, kind: string)
    requires Wellformed(e.store)
    ensures Wellformed(AddNodesRun(e, ids, kind).store)
    decreases |ids|
  {
    if |ids| > 0 {
      AddNodesRunWellformed(Then(e, AddNodeOp(e.store, ids[0], NoFields, kind)), ids[1..], kind);
    }
  }

  /** A run adds exactly its ids to the keys. */
  lemma {:induction false} AddNodesRunKeys(e: Effect, ids: seq<string>, kind: string)
    ensures AddNodesRun(e, ids, kind).store.nodes.entries.Keys == e.store.nodes.entries.Keys + (set id | id in ids)
    decreases |ids|
  {
    if |ids| == 0 {
      assert (set id | id in ids) == {};
    } else {
      AddNodesRunKeys(Then(e, AddNodeOp(e.store, ids[0], NoFields, kind)), ids[1..], kind);
      assert (set id | id in ids) == {ids[0]} + (set id | id in ids[1..]);
    }
  }

  /**
   * The render function of `name`, for the three that reach the graph and for
   * `message_only`; the rest only draw. `reset` clears the drawing and leaves
   * the graph as it is.
   */
  function Render(s: Store, history: seq<string>, next: nat, name: string, p: Params): (r: Outcome)
    requires Wellformed(s)
    ensures Wellformed(r.effect.store)
    ensures |history| <= 3 ==> |r.history| <= 3
    ensures name !in {"select_path", "add_circular_rings", "add_triangular_grid", "message_only"} ==>
      r == Outcome(Effect(s, []), history, next)
    ensures name == "add_circular_rings" ==>
      var k := if p.ringSizes.Some? then RingTotal(p.ringSizes.value) else 0;
      r.nextNodeId == next + k && r.effect.store.nodes.entries.Keys == s.nodes.entries.Keys + NodeIds(next, k)
    ensures name == "add_triangular_grid" && p.numRings.Some? && PositiveInteger(p.numRings.value) ==>
      var n := p.numRings.value.Floor;
      r.nextNodeId == next + GridCount(n)
      && r.effect.store.nodes.entries.Keys == s.nodes.entries.Keys + NodeIds(next, GridCount(n))
    ensures name == "add_triangular_grid" && !(p.numRings.Some? && PositiveInteger(p.numRings.value)) ==>
      r == Outcome(Effect(s, []), history, next)
    ensures name == "select_path" ==>
      && r.nextNodeId == next && r.history == history
      && r.effect == if p.nodeIds.None? then Effect(s, []) else SelectPathOp(s, p.nodeIds.value)
  {
    var e := Effect(s, []);
    if name == "select_path" then
      if p.nodeIds.None? then Outcome(e, history, next)
      else Outcome(SelectPathOp(s, p.nodeIds.value), history, next)
    else if name == "add_circular_rings" then
      if p.ringSizes.None? then Outcome(e, history, next)
      else
        var k := RingTotal(p.ringSizes.value);
        AddNodesRunKeys(e, LayoutIds(next, k), "ring");
        AddNodesRunWellformed(e, LayoutIds(next, k), "ring");
        LayoutIdsElements(next, k);
        Outcome(AddNodesRun(e, LayoutIds(next, k), "ring"), history, next + k)
    else if name == "add_triangular_grid" then
      if p.numRings.None? || !PositiveInteger(p.numRings.value) then Outcome(e, history, next)
      else
        var n := p.numRings.value.Floor;
        AddNodesRunKeys(e, LayoutIds(next, GridCount(n)), "trigrid");
        AddNodesRunWellformed(e, LayoutIds(next, GridCount(n)), "trigrid");
        LayoutIdsElements(next, GridCount(n));
        Outcome(AddNodesRun(e, LayoutIds(next, GridCount(n)), "trigrid"), history, next + GridCount(n))
    else if name == "message_only" then Outcome(e, Record(history, p.message), next)
    else Outcome(e, history, next)
  }

  /**
   * `executeStep`: nothing for a null step; otherwise a truthy message is
   * recorded, then the render function of a known command runs, so a
   * `message_only` step records its message twice.
   */
  function Execute(s: Store, history: seq<string>, next: nat, step: Option<Step>): (r: Outcome)
    requires Wellformed(s)
    ensures Wellformed(r.effect.store)
    ensures |history| <= 3 ==> |r.history| <= 3
    ensures step.None? ==> r == Outcome(Effect(s, []), history, next)
    ensures step.Some? && step.value.command !in Commands ==>
      r == Outcome(Effect(s, []), Record(history, step.value.params.message), next)
    ensures step.Some? && step.value.command == "reset" ==> r.effect == Effect(s, []) && r.nextNodeId == next
    ensures step.Some? && step.value.command == "message_only" && Truthy(step.value.params.message) ==>
      var m := step.value.params.message.value;
      r.history == Push3(Push3(history, m), m)
  {
    if step.None? then Outcome(Effect(s, []), history, next)
    else
      var h := Record(history, step.value.params.message);
      if step.value.command in Commands then Render(s, h, next, step.value.command, step.value.params)
      else Outcome(Effect(s, []), h, next)
  }

  // ---------------------------------------------------------------------------
  // Playback

  type Player = Playhead<Step, string>

  /** What a player call leaves: store and events, the player's variables and `nextNodeId`. */
  datatype Turn = Turn(effect: Effect, head: Player, nextNodeId: nat)

  /** `stepForward`: stops playing, then runs the next step if there is one; at the last step only stops. */
  function StepForwardOp(s: Store, p: Player, next: nat): (t: Turn)
    requires Wellformed(s) && Ready(p)
    ensures Wellformed(t.effect.store) && Ready(t.head)
    ensures !t.head.playing && t.head.steps == p.steps
    ensures t.head.index == Forward(p.index, |p.steps|)
    ensures p.index == |p.steps| - 1 ==> t == Turn(Effect(s, []), p.(playing := false), next)
    ensures p.index < |p.steps| - 1 ==>
      var o := Execute(s, p.history, next, p.steps[p.index + 1]);
      t.effect == o.effect && t.head.history == o.history && t.nextNodeId == o.nextNodeId
  {
    if p.index < |p.steps| - 1 then
      var o := Execute(s, p.history, next, p.steps[p.index + 1]);
      Turn(o.effect, p.(index := p.index + 1, playing := false, history := o.history), o.nextNodeId)
    else
      Turn(Effect(s, []), p.(playing := false), next)
  }

  /**
   * `stepBackward`: stops playing; from a step after the first, runs the step
   * before it again (nothing is undone); from the first, goes back to -1 and
   * only clears the drawing; at -1 does nothing.
   */
  function StepBackwardOp(s: Store, p: Player, next: nat): (t: Turn)
    requires Wellformed(s) && Ready(p)
    ensures Wellformed(t.effect.store) && Ready(t.head)
    ensures !t.head.playing && t.head.steps == p.steps
    ensures t.head.index == Backward(p.index)
    ensures p.index <= 0 ==> t == Turn(Effect(s, []), p.(index := Backward(p.index), playing := false), next)
    ensures p.index > 0 ==>
      var o := Execute(s, p.history, next, p.steps[p.index - 1]);
      t.effect == o.effect && t.head.history == o.history && t.nextNodeId == o.nextNodeId
  {
    if p.index > 0 then
      var o := Execute(s, p.history, next, p.steps[p.index - 1]);
      Turn(o.effect, p.(index := p.index - 1, playing := false, history := o.history), o.nextNodeId)
    else
      Turn(Effect(s, []), p.(index := Backward(p.index), playing := false), next)
  }

  /**
   * `playScript` (and `togglePlayPause`, which does the same): pauses when
   * playing; otherwise starts playing, first resetting the graph and rewinding
   * to -1 when the last step has been reached.
   */
  function PlayScriptOp(s: Store, p: Player, next: nat): (t: Turn)
    requires Wellformed(s) && Ready(p)
    ensures Wellformed(t.effect.store) && Ready(t.head)
    ensures t.nextNodeId == next
    ensures t.head.playing == !p.playing
    ensures t.head.steps == p.steps && t.head.history == p.history
    ensures !p.playing && p.index >= |p.steps| - 1 ==>
      t.effect == Effect(EmptyStore(), [ResetEvent]) && t.head.index == -1
    ensures p.playing || p.index < |p.steps| - 1 ==> t.effect == Effect(s, []) && t.head.index == p.index
  {
    if p.playing then Turn(Effect(s, []), p.(playing := false), next)
    else if p.index >= |p.steps| - 1 then Turn(Effect(EmptyStore(), [ResetEvent]), p.(index := -1, playing := true), next)
    else Turn(Effect(s, []), p.(playing := true), next)
  }

  /**
   * `loadScript`: for a known script, resets the graph, stops, runs the first
   * step and empties the history; for an unknown name, empties the step list
   * and rewinds. `nextNodeId` carries on from where it was.
   */
  function LoadScriptOp(s: Store, p: Player, next: nat, script: Option<seq<Option<Step>>>): (t: Turn)
    requires Wellformed(s) && Ready(p)
    ensures Wellformed(t.effect.store) && Ready(t.head)
    ensures script.None? ==> t == Turn(Effect(s, []), p.(steps := [], index := -1), next)
    ensures script.Some? ==>
      && t.head == Playhead(script.value, if |script.value| > 0 then 0 else -1, false, [])
      && |t.effect.events| > 0 && t.effect.events[0] == ResetEvent
    ensures script.Some? && |script.value| > 0 ==>
      var o := Execute(EmptyStore(), p.history, next, script.value[0]);
      t.effect == Then(Effect(EmptyStore(), [ResetEvent]), o.effect) && t.nextNodeId == o.nextNodeId
    ensures script.Some? && |script.value| == 0 ==> t.effect == Effect(EmptyStore(), [ResetEvent]) && t.nextNodeId == next
  {
    if script.None? then Turn(Effect(s, []), p.(steps := [], index := -1), next)
    else
      var f := StepForwardOp(EmptyStore(), Playhead(script.value, -1, false, p.history), next);
      Turn(Then(Effect(EmptyStore(), [ResetEvent]), f.effect), f.head.(history := []), f.nextNodeId)
  }

  // ---------------------------------------------------------------------------
  // The layout loops, on the page's graph

  /** One `addNode` of `id` with empty data and kind `kind`. */
  method AddNodeInto(graph: Graph, id: string, kind: string, ghost done: Effect, ghost log: seq<Event>)
    requires graph.Applied(done, log)
    modifies graph, graph.sink
    ensures graph.Applied(Then(done, AddNodeOp(done.store, id, NoFields, kind)), log)
  {
    graph.AddNode(id, NoFields, kind);
    LogThen(log, done, AddNodeOp(done.store, id, NoFields, kind));
  }

  /** `addNode` with empty data of "node-" followed by first + k, for k from 0 below `count`. */
  method AddNodes(graph: Graph, first: nat, count: nat, kind: string, ghost done: Effect, ghost log: seq<Event>)
    requires graph.Applied(done, log)
    modifies graph, graph.sink
    ensures graph.Applied(AddNodesRun(done, LayoutIds(first, count), kind), log)
  {
    ghost var ids := LayoutIds(first, count);
    ghost var cur := done;
    for k := 0 to count
      invariant graph.Applied(cur, log)
      invariant AddNodesRun(cur, ids[k..], kind) == AddNodesRun(done, ids, kind)
    {
      assert ids[k..][0] == NodeId(first + k) && ids[k..][1..] == ids[k + 1..];
      AddNodeInto(graph, NodeId(first + k), kind, cur, log);
      cur := Then(cur, AddNodeOp(cur.store, NodeId(first + k), NoFields, kind));
    }
  }

  /** Numbering a run on from where the previous one stopped continues it. */
  lemma RunsCompose(e: Effect, first: nat, a: nat, b: nat, kind: string)
    ensures AddNodesRun(AddNodesRun(e, LayoutIds(first, a), kind), LayoutIds(first + a, b), kind)
      == AddNodesRun(e, LayoutIds(first, a + b), kind)
  {
    LayoutIdsSplit(first, a, b);
    AddNodesRunAppend(e, LayoutIds(first, a), LayoutIds(first + a, b), kind);
  }

  /** The `forEach` of `renderAddCircularRings`, given each ring's node count (0 for an invalid size). */
  method AddRings(graph: Graph, first: nat, counts: seq<nat>, ghost done: Effect, ghost log: seq<Event>) returns (added: nat)
    requires graph.Applied(done, log)
    modifies graph, graph.sink
    ensures added == Sum(counts)
    ensures graph.Applied(AddNodesRun(done, LayoutIds(first, added), "ring"), log)
  {
    added := 0;
    ghost var cur := done;
    for i := 0 to |counts|
      invariant added == Sum(counts[..i])
      invariant cur == AddNodesRun(done, LayoutIds(first, added), "ring")
      invariant graph.Applied(cur, log)
    {
      SumStep(counts, i);
      AddNodes(graph, first + added, counts[i], "ring", cur, log);
      RunsCompose(done, first, added, counts[i], "ring");
      cur := AddNodesRun(cur, LayoutIds(first + added, counts[i]), "ring");
      added := added + counts[i];
    }
    assert counts[..|counts|] == counts;
  }

  /** One more ring adds its count to the sum. */
  lemma SumStep(counts: seq<nat>, i: nat)
    requires i < |counts|
    ensures Sum(counts[..i + 1]) == Sum(counts[..i]) + counts[i]
  {
    assert counts[..i + 1][..i] == counts[..i];
  }

  /** The nested loops of `renderAddTriangularGrid` for `rings` rings: ring 0 has one node, ring r has 6r. */
  method AddGrid(graph: Graph, first: nat, rings: nat, ghost done: Effect, ghost log: seq<Event>) returns (added: nat)
    requires graph.Applied(done, log)
    modifies graph, graph.sink
    ensures added == GridCount(rings)
    ensures graph.Applied(AddNodesRun(done, LayoutIds(first, added), "trigrid"), log)
  {
    added := 0;
    ghost var cur := done;
    for ring := 0 to rings
      invariant added == GridCount(ring)
      invariant cur == AddNodesRun(done, LayoutIds(first, added), "trigrid")
      invariant graph.Applied(cur, log)
    {
      var nodesInRing := GridRing(ring);
      AddNodes(graph, first + added, nodesInRing, "trigrid", cur, log);
      RunsCompose(done, first, added, nodesInRing, "trigrid");
      cur := AddNodesRun(cur, LayoutIds(first + added, nodesInRing), "trigrid");
      added := added + nodesInRing;
    }
  }

  // ---------------------------------------------------------------------------
  // The session

  class Session {
    const graph: Graph
    var steps: seq<Option<Step>>
    var index: int
    var playing: bool
    var history: seq<string>
    var nextNodeId: nat

    function Head(): Player
      reads this
    {
      Playhead(steps, index, playing, history)
    }

    predicate Valid()
      reads this, graph
    {
      graph.Valid() && Ready(Head())
    }

    /** The page's start state: a graph reporting to `sink`, no script, node numbering from 0. */
    constructor (sink: EventSink)
      ensures Valid() && Head() == Playhead([], -1, false, []) && nextNodeId == 0
      ensures graph.State() == EmptyStore() && graph.sink == sink
    {
      graph := new Graph(sink);
      steps := [];
      index := -1;
      playing := false;
      history := [];
      nextNodeId := 0;
    }

    /** `renderAddCircularRings`: the nodes of each valid ring, numbered on from `nextNodeId`; invalid sizes are skipped. */
    method AddCircularRings(ringSizes: RingSizes)
      modifies this`nextNodeId, graph, graph.sink
      ensures var k := if ringSizes.Some? then RingTotal(ringSizes.value) else 0;
        graph.Applied(AddNodesRun(Effect(old(graph.State()), []), LayoutIds(old(nextNodeId), k), "ring"), old(graph.sink.log))
        && nextNodeId == old(nextNodeId) + k
    {
      ghost var e, log := Effect(graph.State(), []), graph.sink.log;
      var first := nextNodeId;
      assert LayoutIds(first, 0) == [];
      if ringSizes.None? {
        return;
      }
      var added := AddRings(graph, first, RingCounts(ringSizes.value), e, log);
      nextNodeId := first + added;
    }

    /** `renderAddTriangularGrid`: for a positive integer count, ring r of 1 or 6r nodes, numbered on from `nextNodeId`. */
    method AddTriangularGrid(numRings: RingCount)
      modifies this`nextNodeId, graph, graph.sink
      ensures var k := if numRings.Some? && PositiveInteger(numRings.value) then GridCount(numRings.value.Floor) else 0;
        graph.Applied(AddNodesRun(Effect(old(graph.State()), []), LayoutIds(old(nextNodeId), k), "trigrid"), old(graph.sink.log))
        && nextNodeId == old(nextNodeId) + k
    {
      ghost var e, log := Effect(graph.State(), []), graph.sink.log;
      var first := nextNodeId;
      assert LayoutIds(first, 0) == [];
      if numRings.None? || !PositiveInteger(numRings.value) {
        return;
      }
      var added := AddGrid(graph, first, numRings.value.Floor, e, log);
      nextNodeId := first + added;
    }

    /** The render functions that change more than the drawing. */
    method RenderStep(name: string, p: Params)
      requires graph.Valid()
      modifies this`history, this`nextNodeId, graph, graph.sink
      ensures var o := Render(old(graph.State()), old(history), old(nextNodeId), name, p);
        graph.Applied(o.effect, old(graph.sink.log)) && history == o.history && nextNodeId == o.nextNodeId
    {
      if name == "select_path" {
        if p.nodeIds.Some? {
          graph.SelectPath(p.nodeIds.value);
        }
      } else if name == "add_circular_rings" {
        AddCircularRings(p.ringSizes);
      } else if name == "add_triangular_grid" {
        AddTriangularGrid(p.numRings);
      } else if name == "message_only" {
        history := Record(history, p.message);
      }
    }

    method ExecuteStep(step: Option<Step>)
      requires graph.Valid()
      modifies this`history, this`nextNodeId, graph, graph.sink
      ensures var o := Execute(old(graph.State()), old(history), old(nextNodeId), step);
        graph.Applied(o.effect, old(graph.sink.log)) && history == o.history && nextNodeId == o.nextNodeId
    {
      if step.None? {
        return;
      }
      history := Record(history, step.value.params.message);
      if step.value.command in Commands {
        RenderStep(step.value.command, step.value.params);
      }
    }

    method StopPlaying()
      modifies this`playing
      ensures !playing
    {
      playing := false;
    }

    method StepForward()
      requires Valid()
      modifies this, graph, graph.sink
      ensures Valid()
      ensures var t := StepForwardOp(old(graph.State()), old(Head()), old(nextNodeId));
        graph.Applied(t.effect, old(graph.sink.log)) && Head() == t.head && nextNodeId == t.nextNodeId
    {
      ghost var s, p, next := graph.State(), Head(), nextNodeId;
      ghost var t := StepForwardOp(s, p, next);
      StopPlaying();
      if index < |steps| - 1 {
        index := index + 1;
        ExecuteStep(steps[index]);
        assert Head() == t.head;
      }
    }

    method StepBackward()
      requires Valid()
      modifies this, graph, graph.sink
      ensures Valid()
      ensures var t := StepBackwardOp(old(graph.State()), old(Head()), old(nextNodeId));
        graph.Applied(t.effect, old(graph.sink.log)) && Head() == t.head && nextNodeId == t.nextNodeId
    {
      ghost var s, p, next := graph.State(), Head(), nextNodeId;
      ghost var t := StepBackwardOp(s, p, next);
      StopPlaying();
      if index > 0 {
        index := index - 1;
        ExecuteStep(steps[index]);
        assert Head() == t.head;
      } else if index == 0 {
        // `resetDisplay` clears the drawing only.
        index := -1;
      }
    }

    method PlayScript()
      requires Valid()
      modifies this`index, this`playing, graph, graph.sink
      ensures Valid()
      ensures var t := PlayScriptOp(old(graph.State()), old(Head()), old(nextNodeId));
        graph.Applied(t.effect, old(graph.sink.log)) && Head() == t.head && nextNodeId == t.nextNodeId
    {
      if playing {
        StopPlaying();
      } else {
        playing := true;
        if index >= |steps| - 1 {
          index := -1;
          graph.ResetGraph();
        }
      }
    }

    method TogglePlayPause()
      requires Valid()
      modifies this`index, this`playing, graph, graph.sink
      ensures Valid()
      ensures var t := PlayScriptOp(old(graph.State()), old(Head()), old(nextNodeId));
        graph.Applied(t.effect, old(graph.sink.log)) && Head() == t.head && nextNodeId == t.nextNodeId
    {
      if playing {
        StopPlaying();
      } else {
        PlayScript();
      }
    }

    /** `loadScript(name)`, where `script` is the named script's steps in the order the sort leaves them, or None for an unknown name. */
    method LoadScript(script: Option<seq<Option<Step>>>)
      requires Valid()
      modifies this, graph, graph.sink
      ensures Valid()
      ensures var t := LoadScriptOp(old(graph.State()), old(Head()), old(nextNodeId), script);
        graph.Applied(t.effect, old(graph.sink.log)) && Head() == t.head && nextNodeId == t.nextNodeId
    {
      if script.None? {
        steps := [];
        index := -1;
        return;
      }
      ghost var log := graph.sink.log;
      steps := script.value;
      index := -1;
      graph.ResetGraph();
      StopPlaying();
      ghost var first := StepForwardOp(EmptyStore(), Head(), nextNodeId);
      StepForward();
      LogThen(log, Effect(EmptyStore(), [ResetEvent]), first.effect);
      history := [];
    }
  }
}
