/**
 * The script player of gru.js. It holds one `Graph` of alf.js, steps through a
 * script of ldr.js steps and, for each step, records the step's message and
 * calls the `Graph` method its first key names (an `else if` chain on the
 * command name). The graph's render callback does nothing in gru.js, so the
 * events it receives only land in the log.
 */
module GruSession {
  import opened JsText
  import opened CostModel
  import opened GraphTypes
  import opened GraphOps
  import opened GraphStore
  import opened Playback

  /** The store and events after a step, the message history, and whether the step returned (false: it threw). */
  datatype Outcome = Outcome(effect: Effect, history: seq<Option<string>>, completed: bool)

  /** The command names the `else if` chain of `executeStep` tests. */
  const Handled: set<string> := {
    "reset", "add_circular_rings", "add_triangular_grid", "add_node", "remove_node",
    "connect_nodes", "select_path", "copy_move_to_focus", "straighten_path",
    "compress_path", "add_compressed_path_to_graph", "message_only"}

  /** A default parameter (`kind = "task"`, `edgeType = "sequence"`), which an undefined argument takes. */
  function Defaulted(v: Option<string>, d: string): string {
    if v.Some? then v.value else d
  }

  /** `params.weight` as the `weight` argument of `addEdge`: undefined becomes null, a number a finite weight. */
  function GivenWeight(w: Option<real>): Option<Cost> {
    if w.Some? then Some(Finite(w.value)) else None
  }

  /**
   * The `else if` chain of `executeStep`, after the message has been recorded.
   * `remove_node` removes the graph's last key whatever `nodeId` says, the ring
   * and grid commands only notify the callback, a `select_path` without
   * `nodeIds` throws, and any other name does nothing.
   */
  function Dispatched(s: Store, history: seq<Option<string>>, step: Step, fuel: nat): (r: Outcome)
    requires Wellformed(s)
    ensures Wellformed(r.effect.store)
    ensures |history| <= 3 ==> |r.history| <= 3
    ensures step.command !in Handled ==> r == Outcome(Effect(s, []), history, true)
    ensures step.command == "remove_node" ==> r == Outcome(RemoveNodeOp(s), history, true)
    ensures step.command == "add_circular_rings" || step.command == "add_triangular_grid" ==>
      r.effect.store == s && |r.effect.events| == 1
    ensures r.completed <==> !(step.command == "select_path" && step.params.nodeIds.None?)
    ensures step.command == "message_only" ==> r == Outcome(Effect(s, []), Push3(history, step.params.message), true)
    ensures step.command != "message_only" ==> r.history == history
  {
    var c, p := step.command, step.params;
    if c == "reset" then Outcome(Effect(EmptyStore(), [ResetEvent]), history, true)
    else if c == "add_circular_rings" then Outcome(Effect(s, [AddCircularRingsEvent(p.ringSizes)]), history, true)
    else if c == "add_triangular_grid" then Outcome(Effect(s, [AddTriangularGridEvent(p.numRings)]), history, true)
    else if c == "add_node" then Outcome(AddNodeOp(s, KeyOf(p.nodeId), p.data, Defaulted(p.kind, "task")), history, true)
    else if c == "remove_node" then Outcome(RemoveNodeOp(s), history, true)
    else if c == "connect_nodes" then
      Outcome(AddEdgeOp(s, KeyOf(p.node1), KeyOf(p.node2), GivenWeight(p.weight), Defaulted(p.edgeType, "sequence")), history, true)
    else if c == "select_path" then
      if p.nodeIds.None? then Outcome(Effect(s, []), history, false)
      else Outcome(SelectPathOp(s, p.nodeIds.value), history, true)
    else if c == "copy_move_to_focus" then Outcome(CopyMoveToFocusOp(s), history, true)
    else if c == "straighten_path" then Outcome(StraightenPathOp(s), history, true)
    else if c == "compress_path" then Outcome(CompressPathOp(s), history, true)
    else if c == "add_compressed_path_to_graph" then
      Outcome(AddCompressedPathOp(s, fuel).effect, history, true)
    else if c == "message_only" then Outcome(Effect(s, []), Push3(history, p.message), true)
    else Outcome(Effect(s, []), history, true)
  }

  /**
   * `executeStep`: nothing for a missing step; otherwise a truthy message is
   * recorded first and then the command runs, so a `message_only` step with a
   * message records it twice.
   */
  function Execute(s: Store, history: seq<Option<string>>, step: Option<Step>, fuel: nat): (r: Outcome)
    requires Wellformed(s)
    ensures Wellformed(r.effect.store)
    ensures |history| <= 3 ==> |r.history| <= 3
    ensures step.None? ==> r == Outcome(Effect(s, []), history, true)
    ensures step.Some? && step.value.command !in Handled ==>
      r == Outcome(Effect(s, []), if Truthy(step.value.params.message) then Push3(history, step.value.params.message) else history, true)
    ensures step.Some? && step.value.command == "message_only" && Truthy(step.value.params.message) ==>
      var m := step.value.params.message;
      r.history == Push3(Push3(history, m), m)
  {
    if step.None? then Outcome(Effect(s, []), history, true)
    else
      var m := step.value.params.message;
      Dispatched(s, if Truthy(m) then Push3(history, m) else history, step.value, fuel)
  }

  /** A message_only step with a message leaves it as the two most recent entries of the history. */
  lemma MessageOnlyRecordedTwice(s: Store, history: seq<Option<string>>, m: string, p: Params, fuel: nat)
    requires Wellformed(s) && |history| <= 3 && m != "" && p.message == Some(m)
    ensures var h := Execute(s, history, Some(Step("message_only", p)), fuel).history;
      |h| >= 2 && h[|h| - 2] == Some(m) && h[|h| - 1] == Some(m)
  {
    var once := Push3(history, Some(m));
    Push3KeepsLastThree(history, Some(m));
    Push3KeepsLastThree(once, Some(m));
  }

  // ---------------------------------------------------------------------------
  // Playback

  type Player = Playhead<Step, Option<string>>

  /** What a player call leaves: store and events, the player's variables, and whether it returned. */
  datatype Turn = Turn(effect: Effect, head: Player, completed: bool)

  /** `stepForward`: stops playing, then runs the next step if there is one; at the last step only stops. */
  function StepForwardOp(s: Store, p: Player, fuel: nat): (t: Turn)
    requires Wellformed(s) && Ready(p)
    ensures Wellformed(t.effect.store) && Ready(t.head)
    ensures !t.head.playing && t.head.steps == p.steps
    ensures t.head.index == Forward(p.index, |p.steps|)
    ensures p.index == |p.steps| - 1 ==> t == Turn(Effect(s, []), p.(playing := false), true)
    ensures p.index < |p.steps| - 1 ==>
      var o := Execute(s, p.history, p.steps[p.index + 1], fuel);
      t.effect == o.effect && t.head.history == o.history && t.completed == o.completed
  {
    if p.index < |p.steps| - 1 then
      var o := Execute(s, p.history, p.steps[p.index + 1], fuel);
      Turn(o.effect, p.(index := p.index + 1, playing := false, history := o.history), o.completed)
    else
      Turn(Effect(s, []), p.(playing := false), true)
  }

  /**
   * `stepBackward`: stops playing; from a step after the first, runs the step
   * before it again (nothing is undone); from the first step, goes back to -1
   * and only clears the display; at -1 does nothing.
   */
  function StepBackwardOp(s: Store, p: Player, fuel: nat): (t: Turn)
    requires Wellformed(s) && Ready(p)
    ensures Wellformed(t.effect.store) && Ready(t.head)
    ensures !t.head.playing && t.head.steps == p.steps
    ensures t.head.index == Backward(p.index)
    ensures p.index <= 0 ==> t == Turn(Effect(s, []), p.(index := Backward(p.index), playing := false), true)
    ensures p.index > 0 ==>
      var o := Execute(s, p.history, p.steps[p.index - 1], fuel);
      t.effect == o.effect && t.head.history == o.history && t.completed == o.completed
  {
    if p.index > 0 then
      var o := Execute(s, p.history, p.steps[p.index - 1], fuel);
      Turn(o.effect, p.(index := p.index - 1, playing := false, history := o.history), o.completed)
    else
      Turn(Effect(s, []), p.(index := Backward(p.index), playing := false), true)
  }

  /** At or before the first step, `stepBackward` only stops and moves the index back. */
  lemma BackwardAtStart(s: Store, p: Player, fuel: nat)
    requires Wellformed(s) && Ready(p) && p.index <= 0
    ensures StepBackwardOp(s, p, fuel) == Turn(Effect(s, []), Playhead(p.steps, Backward(p.index), false, p.history), true)
  {
  }

  /** From a step after the first, `stepBackward` is the step before it run again. */
  lemma BackwardReplays(s: Store, p: Player, fuel: nat) returns (o: Outcome)
    requires Wellformed(s) && Ready(p) && p.index > 0
    ensures o == Execute(s, p.history, p.steps[p.index - 1], fuel)
    ensures StepBackwardOp(s, p, fuel) == Turn(o.effect, Playhead(p.steps, p.index - 1, false, o.history), o.completed)
  {
    o := Execute(s, p.history, p.steps[p.index - 1], fuel);
  }

  /**
   * `playScript` (and `togglePlayPause`, which does the same): pauses when
   * playing; otherwise starts playing, first resetting the graph and rewinding
   * to -1 when the last step has been reached.
   */
  function PlayScriptOp(s: Store, p: Player): (t: Turn)
    requires Wellformed(s) && Ready(p)
    ensures Wellformed(t.effect.store) && Ready(t.head) && t.completed
    ensures t.head.playing == !p.playing
    ensures t.head.steps == p.steps && t.head.history == p.history
    ensures !p.playing && p.index >= |p.steps| - 1 ==>
      t.effect == Effect(EmptyStore(), [ResetEvent]) && t.head.index == -1
    ensures p.playing || p.index < |p.steps| - 1 ==> t.effect == Effect(s, []) && t.head.index == p.index
  {
    if p.playing then Turn(Effect(s, []), p.(playing := false), true)
    else if p.index >= |p.steps| - 1 then Turn(Effect(EmptyStore(), [ResetEvent]), p.(index := -1, playing := true), true)
    else Turn(Effect(s, []), p.(playing := true), true)
  }

  /**
   * `loadScript`: for a known script, resets the graph, stops, runs the first
   * step and then empties the history (which a step that throws skips); for an
   * unknown name, empties the step list and rewinds.
   */
  function LoadScriptOp(s: Store, p: Player, script: Option<seq<Option<Step>>>, fuel: nat): (t: Turn)
    requires Wellformed(s) && Ready(p)
    ensures Wellformed(t.effect.store) && Ready(t.head)
    ensures script.None? ==> t == Turn(Effect(s, []), p.(steps := [], index := -1), true)
    ensures script.Some? ==>
      && t.head.steps == script.value && !t.head.playing
      && t.head.index == (if |script.value| > 0 then 0 else -1)
      && (t.completed ==> t.head.history == [])
      && |t.effect.events| > 0 && t.effect.events[0] == ResetEvent
    ensures script.Some? && |script.value| > 0 ==>
      var o := Execute(EmptyStore(), p.history, script.value[0], fuel);
      t.effect == Then(Effect(EmptyStore(), [ResetEvent]), o.effect) && t.completed == o.completed
    ensures script.Some? && |script.value| == 0 ==> t.effect == Effect(EmptyStore(), [ResetEvent])
  {
    if script.None? then Turn(Effect(s, []), p.(steps := [], index := -1), true)
    else
      var f := StepForwardOp(EmptyStore(), Playhead(script.value, -1, false, p.history), fuel);
      Turn(Then(Effect(EmptyStore(), [ResetEvent]), f.effect),
           if f.completed then f.head.(history := []) else f.head,
           f.completed)
  }

  /** `stopPlaying` twice is `stopPlaying` once, and stepping never leaves playback running. */
  lemma StepsStopPlaying(s: Store, p: Player, fuel: nat)
    requires Wellformed(s) && Ready(p)
    ensures !StepForwardOp(s, p, fuel).head.playing && !StepBackwardOp(s, p, fuel).head.playing
    ensures PlayScriptOp(s, PlayScriptOp(s, p).head).head.playing == p.playing
  {
  }

  // ---------------------------------------------------------------------------
  // The session

  class Session {
    const graph: Graph
    /** The fuel each A* search of `add_compressed_path_to_graph` may use. */
    const fuel: nat
    var steps: seq<Option<Step>>
    var index: int
    var playing: bool
    var history: seq<Option<string>>

    function Head(): Player
      reads this
    {
      Playhead(steps, index, playing, history)
    }

    predicate Valid()
      reads this, graph
    {
      graph.Valid() && Ready(Head())
    }

    /** The page's start state: a new graph reporting to `sink`, no script. */
    constructor (sink: EventSink, fuel: nat)
      ensures Valid() && Head() == Playhead([], -1, false, [])
      ensures graph.State() == EmptyStore() && graph.sink == sink && this.fuel == fuel
    {
      graph := new Graph(sink);
      this.fuel := fuel;
      steps := [];
      index := -1;
      playing := false;
      history := [];
    }

    /** The `else if` chain of `executeStep`. */
    method Dispatch(step: Step) returns (completed: bool)
      requires graph.Valid()
      modifies this`history, graph, graph.sink
      ensures var o := Dispatched(old(graph.State()), old(history), step, fuel);
        graph.Applied(o.effect, old(graph.sink.log)) && history == o.history && completed == o.completed
    {
      var c, p := step.command, step.params;
      completed := true;
      if c == "reset" {
        graph.ResetGraph();
      } else if c == "add_circular_rings" {
        graph.AddCircularRings(p.ringSizes);
      } else if c == "add_triangular_grid" {
        graph.AddTriangularGrid(p.numRings);
      } else if c == "add_node" {
        graph.AddNode(KeyOf(p.nodeId), p.data, Defaulted(p.kind, "task"));
      } else if c == "remove_node" {
        graph.RemoveNode();
      } else if c == "connect_nodes" {
        graph.AddEdge(KeyOf(p.node1), KeyOf(p.node2), GivenWeight(p.weight), Defaulted(p.edgeType, "sequence"));
      } else if c == "select_path" {
        if p.nodeIds.None? {
          completed := false;
        } else {
          graph.SelectPath(p.nodeIds.value);
        }
      } else if c == "copy_move_to_focus" {
        graph.CopyMoveToFocus();
      } else if c == "straighten_path" {
        graph.StraightenPath();
      } else if c == "compress_path" {
        graph.CompressPath();
      } else if c == "add_compressed_path_to_graph" {
        // An async method: whether its search returns, the call hands back a promise.
        var searched := graph.AddCompressedPathToGraph(fuel);
      } else if c == "message_only" {
        history := Push3(history, p.message);
      }
    }

    method ExecuteStep(step: Option<Step>) returns (completed: bool)
      requires graph.Valid()
      modifies this`history, graph, graph.sink
      ensures var o := Execute(old(graph.State()), old(history), step, fuel);
        graph.Applied(o.effect, old(graph.sink.log)) && history == o.history && completed == o.completed
    {
      if step.None? {
        return true;
      }
      var m := step.value.params.message;
      if Truthy(m) {
        history := Push3(history, m);
      }
      completed := Dispatch(step.value);
    }

    method StopPlaying()
      modifies this`playing
      ensures !playing
    {
      playing := false;
    }

    method StepForward() returns (completed: bool)
      requires Valid()
      modifies this, graph, graph.sink
      ensures Valid()
      ensures var t := StepForwardOp(old(graph.State()), old(Head()), fuel);
        graph.Applied(t.effect, old(graph.sink.log)) && Head() == t.head && completed == t.completed
    {
      ghost var s, p := graph.State(), Head();
      ghost var t := StepForwardOp(s, p, fuel);
      StopPlaying();
      completed := true;
      if index < |steps| - 1 {
        index := index + 1;
        completed := ExecuteStep(steps[index]);
        assert Head() == t.head;
      }
    }

    method StepBackward() returns (completed: bool)
      requires Valid()
      modifies this`index, this`playing, this`history, graph, graph.sink
      ensures Valid()
      ensures var t := StepBackwardOp(old(graph.State()), old(Head()), fuel);
        graph.Applied(t.effect, old(graph.sink.log)) && Head() == t.head && completed == t.completed
    {
      ghost var s, p := graph.State(), Head();
      playing := false;  // `stopPlaying`
      completed := true;
      if index > 0 {
        ghost var o := BackwardReplays(s, p, fuel);
        completed := Replay(index - 1);
      } else {
        BackwardAtStart(s, p, fuel);
        if index == 0 {
          // `resetDisplay` clears the drawing only.
          index := -1;
        }
      }
    }

    /** Moves to step `i` and runs it, as `stepBackward` does from the step after it. */
    method Replay(i: nat) returns (completed: bool)
      requires Valid() && i < |steps| && !playing
      modifies this`index, this`history, graph, graph.sink
      ensures Valid()
      ensures var o := Execute(old(graph.State()), old(history), steps[i], fuel);
        && graph.Applied(o.effect, old(graph.sink.log)) && completed == o.completed
        && Head() == Playhead(old(steps), i, false, o.history)
    {
      index := i;
      completed := ExecuteStep(steps[index]);
    }

    method PlayScript()
      requires Valid()
      modifies this, graph, graph.sink
      ensures Valid()
      ensures var t := PlayScriptOp(old(graph.State()), old(Head()));
        graph.Applied(t.effect, old(graph.sink.log)) && Head() == t.head
    {
      if playing {
        StopPlaying();
      } else {
        playing := true;
        if index >= |steps| - 1 {
          index := -1;
          graph.ResetGraph();
        }
      }
    }

    method TogglePlayPause()
      requires Valid()
      modifies this, graph, graph.sink
      ensures Valid()
      ensures var t := PlayScriptOp(old(graph.State()), old(Head()));
        graph.Applied(t.effect, old(graph.sink.log)) && Head() == t.head
    {
      if playing {
        StopPlaying();
      } else {
        PlayScript();
      }
    }

    /** `loadScript(name)`, where `script` is the named script's steps in the order the sort leaves them, or None for an unknown name. */
    method LoadScript(script: Option<seq<Option<Step>>>) returns (completed: bool)
      requires Valid()
      modifies this, graph, graph.sink
      ensures Valid()
      ensures var t := LoadScriptOp(old(graph.State()), old(Head()), script, fuel);
        graph.Applied(t.effect, old(graph.sink.log)) && Head() == t.head && completed == t.completed
    {
      if script.None? {
        steps := [];
        index := -1;
        return true;
      }
      ghost var log := graph.sink.log;
      steps := script.value;
      index := -1;
      graph.ResetGraph();
      StopPlaying();
      ghost var first := StepForwardOp(EmptyStore(), Head(), fuel);
      completed := StepForward();
      LogThen(log, Effect(EmptyStore(), [ResetEvent]), first.effect);
      if completed {
        history := [];
      }
    }
  }
}
