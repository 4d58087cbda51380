/**
 * The script player of main.js. It holds one `Graph` of alf.js and steps
 * through the scripts of scripts.js, whose keys are `step1`, `step2`, ... and
 * whose steps are objects with one field per command. Unlike the players of
 * ldr.js and gru.js, `executeStep` tests every command field on its own, in a
 * fixed order, so one step can call several `Graph` methods; `loadScript`
 * orders the steps by the number after the four-character `step` prefix.
 */
module MainSession {
  import opened JsText
  import opened CostModel
  import opened GraphTypes
  import opened GraphOps
  import opened GraphStore
  import opened Playback

  // ---------------------------------------------------------------------------
  // The script format

  /**
   * A field of a step object as `executeStep` sees it: missing, `null`, some
   * other falsy value (false, 0, NaN, ""), or a truthy value carrying what the
   * player reads from it.
   */
  datatype Field<T> = Undefined | Null | Falsy | Given(value: T)

  /** A field whose value is only compared with `null`. */
  type Flag = Field<()>

  /** The `add_node` configuration: its `id` and, as the node's data, the whole object's cost fields. */
  datatype NodeConfig = NodeConfig(id: Option<string>, fields: TaskData)

  /** The `connect_nodes` value. */
  datatype Link = Link(node1: Option<string>, node2: Option<string>)

  /**
   * A step object. `add_circular_rings` carries None when its truthy value is
   * not an array, `add_triangular_grid` when it is not a number, and
   * `select_path` when it is not an array (`selectPath` then throws).
   */
  datatype StepObject = StepObject(
    message: Option<string>,
    reset: Flag,
    add_circular_rings: Field<RingSizes>,
    add_triangular_grid: Field<RingCount>,
    add_node: Field<NodeConfig>,
    remove_node: Flag,
    connect_nodes: Field<Link>,
    select_path: Field<Option<seq<string>>>,
    copy_move_to_focus: Flag,
    straighten_path: Flag,
    compress_path: Flag,
    add_compressed_path_to_graph: Flag)

  /** A step object with no fields. */
  const Bare: StepObject := StepObject(
    None, Undefined, Undefined, Undefined, Undefined, Undefined,
    Undefined, Undefined, Undefined, Undefined, Undefined, Undefined)

  // ---------------------------------------------------------------------------
  // The step order of `loadScript`

  /** A key the step sort reads a number from: a digit after the first four characters. */
  predicate Numbered(key: string) {
    |key| > 4 && IsDigit(key[4])
  }

  /** The number the step sort reads from a key: the run of digits that starts at the fifth character. */
  function StepNumber(key: string): nat
    requires Numbered(key)
  {
    DigitsValue(DigitPrefix(key[4..]))
  }

  /** An `[key, step]` pair of `Object.entries(script)`. */
  type Entry<S> = (string, Option<S>)

  predicate AllNumbered<S>(entries: seq<Entry<S>>) {
    forall i :: 0 <= i < |entries| ==> Numbered(entries[i].0)
  }

  predicate InStepOrder<S>(entries: seq<Entry<S>>)
    requires AllNumbered(entries)
  {
    forall i, j :: 0 <= i < j < |entries| ==> StepNumber(entries[i].0) <= StepNumber(entries[j].0)
  }

  /** Puts `e` in front of the first entry whose number is not smaller. */
  function InsertEntry<S>(e: Entry<S>, sorted: seq<Entry<S>>): (r: seq<Entry<S>>)
    requires Numbered(e.0) && AllNumbered(sorted)
    ensures AllNumbered(r) && |r| == |sorted| + 1
    ensures multiset(r) == multiset(sorted) + multiset{e}
    ensures r[0] == e || (|sorted| > 0 && r[0] == sorted[0])
  {
    if |sorted| == 0 then [e]
    else if StepNumber(e.0) <= StepNumber(sorted[0].0) then [e] + sorted
    else
      assert sorted == [sorted[0]] + sorted[1..];
      [sorted[0]] + InsertEntry(e, sorted[1..])
  }

  /** An entry no later than the first of entries in step order can go in front of them. */
  lemma ConsInStepOrder<S>(x: Entry<S>, sorted: seq<Entry<S>>)
    requires Numbered(x.0) && AllNumbered(sorted) && InStepOrder(sorted)
    requires |sorted| > 0 ==> StepNumber(x.0) <= StepNumber(sorted[0].0)
    ensures AllNumbered([x] + sorted) && InStepOrder([x] + sorted)
  {
    var r := [x] + sorted;
    forall i, j | 0 <= i < j < |r|
      ensures StepNumber(r[i].0) <= StepNumber(r[j].0)
    {
      assert r[j] == sorted[j - 1];
      if i > 0 {
        assert r[i] == sorted[i - 1];
      }
    }
  }

  /** Inserting into entries in step order keeps them in step order. */
  lemma {:induction false} InsertEntrySorted<S>(e: Entry<S>, sorted: seq<Entry<S>>)
    requires Numbered(e.0) && AllNumbered(sorted) && InStepOrder(sorted)
    ensures InStepOrder(InsertEntry(e, sorted))
  {
    if |sorted| == 0 {
    } else if StepNumber(e.0) <= StepNumber(sorted[0].0) {
      ConsInStepOrder(e, sorted);
    } else {
      var rest := InsertEntry(e, sorted[1..]);
      InsertEntrySorted(e, sorted[1..]);
      ConsInStepOrder(sorted[0], rest);
    }
  }

  /**
   * The `sort` of `loadScript`: by step number, keeping the order of entries
   * with equal numbers (the sort of JavaScript is stable).
   */
  function SortEntries<S>(entries: seq<Entry<S>>): (r: seq<Entry<S>>)
    requires AllNumbered(entries)
    ensures AllNumbered(r) && InStepOrder(r) && |r| == |entries|
    ensures multiset(r) == multiset(entries)
  {
    if |entries| == 0 then []
    else
      assert entries == [entries[0]] + entries[1..];
      var rest := SortEntries(entries[1..]);
      InsertEntrySorted(entries[0], rest);
      InsertEntry(entries[0], rest)
  }

  /** The step values of the sorted entries: `scriptSteps[i][1]`. */
  function StepValues<S>(entries: seq<Entry<S>>): (steps: seq<Option<S>>)
    ensures |steps| == |entries| && forall i :: 0 <= i < |entries| ==> steps[i] == entries[i].1
  {
    seq(|entries|, i requires 0 <= i < |entries| => entries[i].1)
  }

  /** The number is read as digits, not as text: `step2` runs before `step10`, wherever they stand in the script. */
  lemma StepTwoBeforeStepTen<S>(entries: seq<Entry<S>>)
    requires AllNumbered(entries)
    ensures var r := SortEntries(entries);
      forall i, j :: 0 <= i < |r| && 0 <= j < |r| && r[i].0 == "step2" && r[j].0 == "step10" ==> i < j
  {
    assert DigitPrefix("2") == "2";
    assert DigitPrefix("10") == "10" by {
      assert DigitPrefix("0") == "0";
    }
    assert "step2"[4..] == "2" && "step10"[4..] == "10";
    assert DigitsValue("10") == 10 by {
      assert "10"[..1] == "1";
    }
    assert StepNumber("step2") == 2 && StepNumber("step10") == 10;
  }

  // ---------------------------------------------------------------------------
  // executeStep

  /** A `Graph` call one of the tests of `executeStep` makes. */
  datatype Call =
    | ResetCall
    | RingsCall(ringSizes: RingSizes)
    | GridCall(numRings: RingCount)
    | AddNodeCall(id: string, data: TaskData)
    | RemoveNodeCall
    | AddEdgeCall(from: string, to: string)
    | SelectPathCall(ids: Option<seq<string>>)
    | CopyMoveToFocusCall
    | StraightenPathCall
    | CompressPathCall
    | AddCompressedPathCall

  /** The number of the test that makes a call, in the order `executeStep` runs the tests. */
  function Rank(c: Call): (r: nat)
    ensures r < TestCount
  {
    match c
    case ResetCall => 0
    case RingsCall(_) => 1
    case GridCall(_) => 2
    case AddNodeCall(_, _) => 3
    case RemoveNodeCall => 4
    case AddEdgeCall(_, _) => 5
    case SelectPathCall(_) => 6
    case CopyMoveToFocusCall => 7
    case StraightenPathCall => 8
    case CompressPathCall => 9
    case AddCompressedPathCall => 10
  }

  /** The number of tests. */
  const TestCount: nat := 11

  /**
   * Test `k` of `executeStep` and the call it makes when it passes: `reset`,
   * `remove_node` and the four focus commands call only when the field is
   * exactly `null`, the others when it is truthy. `add_node` passes
   * `config.id` as the key, the whole config as the data and no kind, and
   * `connect_nodes` no weight and no edge type.
   */
  function Test(st: StepObject, k: nat): (r: Option<Call>)
    ensures r.Some? ==> Rank(r.value) == k
  {
    if k == 0 then (if st.reset.Null? then Some(ResetCall) else None)
    else if k == 1 then (if st.add_circular_rings.Given? then Some(RingsCall(st.add_circular_rings.value)) else None)
    else if k == 2 then (if st.add_triangular_grid.Given? then Some(GridCall(st.add_triangular_grid.value)) else None)
    else if k == 3 then
      (if st.add_node.Given? then Some(AddNodeCall(KeyOf(st.add_node.value.id), st.add_node.value.fields)) else None)
    else if k == 4 then (if st.remove_node.Null? then Some(RemoveNodeCall) else None)
    else if k == 5 then
      (if st.connect_nodes.Given? then
         Some(AddEdgeCall(KeyOf(st.connect_nodes.value.node1), KeyOf(st.connect_nodes.value.node2)))
       else None)
    else if k == 6 then (if st.select_path.Given? then Some(SelectPathCall(st.select_path.value)) else None)
    else if k == 7 then (if st.copy_move_to_focus.Null? then Some(CopyMoveToFocusCall) else None)
    else if k == 8 then (if st.straighten_path.Null? then Some(StraightenPathCall) else None)
    else if k == 9 then (if st.compress_path.Null? then Some(CompressPathCall) else None)
    else if k == 10 then (if st.add_compressed_path_to_graph.Null? then Some(AddCompressedPathCall) else None)
    else None
  }

  /** The tests in the order `executeStep` runs them. */
  function Tests(st: StepObject): (ts: seq<Option<Call>>)
    ensures |ts| == TestCount && RankedFrom(ts, 0)
    ensures forall k :: 0 <= k < TestCount ==> ts[k] == Test(st, k)
  {
    seq(TestCount, k requires 0 <= k < TestCount => Test(st, k))
  }

  /** Test `i` of `ts` can only make a call of rank `k + i`. */
  predicate RankedFrom(ts: seq<Option<Call>>, k: nat) {
    forall i :: 0 <= i < |ts| && ts[i].Some? ==> Rank(ts[i].value) == k + i
  }

  /** The calls the passing tests make, in order. */
  function Made(ts: seq<Option<Call>>): seq<Call> {
    if |ts| == 0 then [] else (if ts[0].Some? then [ts[0].value] else []) + Made(ts[1..])
  }

  /** The calls a step makes. */
  function Calls(st: StepObject): seq<Call> {
    Made(Tests(st))
  }

  /**
   * One call on a store. `addCompressedPathToGraph` is async: the call itself
   * returns whatever its search does, so only a `selectPath` on a value that
   * is not an array throws.
   */
  function Perform(s: Store, c: Call, fuel: nat): (a: Attempt)
    requires Wellformed(s)
    ensures Wellformed(a.effect.store)
    ensures a.completed <==> !(c.SelectPathCall? && c.ids.None?)
    ensures !a.completed ==> a.effect == Effect(s, [])
  {
    match c
    case ResetCall => Attempt(Effect(EmptyStore(), [ResetEvent]), true)
    case RingsCall(v) => Attempt(Effect(s, [AddCircularRingsEvent(v)]), true)
    case GridCall(v) => Attempt(Effect(s, [AddTriangularGridEvent(v)]), true)
    case AddNodeCall(id, data) => Attempt(AddNodeOp(s, id, data, "task"), true)
    case RemoveNodeCall => Attempt(RemoveNodeOp(s), true)
    case AddEdgeCall(a, b) => Attempt(AddEdgeOp(s, a, b, None, "sequence"), true)
    case SelectPathCall(ids) =>
      if ids.None? then Attempt(Effect(s, []), false) else Attempt(SelectPathOp(s, ids.value), true)
    case CopyMoveToFocusCall => Attempt(CopyMoveToFocusOp(s), true)
    case StraightenPathCall => Attempt(StraightenPathOp(s), true)
    case CompressPathCall => Attempt(CompressPathOp(s), true)
    case AddCompressedPathCall => Attempt(AddCompressedPathOp(s, fuel).effect, true)
  }

  /** The calls made one after the other, from the effect so far, until one throws. */
  function RunCalls(e: Effect, calls: seq<Call>, fuel: nat): (a: Attempt)
    requires Wellformed(e.store)
    ensures Wellformed(a.effect.store)
    decreases |calls|
  {
    if |calls| == 0 then Attempt(e, true)
    else
      var a := Perform(e.store, calls[0], fuel);
      var next := Then(e, a.effect);
      if !a.completed then Attempt(next, false)
      else RunCalls(next, calls[1..], fuel)
  }

  /** The run returns unless one of its calls is a `selectPath` on a value that is not an array. */
  lemma {:induction false} RunCallsReturns(e: Effect, calls: seq<Call>, fuel: nat)
    requires Wellformed(e.store)
    ensures RunCalls(e, calls, fuel).completed <==> SelectPathCall(None) !in calls
    decreases |calls|
  {
    if |calls| > 0 {
      var a := Perform(e.store, calls[0], fuel);
      if a.completed {
        RunCallsReturns(Then(e, a.effect), calls[1..], fuel);
        assert calls == [calls[0]] + calls[1..];
      }
    }
  }

  /** The store and events after a step, the message history, and whether the step returned (false: it threw). */
  datatype Outcome = Outcome(effect: Effect, history: seq<string>, completed: bool)

  /**
   * `executeStep`: nothing for a missing step; otherwise a truthy message is
   * pushed onto the history first, whatever the graph calls do, and then every
   * test runs in turn.
   */
  function Execute(s: Store, history: seq<string>, step: Option<StepObject>, fuel: nat): (r: Outcome)
    requires Wellformed(s)
    ensures Wellformed(r.effect.store)
    ensures |history| <= 3 ==> |r.history| <= 3
    ensures step.None? ==> r == Outcome(Effect(s, []), history, true)
    ensures step.Some? && Truthy(step.value.message) ==>
      r.history == Push3(history, step.value.message.value) && r.history[|r.history| - 1] == step.value.message.value
    ensures step.Some? && !Truthy(step.value.message) ==> r.history == history
  {
    if step.None? then Outcome(Effect(s, []), history, true)
    else
      var st := step.value;
      var h := if Truthy(st.message) then Push3(history, st.message.value) else history;
      var a := RunCalls(Effect(s, []), Calls(st), fuel);
      Outcome(a.effect, h, a.completed)
  }

  /** A step returns unless its `select_path` is truthy but not an array. */
  lemma StepReturns(s: Store, history: seq<string>, st: StepObject, fuel: nat)
    requires Wellformed(s)
    ensures Execute(s, history, Some(st), fuel).completed <==> st.select_path != Given(None)
  {
    RunCallsReturns(Effect(s, []), Calls(st), fuel);
    TestsMakeCalls(st, SelectPathCall(None));
  }

  /** Made from test `k` on: the call of test `k`, if it passes, then those of the tests after it. */
  lemma MadeFrom(ts: seq<Option<Call>>, k: nat)
    requires k < |ts|
    ensures Made(ts[k..]) == (if ts[k].Some? then [ts[k].value] else []) + Made(ts[k + 1..])
  {
    assert ts[k..][1..] == ts[k + 1..];
  }

  lemma {:induction false} MadeMembers(ts: seq<Option<Call>>, c: Call)
    ensures c in Made(ts) <==> Some(c) in ts
  {
    if |ts| > 0 {
      MadeMembers(ts[1..], c);
      assert ts == [ts[0]] + ts[1..];
    }
  }

  /** The calls have ranks from `k` up, strictly rising. */
  predicate Increasing(calls: seq<Call>, k: nat) {
    && (forall i :: 0 <= i < |calls| ==> k <= Rank(calls[i]))
    && (forall i, j :: 0 <= i < j < |calls| ==> Rank(calls[i]) < Rank(calls[j]))
  }

  lemma {:induction false} MadeOrdered(ts: seq<Option<Call>>, k: nat)
    requires RankedFrom(ts, k)
    ensures Increasing(Made(ts), k)
  {
    if |ts| > 0 {
      var tail := ts[1..];
      assert RankedFrom(tail, k + 1) by {
        forall i | 0 <= i < |tail| && tail[i].Some?
          ensures Rank(tail[i].value) == k + 1 + i
        {
          assert tail[i] == ts[i + 1];
        }
      }
      MadeOrdered(tail, k + 1);
      PrependIncreasing(if ts[0].Some? then [ts[0].value] else [], Made(tail), k);
    }
  }

  /** A call of rank `k`, or none, before calls ranked from `k + 1` up keeps the ranks rising. */
  lemma PrependIncreasing(first: seq<Call>, rest: seq<Call>, k: nat)
    requires |first| <= 1 && (|first| == 1 ==> Rank(first[0]) == k)
    requires Increasing(rest, k + 1)
    ensures Increasing(first + rest, k)
  {
    var r := first + rest;
    forall i | 0 <= i < |r|
      ensures k <= Rank(r[i])
    {
      if i >= |first| {
        assert r[i] == rest[i - |first|];
      }
    }
    forall i, j | 0 <= i < j < |r|
      ensures Rank(r[i]) < Rank(r[j])
    {
      assert r[j] == rest[j - |first|];
      if i >= |first| {
        assert r[i] == rest[i - |first|];
      }
    }
  }

  lemma {:induction false} MadeOfNone(ts: seq<Option<Call>>)
    requires forall i :: 0 <= i < |ts| ==> ts[i].None?
    ensures Made(ts) == []
  {
    if |ts| > 0 {
      MadeOfNone(ts[1..]);
    }
  }

  /** A call is made exactly when the test of its rank makes it. */
  lemma TestsMakeCalls(st: StepObject, c: Call)
    ensures c in Calls(st) <==> Tests(st)[Rank(c)] == Some(c)
  {
    MadeMembers(Tests(st), c);
  }

  /**
   * The tests are independent: each call is made exactly when its own field
   * passes its test, whatever the other fields hold.
   */
  lemma NullTestedFields(st: StepObject)
    ensures ResetCall in Calls(st) <==> st.reset == Null
    ensures RemoveNodeCall in Calls(st) <==> st.remove_node == Null
    ensures CopyMoveToFocusCall in Calls(st) <==> st.copy_move_to_focus == Null
    ensures StraightenPathCall in Calls(st) <==> st.straighten_path == Null
    ensures CompressPathCall in Calls(st) <==> st.compress_path == Null
    ensures AddCompressedPathCall in Calls(st) <==> st.add_compressed_path_to_graph == Null
  {
    TestsMakeCalls(st, ResetCall);
    TestsMakeCalls(st, RemoveNodeCall);
    TestsMakeCalls(st, CopyMoveToFocusCall);
    TestsMakeCalls(st, StraightenPathCall);
    TestsMakeCalls(st, CompressPathCall);
    TestsMakeCalls(st, AddCompressedPathCall);
  }

  /**
   * The other fields call when they are truthy, with what they hold. (The key
   * of `add_node` and the ends of `connect_nodes` are `undefined` when
   * missing, which the `Graph` reads as the key "undefined".)
   */
  lemma TruthyTestedFields(st: StepObject)
    ensures forall v :: RingsCall(v) in Calls(st) <==> st.add_circular_rings == Given(v)
    ensures forall v :: GridCall(v) in Calls(st) <==> st.add_triangular_grid == Given(v)
    ensures forall v :: SelectPathCall(v) in Calls(st) <==> st.select_path == Given(v)
    ensures forall c: NodeConfig :: st.add_node == Given(c) ==> AddNodeCall(KeyOf(c.id), c.fields) in Calls(st)
    ensures forall id, data :: AddNodeCall(id, data) in Calls(st) ==> st.add_node.Given?
    ensures forall l: Link :: st.connect_nodes == Given(l) ==> AddEdgeCall(KeyOf(l.node1), KeyOf(l.node2)) in Calls(st)
    ensures forall a, b :: AddEdgeCall(a, b) in Calls(st) ==> st.connect_nodes.Given?
  {
    forall v {
      TestsMakeCalls(st, RingsCall(v));
    }
    forall v {
      TestsMakeCalls(st, GridCall(v));
    }
    forall v {
      TestsMakeCalls(st, SelectPathCall(v));
    }
    forall id, data {
      TestsMakeCalls(st, AddNodeCall(id, data));
    }
    forall a, b {
      TestsMakeCalls(st, AddEdgeCall(a, b));
    }
  }

  /** The calls of a step come in the fixed order of the tests, at most one per test. */
  lemma CallsInTestOrder(st: StepObject)
    ensures var r := Calls(st); forall i, j :: 0 <= i < j < |r| ==> Rank(r[i]) < Rank(r[j])
  {
    var r := Calls(st);
    MadeOrdered(Tests(st), 0);
    assert r == Made(Tests(st));
  }

  /**
   * A throwing `selectPath` ends the step: the calls of the tests after it
   * are not made, so the step does what the same step without those fields
   * does.
   */
  lemma ThrowSkipsLaterTests(s: Store, history: seq<string>, st: StepObject, fuel: nat)
    requires Wellformed(s) && st.select_path == Given(None)
    ensures var cut := st.(copy_move_to_focus := Undefined, straighten_path := Undefined,
                           compress_path := Undefined, add_compressed_path_to_graph := Undefined);
      Execute(s, history, Some(st), fuel) == Execute(s, history, Some(cut), fuel)
  {
    var cut := st.(copy_move_to_focus := Undefined, straighten_path := Undefined,
                   compress_path := Undefined, add_compressed_path_to_graph := Undefined);
    var ts, us := Tests(st), Tests(cut);
    assert ts[..7] == us[..7] by {
      forall i | 0 <= i < 7
        ensures ts[i] == us[i]
      {
      }
    }
    SameRunUpToThrow(Effect(s, []), ts, us, 6, fuel);
  }

  /** Runs that agree up to a throwing call agree. */
  lemma {:induction false} SameRunUpToThrow(e: Effect, ts: seq<Option<Call>>, us: seq<Option<Call>>, j: nat, fuel: nat)
    requires Wellformed(e.store) && j < |ts| && j < |us|
    requires forall i :: 0 <= i <= j ==> ts[i] == us[i]
    requires ts[j] == Some(SelectPathCall(None))
    ensures RunCalls(e, Made(ts), fuel) == RunCalls(e, Made(us), fuel)
    decreases j
  {
    RunMade(e, ts, fuel);
    RunMade(e, us, fuel);
    if j > 0 {
      var a := Perform(e.store, if ts[0].Some? then ts[0].value else ResetCall, fuel);
      var next := if ts[0].Some? then Then(e, a.effect) else e;
      assert forall i :: 0 <= i <= j - 1 ==> ts[1..][i] == us[1..][i];
      SameRunUpToThrow(next, ts[1..], us[1..], j - 1, fuel);
    }
  }

  /** A run of the calls tests make: the first test's call, if it makes one, and then the others' unless it threw. */
  lemma RunMade(e: Effect, ts: seq<Option<Call>>, fuel: nat)
    requires Wellformed(e.store) && |ts| > 0
    ensures ts[0].None? ==> RunCalls(e, Made(ts), fuel) == RunCalls(e, Made(ts[1..]), fuel)
    ensures ts[0].Some? ==>
      var a := Perform(e.store, ts[0].value, fuel);
      RunCalls(e, Made(ts), fuel) ==
        if a.completed then RunCalls(Then(e, a.effect), Made(ts[1..]), fuel) else Attempt(Then(e, a.effect), false)
  {
    if ts[0].Some? {
      assert Made(ts)[1..] == Made(ts[1..]);
    } else {
      assert Made(ts) == [] + Made(ts[1..]) == Made(ts[1..]);
    }
  }

  /**
   * One step can change the graph several times: `{reset: null, add_node: c}`
   * empties the graph and then adds the configured node, so it leaves exactly
   * that node, of kind `task` and with no edges.
   */
  lemma ResetThenAddNode(s: Store, history: seq<string>, c: NodeConfig, fuel: nat)
    requires Wellformed(s)
    ensures var r := Execute(s, history, Some(Bare.(reset := Null, add_node := Given(c))), fuel);
      && r.completed
      && r.effect.store.nodes.entries.Keys == {KeyOf(c.id)}
      && r.effect.store.nodes.entries[KeyOf(c.id)] == Node(c.fields, r.effect.store.nodes.entries[KeyOf(c.id)].edges, "task")
      && r.effect.events == [ResetEvent, AddNodeEvent(KeyOf(c.id), c.fields, "task")]
  {
    var add := AddNodeCall(KeyOf(c.id), c.fields);
    ResetAndAddNodeCalls(c);
    var first := Then(Effect(s, []), Perform(s, ResetCall, fuel).effect);
    assert RunCalls(Effect(s, []), [ResetCall, add], fuel) == RunCalls(first, [add], fuel);
  }

  /** The calls of a step holding only `reset: null` and `add_node`. */
  lemma ResetAndAddNodeCalls(c: NodeConfig)
    ensures Calls(Bare.(reset := Null, add_node := Given(c))) == [ResetCall, AddNodeCall(KeyOf(c.id), c.fields)]
  {
    var ts := Tests(Bare.(reset := Null, add_node := Given(c)));
    MadeOfNone(ts[4..]);
    MadeFrom(ts, 3);
    MadeFrom(ts, 2);
    MadeFrom(ts, 1);
    MadeFrom(ts, 0);
    assert ts[0..] == ts;
  }

  // ---------------------------------------------------------------------------
  // Playback
  //
  // main.js and gru.js write the same player code, but it runs different
  // steps: here a step is a `StepObject` whose calls come from the tests of
  // `executeStep`, there it is a command with parameters. The players share
  // `Playback.Playhead`; the functions below are this page's own, over its
  // own `Execute`.

  type Player = Playhead<StepObject, string>

  /** What a player call leaves: store and events, the player's variables, and whether it returned. */
  datatype Turn = Turn(effect: Effect, head: Player, completed: bool)

  /** `stepForward`: stops playing, then runs the next step if there is one; at the last step only stops. */
  function StepForwardOp(s: Store, p: Player, fuel: nat): (t: Turn)
    requires Wellformed(s) && Ready(p)
    ensures Wellformed(t.effect.store) && Ready(t.head)
    ensures !t.head.playing && t.head.steps == p.steps
    ensures t.head.index == Forward(p.index, |p.steps|)
    ensures p.index == |p.steps| - 1 ==> t == Turn(Effect(s, []), p.(playing := false), true)
    ensures p.index < |p.steps| - 1 ==>
      var o := Execute(s, p.history, p.steps[p.index + 1], fuel);
      t.effect == o.effect && t.head.history == o.history && t.completed == o.completed
  {
    if p.index < |p.steps| - 1 then
      var o := Execute(s, p.history, p.steps[p.index + 1], fuel);
      Turn(o.effect, p.(index := p.index + 1, playing := false, history := o.history), o.completed)
    else
      Turn(Effect(s, []), p.(playing := false), true)
  }

  /**
   * `stepBackward`: stops playing; from a step after the first, runs the step
   * before it again (nothing is undone); from the first step, goes back to -1
   * and only clears the drawing; at -1 does nothing.
   */
  function StepBackwardOp(s: Store, p: Player, fuel: nat): (t: Turn)
    requires Wellformed(s) && Ready(p)
    ensures Wellformed(t.effect.store) && Ready(t.head)
    ensures !t.head.playing && t.head.steps == p.steps
    ensures t.head.index == Backward(p.index)
    ensures p.index <= 0 ==> t == Turn(Effect(s, []), p.(index := Backward(p.index), playing := false), true)
    ensures p.index > 0 ==>
      var o := Execute(s, p.history, p.steps[p.index - 1], fuel);
      t.effect == o.effect && t.head.history == o.history && t.completed == o.completed
  {
    if p.index > 0 then
      var o := Execute(s, p.history, p.steps[p.index - 1], fuel);
      Turn(o.effect, p.(index := p.index - 1, playing := false, history := o.history), o.completed)
    else
      Turn(Effect(s, []), p.(index := Backward(p.index), playing := false), true)
  }

  /** At or before the first step, `stepBackward` only stops and moves the index back. */
  lemma BackwardAtStart(s: Store, p: Player, fuel: nat)
    requires Wellformed(s) && Ready(p) && p.index <= 0
    ensures StepBackwardOp(s, p, fuel) == Turn(Effect(s, []), Playhead(p.steps, Backward(p.index), false, p.history), true)
  {
  }

  /** From a step after the first, `stepBackward` is the step before it run again. */
  lemma BackwardReplays(s: Store, p: Player, fuel: nat) returns (o: Outcome)
    requires Wellformed(s) && Ready(p) && p.index > 0
    ensures o == Execute(s, p.history, p.steps[p.index - 1], fuel)
    ensures StepBackwardOp(s, p, fuel) == Turn(o.effect, Playhead(p.steps, p.index - 1, false, o.history), o.completed)
  {
    o := Execute(s, p.history, p.steps[p.index - 1], fuel);
  }

  /**
   * `playScript` (and `togglePlayPause`, which does the same): pauses when
   * playing; otherwise starts playing, first resetting the graph and rewinding
   * to -1 when the last step has been reached.
   */
  function PlayScriptOp(s: Store, p: Player): (t: Turn)
    requires Wellformed(s) && Ready(p)
    ensures Wellformed(t.effect.store) && Ready(t.head) && t.completed
    ensures t.head.playing == !p.playing
    ensures t.head.steps == p.steps && t.head.history == p.history
    ensures !p.playing && p.index >= |p.steps| - 1 ==>
      t.effect == Effect(EmptyStore(), [ResetEvent]) && t.head.index == -1
    ensures p.playing || p.index < |p.steps| - 1 ==> t.effect == Effect(s, []) && t.head.index == p.index
  {
    if p.playing then Turn(Effect(s, []), p.(playing := false), true)
    else if p.index >= |p.steps| - 1 then Turn(Effect(EmptyStore(), [ResetEvent]), p.(index := -1, playing := true), true)
    else Turn(Effect(s, []), p.(playing := true), true)
  }

  /**
   * `loadScript`: for a known script, orders its entries by step number,
   * resets the graph, stops and runs the first step, keeping the message
   * history; for an unknown name, empties the step list and rewinds.
   */
  function LoadScriptOp(s: Store, p: Player, script: Option<seq<Entry<StepObject>>>, fuel: nat): (t: Turn)
    requires Wellformed(s) && Ready(p)
    requires script.Some? ==> AllNumbered(script.value)
    ensures Wellformed(t.effect.store) && Ready(t.head)
    ensures script.None? ==> t == Turn(Effect(s, []), p.(steps := [], index := -1), true)
    ensures script.Some? ==>
      var sorted := SortEntries(script.value);
      && InStepOrder(sorted) && multiset(sorted) == multiset(script.value)
      && t.head.steps == StepValues(sorted) && !t.head.playing
      && t.head.index == (if |script.value| > 0 then 0 else -1)
      && |t.effect.events| > 0 && t.effect.events[0] == ResetEvent
    ensures script.Some? && |script.value| > 0 ==>
      var o := Execute(EmptyStore(), p.history, StepValues(SortEntries(script.value))[0], fuel);
      t.effect == Then(Effect(EmptyStore(), [ResetEvent]), o.effect) && t.head.history == o.history && t.completed == o.completed
    ensures script.Some? && |script.value| == 0 ==> t.effect == Effect(EmptyStore(), [ResetEvent]) && t.head.history == p.history
  {
    if script.None? then Turn(Effect(s, []), p.(steps := [], index := -1), true)
    else
      var steps := StepValues(SortEntries(script.value));
      var f := StepForwardOp(EmptyStore(), Playhead(steps, -1, false, p.history), fuel);
      Turn(Then(Effect(EmptyStore(), [ResetEvent]), f.effect), f.head, f.completed)
  }

  // ---------------------------------------------------------------------------
  // The session

  /** The module-level variables of main.js and the `graph` they drive. */
  class Session {
    const graph: Graph
    /** The fuel each A* search of `add_compressed_path_to_graph` may use. */
    const fuel: nat
    var steps: seq<Option<StepObject>>
    var index: int
    var playing: bool
    var history: seq<string>

    function Head(): Player
      reads this
    {
      Playhead(steps, index, playing, history)
    }

    predicate Valid()
      reads this, graph
    {
      graph.Valid() && Ready(Head())
    }

    /** The page's start state: a new graph reporting to `sink`, no script. */
    constructor (sink: EventSink, fuel: nat)
      ensures Valid() && Head() == Playhead([], -1, false, [])
      ensures graph.State() == EmptyStore() && graph.sink == sink && this.fuel == fuel
    {
      graph := new Graph(sink);
      this.fuel := fuel;
      steps := [];
      index := -1;
      playing := false;
      history := [];
    }

    /** One graph call of `executeStep`, after the calls `done` stands for. */
    method Call(c: Call, ghost done: Effect, ghost log: seq<Event>) returns (returned: bool, ghost next: Effect)
      requires graph.Valid() && graph.Applied(done, log)
      modifies graph, graph.sink
      ensures graph.Valid() && graph.Applied(next, log)
      ensures var a := Perform(done.store, c, fuel); next == Then(done, a.effect) && returned == a.completed
    {
      if Rank(c) < 6 {
        returned, next := BuildCall(c, done, log);
      } else {
        returned, next := PathCall(c, done, log);
      }
    }

    /** A call of the tests that build the graph: reset, the layouts, `addNode`, `removeNode`, `addEdge`. */
    method BuildCall(c: Call, ghost done: Effect, ghost log: seq<Event>) returns (returned: bool, ghost next: Effect)
      requires graph.Valid() && graph.Applied(done, log) && Rank(c) < 6
      modifies graph, graph.sink
      ensures graph.Valid() && graph.Applied(next, log)
      ensures var a := Perform(done.store, c, fuel); next == Then(done, a.effect) && returned == a.completed
    {
      ghost var a := Perform(done.store, c, fuel);
      returned := true;
      match c {
        case ResetCall => graph.ResetGraph();
        case RingsCall(v) => graph.AddCircularRings(v);
        case GridCall(v) => graph.AddTriangularGrid(v);
        case AddNodeCall(id, data) => graph.AddNode(id, data, "task");
        case RemoveNodeCall => graph.RemoveNode();
        case AddEdgeCall(from, to) => graph.AddEdge(from, to, None, "sequence");
      }
      next := Then(done, a.effect);
      LogThen(log, done, a.effect);
    }

    /** A call of the tests that work on a path: selection, focus, straightening, compression. */
    method PathCall(c: Call, ghost done: Effect, ghost log: seq<Event>) returns (returned: bool, ghost next: Effect)
      requires graph.Valid() && graph.Applied(done, log) && Rank(c) >= 6
      modifies graph, graph.sink
      ensures graph.Valid() && graph.Applied(next, log)
      ensures var a := Perform(done.store, c, fuel); next == Then(done, a.effect) && returned == a.completed
    {
      ghost var a := Perform(done.store, c, fuel);
      returned := true;
      match c {
        case SelectPathCall(ids) =>
          if ids.None? {
            returned := false;
          } else {
            graph.SelectPath(ids.value);
          }
        case CopyMoveToFocusCall => graph.CopyMoveToFocus();
        case StraightenPathCall => graph.StraightenPath();
        case CompressPathCall => graph.CompressPath();
        case AddCompressedPathCall =>
          // An async method: whether its search returns, the call hands back a promise.
          var searched := graph.AddCompressedPathToGraph(fuel);
      }
      next := Then(done, a.effect);
      LogThen(log, done, a.effect);
    }

    /** Test `k` of `executeStep`, after the calls of the tests before it. */
    method RunTest(st: StepObject, k: nat, ghost done: Effect, ghost log: seq<Event>, ghost target: Attempt)
      returns (returned: bool, ghost next: Effect)
      requires k < TestCount && graph.Valid() && graph.Applied(done, log)
      requires RunCalls(done, Made(Tests(st)[k..]), fuel) == target
      modifies graph, graph.sink
      ensures graph.Valid() && graph.Applied(next, log)
      ensures k != 6 ==> returned
      ensures returned ==> RunCalls(next, Made(Tests(st)[k + 1..]), fuel) == target
      ensures !returned ==> target == Attempt(next, false)
    {
      Stage(done, st, k, fuel);
      var t := Test(st, k);
      returned, next := true, done;
      if t.Some? {
        returned, next := Call(t.value, done, log);
      }
    }

    /** The tests of `executeStep` that build the graph, one after the other; none of them throws. */
    method RunBuildTests(st: StepObject, ghost done: Effect, ghost log: seq<Event>, ghost target: Attempt)
      returns (ghost next: Effect)
      requires graph.Valid() && graph.Applied(done, log)
      requires RunCalls(done, Made(Tests(st)[0..]), fuel) == target
      modifies graph, graph.sink
      ensures graph.Valid() && graph.Applied(next, log)
      ensures RunCalls(next, Made(Tests(st)[4..]), fuel) == target
    {
      next := RunTwoTests(st, 0, done, log, target);  // reset, add_circular_rings
      next := RunTwoTests(st, 2, next, log, target);  // add_triangular_grid, add_node
    }

    /** Tests `k` and `k + 1` of `executeStep`, neither of which throws. */
    method RunTwoTests(st: StepObject, k: nat, ghost done: Effect, ghost log: seq<Event>, ghost target: Attempt)
      returns (ghost next: Effect)
      requires k + 1 < TestCount && k != 6 && k + 1 != 6
      requires graph.Valid() && graph.Applied(done, log)
      requires RunCalls(done, Made(Tests(st)[k..]), fuel) == target
      modifies graph, graph.sink
      ensures graph.Valid() && graph.Applied(next, log)
      ensures RunCalls(next, Made(Tests(st)[k + 2..]), fuel) == target
    {
      var returned;
      returned, next := RunTest(st, k, done, log, target);
      returned, next := RunTest(st, k + 1, next, log, target);
    }

    /** The tests of `executeStep` from `remove_node` to `select_path`; only the last can throw. */
    method RunPathTests(st: StepObject, ghost done: Effect, ghost log: seq<Event>, ghost target: Attempt)
      returns (returned: bool, ghost next: Effect)
      requires graph.Valid() && graph.Applied(done, log)
      requires RunCalls(done, Made(Tests(st)[4..]), fuel) == target
      modifies graph, graph.sink
      ensures graph.Valid() && graph.Applied(next, log)
      ensures returned ==> RunCalls(next, Made(Tests(st)[7..]), fuel) == target
      ensures !returned ==> target == Attempt(next, false)
    {
      next := done;
      returned, next := RunTest(st, 4, next, log, target);  // remove_node
      returned, next := RunTest(st, 5, next, log, target);  // connect_nodes
      returned, next := RunTest(st, 6, next, log, target);  // select_path
    }

    /** The focus tests of `executeStep`, after `select_path`; none of them throws. */
    method RunFocusTests(st: StepObject, ghost done: Effect, ghost log: seq<Event>, ghost target: Attempt)
      returns (ghost next: Effect)
      requires graph.Valid() && graph.Applied(done, log)
      requires RunCalls(done, Made(Tests(st)[7..]), fuel) == target
      modifies graph, graph.sink
      ensures graph.Valid() && graph.Applied(next, log)
      ensures target == Attempt(next, true)
    {
      next := RunTwoTests(st, 7, done, log, target);  // copy_move_to_focus, straighten_path
      next := RunTwoTests(st, 9, next, log, target);  // compress_path, add_compressed_path_to_graph
      assert Tests(st)[TestCount..] == [];
    }

    /** The tests of `executeStep`, one after the other; only a throw in `selectPath` stops them. */
    method RunTests(st: StepObject) returns (completed: bool)
      requires graph.Valid()
      modifies graph, graph.sink
      ensures graph.Valid()
      ensures var a := RunCalls(Effect(old(graph.State()), []), Calls(st), fuel);
        graph.Applied(a.effect, old(graph.sink.log)) && completed == a.completed
    {
      ghost var log := graph.sink.log;
      ghost var e := Effect(graph.State(), []);
      ghost var target := RunCalls(e, Calls(st), fuel);
      assert Tests(st)[0..] == Tests(st);
      e := RunBuildTests(st, e, log, target);
      completed, e := RunPathTests(st, e, log, target);
      if completed {
        e := RunFocusTests(st, e, log, target);
      }
    }

    method ExecuteStep(step: Option<StepObject>) returns (completed: bool)
      requires graph.Valid()
      modifies this`history, graph, graph.sink
      ensures graph.Valid()
      ensures var o := Execute(old(graph.State()), old(history), step, fuel);
        graph.Applied(o.effect, old(graph.sink.log)) && history == o.history && completed == o.completed
    {
      if step.None? {
        return true;
      }
      var st := step.value;
      if Truthy(st.message) {
        history := Push3(history, st.message.value);
      }
      completed := RunTests(st);
    }

    method StopPlaying()
      modifies this`playing
      ensures !playing
    {
      playing := false;
    }

    method StepForward() returns (completed: bool)
      requires Valid()
      modifies this, graph, graph.sink
      ensures Valid()
      ensures var t := StepForwardOp(old(graph.State()), old(Head()), fuel);
        graph.Applied(t.effect, old(graph.sink.log)) && Head() == t.head && completed == t.completed
    {
      ghost var s, p := graph.State(), Head();
      ghost var t := StepForwardOp(s, p, fuel);
      StopPlaying();
      completed := true;
      if index < |steps| - 1 {
        index := index + 1;
        completed := ExecuteStep(steps[index]);
        assert Head() == t.head;
      }
    }

    method StepBackward() returns (completed: bool)
      requires Valid()
      modifies this`index, this`playing, this`history, graph, graph.sink
      ensures Valid()
      ensures var t := StepBackwardOp(old(graph.State()), old(Head()), fuel);
        graph.Applied(t.effect, old(graph.sink.log)) && Head() == t.head && completed == t.completed
    {
      ghost var s, p := graph.State(), Head();
      playing := false;  // `stopPlaying`
      completed := true;
      if index > 0 {
        ghost var o := BackwardReplays(s, p, fuel);
        completed := Replay(index - 1);
      } else {
        BackwardAtStart(s, p, fuel);
        if index == 0 {
          // `resetDisplay` clears the drawing only.
          index := -1;
        }
      }
    }

    /** Moves to step `i` and runs it, as `stepBackward` does from the step after it. */
    method Replay(i: nat) returns (completed: bool)
      requires Valid() && i < |steps| && !playing
      modifies this`index, this`history, graph, graph.sink
      ensures Valid()
      ensures var o := Execute(old(graph.State()), old(history), steps[i], fuel);
        && graph.Applied(o.effect, old(graph.sink.log)) && completed == o.completed
        && Head() == Playhead(old(steps), i, false, o.history)
    {
      index := i;
      completed := ExecuteStep(steps[index]);
    }

    method PlayScript()
      requires Valid()
      modifies this, graph, graph.sink
      ensures Valid()
      ensures var t := PlayScriptOp(old(graph.State()), old(Head()));
        graph.Applied(t.effect, old(graph.sink.log)) && Head() == t.head
    {
      if playing {
        StopPlaying();
      } else {
        playing := true;
        if index >= |steps| - 1 {
          index := -1;
          graph.ResetGraph();
        }
      }
    }

    method TogglePlayPause()
      requires Valid()
      modifies this, graph, graph.sink
      ensures Valid()
      ensures var t := PlayScriptOp(old(graph.State()), old(Head()));
        graph.Applied(t.effect, old(graph.sink.log)) && Head() == t.head
    {
      if playing {
        StopPlaying();
      } else {
        PlayScript();
      }
    }

    /** `loadScript(name)`, where `script` is `Object.entries` of the named script, or None for an unknown name. */
    method LoadScript(script: Option<seq<Entry<StepObject>>>) returns (completed: bool)
      requires Valid()
      requires script.Some? ==> AllNumbered(script.value)
      modifies this, graph, graph.sink
      ensures Valid()
      ensures var t := LoadScriptOp(old(graph.State()), old(Head()), script, fuel);
        graph.Applied(t.effect, old(graph.sink.log)) && Head() == t.head && completed == t.completed
    {
      if script.None? {
        steps := [];
        index := -1;
        return true;
      }
      ghost var log := graph.sink.log;
      var sorted := SortEntries(script.value);
      steps := StepValues(sorted);
      index := -1;
      graph.ResetGraph();
      StopPlaying();
      ghost var first := StepForwardOp(EmptyStore(), Head(), fuel);
      completed := StepForward();
      LogThen(log, Effect(EmptyStore(), [ResetEvent]), first.effect);
    }
  }

  /** Test `k` in terms of the tests after it: its call, if it makes one, runs first, and a throw ends the run. */
  lemma Stage(e: Effect, st: StepObject, k: nat, fuel: nat)
    requires Wellformed(e.store) && k < TestCount
    ensures var t := Test(st, k);
      t.None? ==> RunCalls(e, Made(Tests(st)[k..]), fuel) == RunCalls(e, Made(Tests(st)[k + 1..]), fuel)
    ensures var t := Test(st, k);
      t.Some? ==>
      var a := Perform(e.store, t.value, fuel);
      RunCalls(e, Made(Tests(st)[k..]), fuel) ==
        if a.completed then RunCalls(Then(e, a.effect), Made(Tests(st)[k + 1..]), fuel) else Attempt(Then(e, a.effect), false)
  {
    var ts := Tests(st);
    RunMade(e, ts[k..], fuel);
    assert ts[k..][0] == Test(st, k) && ts[k..][1..] == ts[k + 1..];
  }
}
