/**
 * What the four script interpreters (ldr.js, gru.js, main.js and
 * _archive/main.js) share: the three-entry message history, the step index
 * that `stepForward` and `stepBackward` move, the node counts and ids of the
 * ring and triangular-grid layouts, and the script format of ldr.js, which
 * gru.js reads too.
 */
module Playback {
  import opened JsText
  import opened CostModel
  import opened GraphTypes

  // ---------------------------------------------------------------------------
  // The message history

  /** Appends `m` to the message history and keeps only its last three entries. */
  function Push3<T>(history: seq<T>, m: T): seq<T> {
    var h := history + [m];
    if |h| > 3 then h[1..] else h
  }

  /** The last three entries of `s`, or all of them when there are fewer. */
  function LastThree<T>(s: seq<T>): (r: seq<T>)
    ensures |r| == if |s| > 3 then 3 else |s|
    ensures r <= s || (|s| > 3 && r == s[|s| - 3..])
  {
    if |s| > 3 then s[|s| - 3..] else s
  }

  /** Pushing onto a history of at most three keeps the three most recent messages. */
  lemma Push3KeepsLastThree<T>(history: seq<T>, m: T)
    requires |history| <= 3
    ensures Push3(history, m) == LastThree(history + [m])
    ensures |Push3(history, m)| <= 3 && Push3(history, m)[|Push3(history, m)| - 1] == m
  {
  }

  /** The history after pushing each message of `ms` in turn. */
  function PushAll<T>(history: seq<T>, ms: seq<T>): seq<T>
    decreases |ms|
  {
    if |ms| == 0 then history else PushAll(Push3(history, ms[0]), ms[1..])
  }

  /** However many messages are pushed, the history holds the three most recent of all of them. */
  lemma {:induction false} PushAllKeepsLastThree<T>(history: seq<T>, ms: seq<T>)
    requires |history| <= 3
    ensures PushAll(history, ms) == LastThree(history + ms)
    decreases |ms|
  {
    if |ms| > 0 {
      Push3KeepsLastThree(history, ms[0]);
      PushAllKeepsLastThree(Push3(history, ms[0]), ms[1..]);
      var h := history + [ms[0]];
      assert history + ms == h + ms[1..];
      assert LastThree(h) + ms[1..] == h[|h| - |LastThree(h)|..] + ms[1..];
      LastThreeOfSuffix(h + ms[1..], |h| - |LastThree(h)|);
      assert (h + ms[1..])[|h| - |LastThree(h)|..] == h[|h| - |LastThree(h)|..] + ms[1..];
    }
  }

  /** Dropping entries from the front that are not among the last three changes nothing. */
  lemma LastThreeOfSuffix<T>(s: seq<T>, k: nat)
    requires k <= |s| && (k == 0 || |s| - k >= 3)
    ensures LastThree(s[k..]) == LastThree(s)
  {
    if k > 0 {
      assert s[k..][|s| - k - 3..] == s[|s| - 3..];
    }
  }

  /** `if (message)` on a message that is a string or absent. */
  predicate Truthy(m: Option<string>) {
    m.Some? && m.value != ""
  }

  // ---------------------------------------------------------------------------
  // The step index

  /** The index `stepForward` leaves on a script of `n` steps: one further unless at the last step. */
  function Forward(index: int, n: nat): (r: int)
    ensures InRange(index, n) ==> InRange(r, n)
    ensures r == index || (index < n - 1 && r == index + 1)
  {
    if index < n - 1 then index + 1 else index
  }

  /** The index `stepBackward` leaves: one back from any step, including from the first to -1. */
  function Backward(index: int): (r: int)
    ensures index >= 0 ==> r == index - 1
    ensures index < 0 ==> r == index
  {
    if index >= 0 then index - 1 else index
  }

  /** -1 (before the first step) up to the last step. */
  predicate InRange(index: int, n: nat) {
    -1 <= index <= n - 1
  }

  /** `stepBackward` never leaves the range either. */
  lemma BackwardInRange(index: int, n: nat)
    requires InRange(index, n)
    ensures InRange(Backward(index), n)
  {
  }

  /** Moving forward `k` times from -1: every step runs once, in order, until the last one. */
  lemma {:induction false} ForwardFromStart(n: nat, k: nat)
    ensures ForwardTimes(-1, n, k) == if k < n then k - 1 else n - 1
  {
    if k > 0 {
      ForwardFromStart(n, k - 1);
    }
  }

  function ForwardTimes(index: int, n: nat, k: nat): int {
    if k == 0 then index else Forward(ForwardTimes(index, n, k - 1), n)
  }

  /**
   * The player's variables: `scriptSteps` (the step values in the order they
   * run, None for a null step), `currentStepIndex`, `isPlaying` and
   * `messageHistoryArray`.
   */
  datatype Playhead<S, H> = Playhead(steps: seq<Option<S>>, index: int, playing: bool, history: seq<H>)

  /** The index lies in [-1, N-1] and the history holds at most three messages. */
  predicate Ready<S, H>(p: Playhead<S, H>) {
    InRange(p.index, |p.steps|) && |p.history| <= 3
  }

  // ---------------------------------------------------------------------------
  // Layout node counts and ids

  /** `Number.isInteger(x) && x > 0`. */
  predicate PositiveInteger(x: real) {
    x > 0.0 && x.Floor as real == x
  }

  /** How many times a counting loop from 0 while below `x` runs. */
  function CountBelow(x: real): (n: nat)
    ensures forall i: nat {:trigger i as real} :: i < n <==> (i as real) < x
  {
    if x <= 0.0 then 0
    else if x.Floor as real == x then x.Floor
    else x.Floor + 1
  }

  /** The nodes ring `ring` of a triangular grid has: one in the centre, then six per ring. */
  function GridRing(ring: nat): nat {
    if ring == 0 then 1 else 6 * ring
  }

  /** The nodes the nested loops of a triangular grid create for `rings` rings. */
  function GridCount(rings: nat): nat {
    if rings == 0 then 0 else GridCount(rings - 1) + GridRing(rings - 1)
  }

  /** A grid of n >= 1 rings has the centred hexagonal number 1 + 3n(n-1) of nodes. */
  lemma {:induction false} GridCountClosedForm(n: nat)
    requires n >= 1
    ensures GridCount(n) == 1 + 3 * n * (n - 1)
  {
    if n > 1 {
      GridCountClosedForm(n - 1);
      calc {
        GridCount(n);
        1 + 3 * (n - 1) * (n - 2) + 6 * (n - 1);
        { assert 3 * (n - 1) * (n - 2) + 6 * (n - 1) == 3 * (n - 1) * n; }
        1 + 3 * n * (n - 1);
      }
    }
  }

  /** The nodes `renderAddCircularRings` creates: each valid ring size, skipping the others. */
  function RingTotal(sizes: seq<real>): nat {
    Sum(RingCounts(sizes))
  }

  /** The node count of each ring, in order. */
  function RingCounts(sizes: seq<real>): (r: seq<nat>)
    ensures |r| == |sizes| && forall i :: 0 <= i < |sizes| ==> r[i] == RingSize(sizes[i])
  {
    seq(|sizes|, i requires 0 <= i < |sizes| => RingSize(sizes[i]))
  }

  function Sum(ns: seq<nat>): nat {
    if |ns| == 0 then 0 else Sum(ns[..|ns| - 1]) + ns[|ns| - 1]
  }

  /** The nodes one ring adds: its size when that is a positive integer, else none. */
  function RingSize(size: real): nat {
    if PositiveInteger(size) then size.Floor else 0
  }

  /** The `node-${k}` ids the layouts generate. */
  function NodeId(k: nat): string {
    "node-" + NatToString(k)
  }

  lemma NodeIdInjective(a: nat, b: nat)
    requires NodeId(a) == NodeId(b)
    ensures a == b
  {
    assert NodeId(a)[5..] == NatToString(a);
    assert NodeId(b)[5..] == NatToString(b);
    NatToStringInjective(a, b);
  }

  /** The ids `node-first` up to `node-(first + count - 1)`. */
  function NodeIds(first: nat, count: nat): (r: set<string>)
    ensures forall k: nat :: first <= k < first + count ==> NodeId(k) in r
  {
    set k: nat | first <= k < first + count :: NodeId(k)
  }

  /** The same ids as a sequence, in the order the layouts add them. */
  function LayoutIds(first: nat, count: nat): (ids: seq<string>)
    ensures |ids| == count && forall i :: 0 <= i < count ==> ids[i] == NodeId(first + i)
  {
    seq(count, i requires 0 <= i < count => NodeId(first + i))
  }

  /** Numbering `a + b` nodes from `first` is numbering `a`, then `b` more from `first + a`. */
  lemma LayoutIdsSplit(first: nat, a: nat, b: nat)
    ensures LayoutIds(first, a + b) == LayoutIds(first, a) + LayoutIds(first + a, b)
  {
    var l, r := LayoutIds(first, a), LayoutIds(first + a, b);
    forall i | 0 <= i < a + b
      ensures LayoutIds(first, a + b)[i] == (l + r)[i]
    {
      if i >= a {
        assert (l + r)[i] == r[i - a];
      }
    }
  }

  lemma LayoutIdsElements(first: nat, count: nat)
    ensures (set id | id in LayoutIds(first, count)) == NodeIds(first, count)
  {
    var ids := LayoutIds(first, count);
    forall id | id in NodeIds(first, count)
      ensures id in ids
    {
      var k: nat :| first <= k < first + count && id == NodeId(k);
      assert ids[k - first] == id;
    }
  }

  // ---------------------------------------------------------------------------
  // The script format of ldr.js, read by the ldr.js and gru.js interpreters

  /**
   * The parameter object of a step, field by field; None is a field the object
   * does not have. `ringSizes` is None also when it is not an array, `numRings`
   * when it is not a number, and an absent `data` is an object with no fields.
   */
  datatype Params = Params(
    message: Option<string>,
    ringSizes: RingSizes,
    numRings: RingCount,
    nodeId: Option<string>,
    data: TaskData,
    kind: Option<string>,
    node1: Option<string>,
    node2: Option<string>,
    weight: Option<real>,
    edgeType: Option<string>,
    nodeIds: Option<seq<string>>)

  const NoParams: Params :=
    Params(None, None, None, None, NoFields, None, None, None, None, None, None)

  /**
   * A step object `{command: params}`: its first key and the value under it. A
   * step with no key at all has command "" and no parameters, as `undefined`
   * and the empty string are both falsy.
   */
  datatype Step = Step(command: string, params: Params)

  /** A property key that may be `undefined`, which JavaScript turns into the key "undefined". */
  function KeyOf(k: Option<string>): string {
    if k.Some? then k.value else "undefined"
  }

  /** The command names of ldr.js, in the order it lists them. */
  const CommandNames: seq<string> := [
    "add_circular_rings",
    "add_compressed_path_to_graph",
    "add_node",
    "add_triangular_grid",
    "compress_path",
    "connect_nodes",
    "copy_move_to_focus",
    "create_subgraph",
    "merge_subgraph",
    "message_only",
    "remove_node",
    "reset",
    "select_path",
    "straighten_path"
  ]

  /** `new Set(commandNames)`. */
  const Commands: set<string> := set n | n in CommandNames
}
