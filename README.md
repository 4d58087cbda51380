# benzo graph core in Dafny

This project models the core of benzo. Benzo is a browser demonstration that
plans work as a weighted graph of tasks and plays scripted steps over that graph.
The model covers:

- **The `Graph` store of alf.js.** It holds a node dictionary keyed by id, where
  each node carries its task data and its outgoing edges. It also holds the
  selected path, the focus area and the A* memo. Every change reports an event
  to a render callback.
- **`calculateWeight`.** It gives the edge weight of a task from its time, pain,
  complexity, human effort and success probability.
- **The A\* search of alf.js.** It uses a digit-distance heuristic and a memo
  keyed by the start node only. The model also covers the operations built on
  the search:
  - the compressed detour;
  - reweighing and feedback;
  - `loadTasks`;
  - sub-graphs and their merge.
- **The three script players.** ldr.js, gru.js and main.js each hold one `Graph`
  and step through a script forwards and backwards, keeping the last three
  messages.
  - The render callback of ldr.js reaches the graph only through its layout
    renderers, which add nodes `node-<k>`, and through path selection.
  - The render callback of gru.js does nothing.
  - The render callback of main.js switches on an `action` field. The graph's
    events never carry that field, so every event only logs a warning.
- **The older page in _archive/main.js.** It keeps nodes, edges and a focus area
  in arrays, and has its own `executeStep`.

The store is a `class` whose methods update it in place. Each method is proved
against a pure function on a value snapshot of the store (`Store`). Each such
function yields the new store together with the events the callback receives in
order, and its properties are proved as lemmas. `Object.keys` order is modelled
as JavaScript defines it. Array-index keys come first in ascending order, then
the other keys in insertion order. This order decides which node `removeNode`
pops and the order in which every `for...in` loop visits keys.

## Model

| member | source | states |
|---|---|---|
| JsText.DigitChar | alf.js:233 | the digit character whose numeric value is the given digit |
| JsText.NatToStringRoundTrip | alf.js:433 | the decimal text of a counter is non-empty and all digits, has no leading zero, and parses back to the counter |
| JsText.NatToStringInjective | alf.js:433 | distinct counters render to distinct texts |
| JsText.SkipToDigit | alf.js:233 | the match of `/\d+/` starts inside the id: the result is a suffix of the id that, when non-empty, starts with a digit |
| JsText.DigitPrefix | alf.js:233 | the match is the longest run of digits at that point: all digits, and not followed by a digit |
| JsText.FirstDigitRun | alf.js:233-234 | `id.match(/\d+/)` is null exactly when the id has no digit; otherwise it is a non-empty run of digits taken from the id |
| JsText.SkipPastDigitFreePrefix | alf.js:233 | a prefix without digits does not change the match |
| JsText.GeneratedIdDigitRun | alf.js:233 | for the generated ids `node-<k>`, the match is the digits of `k` |
| JsText.SkipRun | alf.js:429 | after a run of characters the slug replaces, what remains is a suffix of the input that is empty or starts with a character the slug keeps |
| JsText.SlugShape | alf.js:429 | the id base is made only of `[a-z0-9_]`, never has two underscores in a row, starts with `_` only when the title's first character is not a letter or digit, and is non-empty for a non-empty title |
| JsText.SlugIdempotent | alf.js:429 | slugging a slug changes nothing, so the id base is stable |
| JsText.SlugStep | alf.js:429 | the first character of a slug is kept as it is, and an underscore is not followed by a run to skip |
| JsObject.IndexKeys | alf.js:76 | the array-index keys of the insertion order, which `Object.keys` lists first |
| JsObject.NamedKeys | alf.js:76 | the remaining keys, in the order they were inserted |
| JsObject.SplitKeysPermutes | alf.js:76 | the two groups together are a permutation of the insertion order |
| JsObject.InsertByValue | alf.js:76 | an insertion step of the key order adds exactly the one key |
| JsObject.InsertKeepsAscending | alf.js:76 | that insertion keeps the index keys in ascending numeric order |
| JsObject.SortByValue | alf.js:76 | the index keys end up as a permutation of themselves in ascending numeric order |
| JsObject.OMap.Put | alf.js:61 | assignment to a key: the value is stored, an existing key keeps its place, and the key order stays well formed |
| JsObject.OMap.Remove | alf.js:78 | `delete`: the key and its value are gone, and the map stays well formed |
| JsObject.Empty | alf.js:36 | `{}` is well formed and holds nothing |
| JsObject.Without | alf.js:80 | the `filter(id => id !== k)` of a list keeps exactly the other elements, and distinct elements stay distinct |
| JsObject.KeysPermuteOrder | alf.js:76 | `Object.keys` lists every key exactly as often as the insertion order does |
| JsObject.KeysEnumerateEntries | alf.js:190 | `Object.keys` and `for...in` list exactly the keys present |
| JsObject.KeysDistinct | alf.js:76 | `Object.keys` never lists a key twice |
| JsObject.PutNamedKeyAppends | alf.js:61 | a fresh key that is not an array index goes last in `Object.keys` |
| JsObject.LastKeyPresent | alf.js:76-77 | the key `pop` takes is present in the map |
| JsObject.PutThenRemoveLast | alf.js:60-78 | adding a fresh named key and then deleting the last key restores the map |
| JsObject.WithoutAbsent | alf.js:80 | filtering out an id that is absent changes nothing |
| JsObject.IndexKeysAreNotLastInserted | alf.js:76 | after inserting "10" and then "9", `Object.keys` lists "9" before "10", so `pop` takes "10", which was not the last inserted |
| JsObject.SortTenNine | alf.js:76 | "9" and "10" are ordered by numeric value, not as text |
| CostModel.CalculateWeight | alf.js:18-32 | with non-negative estimates and a success probability between 0 and 1, every weight is strictly positive |
| CostModel.WeightOfEmptyTask | alf.js:10-32 | a task without ratings weighs 3.75, from the defaults 4, 4, 4, 1 and 0.9 |
| CostModel.ZeroEstimatesFallBack | alf.js:19-22 | a zero estimate is falsy, so it weighs like an absent one, and that is the default |
| CostModel.ZeroSuccessIsKept | alf.js:23 | a success probability of 0 is kept by `??` and costs 0.45 more than leaving it out |
| CostModel.WeightReadsOnlyCostFields | alf.js:18-32 | only the five cost fields reach the weight; title, solutions and other fields do not |
| CostModel.SetField | alf.js:505 | a rating on a field outside the five cost fields leaves the weight unchanged |
| CostModel.SetFieldReadsBack | alf.js:505 | the field that was set reads back the new value, and every other field is unchanged |
| GraphTypes.Cost.Plus | alf.js:270 | `gScore + weight` is Infinity exactly when either operand is |
| GraphTypes.WithNode | alf.js:61 | the new node has no edges and replaces any earlier node of that id; other nodes are unchanged |
| GraphTypes.WithEdge | alf.js:71 | the edge is stored under its source and target, replacing any earlier edge between them; the key order and other nodes are unchanged |
| Playback.LastThree | ldr.js:1569-1570 | the three most recent messages, or all of them when there are fewer |
| Playback.Push3KeepsLastThree | ldr.js:1569-1570 | `push` followed by a single `shift` keeps the three most recent messages |
| Playback.PushAllKeepsLastThree | ldr.js:1569-1570 | however many messages are pushed, the history holds the three most recent of all of them |
| Playback.LastThreeOfSuffix | ldr.js:1569-1570 | dropping old entries that are not among the last three changes nothing |
| Playback.Forward | ldr.js:1821-1832 | the index moves forward one step, except at the last step, and stays in range |
| Playback.Backward | ldr.js:1838-1849 | the index moves back one step, from the first step to -1 |
| Playback.BackwardInRange | ldr.js:1838-1849 | stepping back never leaves the range from -1 to the last step |
| Playback.ForwardFromStart | ldr.js:1821-1832 | stepping forward k times from -1 visits each step once, in order, and then stays at the last step |
| Playback.CountBelow | _archive/main.js:326 | the number of passes of a loop counting from 0 while below a JavaScript number |
| Playback.GridCountClosedForm | ldr.js:1547-1555 | a grid of n rings has the centred hexagonal number 1 + 3n(n-1) of nodes |
| Playback.RingCounts | ldr.js:1504-1525 | the node count of each ring: its size for a positive integer size, else 0 |
| Playback.NodeIdInjective | ldr.js:1522 | distinct counters give distinct `node-<k>` ids |
| Playback.NodeIds | ldr.js:1522 | holds every layout id `node-k` for k in the numbered range |
| Playback.LayoutIds | ldr.js:1553 | the i-th layout id is `node-(first+i)`, in the order the nodes are added |
| Playback.LayoutIdsSplit | ldr.js:1502-1526 | numbering a + b nodes is numbering a nodes, then b more from where the first run stopped |
| Playback.LayoutIdsElements | ldr.js:1522 | the listed ids are exactly the ids of the set |
| GraphOps.EmptyStore | alf.js:35-58 | the constructor and `resetGraph` leave no nodes, no selection, no focus and an empty memo |
| GraphOps.AddNodeOp | alf.js:60-63 | `addNode` (re)creates the node with no edges and reports one `add_node` event; nothing else changes |
| GraphOps.AddEdgeOp | alf.js:65-73 | with both ends present, the edge gets the given weight or else `calculateWeight` of the target's data, and one `connect_nodes` event is reported; with an end missing, nothing happens |
| GraphOps.LastKey | alf.js:76 | the key `removeNode` pops is the last key `Object.keys` lists |
| GraphOps.RemoveNodeOp | alf.js:75-83 | the last key goes from the nodes; the selection and focus are filtered of it, keeping order and duplicates; the memo is kept; with no key, or with the key "", nothing happens |
| GraphOps.RemoveLast | alf.js:75-83 | when a node is taken, it is exactly the last key, removed from the nodes and from both lists |
| GraphOps.AddNodeThenRemoveNode | alf.js:60-83 | a fresh named node is the one `removeNode` takes, so adding and then removing it restores the nodes and the selection |
| GraphOps.RemoveNodeLeavesDanglingEdges | alf.js:75-83 | an edge into the removed node survives in its source |
| GraphOps.KeepPresent | alf.js:86 | the ids that name a node, in their order |
| GraphOps.KeepPresentDistributes | alf.js:86 | the filter keeps order: filtering a concatenation concatenates the filtered parts |
| GraphOps.KeepPresentOfPresent | alf.js:86 | ids that all name nodes are kept as they are, so filtering twice is filtering once |
| GraphOps.SelectPathOp | alf.js:85-88 | the selection becomes the given ids that name nodes, in order, with no event and no other change |
| GraphOps.FocusIds | alf.js:96 | each focus id is the `focus_` prefix followed by the node id, one per selected node |
| GraphOps.StripFocusRoundTrip | alf.js:120 | removing the `focus_` prefix recovers the id that was copied |
| GraphOps.FocusCopies | alf.js:94-100 | one `add_node` event per selected node, naming its focus id and carrying the node's data |
| GraphOps.CopyMoveToFocusOp | alf.js:90-103 | the focus area becomes the focus ids of the selection; the events are the copies in selection order followed by `copy_move_to_focus`; nothing else changes |
| GraphOps.StraightenPathOp | alf.js:105-108 | with a focus area, only a `straighten_path` event; otherwise nothing |
| GraphOps.CompressPathOp | alf.js:110-115 | with two or more focus ids, only a `compress_path` event naming the first, the last and the inner ids; otherwise nothing |
| GraphOps.AStarOp | alf.js:238-284 | a memoised start answers from the memo without searching; otherwise the search runs with the strict selection of the source, and only a found path is memoised |
| GraphOps.AStarResults | alf.js:238-284 | a found path is an edge path from start to target and is memoised under the start; a no-path answer means the target is unreachable and leaves the store unchanged |
| GraphOps.AStarToItself | alf.js:238-261 | a search from a node to itself returns the one-node path at cost 0 and memoises it |
| GraphOps.MemoIgnoresTarget | alf.js:239 | the memo is keyed by the start only: after a search to one target, a search to any other target answers with the same path |
| GraphOps.SuffixedInjective | alf.js:433 | distinct counters give distinct suffixed ids, none equal to the base |
| GraphOps.BaseAndSuffixes | alf.js:428-437 | the base and its first k suffixed forms are k + 1 distinct ids |
| GraphOps.TakenSuffixesBound | alf.js:432-435 | while the base and its first k suffixed forms are all taken, k is below the number of taken ids, so the loop ends |
| GraphOps.FreeCounter | alf.js:430-436 | the counter the loop stops at gives a free id, and every smaller counter gives a taken one |
| GraphOps.UniqueTaskId | alf.js:428-437 | the id is not taken; it is the slug when the slug is free, otherwise the slug with the first free counter |
| GraphOps.SuggestedTaskData | alf.js:401-417 | the suggested task and its manual solution both weigh 3.75 |
| GraphOps.AddTaskOp | alf.js:419-426 | the task under a fresh id; its manual-solution node with the solution's data, kind `solution` and no edges; every other node unchanged; and exactly three events: the two `add_node` events and a `connect_nodes` from task to solution weighted by the solution's data |
| GraphOps.CompressedId | alf.js:130-134 | the id of the compressed task is not yet a node |
| GraphOps.AddCompressedPathOp | alf.js:117-142 | keeps the store well formed, the selection and the focus area; with fewer than two focus ids or a missing end nothing happens and the call returns |
| GraphOps.CompressedTask | alf.js:130-134 | after the `addTask` call both ends and the compressed task are nodes; the selection and the focus area are kept |
| GraphOps.CompressedSearch | alf.js:135 | the search leaves the nodes of the compressed task's store as they are and keeps the selection and the focus area |
| GraphOps.LinkDetour | alf.js:138-139 | the detour edges: start to the compressed task at the search cost, and the compressed task to end at 0 |
| GraphOps.AddCompressedPathLinks | alf.js:134-141 | when the search returns, the start links to the compressed task at that cost, and the compressed task links to the end at 0 |
| GraphOps.AddCompressedPathUnfolds | alf.js:117-142 | a call that returns is one whose search found a cost |
| GraphOps.AddCompressedPathStore | alf.js:117-142 | when the search returns, the new store's nodes are the compressed task's store with the two detour edges |
| GraphOps.AddCompressedPathStalls | alf.js:135 | when the search does not return, the call stops after adding the compressed task |
| GraphOps.CompressedEndpointsAreSelectedEnds | alf.js:120-121 | with the focus taken from a selection, the detour joins the first and last selected nodes |
| GraphOps.RecomputeEdges | alf.js:459-461 | the loop returns iff every visited neighbour is a node; other nodes, the node's data and kind, and its edge keys and their order are kept |
| GraphOps.RecomputeEdgesWeights | alf.js:459-461 | when the loop completes, every visited edge weighs `calculateWeight` of its target's data and keeps its type, and every other edge is unchanged |
| GraphOps.Recomputed | alf.js:460 | reweighing one edge keeps the node keys and the node's edge keys |
| GraphOps.RecomputeStep | alf.js:459-461 | one pass either throws or reweighs exactly one edge |
| GraphOps.RecomputeOutgoing | alf.js:459-461 | returns iff every edge target of the node is a node; node keys and the node's data are kept |
| GraphOps.WithData | alf.js:457 | the node's data is replaced and nothing else changes |
| GraphOps.FeedbackLoop | alf.js:453-463 | the body of `updateWeights` over the listed ids keeps the nodes well formed and their keys as they are |
| GraphOps.FeedbackPass | alf.js:453-463 | the loop over the keys of the feedback keeps the nodes well formed and their keys as they are |
| GraphOps.Reweigh | alf.js:455-461 | the new data is stored, node keys are kept, and the recomputation returns iff every edge target of the node is a node |
| GraphOps.UpdateWeightsOp | alf.js:452-465 | no events; keys, selection and focus are kept; the memo is emptied when the loop completes |
| GraphOps.ReweighKeepsShape | alf.js:455-461 | reweighing a node changes no other node, nor the node's kind or the targets of its edges |
| GraphOps.RecomputeAllWeighed | alf.js:459-461 | when the loop over all the edges of a node completes, each of them weighs its target's data |
| GraphOps.ReweighWeights | alf.js:455-461 | a completed reweigh stores the refined data and weighs every edge of the node by its target |
| GraphOps.FeedbackWeights | alf.js:500-515 | completed feedback stores the new ratings, and every edge of the node then weighs its target's data |
| GraphOps.FeedbackLoopWeights | alf.js:453-463 | a completed loop refines each listed node and weighs its edges by the data current when it was reached; unlisted nodes keep their edges |
| GraphOps.UpdateWeightsWeights | alf.js:452-465 | when `updateWeights` completes, every node of the feedback has its refined value and its edges weighed by their targets' data; every other node is unchanged |
| GraphOps.RecomputeIgnoresOwnData | alf.js:459-461 | a node's own data never reaches the weights of its outgoing edges |
| GraphOps.OwnDataDoesNotReachEdges | alf.js:455-461 | refining a node's own data leaves the weights of its outgoing edges as they would be without it |
| GraphOps.OutgoingIgnoresOwnData | alf.js:512-514 | after feedback, the node's outgoing edges do not depend on the ratings just given |
| GraphOps.ApplyFeedback | alf.js:504-510 | a yes/no answer to a question containing `successful` sets the success probability to 0.95 or 0.5, any other question changes nothing; a rating without a scale changes nothing and a rating on a scale outside the cost fields leaves the weight as it is; comments and other feedback change nothing |
| GraphOps.FeedbackOp | alf.js:500-515 | a missing node changes nothing and returns; otherwise only the nodes change (same keys, no events, memo kept) and the node's data is the feedback applied |
| GraphOps.StaleMemoAfterFeedback | alf.js:500-515 | after feedback, a memoised search still answers with the path found before |
| GraphOps.ChainTasks | alf.js:522-527 | the nodes afterwards are those before plus the task ids; memo, selection and focus are kept; the result is the last task id (or the previous one when there are none) |
| GraphOps.LinkTask | alf.js:523-526 | one pass adds exactly the task's id to the nodes and keeps memo, selection and focus |
| GraphOps.LinkTaskExtends | alf.js:524-525 | a pass extends an edge path ending at the previous task by the new task |
| GraphOps.LoadTasksOp | alf.js:517-529 | the nodes afterwards are those before, the tasks, `start` and `end`; memo, selection and focus are kept |
| GraphOps.StartAndEnd | alf.js:518-519 | the first two steps add the start and end nodes |
| GraphOps.PathSurvivesAddNode | alf.js:60-63 | adding a node that is not on an edge path keeps the path |
| GraphOps.PathSurvivesAddEdge | alf.js:65-73 | adding an edge keeps every edge path |
| GraphOps.ChainTasksLinks | alf.js:522-527 | after the loop, start followed by the task ids in key order is an edge path |
| GraphOps.LoadTasksChainsStartToEnd | alf.js:517-529 | start, the tasks in `Object.keys` order, and end form an edge path |
| GraphOps.ClosePath | alf.js:528 | the last `addEdge` closes the path into `end` |
| SubGraphOps.NewSubGraph | alf.js:159-161 | the store of a new sub-graph after its two `addNode` calls, and their events |
| SubGraphOps.NewSubGraphKeys | alf.js:159-161 | a new sub-graph holds exactly two nodes: its start and its end |
| SubGraphOps.NewSubGraphTitles | alf.js:160-161 | the start node is titled after the goal, and the end node "Sub-Graph End" |
| SubGraphOps.Inner | alf.js:193 | the id an inner node gets in the parent is longer than the sub-graph id and differs from it |
| SubGraphOps.InnerInjective | alf.js:193 | distinct inner nodes get distinct parent ids |
| SubGraphOps.CopyNode | alf.js:193-197 | one pass adds exactly the inner id to the nodes; only the nodes change |
| SubGraphOps.CopyNodes | alf.js:190-198 | the loop adds exactly the inner ids of the listed keys; only the nodes change |
| SubGraphOps.AddEdgeGrows | alf.js:65-73 | one `addEdge` only adds or overwrites an edge, and removes none |
| SubGraphOps.CopyEdgesFrom | alf.js:200-206 | the inner loop keeps the store well formed and only adds edges: every edge before is still there |
| SubGraphOps.CopyEdges | alf.js:199-207 | the outer loop keeps the store well formed and only adds edges |
| SubGraphOps.MergeOp | alf.js:175-223 | only the nodes change; without a parent node, nothing happens; with one, the last event is `merge_subgraph`; any strategy other than "add_nodes" emits only that event; "add_nodes" adds exactly the inner ids of the sub-graph's keys |
| SubGraphOps.MergeSteps | alf.js:187-222 | the merge is the copies the strategy asks for, followed by `merge_subgraph` |
| SubGraphOps.CopyNodeLinks | alf.js:193-197 | after a copy, the parent links to the copied node |
| SubGraphOps.CopyNodeKeepsLinked | alf.js:193-197 | copying another node, or the same node again, keeps earlier copies in place |
| SubGraphOps.CopyNodesKeepsLinked | alf.js:190-198 | the node loop keeps earlier links in place |
| SubGraphOps.CopyNodesLinks | alf.js:190-198 | after the node loop, every inner node has a copy linked from the parent |
| SubGraphOps.MergeLinksInnerNodes | alf.js:188-198 | after an "add_nodes" merge, every inner node has a copy that the parent links to |
| SubGraphOps.MergeWithoutInnerNodes | alf.js:190-191 | a sub-graph holding only its start and end adds no node when merged |
| SubGraphOps.MergeUntouchedSubGraph | alf.js:152-198 | merging a sub-graph straight after `createSubGraph` adds no node |
| SubGraphOps.CopyEdgesFromAdds | alf.js:200-205 | every edge between inner nodes leaving the node gets a copy between the copies |
| SubGraphOps.CopyEdgesAdds | alf.js:199-207 | the outer loop copies the inner edges of every node, and keeps edges already copied |
| SubGraphOps.MergeCopiesInnerEdges | alf.js:199-207 | every edge between two inner nodes has a copy between their copies, with the same weight and type |
| SubGraphOps.CopyEdgesFromKeeps | alf.js:200-206 | the inner loop over one node's edges leaves every edge it does not write as it was |
| SubGraphOps.CopyEdgesKeeps | alf.js:199-207 | the outer loop leaves alone the edges out of nodes that are not copies of its keys |
| SubGraphOps.CopyEdgesFromCarries | alf.js:200-206 | over distinct targets, the inner loop leaves the edge to `to` with the sub-graph edge's weight and type |
| SubGraphOps.CopyEdgesCarries | alf.js:199-207 | over distinct keys, the outer loop leaves each inner edge with the sub-graph edge's weight and type |
| GraphStore.EventSink.Emit | alf.js:62 | the render callback receives the event after all earlier ones |
| GraphStore.Graph.constructor | alf.js:35-42 | an empty store reporting to the given callback |
| GraphStore.Graph.SubGraph | alf.js:159-169 | an empty store with the goal and parent id set, sharing the parent's callback |
| GraphStore.Graph.ResetGraph | alf.js:51-58 | the store is emptied and one `reset` event is reported |
| GraphStore.Graph.AddNode | alf.js:60-63 | the store and the log become what `AddNodeOp` gives |
| GraphStore.Graph.AddEdge | alf.js:65-73 | the store and the log become what `AddEdgeOp` gives |
| GraphStore.Graph.RemoveNode | alf.js:75-83 | the store and the log become what `RemoveNodeOp` gives |
| GraphStore.Graph.SelectPath | alf.js:85-88 | the store becomes what `SelectPathOp` gives |
| GraphStore.Graph.CopyMoveToFocus | alf.js:90-103 | the `forEach` loop gives what `CopyMoveToFocusOp` gives |
| GraphStore.Graph.CopyToFocus | alf.js:94-100 | one pass pushes one focus id and reports its copy |
| GraphStore.Graph.StraightenPath | alf.js:105-108 | the log becomes what `StraightenPathOp` gives |
| GraphStore.Graph.CompressPath | alf.js:110-115 | the log becomes what `CompressPathOp` gives |
| GraphStore.Graph.AddCircularRings | alf.js:144-146 | only the `add_circular_rings` event |
| GraphStore.Graph.AddTriangularGrid | alf.js:148-150 | only the `add_triangular_grid` event |
| GraphStore.Graph.AStar | alf.js:238-284 | the outcome and the new memo are those of `AStarOp` |
| GraphStore.Graph.GenerateUniqueTaskId | alf.js:428-437 | the `while` loop returns `UniqueTaskId`: a free id |
| GraphStore.Graph.AddTask | alf.js:419-426 | the store and the log become what `AddTaskOp` gives |
| GraphStore.Graph.AddCompressedPathToGraph | alf.js:117-142 | the store and the log become what `AddCompressedPathOp` gives |
| GraphStore.Graph.Compress | alf.js:130-141 | the part after the checks: the task, the search and the detour |
| GraphStore.Graph.SearchCompressed | alf.js:130-136 | the compressed task, then the search between the ends |
| GraphStore.Graph.AddCompressedTask | alf.js:130-134 | the `addTask` call named after the two ends |
| GraphStore.Graph.LinkCompressed | alf.js:138-141 | the two detour edges and the `add_compressed_path` event |
| GraphStore.Graph.LinkDetourInto | alf.js:138-139 | the two `addEdge` calls of the detour |
| GraphStore.Graph.RecomputeOutgoingEdges | alf.js:459-461 | the neighbour loop gives what `RecomputeOutgoing` gives |
| GraphStore.Graph.UpdateWeights | alf.js:452-465 | the store becomes what `UpdateWeightsOp` gives; `false` where the source throws |
| GraphStore.Graph.ReweighAll | alf.js:453-463 | the feedback loop, up to the first throw |
| GraphStore.Graph.ReweighFirst | alf.js:454-462 | one turn of the loop, on the first key |
| GraphStore.Graph.UpdateWeightsBasedOnFeedback | alf.js:500-515 | the store becomes what `FeedbackOp` gives; `false` where the source throws |
| GraphStore.Graph.LoadTasks | alf.js:517-529 | the store and the log become what `LoadTasksOp` gives |
| GraphStore.Graph.AddStartAndEnd | alf.js:518-519 | the start and end nodes |
| GraphStore.Graph.LinkNext | alf.js:523-526 | one pass of the `loadTasks` loop |
| GraphStore.Graph.CreateSubGraph | alf.js:152-173 | null for a missing parent; otherwise a fresh graph holding `NewSubGraph`, with its events reported to the shared callback |
| GraphStore.Graph.AddSubEnds | alf.js:160-161 | the start and end nodes of a new sub-graph |
| GraphStore.Graph.MergeSubGraph | alf.js:175-223 | the parent's store and the log become what `MergeOp` gives; the sub-graph is unchanged |
| GraphStore.Graph.CopyInto | alf.js:189-207 | the node loop, then the edge loops, of the "add_nodes" merge |
| GraphStore.Graph.CopyNodesInto | alf.js:190-198 | the node loop gives what `CopyNodes` gives |
| GraphStore.Graph.CopyEdgesInto | alf.js:199-207 | the edge loops give what `CopyEdges` gives |
| GraphStore.Graph.CopyEdgesFromInto | alf.js:200-206 | the inner edge loop gives what `CopyEdgesFrom` gives |
| GraphStore.Graph.CopyNodeInto | alf.js:193-197 | one pass of the node loop gives what `CopyNode` gives |
| GraphStore.CompressedSearchEnds | alf.js:134-135 | the store the search leaves still holds both ends and the compressed task, which is not the start |
| GraphStore.AddCompressedPathLinked | alf.js:138-141 | the detour edges and the final event complete `AddCompressedPathOp` |
| GraphStore.RecomputeEach | alf.js:459-461 | the loop over neighbour keys gives what `RecomputeEdges` gives |
| Pathfinder.Heuristic | alf.js:231-236 | defined exactly when both ids contain a digit; for generated ids `node-i`, `node-j` it is the distance between the counters (`HeuristicOfGeneratedIds`) |
| Pathfinder.HeuristicOfGeneratedIds | alf.js:233-235 | for the ids `node-<i>` the heuristic is the distance between the counters |
| Pathfinder.HeuristicOfRuns | alf.js:233-235 | the heuristic reads the first digit run of each id |
| Pathfinder.Scan | alf.js:247-254 | the selection scan returns -1 or a position in the open set |
| Pathfinder.Lowest | alf.js:247-254 | the selection loop returns -1 or a position in the open set; with the first-node fallback a non-empty open set always yields a position |
| Pathfinder.ScanFindsFirstLeast | alf.js:247-254 | the scan picks the first open node of least finite f-score, or none when every f-score is Infinity |
| Pathfinder.SelectLowest | alf.js:247-254 | the selection loop picks what `Lowest` picks |
| Pathfinder.ReconstructFollowsLinks | alf.js:286-293 | a rebuilt path follows the predecessor links back from a node without one |
| Pathfinder.ReconstructPath | alf.js:286-293 | the `unshift` loop returns what `Reconstruct` defines: the path rebuilt along the predecessor links, or nothing on a cycle |
| Pathfinder.NeighbourIds | alf.js:268 | the targets of the node's edges in `for...in` order |
| Pathfinder.ExpandNode | alf.js:268-280 | the neighbour loop gives what `Relax` gives, or a throw where the heuristic throws |
| Pathfinder.RelaxFirst | alf.js:269-279 | one pass relaxes the edge to the first neighbour, or throws where the heuristic throws |
| Pathfinder.SearchPass | alf.js:246-281 | one pass of the main loop gives what `Step` gives |
| Pathfinder.AStarSearch | alf.js:241-283 | the initial scores, then the main loop, give what `Search` gives |
| Pathfinder.SearchLoop | alf.js:246-283 | at most `fuel` passes of the main loop give what `Run` gives |
| Pathfinder.RunUnfolds | alf.js:246-281 | a run is one pass, then the run from the state that pass leaves |
| PathfinderFacts.RemoveAtMembers | alf.js:263 | removing the current node from the open set keeps the other members |
| PathfinderFacts.UpdateKeepsInvariant | alf.js:272-278 | recording `current` as the predecessor of a neighbour keeps the search invariant |
| PathfinderFacts.RelaxKeepsInvariant | alf.js:268-280 | relaxing the remaining neighbours keeps the invariant and scores every neighbour |
| PathfinderFacts.StepKeepsInvariant | alf.js:246-281 | a pass that goes on keeps the invariant |
| PathfinderFacts.RebuiltPathIsEdgePath | alf.js:256-257 | a path rebuilt under the invariant runs from start to the current node along edges |
| PathfinderFacts.LinksBackFollowEdges | alf.js:286-293 | predecessor links that each record an edge make an edge path |
| PathfinderFacts.ClosedSetHoldsPaths | alf.js:283 | once the open set is empty, every node reachable from a scored node is scored |
| PathfinderFacts.StepFound | alf.js:256-261 | a pass that finds a path returns an edge path from start to target |
| PathfinderFacts.StepNoPath | alf.js:283 | a pass that reports no path does so only when the target is unreachable |
| PathfinderFacts.RunFindsEdgePaths | alf.js:246-261 | every path a run finds from a state under the invariant is an edge path from start to target |
| PathfinderFacts.RunFound | alf.js:246-261 | a run that returns a given result returns an edge path from start to target |
| PathfinderFacts.RunNoPath | alf.js:246-283 | a run under the invariant reports no path only when the target is unreachable |
| PathfinderFacts.SearchFindsEdgePaths | alf.js:238-261 | a found path starts at start, ends at target and follows edges |
| PathfinderFacts.InitialStateInv | alf.js:241-244 | the initial scores satisfy the invariant |
| PathfinderFacts.NoPathMeansUnreachable | alf.js:283 | the no-path result means no edge path leads from start to target |
| PathfinderFacts.SearchFromTargetToItself | alf.js:241-261 | from a node to itself the search returns the one-node path at cost 0 |
| PathfinderFacts.SearchNeedsDigits | alf.js:233-234 | the heuristic throws on an id without a digit, before any search |
| PathfinderFacts.FallBackOnlyDivergesOnCycles | alf.js:256-257 | with the corrected selection, a pass fails to return only when the predecessor chain is cyclic |
| PathfinderFacts.InfinityEdgeGraph | alf.js:138 | the node dictionary of the counterexample is well formed |
| PathfinderFacts.InfinityEdgeFirstPass | alf.js:246-280 | the first pass expands `a1` |
| PathfinderFacts.InfinityEdgeRelax | alf.js:270-278 | relaxing that edge scores `b2` with Infinity |
| PathfinderFacts.SecondPassAsWritten | alf.js:247-266 | with the strict selection, the second pass picks nothing and the loop never returns |
| PathfinderFacts.SecondPassCorrected | alf.js:247-261 | with the corrected selection, the second pass returns the path a1, b2 at cost Infinity |
| PathfinderFacts.InfinityEdgeStallsSearch | alf.js:246-266 | the whole search diverges with the strict selection and finds the path with the corrected one |
| PathfinderTermination.InitialStateRising | alf.js:243-244 | the initial scores are rising: every predecessor comes strictly before its node |
| PathfinderTermination.RelaxEdgeRising | alf.js:270-278 | relaxing a non-negative edge keeps the scores rising |
| PathfinderTermination.RelaxRising | alf.js:268-280 | the neighbour loop keeps the scores rising when no edge it relaxes is negative |
| PathfinderTermination.StepRising | alf.js:246-281 | a pass over non-negative weights keeps the scores rising |
| PathfinderTermination.PoppedRising | alf.js:263 | taking the current node out of the open set keeps the scores rising, and the node stays scored |
| PathfinderTermination.ChainEnds | alf.js:286-293 | under rising scores, walking predecessors never returns to a node already walked, so `reconstructPath` ends |
| PathfinderTermination.StepNeverDiverges | alf.js:246-266 | over rising scores a pass never diverges, and both selection rules give the same result |
| PathfinderTermination.RunNeverDiverges | alf.js:246-283 | over non-negative weights no run diverges, and both rules give the same outcome |
| PathfinderTermination.SearchNeverDiverges | alf.js:238-284 | over non-negative weights, the search with the source's rule never diverges and agrees with the corrected rule |
| PathfinderTermination.RunMoreFuel | alf.js:246-283 | a run that has decided within some number of passes decides the same with more |
| PathfinderTermination.SearchMoreFuel | alf.js:238-284 | a search that has decided within some number of passes decides the same with more |
| LdrSession.Reports | ldr.js:90-114 | one report per step: the steps it holds, each reported with its command |
| LdrSession.ScriptReports | ldr.js:90-114 | the reports for the whole script, in `for...in` order of its keys |
| LdrSession.ProcessScript | ldr.js:66-115 | nothing for a missing script; otherwise every step in key order |
| LdrSession.Record | ldr.js:1566-1576 | a truthy message joins the history, which keeps its three most recent entries; otherwise nothing changes |
| LdrSession.AddNodesRun | ldr.js:1518-1523 | nodes added in order by `addNode`, with data that has no task fields |
| LdrSession.RunEvents | ldr.js:1522 | one `add_node` event per node of a run, in order |
| LdrSession.AddNodesRunAppend | ldr.js:1502-1526 | adding a + b nodes is adding a, then b |
| LdrSession.AddNodesRunEvents | ldr.js:1522 | a run reports one `add_node` event per node, in order, after the events before it |
| LdrSession.AddNodesRunWellformed | ldr.js:1522 | a run keeps the store well formed |
| LdrSession.AddNodesRunKeys | ldr.js:1522 | a run adds exactly its ids to the keys |
| LdrSession.Render | ldr.js:1809-1814 | only `select_path` and the two layouts reach the graph; the layouts add one run of `node-<k>` ids numbered from the counter, which moves past them |
| LdrSession.Execute | ldr.js:1796-1815 | a missing step does nothing; a command outside the handled ones only records its message; `reset` leaves the graph alone; a `message_only` step with a message records it twice |
| LdrSession.StepForwardOp | ldr.js:1821-1832 | stops playing, then runs the next step if there is one; at the last step it only stops |
| LdrSession.StepBackwardOp | ldr.js:1838-1849 | stops playing and moves the index back; at or before index 0 nothing else happens, otherwise the step it lands on runs |
| LdrSession.PlayScriptOp | ldr.js:1854-1870 | playing toggles; when it was stopped at or after the last step, the graph is reset and the index goes back to -1; otherwise the store and index are kept; the node counter is kept |
| LdrSession.LoadScriptOp | ldr.js:1773-1789 | an unknown name empties the steps and sets the index to -1; otherwise the graph is reset, the index is 0 (or -1 without steps), the history is empty, and the first step runs on the empty store |
| LdrSession.AddNodeInto | ldr.js:1522 | one `addNode` with empty data |
| LdrSession.AddNodes | ldr.js:1518-1523 | `count` nodes numbered on from `first` give what `AddNodesRun` gives |
| LdrSession.RunsCompose | ldr.js:1502-1526 | numbering a run on from where the previous one stopped continues it |
| LdrSession.AddRings | ldr.js:1504-1525 | the ring loop adds the sum of the ring counts, numbered on from the counter |
| LdrSession.AddGrid | ldr.js:1547-1555 | the nested grid loops add 1 + 3n(n-1) nodes, numbered on from the counter |
| LdrSession.Session.constructor | ldr.js:1076-1092 | an empty graph reporting to the callback, no script, numbering from 0 |
| LdrSession.Session.AddCircularRings | ldr.js:1490-1528 | the nodes of each valid ring, numbered on from the counter; invalid sizes are skipped |
| LdrSession.Session.AddTriangularGrid | ldr.js:1536-1558 | for a positive integer count, ring r of 1 or 6r nodes; otherwise nothing |
| LdrSession.Session.RenderStep | ldr.js:1809-1814 | the graph and the counter become what `Render` gives |
| LdrSession.Session.ExecuteStep | ldr.js:1796-1815 | the graph, history and counter become what `Execute` gives |
| LdrSession.Session.StopPlaying | ldr.js:1876-1880 | playback stops |
| LdrSession.Session.StepForward | ldr.js:1821-1832 | the state becomes what `StepForwardOp` gives |
| LdrSession.Session.StepBackward | ldr.js:1838-1849 | the state becomes what `StepBackwardOp` gives |
| LdrSession.Session.PlayScript | ldr.js:1854-1870 | the state becomes what `PlayScriptOp` gives |
| LdrSession.Session.TogglePlayPause | ldr.js:1886-1892 | stops when playing, otherwise plays |
| LdrSession.Session.LoadScript | ldr.js:1773-1789 | the state becomes what `LoadScriptOp` gives |
| GruSession.Dispatched | gru.js:446-470 | commands outside the chain do nothing; `remove_node` is `removeNode`; the two layouts emit one event and change no state; only a `select_path` without an id array throws; `message_only` records its message and every other command keeps the history |
| GruSession.Execute | gru.js:434-471 | a missing step does nothing; an unhandled command records a truthy message and nothing else; a `message_only` step with a message records it twice |
| GruSession.MessageOnlyRecordedTwice | gru.js:441-443 | a `message_only` step with a message leaves it as the two most recent history entries |
| GruSession.StepForwardOp | gru.js:474-485 | stops playing, then runs the next step if there is one; at the last step it only stops |
| GruSession.StepBackwardOp | gru.js:487-498 | stops playing and moves the index back; at or before index 0 nothing else happens, otherwise the step it lands on runs |
| GruSession.BackwardAtStart | gru.js:487-498 | at or before the first step it only stops and moves the index back |
| GruSession.BackwardReplays | gru.js:487-498 | from a later step it runs the step before again |
| GruSession.PlayScriptOp | gru.js:499-515 | playing toggles; when it was stopped at or after the last step, the graph is reset and the index goes back to -1; otherwise the store and index are kept |
| GruSession.LoadScriptOp | gru.js:416-432 | an unknown name empties the steps and sets the index to -1; otherwise the graph is reset, the index is 0 (or -1 without steps), and the first step runs on the empty store |
| GruSession.StepsStopPlaying | gru.js:474-529 | stepping either way never leaves playback running, and toggling play twice restores the flag |
| GruSession.Session.constructor | gru.js:38-48 | a new graph reporting to the callback, no script |
| GruSession.Session.Dispatch | gru.js:446-470 | the graph becomes what `Dispatched` gives |
| GruSession.Session.ExecuteStep | gru.js:434-471 | the graph and history become what `Execute` gives |
| GruSession.Session.StopPlaying | gru.js:517-521 | playback stops |
| GruSession.Session.StepForward | gru.js:474-485 | the state becomes what `StepForwardOp` gives |
| GruSession.Session.StepBackward | gru.js:487-498 | the state becomes what `StepBackwardOp` gives |
| GruSession.Session.Replay | gru.js:489-491 | moves to a step and runs it |
| GruSession.Session.PlayScript | gru.js:499-515 | the state becomes what `PlayScriptOp` gives |
| GruSession.Session.TogglePlayPause | gru.js:523-529 | stops when playing, otherwise plays |
| GruSession.Session.LoadScript | gru.js:416-432 | the state becomes what `LoadScriptOp` gives |
| MainSession.InsertEntry | main.js:433 | one insertion step of the sort: the entries gain exactly the new one, all still numbered, and the first is the new one or the old first |
| MainSession.InsertEntrySorted | main.js:433 | inserting into entries in step order keeps them in step order |
| MainSession.SortEntries | main.js:433 | the entries sorted by the number after `step`, as a permutation |
| MainSession.StepValues | main.js:499 | the step objects of the sorted entries |
| MainSession.StepTwoBeforeStepTen | main.js:433 | numbers are compared as numbers, not as text: `step2` runs before `step10` |
| MainSession.Rank | main.js:457-491 | the position of the test that makes a call is below the number of tests |
| MainSession.Test | main.js:457-491 | a call made by test k has rank k, so calls come out in the order the tests run |
| MainSession.Tests | main.js:457-491 | the tests in the order `executeStep` runs them |
| MainSession.Perform | main.js:457-491 | only a `selectPath` on a value that is not an array throws, and then nothing changes |
| MainSession.RunCalls | main.js:457-491 | running the calls in order keeps the store well formed |
| MainSession.RunCallsReturns | main.js:477-479 | a run returns unless one of its calls is a `selectPath` on a value that is not an array |
| MainSession.Execute | main.js:446-493 | a missing step does nothing; a truthy message becomes the newest history entry, otherwise the history is kept |
| MainSession.StepReturns | main.js:446-493 | a step returns unless its `select_path` is truthy but not an array |
| MainSession.MadeMembers | main.js:457-491 | a call is made exactly when some test makes it |
| MainSession.MadeOrdered | main.js:457-491 | those calls come in rising test order |
| MainSession.TestsMakeCalls | main.js:457-491 | a call is made exactly when the test of its rank makes it |
| MainSession.NullTestedFields | main.js:457-489 | the fields tested against `null` make their call only when present and null |
| MainSession.TruthyTestedFields | main.js:460-479 | the other fields make their call only when truthy |
| MainSession.CallsInTestOrder | main.js:457-491 | a step's calls come in the fixed order of the tests, at most one per test |
| MainSession.ThrowSkipsLaterTests | main.js:477-491 | a throwing `selectPath` ends the step: none of the later tests run |
| MainSession.SameRunUpToThrow | main.js:477-491 | runs that agree up to a throwing call agree |
| MainSession.RunMade | main.js:457-491 | the run is the first test's call, if it makes one, then the others unless it threw |
| MainSession.ResetThenAddNode | main.js:457-469 | a step with `reset: null` and `add_node` leaves just that node, whatever was there before |
| MainSession.ResetAndAddNodeCalls | main.js:457-469 | such a step makes exactly the reset call and the `addNode` call |
| MainSession.StepForwardOp | main.js:495-506 | stops playing, then runs the next step if there is one; at the last step it only stops |
| MainSession.StepBackwardOp | main.js:508-519 | stops playing and moves the index back; at or before index 0 nothing else happens, otherwise the step it lands on runs |
| MainSession.BackwardAtStart | main.js:508-519 | at or before the first step it only stops and moves the index back |
| MainSession.BackwardReplays | main.js:508-519 | from a later step it runs the step before again |
| MainSession.PlayScriptOp | main.js:520-536 | playing toggles; when it was stopped at or after the last step, the graph is reset and the index goes back to -1; otherwise the store and index are kept |
| MainSession.LoadScriptOp | main.js:430-444 | an unknown name empties the steps and sets the index to -1; otherwise the steps are a permutation of the script sorted by step number, the graph is reset, the index is 0 (or -1 without steps), and the first step runs on the empty store |
| MainSession.Session.constructor | main.js:30-42 | a new graph reporting to the callback, no script |
| MainSession.Session.Call | main.js:457-491 | the graph and log become what `Perform` gives |
| MainSession.Session.BuildCall | main.js:457-475 | the calls that build the graph |
| MainSession.Session.PathCall | main.js:477-491 | the calls that work on a path |
| MainSession.Session.RunTest | main.js:457-491 | test k, after the calls of the tests before it |
| MainSession.Session.RunBuildTests | main.js:457-475 | the building tests in order; none of them throws |
| MainSession.Session.RunTwoTests | main.js:457-491 | two consecutive tests that do not throw |
| MainSession.Session.RunPathTests | main.js:470-479 | the tests from `remove_node` to `select_path`; only the last can throw |
| MainSession.Session.RunFocusTests | main.js:480-491 | the focus tests; none of them throws |
| MainSession.Session.RunTests | main.js:457-491 | the tests in order, stopped only by a throw in `selectPath` |
| MainSession.Session.ExecuteStep | main.js:446-493 | the graph and history become what `Execute` gives |
| MainSession.Session.StopPlaying | main.js:538-542 | playback stops |
| MainSession.Session.StepForward | main.js:495-506 | the state becomes what `StepForwardOp` gives |
| MainSession.Session.StepBackward | main.js:508-519 | the state becomes what `StepBackwardOp` gives |
| MainSession.Session.Replay | main.js:510-513 | moves to a step and runs it |
| MainSession.Session.PlayScript | main.js:520-536 | the state becomes what `PlayScriptOp` gives |
| MainSession.Session.TogglePlayPause | main.js:544-550 | stops when playing, otherwise plays |
| MainSession.Session.LoadScript | main.js:430-444 | the state becomes what `LoadScriptOp` gives |
| ArchiveSession.EdgeIdInjective | _archive/main.js:230 | distinct counters give distinct `edge-<k>` ids |
| ArchiveSession.EdgeIdIndex | _archive/main.js:230 | an edge id gives back the counter it was made from |
| ArchiveSession.ResetFocus | _archive/main.js:349-354 | no focus nodes or edges and both focus counters at 0; everything else is kept |
| ArchiveSession.CreateNodeOp | _archive/main.js:188-213 | appends the node; a truthy `config.id` is used as its id and the counter is kept, otherwise the id is `node-<counter>` and the counter moves on; nothing else changes and consistency is kept |
| ArchiveSession.Without | _archive/main.js:217 | exactly the nodes whose id is not the given one; the id set loses that id |
| ArchiveSession.Detached | _archive/main.js:218 | exactly the edges that touch the node at neither end; distinct edge ids stay distinct |
| ArchiveSession.RemoveNodeOp | _archive/main.js:216-220 | every node of that id goes, with every edge at either end of which it was; the rest is kept in order |
| ArchiveSession.CreateEdgeOp | _archive/main.js:222-233 | when the two ends can be linked, appends `edge-<counter>` between them and moves the counter on; otherwise nothing changes; consistency is kept |
| ArchiveSession.Plain | _archive/main.js:306 | `count` nodes numbered from `first`, with no label or type |
| ArchiveSession.Layout | _archive/main.js:278-312 | a cleared store holding the first `count` plain nodes is consistent |
| ArchiveSession.LayoutGrows | _archive/main.js:306 | one more `createNode` on a layout adds the next plain node |
| ArchiveSession.RingLayoutOp | _archive/main.js:278-312 | a value that is not an array throws after clearing the store; otherwise the store is exactly the layout of the ring nodes; consistency holds either way |
| ArchiveSession.GridLayoutOp | _archive/main.js:314-337 | a consistent store of `GridCount(CountBelow(numRings))` nodes |
| ArchiveSession.LayoutSizes | _archive/main.js:293-334 | for whole positive ring sizes the ring layout holds their sum of nodes, numbered from 0; n grid rings hold 1 + 3n(n-1) nodes |
| ArchiveSession.RingNodesOfWholeSizes | _archive/main.js:302 | for whole positive sizes, the loop bound and the ring size agree |
| ArchiveSession.Find | _archive/main.js:519 | a found node is in the list and has that id; nothing is found exactly when no node has it |
| ArchiveSession.Present | _archive/main.js:515-526 | every kept id names a node, every `node-<p>` that names a node is kept, and no more ids come out than went in |
| ArchiveSession.SelectPathOp | _archive/main.js:515-526 | a value that is not an array throws after clearing the selection; otherwise the selection becomes the present ids; nothing else changes |
| ArchiveSession.PrefixedIdsSelectNothing | _archive/main.js:519 | ids already written as `node-<k>` select nothing, because the prefix is added again |
| ArchiveSession.PresentFrom | _archive/main.js:518-523 | every kept id is `node-` followed by one of the given ids |
| ArchiveSession.FocusIdInjective | _archive/main.js:543 | distinct positions give distinct focus ids |
| ArchiveSession.Copies | _archive/main.js:538-550 | at most one focus node per selected id |
| ArchiveSession.FindAppend | _archive/main.js:561 | `find` on a concatenation looks in the second part only when the first has no match |
| ArchiveSession.NoCopyBeyond | _archive/main.js:538-550 | no copy is named after a position past the selection |
| ArchiveSession.CopyAt | _archive/main.js:538-550 | the copy named after position i is the copy of the node selected at i |
| ArchiveSession.SecondPartOfGenerated | _archive/main.js:561 | for a generated id, the second dash-separated part is its number |
| ArchiveSession.FindByPart | _archive/main.js:561-562 | a node found is a focus node whose second part is the given text |
| ArchiveSession.JoinedEdgesAsWritten | _archive/main.js:556-571 | the focus edges the source builds: at most one per edge, numbered in order, both ends focus nodes |
| ArchiveSession.IndexOf | _archive/main.js:559 | the first position of an element, as `indexOf` finds it |
| ArchiveSession.JoinedEdges | _archive/main.js:556-571 | the focus edges as intended: at most one per edge, numbered in order |
| ArchiveSession.JoinedEdgesComplete | _archive/main.js:556-571 | as intended, every edge between two selected nodes has its focus edge |
| ArchiveSession.MoveToFocusOp | _archive/main.js:528-572 | the focus nodes are the copies of the selection; each focus edge is numbered in order and joins two focus nodes; the focus edge counter equals their number, at most the number of edges; nothing else changes |
| ArchiveSession.MoveToFocusCorrected | _archive/main.js:528-572 | the same focus nodes and the same store apart from the focus edges |
| ArchiveSession.FocusEdgesJoinCopies | _archive/main.js:556-571 | as intended, each focus edge joins the copies of its ends |
| ArchiveSession.FocusEdgeLostAsWritten | _archive/main.js:556-571 | on a three-node ring with selection node-1, node-2, the source builds no focus edge, though the corrected version builds one |
| ArchiveSession.LostEdgeCopies | _archive/main.js:538-550 | the copies in that case are `focus-0` and `focus-1` |
| ArchiveSession.NoCopyNumberedTwo | _archive/main.js:561-562 | no copy there has the second part of `node-2` |
| ArchiveSession.CompressOp | _archive/main.js:670-680 | with more than two focus nodes only the first and last remain, joined by focus edge `0`, and nothing else changes; with two or fewer nothing changes |
| ArchiveSession.CompressIdempotent | _archive/main.js:670-680 | compressing twice is compressing once |
| ArchiveSession.AddCompressedOp | _archive/main.js:682-693 | anything but exactly two focus nodes leaves the store as it is; consistency is kept |
| ArchiveSession.CompressThenAdd | _archive/main.js:670-693 | with more than two focus nodes, compressing then adding appends a `<caption> Start` node and a `<caption> End` node named after the first and last copies, an edge between them, moves both counters on and clears the focus area |
| ArchiveSession.JoinEdges | _archive/main.js:557-572 | the `forEach` over the edges builds exactly the focus edges as written, and the focus edge counter equals their number |
| ArchiveSession.Perform | _archive/main.js:388-424 | a test returns exactly when it does not throw; consistency is kept |
| ArchiveSession.RunFrom | _archive/main.js:388-424 | the tests from one on keep the store consistent |
| ArchiveSession.RunFromReturns | _archive/main.js:388-424 | the tests from one on return exactly when none of them throws |
| ArchiveSession.Advance | _archive/main.js:388-424 | a test, then the ones after it unless it threw |
| ArchiveSession.Execute | _archive/main.js:378-427 | a missing step does nothing; otherwise the tests run from the first; a truthy message becomes the newest history entry, otherwise the history is kept |
| ArchiveSession.StepReturns | _archive/main.js:378-427 | a step returns exactly when neither its ring sizes nor its selection is a value that is not an array; the store it leaves does not depend on the history |
| ArchiveSession.RingThrowLeavesBlank | _archive/main.js:391-393 | a ring layout that throws has already cleared the store, and nothing after it runs |
| ArchiveSession.StepForwardOp | _archive/main.js:429-440 | stops playing and moves the index forward; at the last step nothing else happens, otherwise the next step runs |
| ArchiveSession.StepBackwardOp | _archive/main.js:442-453 | stops playing and moves back; at index 0 the store is cleared and the index is -1; before that only playback stops; otherwise the step landed on runs |
| ArchiveSession.PlayScriptOp | _archive/main.js:455-471 | playing toggles; when it was stopped at or after the last step, the store is cleared and the index goes back to -1; otherwise the store and index are kept |
| ArchiveSession.LoadScriptOp | _archive/main.js:362-376 | an unknown name empties the steps and sets the index to -1; otherwise the steps are the script sorted by step number, the index is 0 (or -1 without steps), and the first step runs on a cleared store |
| ArchiveSession.BackThenForwardReplaysFirstStep | _archive/main.js:362-453 | after loading a non-empty script, stepping back and then forward gives the loaded store and index again |
| ArchiveSession.Board.constructor | _archive/main.js:25-33 | an empty store |
| ArchiveSession.Board.ResetFocusArea | _archive/main.js:349-354 | the store becomes what `ResetFocus` gives |
| ArchiveSession.Board.ResetGraph | _archive/main.js:339-347 | the store is emptied |
| ArchiveSession.Board.CreateNode | _archive/main.js:188-213 | the store and the returned id are those of `CreateNodeOp` |
| ArchiveSession.Board.RemoveNode | _archive/main.js:216-220 | the store becomes what `RemoveNodeOp` gives |
| ArchiveSession.Board.CreateEdge | _archive/main.js:222-233 | the store becomes what `CreateEdgeOp` gives |
| ArchiveSession.Board.AddPlainNodes | _archive/main.js:302-307 | the inner layout loop creates the next `count` plain nodes |
| ArchiveSession.Board.ApplyRingLayout | _archive/main.js:278-312 | the store becomes what `RingLayoutOp` gives |
| ArchiveSession.Board.ApplyTriangularGridLayout | _archive/main.js:314-337 | the store becomes what `GridLayoutOp` gives |
| ArchiveSession.Board.SelectPath | _archive/main.js:515-526 | the store becomes what `SelectPathOp` gives |
| ArchiveSession.Board.MoveCopiedPathToObs | _archive/main.js:528-572 | the store becomes what `MoveToFocusOp` gives, with the edges paired as written |
| ArchiveSession.Board.CompressPathInFocus | _archive/main.js:670-680 | the store becomes what `CompressOp` gives |
| ArchiveSession.Board.AddCompressedPathToGraph | _archive/main.js:682-693 | the store becomes what `AddCompressedOp` gives |
| ArchiveSession.Session.constructor | _archive/main.js:36-46 | an empty store and no script |
| ArchiveSession.Session.RunBuildTests | _archive/main.js:388-399 | the building tests in order; a ring layout can throw |
| ArchiveSession.Session.RemoveTest | _archive/main.js:400-404 | the `remove_node` test |
| ArchiveSession.Session.ConnectTest | _archive/main.js:405-409 | the `connect_nodes` test |
| ArchiveSession.Session.SelectTest | _archive/main.js:410-412 | the `select_path` test |
| ArchiveSession.Session.RunPathTests | _archive/main.js:400-412 | the path tests; only the selection can throw |
| ArchiveSession.Session.CopyTest | _archive/main.js:413-415 | the `copy_move_to_focus` test |
| ArchiveSession.Session.CompressTest | _archive/main.js:419-421 | the `compress_path` test |
| ArchiveSession.Session.AddCompressedTest | _archive/main.js:422-424 | the `add_compressed_path_to_graph` test |
| ArchiveSession.Session.RunFocusTests | _archive/main.js:413-424 | the focus tests; none of them throws |
| ArchiveSession.Session.ExecuteStep | _archive/main.js:378-427 | the store and history become what `Execute` gives |
| ArchiveSession.Session.StopPlaying | _archive/main.js:473-477 | playback stops |
| ArchiveSession.Session.StepForward | _archive/main.js:429-440 | the state becomes what `StepForwardOp` gives |
| ArchiveSession.Session.StepBackward | _archive/main.js:442-453 | the state becomes what `StepBackwardOp` gives |
| ArchiveSession.Session.PlayScript | _archive/main.js:455-471 | the state becomes what `PlayScriptOp` gives |
| ArchiveSession.Session.TogglePlayPause | _archive/main.js:479-485 | stops when playing, otherwise plays |
| ArchiveSession.Session.LoadScript | _archive/main.js:362-376 | the state becomes what `LoadScriptOp` gives |

## Left out

- JavaScript numbers are modelled as unbounded reals, plus a separate `Infinity` for path costs. NaN, rounding, `-0` and the 2^53 limit are not modelled, so weights and scores are exact sums.
- `toLowerCase` is ASCII-only in the model. JavaScript also lowers non-ASCII letters (U+212A KELVIN SIGN becomes "k"), which can change a slug and a task id.
- Prototype keys are not modelled. In the source, `nodes["constructor"]` and `memo["constructor"]` are truthy even when nothing was stored, so a node or a start named after an `Object.prototype` member behaves differently there.
- Aliasing of data objects is not modelled. Task data is a value in the model. `addTask` shares the `manual_human` object between the task and its solution, and `mergeSubGraph` shares node objects with the sub-graph, so a later in-place edit through one of them shows through the other in the source only.
- `createSubGraph`'s `designContext` argument is not modelled; nothing in the core reads it.
- CostModel.SetField: a rating whose scale is not one of the five cost fields is not stored. In the source, `node.data[scale] = value` with the scale `title` overwrites the title with a number. The model's contract covers only the weight, which such a write leaves unchanged in both.
- Null parameters and undefined data throw in the source but not in the model. For example, a `select_path: null` step throws at the destructuring of its parameters in ldr.js and gru.js, and gru.js's `connect_nodes` on a node added without data throws inside `calculateWeight(undefined)`. The model gives these calls their store effect instead.
- Coordinates, SVG rendering, DOM updates, timers, `setInterval` speeds and `requestAnimationFrame` are not modelled. Playback's `playing` flag stands for the interval, and each timer tick is one `StepForward`.
- `addCompressedPathToGraph` is `async`. The players do not wait for it, and the model runs it to completion inside the step that calls it. A rejected promise does not make the step throw in the source.
- MainSession.Perform: drops whether the compressed-path search of `addCompressedPathToGraph` completed. In the source that search runs after an `await`, as a microtask. A search that never ends (the Infinity-edge stall under Findings) then freezes the page, and no later step or timer tick runs. In the model the call leaves the store as it was before the search, and later steps go on.
- GruSession.Dispatched: drops the same flag for the `add_compressed_path` command, for the same reason. A diverging search freezes the gru.js page in the source, but later steps go on in the model.
- main.js's `updateMessageDisplay` reads `stepDelay`, which no code declares. The model treats the display update as returning.
- The step order of ldr.js and gru.js is taken as given. Their `loadScript` sorts keys by `parseInt` of a substring, and the resulting order is an input of `LoadScriptOp` rather than computed.
- MainSession.LoadScriptOp: requires every script key to be `step` followed by digits. The source's comparator compares NaN for other keys, and the order `sort` then leaves is engine-defined.
- ArchiveSession.LoadScriptOp: requires numbered keys, for the same reason.
- `parseInt` precision beyond 2^53 is not modelled; step numbers are unbounded naturals.
- The JSON deep copy that `copyMoveToFocus` makes of node data (alf.js:98) is modelled as sharing the value, which is the same thing for immutable data.
- The `commandNames` constant of ldr.js is modelled as `Playback.CommandNames` and `Playback.Commands`. The commands themselves are modelled by each page's dispatch.
- The default render callback's `stepCounter` and its console output are not modelled; the callback is the list of events it receives.
- The LLM mocks and everything random are not modelled: `callLLM`, `performDeliberation`, `synthesizeDeliberation`, `selectAction`, `shouldTriggerDeliberation` (used only by `selectAction`), `executeWorkflow`, `requestHumanFeedback` and `handleSubGraphTrigger`. Their results come from canned text and `Math.random`.
- `SuggestedTaskData` does not read the model reply, which the source ignores as well.
- `alignObservatoryPaths` and `straightenPathInFocus` only move coordinates and are not modelled.
- The archive page's coordinates, its parsing of `config.x`, and `renderGraph` are not modelled.
- ldr.js's controller keeps its own `selectedPath` and `focusArea` for drawing, and its focus renderers update those. Only the graph's own selection is modelled.
- PathfinderTermination.SearchNeverDiverges: proves that, over non-negative weights, the search never diverges and gives the same outcome under both selection rules, and that more fuel never changes a decided outcome. It does not prove a fuel bound that guarantees a decision. The search has no closed set and reopens a node whenever its score strictly drops, so a bound needs a counting argument over paths that the model does not carry.
- Pathfinder `Step`: when every open f-score is Infinity and a node is named "null", the source would expand `nodes["null"]`. The model reports this case as undecided instead of following it.
- Pathfinder `ReconstructPath`: a cycle in the predecessor links is reported as a divergence rather than a hang. With non-negative weights this never happens (`ChainEnds`).

## Findings

| source | as written | input that shows it | evidently intended | confidence | as-written member | corrected member |
|---|---|---|---|---|---|---|
| alf.js:247-254 | the selection takes a node only when its f-score is strictly below the running lowest, which starts at Infinity; when every open f-score is Infinity no node is taken, `getNode(null)` is undefined, and the `continue` repeats forever | `InfinityEdgeGraph`: `a1` with one edge of weight Infinity to `b2`, as `addCompressedPathToGraph` stores after a search that found no path; `aStar("a1", "b2")` (`InfinityEdgeStallsSearch`, `FallBackOnlyDivergesOnCycles`) | take the first open node when none is below Infinity, so the search returns the path a1, b2 at cost Infinity | not executed | PathfinderFacts.SecondPassAsWritten | PathfinderFacts.SecondPassCorrected |
| _archive/main.js:556-571 | `moveCopiedPathToObs` looks for the copy of an edge end by the second dash-separated part of the original id (`node-2` gives `2`), but copies are named `focus-<position in the selection>` | a three-node ring with the edge node-1 to node-2 and the selection node-1, node-2: the copies are `focus-0` and `focus-1`, no copy has the part `2`, and the edge is lost | pair each end with the copy at its position in the selection, so every edge between selected nodes reaches the focus area | not executed | ArchiveSession.FocusEdgeLostAsWritten | ArchiveSession.FocusEdgesJoinCopies |
