# A verified model of opendigitizer's stateful cores

OpenDigitizer shows and edits remote signal-processing flowgraphs. Most of the repository draws, but a few
self-contained cores carry its logic: a client-side mirror of the remote flowgraph, subscriptions that are shared
between sources, streams that are cut up anew, spectrum buffers that are overwritten in place, and a small wire
format. This project models these cores in Dafny, in the form the C++ has (objects whose fields are updated are
classes, loops over arrays are loops over arrays), and proves what they are for.

`dafny verify dfyconfig.toml` checks everything.

| file | models |
|---|---|
| `GraphSnapshot.dfy` | what the service sends about a flowgraph, as values, and the exported ports of a block |
| `GraphModel.dfy` | `src/ui/GraphModel.cpp`: the tree of schedulers, graphs and blocks, and the messages that change it |
| `GraphMirror.dfy` | what mirroring a snapshot means in that tree: names, objects, edges, owners |
| `GraphInStep.dfy` | that messages keep a mirrored tree in step with the snapshot as they change it |
| `BreadthFirst.dfy` | the worklist of the traversals there |
| `BlockReachability.dfy` | `blockInTree` in the same file |
| `TopologicalSort.dfy` | `topologicalSort` in `src/ui/FlowgraphPage.cpp` |
| `RemoteSubscriptions.dfy` | the subscription manager, its handles and the sources that use it, in `src/ui/blocks/RemoteSource.hpp` |
| `RemoteStreamSource.dfy` | the acquisition queue and `processBulk` in the same file |
| `WaterfallBuffer.dfy` | the ring of spectrum rows and its read-outs in `src/ui/charts/SpectrumHelper.hpp` |
| `LogBinnedRow.dfy` | `buildLogBinnedRow` in the same file |
| `DensityHistogram.dfy` | the decaying histogram, on its path without a GPU, in the same file |
| `TraceAccumulator.dfy` | the hold and average traces in the same file |
| `DashboardWire.dfy` | `fetch` in `src/ui/Dashboard.cpp` and the Get handler in `src/service/dashboard/dashboardWorker.hpp` |
| `TimingEventState.dfy` | `TimingEventState` in `src/service/gnuradio/GnuRadioAcquisitionWorker.hpp` |
| `SampleHistory.dfy` | streaming `processBulk` and the range queries in `src/ui/blocks/ImPlotSink.hpp` |
| `ChartSinks.dfy` | the sink list of a chart in `src/ui/charts/Chart.hpp` |
| `Shared.dfy` | what several of these use |

How the model is set up:

- **Graph mirror.** Blocks are heap objects. `UiGraphModel.view` is a ghost map from every block made so far to the
  values of its fields; the long proofs are about such maps, and `Valid()` says that the map is the heap and that the
  tree is well formed: sibling names differ, a child's parent is the block that holds it, both owner blocks of an edge
  are children of the graph that holds it, and the recorded owner scheduler is passed down from the parent. A
  snapshot is a datatype; `WellFormed` is what the service promises of it (keys are unique names, names are not
  empty, a name keeps its category) and what the source partly asserts. `Mirrors(was, v, sent, b, d)` says that the
  subtree of `b` in `v` is what the snapshot `d` describes, that objects are kept with respect to the earlier tree in
  `was`, and that each nested scheduler keeps what it holds, shows the ports that the blocks in its graph export, and
  has been asked for its own snapshot since `was`. The edges are those that resolve with the ports that the children
  really have; `Denotes` says which port a description means. `Outcome` says for every kind of message what it leaves,
  `NotApplied` when it makes the client ask for everything anew. `InStep(v, b, d)` is `Mirrors` without what is said of
  objects and requests; `AfterMessage` is what a message makes of a snapshot. A message to a graph that the source only
  asserts to be a graph has that as its precondition. The source's root block with the empty name is a null root block
  here.
- **Reachability.** `blockInTree` keeps no record of where it has been. `depth` bounds its nested calls; that it ends
  with an answer means that some depth is enough, and a bound is proved where it always ends.
- **Subscriptions.** Every method is one atomic step under the manager's lock. `State` gathers all that the steps
  change; each method's contract says which pure step it is, and the lemmas show that every step keeps `Inv`.
- **Streams.** `Sayings` counts the rows of the trigger tables that say a tag, column by column; what is published is
  stated by it.
- **Loops over floats** use `real`. The logarithm is any function that increases on positive numbers. Magnitudes in
  `LogBinnedRow` are `Finite`, `PosInf`, `NegInf` or `NaN`, because the code depends on how these compare.
- **What comes from outside** is a parameter: the current time, the registry, the messages, the parsed tags.

Where the code does something else than its comments, tests or names suggest, the code is modelled:

- `topologicalSort` says that blocks on a cycle go to the last level, but that level is never appended. `Sort` proves
  that these blocks, and the ones below them, are in no level.
- The warning about skipped updates is inserted into four of the five columns of the trigger table, so every later
  trigger gets the property map of its successor. `DropWarningKeepsTriggers` has the exact condition.
- Moving a new handle over a live one leaks its callback. `MoveAssignmentLeaks` shows that the guard in
  `startSubscription` is what keeps this from happening.
- A nested scheduler that a snapshot adds has no ports, whatever its data say, so the edges of the snapshot that end
  at it are dropped (`NewSchedulerHasNoEdges`, `EdgeSurvivesExactlyWhen`). Its own snapshot does not change that at
  once: the ports are computed before the new graph is there, so a scheduler that held nothing shows none until data
  for it come again (`InspectedPorts`).
- An emplaced block does not make the client look at the edges again. `EmplacedInStep` has the exact condition under
  which they are still right; that none of them names the block is enough.
- `blockInTree` may not end when edges form a ring. `AnswersExactlyWhen` has the exact condition for each answer, and
  so for no answer; on two blocks in a ring it still ends (`RingOfTwo`).
- The function parameters for the time constants are of type `double`, and a value strictly between 0 and 1 would
  overshoot. `CellsBoundedExactlyWhen` and `HoldsEncloseExactlyWhen` have the exact conditions. The callers cast whole
  numbers of frames (`src/ui/charts/SpectrumView.hpp:205`, `src/ui/charts/SpectrumView.hpp:223`), so they never pass
  such a value.
- A source that gives up its subscription and subscribes again before the old handle is destroyed is fed twice
  (`FedTwice`). For a message to come in that state another delivery has to run before the first has emptied its own
  queue; with the one worker thread that a comment in `src/ui/blocks/RemoteSource.hpp:192` speaks of it does not.
  `FedOnce` has the exact condition for being fed once.
- A `fetch` whose first section is empty reports an error even if the other sections are not empty (`Fetch`).
- A column of the log-spaced row that received a +inf reads as a gap, so its finite peak is lost (`PeakKept`).
- Trigger times of 2^63 and more become negative stamps, so a start stamp that is still 0 is after the event.
  `StampsNotAfterEvent` has the exact condition, `StampAfterEvent` a stream of one tag.

## Model

| member | source | states |
|---|---|---|
| GraphMirror.MirrorsNesting | src/ui/GraphModel.cpp:178-252 | A path of names leads to a block below a mirrored block exactly if it leads to a part of the snapshot, with the same name, category and ports. |
| GraphMirror.MirrorsKeepsObjects | src/ui/GraphModel.cpp:190-199 | Whatever a path of names led to before the snapshot, and still leads to in the snapshot, is the same object afterwards. |
| GraphModel.MirrorsFrame | src/ui/GraphModel.cpp:282-301 | Being what the snapshot says depends on the subtree alone, so updating one child does not undo another. |
| GraphModel.UpdateKeepsValid | src/ui/GraphModel.cpp:303-451 | Changing one block, within its category and owner, keeps the whole tree valid and touches nothing outside its subtree. |
| GraphModel.NewBlockKeepsValid | src/ui/GraphModel.cpp:1107-1132 | A new block with its parent's owner scheduler keeps the whole tree valid. |
| GraphModel.EdgeRowAgrees | src/ui/GraphModel.cpp:453-520 | What parsing an edge gives among the children, stated by what its descriptions mean among the ports that these have, is the edge's row; and nothing in the same cases. |
| GraphMirror.EdgeSurvivesExactlyWhen | src/ui/GraphModel.cpp:386-520 | An edge of the snapshot has a row exactly if it names two entries and ports that these show, and the row has the positions that its descriptions mean: among the data's ports, or for a nested scheduler among the ports that blocks in its graph export. |
| GraphMirror.EdgesAreShown | src/ui/GraphModel.cpp:232-249 | A row is among the edges of a mirrored graph exactly if an edge of the snapshot means it, by index or by first name, between ports that its two entries show. |
| GraphMirror.RowsSplit | src/ui/GraphModel.cpp:232-249 | The rows of two lists of edges one after the other are the rows of the first and then those of the second, never more than there are edges. |
| GraphMirror.NewSchedulerHasNoEdges | src/ui/GraphModel.cpp:400-429 | No edge to or from a scheduler that was not there before is kept. |
| GraphMirror.EdgesFollowSnapshot | src/ui/GraphModel.cpp:232-249 | Where no edge ends at a nested scheduler, the edges are those read off the snapshot, in order. |
| GraphMirror.PlainRow | src/ui/GraphModel.cpp:476-504 | The row read off the snapshot alone is the one between the positions that the descriptions mean among the ports in the data, and there is none exactly if they mean none. |
| GraphMirror.ExportedNamesIs | src/ui/GraphModel.cpp:403-424 | A name is among the exported names exactly if it is that of a port that one of the blocks really has, an input for inputs and an output for outputs. |
| GraphMirror.ExportedNamesSplit | src/ui/GraphModel.cpp:403-424 | The exported names of two lists of exports one after the other are those of the first and then those of the second, never more than there are exports. |
| GraphMirror.SchedulerPortsAre | src/ui/GraphModel.cpp:400-428 | A scheduler shows a port exactly if it holds a graph and the port is the exported name of one that a block in that graph really has. |
| GraphModel.RemoveChild | src/ui/GraphModel.cpp:102-120 | Removing a child together with its edges keeps the tree valid. |
| GraphMirror.OwnerIsNearestScheduler | src/ui/GraphModel.cpp:1114-1125 | In every valid tree a block's recorded owner scheduler is its nearest enclosing scheduler, itself if it is one. |
| GraphMirror.RequestsGoTo | src/ui/GraphModel.cpp:589-621 | A block is asked for anew at its nearest enclosing scheduler; a nested scheduler at the graph that holds it, after that graph was asked for; the root block nowhere. |
| GraphSnapshot.FindPort | src/ui/GraphModel.cpp:476-501 | A description by index means the port with that index, and there is one exactly if the index is below the number of ports; a description by name means the first port of that name, and there is one exactly if a port has it. |
| GraphSnapshot.FirstIndex | src/ui/GraphModel.cpp:491-498 | A port is found by name exactly if there is one, and then the first. |
| GraphSnapshot.Dropped | src/ui/GraphModel.cpp:528-531 | Exactly the exported ports of the named blocks go. |
| GraphSnapshot.Inserted | src/ui/GraphModel.cpp:142-145 | Exactly the one exported port is added, unless it is there. |
| GraphSnapshot.InsertedInOrder | src/ui/GraphModel.cpp:142-145 | The exported ports stay in the order of the map, on which the positions of a scheduler's ports depend. |
| GraphSnapshot.ExportLessIs | src/ui/GraphModel.hpp:193-200 | In the order of that map the block decides, then the port's own name, then its exported one. |
| GraphSnapshot.StringLessIs | src/ui/GraphModel.hpp:193-200 | The order of names in it: the first place where two of them differ decides, or that one of them has ended. |
| GraphSnapshot.Withdrawn | src/ui/GraphModel.cpp:146-151 | Exactly the first entry of that port goes, if there is one, and the others keep their order. |
| GraphSnapshot.ExportsToggled | src/ui/GraphModel.cpp:142-151 | With the flag the entry is there afterwards and all others as before; without it one entry of the port is gone, if there was one, and no entry of any other port. |
| GraphModel.Partition | src/ui/GraphModel.cpp:223-225 | The children split into known and unknown ones, none lost or doubled, in some order. |
| GraphModel.WithoutBlock | src/ui/GraphModel.cpp:522-526 | Exactly the edges with the block at either end go. |
| GraphModel.WithoutBlockSplit | src/ui/GraphModel.cpp:522-526 | The edges that stay keep their order, and none is doubled. |
| GraphModel.ErasedAt | src/ui/GraphModel.cpp:102-120 | Erasing a child takes its one place out of the list, and the others keep their order. |
| GraphModel.UiGraphBlock.FindBlockByUniqueName | src/ui/GraphModel.cpp:75-84 | A child is found exactly if one has the name. |
| GraphModel.UiGraphBlock.ExportedPorts | src/ui/GraphModel.cpp:403-424 | The loops give the exported names of the ports that the blocks in the held graph have, in the order of the exports. |
| GraphModel.UiGraphBlock.ProcessPorts | src/ui/GraphModel.cpp:386-428 | The ports of the data, or for a scheduler the exported ports of what it holds, none if it holds nothing. |
| GraphModel.UiGraphBlock.SetBasicBlockData | src/ui/GraphModel.cpp:303-451 | Own fields, exported ports and ports follow the data, the name never changes, the tree stays valid. |
| GraphModel.UiGraphBlock.RequestBlockUpdate | src/ui/GraphModel.cpp:589-621 | The owner scheduler is asked for the block; for a nested scheduler, the graph that holds it; for the root nobody. |
| GraphModel.UiGraphBlock.ParseEdgeData | src/ui/GraphModel.cpp:453-520 | An edge between two named children at the positions that the two descriptions mean among their ports, or nothing exactly if there are no two such children with such ports. |
| GraphModel.UiGraphBlock.RemoveEdgesForBlock | src/ui/GraphModel.cpp:522-533 | No edge of the block is left, all others are, in order; the parent drops the block's exported ports and is asked for anew. |
| GraphModel.UiGraphBlock.SetBlockData | src/ui/GraphModel.cpp:282-301 | From any earlier tree: the subtree becomes what the snapshot says, objects are kept, nested schedulers keep what they hold and are asked for their own data since; outside, the parent drops the exported ports of the children that are gone, and nothing else changes. |
| GraphModel.UiGraphBlock.SetGraphChildren | src/ui/GraphModel.cpp:178-252 | Reconciling the children with the snapshot, recursively, mirrors it. |
| GraphModel.UiGraphBlock.UpdateOrCreateChildren | src/ui/GraphModel.cpp:185-218 | After the loop every entry stands for one child that mirrors it, old ones by identity. |
| GraphModel.UiGraphBlock.ApplyEntry | src/ui/GraphModel.cpp:187-217 | One entry more stands for a child that mirrors it, without undoing those before. |
| GraphModel.UiGraphBlock.DeleteUnknownChildren | src/ui/GraphModel.cpp:220-230 | Exactly the children the snapshot names are left. |
| GraphModel.UiGraphBlock.EstablishEdges | src/ui/GraphModel.cpp:232-249 | The edges are those of the snapshot that resolve with the ports of the children, in order. |
| GraphModel.UiGraphBlock.HandleChildBlockEmplaced | src/ui/GraphModel.cpp:75-100 | The described block is a child afterwards, updated in place if its name was there; the other children stay. |
| GraphModel.UiGraphBlock.HandleChildBlockRemoved | src/ui/GraphModel.cpp:102-120 | The child of that name and its edges go; without one, a full update is requested. |
| GraphModel.UiGraphBlock.HandleChildEdgeEmplaced | src/ui/GraphModel.cpp:122-131 | The edge is appended, or a full update is requested if it does not resolve. |
| GraphModel.UiGraphBlock.HandlePortExported | src/ui/GraphModel.cpp:135-154 | The exported inputs for an input, else the exported outputs, get the port or lose one entry of it; the other list stays, nothing else changes, and the block is asked for anew. |
| GraphModel.UiGraphBlock.SetSchedulerGraph | src/ui/GraphModel.cpp:156-176 | The scheduler holds exactly the described graph, the same object if the name is the same. |
| GraphModel.UiGraphBlock.HandleSchedulerInspected | src/ui/GraphModel.cpp:908-913 | The scheduler's own fields and ports follow the message, its exported ports without those of the blocks that are gone, and it holds exactly the described graph. |
| GraphModel.UiGraphModel.MakeGraphBlock | src/ui/GraphModel.cpp:1107-1132 | The new block is a child-to-be of its parent, with the right owners, and mirrors its data. |
| GraphModel.UiGraphModel.RequestFullUpdate | src/ui/GraphModel.cpp:965-980 | One request is sent, unless one is still awaited. |
| GraphModel.TraversalExact | src/ui/GraphModel.cpp:749-779 | A traversal that is not stopped visits exactly the blocks that are not below a pruned one, each once. |
| GraphModel.OrderComplete | src/ui/GraphModel.cpp:749-779 | Once a level is empty, the levels before it hold every block that can be reached. |
| GraphModel.StoppedAtFirst | src/ui/GraphModel.cpp:685-696 | The block at which a finder stops is the first match in breadth-first order of the whole tree. |
| GraphModel.NoMatch | src/ui/GraphModel.cpp:685-696 | If the finder never stops, nothing in the tree matches. |
| GraphModel.UiGraphModel.RecursiveForEachBlock | src/ui/GraphModel.cpp:749-779 | The worklist ends, and has visited a prefix of the breadth-first order, all of it unless it was stopped. |
| GraphModel.UiGraphModel.RecursiveFindBlockByUniqueName | src/ui/GraphModel.cpp:685-696 | A block exactly if one has the name, and then the first in breadth-first order. |
| GraphModel.UiGraphModel.RecursiveFindBlockByName | src/ui/GraphModel.cpp:698-709 | A block exactly if one has that current block name, and then the first in breadth-first order. |
| GraphModel.UiGraphModel.RecursiveFind | src/ui/GraphModel.cpp:685-709 | The same for any condition on a block and its fields. |
| GraphModel.UiGraphModel.MakeRoot | src/ui/GraphModel.cpp:849-861 | The first inspected scheduler becomes the root. |
| GraphModel.UiGraphModel.OnBlockReplaced | src/ui/GraphModel.cpp:887-889 | The replaced child is gone, the new one is there and is another object, even under the same name. |
| GraphModel.UiGraphModel.OnSnapshot | src/ui/GraphModel.cpp:915-916 | The inspected block mirrors the message. |
| GraphModel.UiGraphModel.OnPortExported | src/ui/GraphModel.cpp:952-953 | Only the block's exported ports change, and exactly its update is requested. |
| GraphModel.UiGraphModel.Dispatch | src/ui/GraphModel.cpp:881-953 | Every kind of message changes only the subtree of the block it is for, but for exported ports of its parent, in the way of its kind, with edges and untouched siblings. It has an outcome unless an inspected block is not in the tree, and then nothing changes and a full update is requested. |
| GraphModel.UiGraphModel.ProcessMessage | src/ui/GraphModel.cpp:849-962 | A message is consumed exactly if its target is in the tree. It then has the outcome of its kind at the first block of its name, unless it inspects a block that is not in the tree. Without an outcome nothing changes and one full update is requested, unless one is awaited; with one, exactly if the message could not be applied. The first inspected scheduler becomes the root and holds what the message describes, exactly if it is its own target. The tree stays valid. |
| GraphModel.UiGraphModel.Run | src/ui/GraphModel.cpp:823-963 | Every run of messages keeps the tree valid. |
| GraphInStep.MirrorsInStep | src/ui/GraphModel.cpp:282-301 | A block that mirrors a snapshot is in step with it. |
| GraphInStep.RemovedInStep | src/ui/GraphModel.cpp:102-120 | If a graph is in step with a snapshot, removing a block leaves it in step with the snapshot without that entry and the edges that name it. |
| GraphInStep.EdgeInStep | src/ui/GraphModel.cpp:122-131 | An emplaced edge leaves it in step with the snapshot that has the edge, resolved or not. |
| GraphInStep.EmplacedInStep | src/ui/GraphModel.cpp:75-100 | An emplaced block leaves it in step with the snapshot that has the block as an entry, exactly if the edges resolve as before; as they do if none names the block. |
| GraphInStep.MessageInStep | src/ui/GraphModel.cpp:881-953 | So for every message for a graph, where a block comes before the edges that name it; inspections replace the snapshot. |
| GraphInStep.StepAround | src/ui/GraphModel.cpp:178-252 | If a graph anywhere below is in step with a new part and shows the ports it had, everything around it is in step with the snapshot that has this part. |
| GraphInStep.StepKeepsInStep | src/ui/GraphModel.cpp:849-953 | A message for any graph below a mirrored block leaves that block in step with the snapshot as the message changes it. |
| GraphInStep.RunKeepsInStep | src/ui/GraphModel.cpp:849-953 | So does every run of such messages. |
| GraphInStep.InspectedInStep | src/ui/GraphModel.cpp:908-913 | The graph of an inspected scheduler is in step with the message, from which such runs start. |
| GraphInStep.InspectedPorts | src/ui/GraphModel.cpp:908-911 | An inspected scheduler shows a port exactly if a block in the graph that it held before the message has it and it is exported; one that held nothing shows none. |
| BreadthFirst.Pop | src/ui/GraphModel.cpp:754-776 | Taking the first of the worklist and adding what comes next goes on in the order, level by level. |
| BreadthFirst.ProgressEnd | src/ui/GraphModel.cpp:754-776 | With an empty worklist the order is complete. |
| BlockReachability.LongWalkHasRing | src/ui/GraphModel.cpp:1148-1154 | A walk with more edges than there are enters a ring. |
| BlockReachability.AcyclicHasNoRing | src/ui/GraphModel.cpp:1145-1146 | Edges that close no walk have no ring ahead of any block, in either direction. |
| BlockReachability.EndsWithoutRing | src/ui/GraphModel.cpp:1136-1157 | Without a ring ahead the search ends, with no more nested calls than there are edges, and one. |
| BlockReachability.DeeperAgrees | src/ui/GraphModel.cpp:1136-1157 | Room for more nested calls never changes an answer. |
| BlockReachability.EmptyExactlyWhenDeadEnd | src/ui/GraphModel.cpp:1136-1157 | One direction answers no exactly if no walk leads to the block and no ring is ahead. |
| BlockReachability.FoundExactlyWhenFirstWay | src/ui/GraphModel.cpp:1148-1154 | One direction answers yes exactly if a walk leads to the block such that, all along it, every edge tried earlier leads to a dead end. |
| BlockReachability.AnswersExactlyWhen | src/ui/GraphModel.cpp:1134-1157 | For any edges: exactly when the answer is no, exactly when it is yes, and so exactly when there is none. |
| BlockReachability.UnjoinedEndsExactlyWhen | src/ui/GraphModel.cpp:1134-1157 | For blocks that no walk joins the search ends exactly if neither direction has a ring ahead. |
| BlockReachability.RingOfTwo | src/ui/GraphModel.cpp:1134-1157 | Two blocks in a ring are found from each other; a third block is searched for without end. |
| BlockReachability.BlockInTreeIsReachability | src/ui/GraphModel.cpp:1134-1157 | On acyclic edges the search ends, and the answer is yes exactly if a directed walk joins the two blocks, either way. |
| BlockReachability.BlockInTreeIsSymmetric | src/ui/GraphModel.cpp:1134-1157 | On acyclic edges siblings get the same answer whichever is asked about. |
| TopologicalSort.IncomingStep | src/ui/FlowgraphPage.cpp:71-74 | A path with one more edge comes through a parent. |
| TopologicalSort.LongPathHasCycle | src/ui/FlowgraphPage.cpp:101-106 | A path with as many edges as there are blocks passes a cycle. |
| TopologicalSort.LevelStep | src/ui/FlowgraphPage.cpp:76-99 | Taking out the blocks without parents takes out exactly those whose longest incoming path has k edges. |
| TopologicalSort.LeftOver | src/ui/FlowgraphPage.cpp:92-106 | What is left at the end is exactly what lies on a cycle or below one. |
| TopologicalSort.Complete | src/ui/FlowgraphPage.cpp:76-108 | A block is in no level exactly if it is on a cycle or below one. |
| TopologicalSort.Connect | src/ui/FlowgraphPage.cpp:64-74 | Parents and children are those of the edges, for every block and every edge end. |
| TopologicalSort.TakeLevel | src/ui/FlowgraphPage.cpp:77-98 | One round gives the next level and leaves the rest, or finds that there is none. |
| TopologicalSort.Sort | src/ui/FlowgraphPage.cpp:54-109 | The loop ends; level k has exactly the blocks whose longest incoming path has k edges, each once; exactly the blocks on or below a cycle are missing. |
| RemoteSubscriptions.SubscribedKeepsInv | src/ui/blocks/RemoteSource.hpp:166-186 | Subscribing a source that holds no handle keeps handles, callbacks, map and commands matched. |
| RemoteSubscriptions.ReleasedKeepsInv | src/ui/blocks/RemoteSource.hpp:248-262 | So does releasing a handle that its holder has let go of, also when it is the last of its URI. |
| RemoteSubscriptions.GivenUpKeepsInv | src/ui/blocks/RemoteSource.hpp:214-219 | So does moving a handle out of its source while a delivery goes on. |
| RemoteSubscriptions.ReconnectedKeepsInv | src/ui/blocks/RemoteSource.hpp:147-150 | So does reconnecting: with an Unsubscribe and then a Subscribe for a URI in the map and nothing else changed, the commands still alternate and everything is matched. |
| RemoteSubscriptions.HandlesMatchCallbacks | src/ui/blocks/RemoteSource.hpp:60-85 | A callback is stored exactly if one source, or one place in the queue, holds its handle, and never both or two. |
| RemoteSubscriptions.SubscriptionsLive | src/ui/blocks/RemoteSource.hpp:160-196 | No handle leads to a destroyed subscription; a URI is in the map exactly if it has a callback, and then Subscribe commands lead by one; at no time by more, or by less than none. |
| RemoteSubscriptions.MoveAssignmentLeaks | src/ui/blocks/RemoteSource.hpp:74-78 | Assigning a new handle keeps everything matched exactly if the source had none, which the guard at 324 ensures. |
| RemoteSubscriptions.NetStep | src/ui/blocks/RemoteSource.hpp:229-238 | One command more keeps Subscribe and Unsubscribe alternating if it fits the balance. |
| RemoteSubscriptions.RemoteSubscriptionManager.AddSource | src/ui/blocks/RemoteSource.hpp:94-96 | A new source has its URI and host, no handle, no retry time and no data. |
| RemoteSubscriptions.RemoteSubscriptionManager.SubscribeSource | src/ui/blocks/RemoteSource.hpp:166-186 | The source gets a handle to the one subscription of its URI under the next id, with its callback stored there; a Subscribe is sent exactly if the URI had no subscription. |
| RemoteSubscriptions.RemoteSubscriptionManager.PushCallback | src/ui/blocks/RemoteSource.hpp:178-185 | The callback is stored under a new id that the source's handle has; nothing else changes. |
| RemoteSubscriptions.RemoteSubscriptionManager.Release | src/ui/blocks/RemoteSource.hpp:248-262 | The callback goes, and with the last one the subscription, with an Unsubscribe. |
| RemoteSubscriptions.RemoteSubscriptionManager.Stop | src/ui/blocks/RemoteSource.hpp:99-102 | The source holds no handle and its callback is gone. |
| RemoteSubscriptions.RemoteSubscriptionManager.StartSubscription | src/ui/blocks/RemoteSource.hpp:323-334 | Nothing for a source that holds a handle; otherwise it gets one. |
| RemoteSubscriptions.RemoteSubscriptionManager.Start | src/ui/blocks/RemoteSource.hpp:354-359 | The same, if URI and host are set. |
| RemoteSubscriptions.RemoteSubscriptionManager.SettingsChanged | src/ui/blocks/RemoteSource.hpp:337-351 | A new URI or host makes the source subscribe anew, if both are set; its retry time and what it was given stay. |
| RemoteSubscriptions.RemoteSubscriptionManager.DropQueued | src/ui/blocks/RemoteSource.hpp:222-223 | A deferred unsubscription releases its handle after the delivery. |
| RemoteSubscriptions.RemoteSubscriptionManager.MaybeReconnect | src/ui/blocks/RemoteSource.hpp:103-115 | A source that is due and holds a handle sends Unsubscribe and then Subscribe for the URI of its subscription, while subscriptions, callbacks, handles, queue and ids stay; one without a handle starts one as a new subscriber of its URI; any other stays as it is. |
| RemoteSubscriptions.RemoteSubscriptionManager.GiveUp | src/ui/blocks/RemoteSource.hpp:506-534 | On an error the source's handle moves to the queue and a retry is set. |
| RemoteSubscriptions.RemoteSubscriptionManager.Deliver | src/ui/blocks/RemoteSource.hpp:208-224 | Data reaches each source once for each callback that feeds it from the URI, and no other source; on a failure exactly these sources give up their handles. The subscriptions do not change. |
| RemoteSubscriptions.RemoteSubscriptionManager.Broadcast | src/ui/blocks/RemoteSource.hpp:213-219 | Every callback of a subscription passes the data on, once. |
| RemoteSubscriptions.FedOnce | src/ui/blocks/RemoteSource.hpp:208-224 | A source that holds a handle is fed from its URI; by that handle's callback alone exactly if none of its earlier handles waits in the queue. |
| RemoteSubscriptions.FedTwice | src/ui/blocks/RemoteSource.hpp:208-224 | Subscribing, giving up and subscribing again leads to a state that keeps everything matched and feeds the source twice. |
| RemoteSubscriptions.FedOnlyByQueued | src/ui/blocks/RemoteSource.hpp:208-224 | Whatever feeds a source belongs to its handle or to a handle in the queue. |
| RemoteSubscriptions.RemoteSubscriptionManager.Run | src/ui/blocks/RemoteSource.hpp:60-262 | Every run of starts, stops, settings, deliveries, drops and reconnects keeps everything matched. |
| RemoteStreamSource.TagsSplit | src/ui/blocks/RemoteSource.hpp:464-492 | The triggers of two neighbouring ranges are those of the whole, at the same positions. |
| RemoteStreamSource.AdvanceSamples | src/ui/blocks/RemoteSource.hpp:441-445 | Reading k samples takes exactly them off what is pending. |
| RemoteStreamSource.AdvanceTags | src/ui/blocks/RemoteSource.hpp:464-498 | Reading k samples takes exactly the tags in them off what is pending, and moves no other. |
| RemoteStreamSource.PendingAppend | src/ui/blocks/RemoteSource.hpp:552-553 | An acquisition that is queued adds its samples at the end. |
| RemoteStreamSource.PendingTagsAppend | src/ui/blocks/RemoteSource.hpp:552-553 | It adds its tags after the samples that are pending before it. |
| RemoteStreamSource.DropWarningKeepsTriggers | src/ui/blocks/RemoteSource.hpp:546-551 | The warning comes in front of all triggers, each keeping its own property map, exactly if there are more property maps than triggers and they are all the same. |
| RemoteStreamSource.DropWarningShiftsMaps | src/ui/blocks/RemoteSource.hpp:546-551 | With columns of one length the last trigger is lost, and every other one gets its successor's property map. |
| RemoteStreamSource.TagsSayings | src/ui/blocks/RemoteSource.hpp:464-492 | All tags of a list of acquisitions, counted row by row: a row below the length of all five columns whose index is inside its samples says one tag at its acquisition's start plus the index, with its name, offset and property map, and with its timestamp as the time, or none if that is 0. |
| RemoteStreamSource.StreamIsSaid | src/ui/blocks/RemoteSource.hpp:464-498 | While published and pending tags make up all tags, exactly the tags that the rows say before a position are published, each as often, and none from there on. |
| RemoteStreamSource.InterruptedSays | src/ui/blocks/RemoteSource.hpp:522-533 | An error is one sample with one tag that names the interruption and has no time. |
| RemoteStreamSource.StreamSource.Enqueue | src/ui/blocks/RemoteSource.hpp:552-553 | The acquisition is queued unread. |
| RemoteStreamSource.StreamSource.CopyResponseIntoQueue | src/ui/blocks/RemoteSource.hpp:506-562 | Data are queued, with the warning if updates were skipped, an error as an interruption, an empty reply not at all. |
| RemoteStreamSource.StreamSource.PublishFront | src/ui/blocks/RemoteSource.hpp:427-498 | One round moves samples and tags from the front acquisition to the span, none lost or repeated; a tag comes as often as rows of the five columns say it at that place. |
| RemoteStreamSource.StreamSource.FillSpan | src/ui/blocks/RemoteSource.hpp:425-500 | Rounds go on until the span is full or nothing is pending; samples and tags move over in order. |
| RemoteStreamSource.StreamSource.ProcessBulk | src/ui/blocks/RemoteSource.hpp:421-502 | The span gets the next min(size, pending) samples, and each tag as often as rows of the five columns say it for one of these samples; no other tag. |
| RemoteStreamSource.StreamSource.Run | src/ui/blocks/RemoteSource.hpp:421-562 | Over any replies and any span sizes, published followed by pending is everything that was enqueued; and up to the last published sample exactly the tags are published that the rows of the five columns say, each as often. |
| WaterfallBuffer.RingPush | src/ui/charts/SpectrumHelper.hpp:942-946 | Writing at the write row is a push to a queue that drops its oldest entry when full. |
| WaterfallBuffer.RingResize | src/ui/charts/SpectrumHelper.hpp:1030-1061 | Copying the newest rows to the end of a new table gives a ring of exactly these rows, in order. |
| WaterfallBuffer.TextureSelects | src/ui/charts/SpectrumHelper.hpp:958-988 | The i-th of the evenly spaced texture coordinates from top to bottom, wrapped, lies in the table row that the vertical read-out shows in row i, for both values of the flag. |
| WaterfallBuffer.Ring.TextureAgrees | src/ui/charts/SpectrumHelper.hpp:953-1001 | Drawing by texture and drawing by the processor show the same rows of the ring. |
| WaterfallBuffer.ReadOutsAgree | src/ui/charts/SpectrumHelper.hpp:992-1022 | The horizontal read-out is the vertical one turned round: horizontal[r][c] is vertical[filled-1-c][width-1-r], for both values of the flag. |
| WaterfallBuffer.PushedIsNewest | src/ui/charts/SpectrumHelper.hpp:906-946 | Pushing to the newest entries of a history leaves the newest entries of the longer history. |
| WaterfallBuffer.CopyNewest | src/ui/charts/SpectrumHelper.hpp:1029-1056 | The new buffers hold the newest entries that fit, cell by cell. |
| WaterfallBuffer.Ring.constructor | src/ui/charts/SpectrumHelper.hpp:868-894 | An empty ring. |
| WaterfallBuffer.Ring.PushRow | src/ui/charts/SpectrumHelper.hpp:906-946 | The bounded queue gets the row, cut or padded to the width, with its time. |
| WaterfallBuffer.Ring.ResizeHistory | src/ui/charts/SpectrumHelper.hpp:1024-1062 | The newest min(filled, new height) entries stay, in order. |
| WaterfallBuffer.Ring.Clear | src/ui/charts/SpectrumHelper.hpp:1064-1083 | The ring is empty and blank. |
| WaterfallBuffer.Ring.RawTimeBounds | src/ui/charts/SpectrumHelper.hpp:1085-1095 | A range that starts at the oldest time and is never empty or reversed when there are rows. |
| WaterfallBuffer.Ring.RenderCpu | src/ui/charts/SpectrumHelper.hpp:992-1001 | Row i is the i-th newest entry, or the i-th oldest. |
| WaterfallBuffer.Ring.RenderCpuHorizontal | src/ui/charts/SpectrumHelper.hpp:1009-1018 | Frequencies run down from the highest, the times from left to right. |
| WaterfallBuffer.Ring.Run | src/ui/charts/SpectrumHelper.hpp:906-1083 | Over any run the ring holds exactly the newest of all pushed entries that no push and no shrink dropped. |
| LogBinnedRow.ColumnsFollowFrequencies | src/ui/charts/SpectrumHelper.hpp:198-205 | Columns follow the frequencies in order, the lowest in the first column and the highest in the last. |
| LogBinnedRow.ColumnIs | src/ui/charts/SpectrumHelper.hpp:198-205 | A frequency is in column c exactly if the part of the logarithmic range that it has passed lies between c and c + 1 of the columns; the upper end belongs to the last one. |
| LogBinnedRow.EqualSteps | src/ui/charts/SpectrumHelper.hpp:198-205 | Two frequencies whose ratio is m columns of the logarithmic range are m columns apart. |
| LogBinnedRow.AggregateIsPeak | src/ui/charts/SpectrumHelper.hpp:200-207 | A column's aggregate is the greatest magnitude of its bins that is not a NaN, or -inf. |
| LogBinnedRow.OccupiedColumn | src/ui/charts/SpectrumHelper.hpp:206-213 | A column counts as occupied exactly if it has a finite magnitude and no +inf. |
| LogBinnedRow.FilledIs | src/ui/charts/SpectrumHelper.hpp:208-229 | A filled column is finite: the greatest occupied column up to it, else the first occupied one, else 0. |
| LogBinnedRow.PeakKept | src/ui/charts/SpectrumHelper.hpp:193-230 | The in-range peak is in the row exactly if a bin with it lies between the logarithmic limits of a column without +inf, or everything is a gap and the peak is 0. |
| LogBinnedRow.NothingAbovePeak | src/ui/charts/SpectrumHelper.hpp:193-230 | No column is above the in-range peak, unless everything is a gap. |
| LogBinnedRow.ForwardFill | src/ui/charts/SpectrumHelper.hpp:208-223 | Gaps get the last occupied column; the first occupied value is remembered. |
| LogBinnedRow.BackFill | src/ui/charts/SpectrumHelper.hpp:224-229 | The leading gap gets the first occupied value, or 0. |
| LogBinnedRow.BuildLogBinnedRow | src/ui/charts/SpectrumHelper.hpp:195-230 | For all magnitudes every column is finite and is the filled aggregate of the bins between its logarithmic limits. |
| DensityHistogram.RowsFollowValues | src/ui/charts/SpectrumHelper.hpp:732-735 | Greater values are in lower rows; values beyond the limits are in the outermost rows. |
| DensityHistogram.BinIs | src/ui/charts/SpectrumHelper.hpp:732-735 | A value is in row r exactly if it lies in the r-th of the equal parts of the amplitude range, from the upper limit down; the outermost rows also take what lies beyond. |
| DensityHistogram.SteadyIs | src/ui/charts/SpectrumHelper.hpp:725 | A frame fades the cells by 1 - 1/tau, which is negative exactly for a time constant strictly between 0 and 1. |
| DensityHistogram.ColumnIsPeak | src/ui/charts/SpectrumHelper.hpp:653 | Every column's densities add up to the peak tracker, for any time constants. |
| DensityHistogram.ColumnsAddUp | src/ui/charts/SpectrumHelper.hpp:725-738 | So do the cells in memory. |
| DensityHistogram.CellBounds | src/ui/charts/SpectrumHelper.hpp:725-738 | Every cell is between 0 and the tracker when each time constant is at most 0 or at least 1. |
| DensityHistogram.NegativeDecay | src/ui/charts/SpectrumHelper.hpp:725 | Two frames after which a cell is above the tracker, for a time constant strictly between 0 and 1, which the parameter's type admits and no caller passes. |
| DensityHistogram.CellsBoundedExactlyWhen | src/ui/charts/SpectrumHelper.hpp:725-738 | For a fixed time constant no cell of any run is above the tracker exactly if the constant is not strictly between 0 and 1. |
| DensityHistogram.PeakBounds | src/ui/charts/SpectrumHelper.hpp:653 | The tracker never passes a fixed time constant of at least 1, and counts the frames without decay. |
| DensityHistogram.CellCounts | src/ui/charts/SpectrumHelper.hpp:725-738 | Without decay a cell counts the frames that hit it. |
| DensityHistogram.Histogram.CpuUpdate | src/ui/charts/SpectrumHelper.hpp:712-738 | The cells show the densities of all frames since the size or the limits last changed. |
| TraceAccumulator.HoldsEnclose | src/ui/charts/SpectrumHelper.hpp:120-144 | With time constants of at most 0 or at least 1 the holds enclose the current value and the average after every frame. |
| TraceAccumulator.HoldsEncloseExactlyWhen | src/ui/charts/SpectrumHelper.hpp:120-144 | For a fixed time constant they do so in every run exactly if it is not strictly between 0 and 1. |
| TraceAccumulator.HoldSteps | src/ui/charts/SpectrumHelper.hpp:120-136 | A hold jumps to a value beyond it; else it goes the tau-th part of the way to the value, or stays without decay. |
| TraceAccumulator.AverageSteps | src/ui/charts/SpectrumHelper.hpp:138-143 | The average goes the tau-th part of the way to the value, or without decay the part that one frame is of all. |
| TraceAccumulator.HoldFades | src/ui/charts/SpectrumHelper.hpp:120-136 | Over a steady value below it a hold falls towards the value geometrically, by the factor 1 - 1/tau each frame. |
| TraceAccumulator.TracesWithin | src/ui/charts/SpectrumHelper.hpp:120-144 | The holds and the average never leave the range of the values seen. |
| TraceAccumulator.HoldsWithoutDecay | src/ui/charts/SpectrumHelper.hpp:126-136 | Without decay the holds are the exact extremes of all frames since the size last changed. |
| TraceAccumulator.MeanWithoutDecay | src/ui/charts/SpectrumHelper.hpp:138-143 | Without decay the average is the exact mean of all frames. |
| TraceAccumulator.Accumulator.Update | src/ui/charts/SpectrumHelper.hpp:108-147 | The traces are those of all enabled frames since the size last changed; a disabled frame changes nothing. |
| TraceAccumulator.Accumulator.Reset | src/ui/charts/SpectrumHelper.hpp:149-154 | The history starts anew. |
| DashboardWire.PrintedSizeReads | src/ui/Dashboard.cpp:99-100 | Reading a printed size gives the size back. |
| DashboardWire.FromCharsStep | src/ui/Dashboard.cpp:99-100 | A digit more is ten times the number and the digit. |
| DashboardWire.NamesOnTheWire | src/ui/Dashboard.cpp:72-84 | The request for both sections reads "header,flowgraph". |
| DashboardWire.RequestUnderstood | src/service/dashboard/dashboardWorker.hpp:93-105 | The service cuts the client's list of names up into just the sections the client meant, in order. |
| DashboardWire.FramesRead | src/ui/Dashboard.cpp:94-106 | Framed sections are read back unchanged, whatever they contain. |
| DashboardWire.BuildWhat | src/ui/Dashboard.cpp:72-84 | The names with commas between them. |
| DashboardWire.HandleGet | src/service/dashboard/dashboardWorker.hpp:85-106 | One frame for every part between commas; an unknown name means the header. |
| DashboardWire.ParseReply | src/ui/Dashboard.cpp:91-107 | The sections of any reply, or the failed assertion where there is no separator or too little data. |
| DashboardWire.HandleReply | src/ui/Dashboard.cpp:88-115 | Which callback is scheduled, and with what. |
| DashboardWire.Fetch | src/ui/Dashboard.cpp:67-118 | The client gets exactly the sections it asked for, in order, exactly if the dashboard is known and the first section is not empty; otherwise the error callback. |
| TimingEventState.ToInt64Is | src/service/gnuradio/GnuRadioAcquisitionWorker.hpp:221-226 | A signed time is the one number in the range of 64 bits that is congruent to the tag's number modulo 2^64: the number itself below 2^63. |
| TimingEventState.FairTimingIs | src/service/gnuradio/GnuRadioAcquisitionWorker.hpp:192-197 | Which tags are timing tags, by their context or by the four identifiers in their meta data. |
| TimingEventState.AcceptedIs | src/service/gnuradio/GnuRadioAcquisitionWorker.hpp:199-226 | A tag is accepted exactly if a trigger time and an event number can be read off it; its time is then that number as a signed one. |
| TimingEventState.AfterTagSteps | src/service/gnuradio/GnuRadioAcquisitionWorker.hpp:199-256 | What the model makes of a tag is what can be read off it: the event and both stamps from any readable tag, the indices and their start stamps only from event 256 with all four numbers, and nothing from any other. |
| TimingEventState.StampsNotAfterEvent | src/service/gnuradio/GnuRadioAcquisitionWorker.hpp:221-255 | With times in order a start stamp is after the last event exactly if no complete tag has set the index to anything but its default and that event's signed time is negative. |
| TimingEventState.StampAfterEvent | src/service/gnuradio/GnuRadioAcquisitionWorker.hpp:221-255 | One accepted, incomplete tag with trigger time 2^63 leaves all three start stamps after the event. |
| TimingEventState.DefaultHasNoBegin | src/service/gnuradio/GnuRadioAcquisitionWorker.hpp:244-255 | While the index is still the default no tag has begun its run. |
| TimingEventState.RunBegin | src/service/gnuradio/GnuRadioAcquisitionWorker.hpp:244-255 | The first point of the last run of equal indices. |
| TimingEventState.StartStampIs | src/service/gnuradio/GnuRadioAcquisitionWorker.hpp:233-255 | A start stamp is the time of the complete tag that begins the run of the current index; or it is 0, while the index is the default that an earlier incomplete tag made valid. |
| TimingEventState.StartStampNumber | src/service/gnuradio/GnuRadioAcquisitionWorker.hpp:233-255 | A start stamp is the number at TRIGGER_TIME in the tag that begins the run, as a signed one. |
| TimingEventState.NextPoint | src/service/gnuradio/GnuRadioAcquisitionWorker.hpp:244-255 | A new point keeps the start stamp exactly if it repeats the index. |
| TimingEventState.PointsAreTags | src/service/gnuradio/GnuRadioAcquisitionWorker.hpp:233-255 | Every point but the leading default has the time of a complete tag. |
| TimingEventState.Completed | src/service/gnuradio/GnuRadioAcquisitionWorker.hpp:233-255 | What a complete tag changes, for each of the three indices. |
| TimingEventState.Incomplete | src/service/gnuradio/GnuRadioAcquisitionWorker.hpp:221-240 | Any other accepted tag changes the event alone. |
| TimingEventState.State.UpdateFromTagMap | src/service/gnuradio/GnuRadioAcquisitionWorker.hpp:199-256 | Each tag changes the fields as the numbers in it say, with the stamps congruent to the number at TRIGGER_TIME; after each the fields are what the whole stream says. |
| TimingEventState.State.UpdateFromTags | src/service/gnuradio/GnuRadioAcquisitionWorker.hpp:185-189 | The fields depend on the concatenated tags alone, not on how they were cut into spans. |
| SampleHistory.TagSetsClock | src/ui/blocks/ImPlotSink.hpp:531-544 | A trigger sets the clock to the time that its nanoseconds and its offset give, exactly if that is a time at all and, once the clock runs, a later one; nothing else moves it. |
| SampleHistory.FirstTrigger | src/ui/blocks/ImPlotSink.hpp:531-544 | The first trigger with a time and no offset starts the clock at that time in seconds. |
| SampleHistory.MarksAre | src/ui/blocks/ImPlotSink.hpp:546-557 | A drawn trigger stands at its own time if it set the clock, else it is marked and stands where the clock was; a gap stands where the next sample will be. |
| SampleHistory.RelevantAre | src/ui/blocks/ImPlotSink.hpp:524-530 | Until the first tag after the start of the span exactly the tags at its start count, in order; nothing from there on does. |
| SampleHistory.TagsMoveForward | src/ui/blocks/ImPlotSink.hpp:524-544 | The accepted time of a started clock never goes back. |
| SampleHistory.StaysSortedExactlyWhen | src/ui/blocks/ImPlotSink.hpp:561-571 | After a span the stored times are sorted exactly if the new ones do not start before the last old one or push every old one out. |
| SampleHistory.GoesOn | src/ui/blocks/ImPlotSink.hpp:561-571 | Without an accepted trigger the times go on in order. |
| SampleHistory.SortedExactlyWhen | src/ui/blocks/ImPlotSink.hpp:521-574 | Over any run all times are sorted exactly if no span steps back. |
| SampleHistory.TriggersForwardIsEnough | src/ui/blocks/ImPlotSink.hpp:531-544 | If no accepted trigger time is before the last time so far, no span steps back. |
| SampleHistory.Aligned | src/ui/blocks/ImPlotSink.hpp:561-566 | One time per sample. |
| SampleHistory.FilterIsSlice | src/ui/blocks/ImPlotSink.hpp:387-396 | A linear filter on the range is a slice when the times in range are contiguous. |
| SampleHistory.Selected | src/ui/blocks/ImPlotSink.hpp:387-396 | Between the ends of the two binary searches is exactly what the linear filter keeps. |
| SampleHistory.ClampedBounds | src/ui/blocks/ImPlotSink.hpp:426-434 | Limiting the bounds to the stored times selects the same; bounds that cross select nothing. |
| SampleHistory.LowerBound | src/ui/blocks/ImPlotSink.hpp:389 | Exactly the times before the result are below the bound. |
| SampleHistory.UpperBound | src/ui/blocks/ImPlotSink.hpp:390 | Exactly the times from the result on are above the bound. |
| SampleHistory.Sink.ProcessTags | src/ui/blocks/ImPlotSink.hpp:524-558 | The clock and the marks after the tags at the start of the span; all others are ignored. |
| SampleHistory.Sink.ProcessBulk | src/ui/blocks/ImPlotSink.hpp:521-574 | The newest times and samples that fit, aligned, with the exact condition for sortedness. |
| SampleHistory.Sink.Run | src/ui/blocks/ImPlotSink.hpp:521-574 | Over any run the sink holds the newest of all times and samples; they are sorted if no span steps back, in particular if no accepted trigger does. |
| SampleHistory.Sink.GetXRange | src/ui/blocks/ImPlotSink.hpp:382-399 | The index range holds exactly what a linear filter keeps. |
| SampleHistory.Sink.GetX | src/ui/blocks/ImPlotSink.hpp:420-448 | Exactly the times a linear filter keeps, with the first and the last of them. |
| SampleHistory.Sink.GetY | src/ui/blocks/ImPlotSink.hpp:450-481 | The samples at just these times, with the first and the last of them, or of all times if there are none. |
| ChartSinks.FindSink | src/ui/charts/SinkRegistry.hpp:92-103 | The first registered sink that answers to the name, or none if there is none. |
| ChartSinks.SyncBringsInStep | src/ui/charts/Chart.hpp:1151-1171 | After a sync every held sink is asked for, and every name the registry resolves is held. |
| ChartSinks.UnchangedExactlyWhen | src/ui/charts/Chart.hpp:1151-1171 | A sync leaves the list as it is exactly if it is in step already. |
| ChartSinks.SyncIsIdempotent | src/ui/charts/Chart.hpp:1151-1171 | Syncing twice is syncing once. |
| ChartSinks.MatchingIsInStep | src/ui/charts/Chart.hpp:1199-1208 | A list that passes the cheap check is in step. |
| ChartSinks.Chart.SyncSinksFromNames | src/ui/charts/Chart.hpp:1151-1171 | The list after erasing and adding. |
| ChartSinks.Chart.SyncSinksIfNeeded | src/ui/charts/Chart.hpp:1198-1209 | The same list as the full sync, always. |

## Left out

- Drawing, GL calls, shaders, colour maps, pacing, SDL, login, REST and ZMQ clients, plugin loading, YAML text: no logic of the modelled cores depends on them.
- Float rounding, NaN frequencies and the overflow of sizes and counters; only the cast of trigger times to signed 64 bits is written out.
- Memory-level data races: steps under a lock are atomic.
- Graph mirror: settings, contexts, the type registry and the GRC text, view and layout flags, `selectedBlock` (the source does not clear it when a snapshot removes the block), block data that are not maps.
- Graph mirror: an edge end is its owner block and the port's position, not a pointer into a port vector; `processPorts` clears these vectors, so no claim is made about ports after a lone block update.
- GraphModel.UiGraphModel.RequestFullUpdate: does not model `newGraphDataBeingSet`, which is never set where the request is reachable in this model.
- GraphModel.UiGraphModel.RecursiveForEachBlock: the traversal needs a root block; before the first inspected scheduler the source visits a root block with an empty name.
- Subscriptions: the destruction of a source while its callback is stored, and two deliveries at once; one queue stands for the deferred handles of all deliveries.
- RemoteStreamSource.StreamSource.ProcessBulk: starts with `maybeReconnect` in the source, which is modelled as a step of its own in `RemoteSubscriptions`.
- Streams: uncertain values, the settings taken over from an acquisition, the latency entry, merging the parsed property map, acquisitions with no sample or several signals (the source's loop does not end on them, so they are excluded where acquisitions enter).
- WaterfallBuffer.Ring.PushRow: colours and magnitudes are one abstract cell type; the colour look-up and the scale limits are not modelled.
- WaterfallBuffer.ReadOutsAgree: the texture read-out is compared by rows (`TextureSelects`), not by pixels on the screen.
- LogBinnedRow.BuildLogBinnedRow: needs a column and 0 < fMin < fMax, without which the source divides by zero or writes past the end.
- DensityHistogram: the GPU path is a shader; only its `_peakDensity` recurrence is modelled, as the sum of the columns. At least one bin each way is required, as the source takes the greatest cell.
- TraceAccumulator: only finite values.
- DashboardWire: the URI encoding of the query, the Set and list requests, the example and local storages; the bytes after a failed assertion.
- TimingEventState: `convert_safely` is not part of this model; a number that fits converts and nothing else does. `applyToReply` only copies.
- SampleHistory: data sets, resizing the buffers, expiring capacity requests, tag queries; the sample rate is a positive constant.
- ChartSinks: duplicates in the list (asking for both names of one sink can add it twice, and the contracts say exactly what is added), capacity requests, drag and drop.
- The `.ddd` file layout: the writer and the reader in `src/ui/Dashboard.cpp` disagree on it, so there is no round trip to prove.
- Reading a dashboard section back after a Set: the text is moved into a buffer whose code is not part of this model.
