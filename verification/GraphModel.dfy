/** The client's mirror of a remote flowgraph: a tree of schedulers, graphs and blocks that is
    kept in step with the service by messages. The blocks are heap objects that are updated in
    place, as in src/ui/GraphModel.cpp. */
module GraphModel {
  import opened BreadthFirst
  import opened GraphSnapshot
  import opened Shared

  datatype CategoryInfo =
    | NormalBlockInfo(ownerGraphUniqueName: string, ownerSchedulerUniqueName: string)
    | GraphBlockInfo(ownerSchedulerUniqueName: string)
    | SchedulerBlockInfo(childrenLoaded: bool)

  /** An edge between two ports, each given by the block that owns it and its position there. */
  datatype UiGraphEdge = UiGraphEdge(source: UiGraphBlock, sourcePort: nat,
                                     destination: UiGraphBlock, destinationPort: nat)

  /** A request that the client sends to the service. */
  datatype Request = InspectScheduler(serviceName: string) | InspectBlock(serviceName: string, uniqueName: string) | FullUpdate

  datatype VisitorResult = Recurse | Continue | Break

  /** The row (source name, source port, destination name, destination port) of an edge. */
  datatype EdgeRow = EdgeRow(source: string, sourcePort: nat, destination: string, destinationPort: nat)

  function RowOfEdge(e: UiGraphEdge): EdgeRow {
    EdgeRow(e.source.blockUniqueName, e.sourcePort, e.destination.blockUniqueName, e.destinationPort)
  }

  function RowsOfEdges(es: seq<UiGraphEdge>): (r: seq<EdgeRow>)
    ensures |r| == |es| && forall i :: 0 <= i < |es| ==> r[i] == RowOfEdge(es[i])
  {
    seq(|es|, i requires 0 <= i < |es| => RowOfEdge(es[i]))
  }

  /** x is b itself or one of the blocks below it. */
  ghost predicate Under(x: UiGraphBlock, b: UiGraphBlock) {
    x == b || (|b.path| < |x.path| && x.path[|b.path|] == b)
  }

  predicate DistinctNames(bs: seq<UiGraphBlock>) {
    forall i, j :: 0 <= i < j < |bs| ==> bs[i].blockUniqueName != bs[j].blockUniqueName
  }

  /** The fields of a block that change, as one value. */
  datatype BlockState = BlockState(name: string, category: Category, info: CategoryInfo,
                                   inputPorts: seq<string>, outputPorts: seq<string>,
                                   exportedInputs: seq<Export>, exportedOutputs: seq<Export>,
                                   children: seq<UiGraphBlock>, edges: seq<UiGraphEdge>)

  /** A block that was just made. */
  function NewState(category: Category, info: CategoryInfo): BlockState {
    BlockState("", category, info, [], [], [], [], [], [])
  }

  function RootState(): BlockState {
    NewState(ScheduledBlockGroup, SchedulerBlockInfo(false))
  }

  /** The state of every block made so far. */
  type View = map<UiGraphBlock, BlockState>

  /** Where a message found the model: the blocks, and how many requests had been sent. */
  datatype Before = Before(view: View, sent: nat)

  /** The requests that were sent since. */
  function Since(was: Before, sent: seq<Request>): seq<Request> {
    if was.sent <= |sent| then sent[was.sent..] else []
  }

  function OwnerScheduler(b: UiGraphBlock, s: BlockState): string {
    match s.info
    case SchedulerBlockInfo(_) => b.blockUniqueName
    case GraphBlockInfo(owner) => owner
    case NormalBlockInfo(_, owner) => owner
  }

  /** requestBlockUpdate: a nested scheduler is asked for through the graph that holds it. */
  function UpdateRequests(b: UiGraphBlock, s: BlockState): seq<Request> {
    if OwnerScheduler(b, s) != b.blockUniqueName then [InspectBlock(OwnerScheduler(b, s), b.blockUniqueName)]
    else if b.parentBlock == null then []
    else [InspectScheduler(b.parentBlock.blockUniqueName), InspectBlock(b.parentBlock.blockUniqueName, b.blockUniqueName)]
  }

  /** The block's place in the tree: its enclosing blocks and its owner scheduler. */
  ghost predicate Placed(m: UiGraphModel, v: View, root: UiGraphBlock?, b: UiGraphBlock)
    requires b in v
  {
    && b.ownerGraph == m
    && b.blockUniqueName != ""
    && v[b].category == m.categoryOf(b.blockUniqueName)
    && (v[b].info.SchedulerBlockInfo? <==> v[b].category == ScheduledBlockGroup)
    && (v[b].info.GraphBlockInfo? <==> v[b].category == TransparentBlockGroup)
    && (forall k :: 0 <= k < |b.path| ==> b.path[k] in v && b.path[k].path == b.path[..k])
    && (if b.parentBlock == null then b == root && b.path == [] && v[b].category == ScheduledBlockGroup
        else
          && b.parentBlock in v
          && b.path == b.parentBlock.path + [b.parentBlock]
          && (!v[b].info.SchedulerBlockInfo? ==> OwnerScheduler(b, v[b]) == OwnerScheduler(b.parentBlock, v[b.parentBlock])))
  }

  /** What the block holds: children that know their parent and have distinct names, and edges
      whose two owner blocks are among these children. */
  ghost predicate Holds(v: View, b: UiGraphBlock)
    requires b in v
  {
    && (forall c :: c in v[b].children ==> c in v && c.parentBlock == b)
    && DistinctNames(v[b].children)
    && (forall e :: e in v[b].edges ==> e.source in v[b].children && e.destination in v[b].children)
    && (v[b].category == NormalBlock ==> v[b].children == [])
    && (v[b].category == ScheduledBlockGroup ==> |v[b].children| <= 1)
    && (v[b].category != TransparentBlockGroup ==> v[b].edges == [])
  }

  ghost predicate ValidView(m: UiGraphModel, v: View, root: UiGraphBlock?) {
    && (root != null ==> root in v && root.parentBlock == null)
    && (root == null ==> v == map[])
    && (forall b {:trigger Placed(m, v, root, b)} :: b in v ==> Placed(m, v, root, b))
    && (forall b {:trigger Holds(v, b)} :: b in v ==> Holds(v, b))
  }

  ghost predicate SameButExports(s: BlockState, t: BlockState) {
    t == s.(exportedInputs := t.exportedInputs, exportedOutputs := t.exportedOutputs)
  }

  /** From v0 to v1 nothing outside the subtree of b was changed, but for the exported ports of its
      parent, and every new block is in it. */
  ghost predicate OnlyBelow(v0: View, v1: View, b: UiGraphBlock) {
    && v0.Keys <= v1.Keys
    && (forall x {:trigger Under(x, b)} :: x in v0 && !Under(x, b) ==>
          if x == b.parentBlock then SameButExports(v0[x], v1[x]) else v1[x] == v0[x])
    && (forall x {:trigger Under(x, b)} :: x in v1 && x !in v0 ==> Under(x, b))
  }

  /** The subtree of b is the same in v0 and v1. */
  ghost predicate SameBelow(v0: View, v1: View, b: UiGraphBlock) {
    forall x {:trigger Under(x, b)} :: x in v0 && Under(x, b) ==> x in v1 && v1[x] == v0[x]
  }

  /** The children a block had in view v; none if it did not exist. */
  ghost function ChildrenIn(v: View, b: UiGraphBlock): seq<UiGraphBlock> {
    if b in v then v[b].children else []
  }

  /** The subtree of b, b included, is as it was. */
  ghost predicate Kept(was: View, v: View, b: UiGraphBlock) {
    && was.Keys <= v.Keys
    && forall x {:trigger Under(x, b)} :: x in v && Under(x, b) ==> x in was && v[x] == was[x]
  }

  /** What b holds is as it was: its child list, and everything below it. */
  ghost predicate KeptInside(was: View, v: View, b: UiGraphBlock) {
    && was.Keys <= v.Keys
    && ChildrenIn(v, b) == ChildrenIn(was, b)
    && forall x {:trigger Under(x, b)} :: x in v && Under(x, b) && x != b ==> x in was && v[x] == was[x]
  }

  ghost predicate SameExports(was: View, v: View, b: UiGraphBlock)
    requires b in v
  {
    if b in was then v[b].exportedInputs == was[b].exportedInputs && v[b].exportedOutputs == was[b].exportedOutputs
    else v[b].exportedInputs == [] == v[b].exportedOutputs
  }

  // ---- ports ----

  function Named(bs: seq<UiGraphBlock>, n: string): (r: Option<UiGraphBlock>)
    ensures r.Some? ==> r.value in bs && r.value.blockUniqueName == n
    ensures r.None? ==> forall b :: b in bs ==> b.blockUniqueName != n
  {
    if |bs| == 0 then None else if bs[0].blockUniqueName == n then Some(bs[0]) else Named(bs[1..], n)
  }

  function PortsOf(s: BlockState, inputs: bool): seq<string> {
    if inputs then s.inputPorts else s.outputPorts
  }

  /** The exported names of those exported ports that the children really have. */
  ghost function ExportedNames(v: View, children: seq<UiGraphBlock>, exports: seq<Export>, inputs: bool): seq<string> {
    if |exports| == 0 then []
    else
      var init, last := ExportedNames(v, children, exports[..|exports| - 1], inputs), exports[|exports| - 1];
      var c := Named(children, last.child);
      if c.Some? && c.value in v && last.internalName in PortsOf(v[c.value], inputs) then init + [last.exportedName] else init
  }

  /** The ports of a scheduler: exported ports of the blocks in the graph it holds. */
  ghost function SchedulerPorts(v: View, held: seq<UiGraphBlock>, exports: seq<Export>, inputs: bool): seq<string> {
    if |held| == 0 || held[0] !in v then [] else ExportedNames(v, v[held[0]].children, exports, inputs)
  }

  /** The ports that data give a block: those of the data, but for a scheduler those that it exports. */
  ghost function PortsFor(v: View, held: seq<UiGraphBlock>, d: BlockData, exports: seq<Export>, inputs: bool): seq<string> {
    if d.category == ScheduledBlockGroup then SchedulerPorts(v, held, exports, inputs)
    else if inputs then d.inputPorts else d.outputPorts
  }

  lemma {:induction false} ExportedNamesFrame(v0: View, v1: View, children: seq<UiGraphBlock>, exports: seq<Export>,
                                              inputs: bool)
    requires forall c :: c in children ==> c in v0 && c in v1 && v1[c] == v0[c]
    ensures ExportedNames(v0, children, exports, inputs) == ExportedNames(v1, children, exports, inputs)
  {
    if |exports| != 0 {
      ExportedNamesFrame(v0, v1, children, exports[..|exports| - 1], inputs);
    }
  }

  // ---- edges ----

  /** The row of an edge description among these children, if it names two of them and ports that they have. */
  ghost function RowOf(v: View, children: seq<UiGraphBlock>, e: EdgeData): Option<EdgeRow> {
    var s, t := Named(children, e.source), Named(children, e.destination);
    if s.None? || t.None? || s.value !in v || t.value !in v then None
    else
      var sp, tp := FindPort(v[s.value].outputPorts, e.sourcePort), FindPort(v[t.value].inputPorts, e.destinationPort);
      if sp.None? || tp.None? then None
      else Some(EdgeRow(e.source, sp.value, e.destination, tp.value))
  }

  ghost function Rows(v: View, children: seq<UiGraphBlock>, edges: seq<EdgeData>): seq<EdgeRow> {
    if |edges| == 0 then []
    else
      var init := Rows(v, children, edges[..|edges| - 1]);
      var r := RowOf(v, children, edges[|edges| - 1]);
      if r.Some? then init + [r.value] else init
  }

  lemma {:induction false} RowsFrame(v0: View, v1: View, children: seq<UiGraphBlock>, edges: seq<EdgeData>)
    requires forall c :: c in children ==> c in v0 && c in v1 && v1[c] == v0[c]
    ensures Rows(v0, children, edges) == Rows(v1, children, edges)
  {
    if |edges| != 0 {
      RowsFrame(v0, v1, children, edges[..|edges| - 1]);
    }
  }

  // ---- what a snapshot makes of a tree ----

  /** A nested scheduler that is part of a snapshot: it keeps what it holds, shows the ports that its
      children export, and has been asked for its own snapshot since. */
  ghost predicate AwaitsSnapshot(was: Before, v: View, sent: seq<Request>, b: UiGraphBlock, d: BlockData)
    requires b in v
  {
    && v[b].children == ChildrenIn(was.view, b)
    && (forall c :: c in v[b].children ==> SameBelow(was.view, v, c))
    && v[b].exportedInputs == ExportsAfter(if b in was.view then was.view[b].exportedInputs else [], d.exportedInputs)
    && v[b].exportedOutputs == ExportsAfter(if b in was.view then was.view[b].exportedOutputs else [], d.exportedOutputs)
    && v[b].inputPorts == SchedulerPorts(v, v[b].children, v[b].exportedInputs, true)
    && v[b].outputPorts == SchedulerPorts(v, v[b].children, v[b].exportedOutputs, false)
    && InspectScheduler(b.blockUniqueName) in Since(was, sent)
  }

  ghost predicate HasEntry(was: Before, v: View, sent: seq<Request>, b: UiGraphBlock, entry: BlockData)
    requires b in v
    decreases entry, 2
  {
    exists c :: c in v[b].children && Mirrors(was, v, sent, c, entry)
  }

  /** What a graph holds: a child for every entry and no other, the ones that were there before by
      identity, and the edges that resolve with the ports that the children have. */
  ghost predicate HoldsEntries(was: Before, v: View, sent: seq<Request>, b: UiGraphBlock, d: BlockData)
    requires b in v
    decreases d, 0
  {
    && (forall c :: c in v[b].children ==> c.blockUniqueName in Keys(d))
    && (forall i :: 0 <= i < |d.children| ==> HasEntry(was, v, sent, b, d.children[i].data))
    && (forall c :: c in ChildrenIn(was.view, b) && c.blockUniqueName in Keys(d) ==> c in v[b].children)
    && RowsOfEdges(v[b].edges) == Rows(v, v[b].children, d.edges)
  }

  /** The subtree of b in v has the names, categories, ports, nesting and edges of the snapshot d,
      and every child that was there before and is still named is the same object. */
  ghost predicate Mirrors(was: Before, v: View, sent: seq<Request>, b: UiGraphBlock, d: BlockData)
    decreases d, 1
  {
    && b in v
    && b.blockUniqueName == d.uniqueName
    && v[b].category == d.category
    && v[b].name == d.name
    && (d.category != ScheduledBlockGroup ==> v[b].inputPorts == d.inputPorts && v[b].outputPorts == d.outputPorts)
    && (d.category == ScheduledBlockGroup ==> AwaitsSnapshot(was, v, sent, b, d))
    && (d.category == TransparentBlockGroup ==> HoldsEntries(was, v, sent, b, d))
  }

  /** The names of the children of b that a snapshot no longer has. */
  ghost function GoneNames(was: View, b: UiGraphBlock, d: BlockData): set<string> {
    if d.category != TransparentBlockGroup then {}
    else set c | c in ChildrenIn(was, b) && c.blockUniqueName !in Keys(d) :: c.blockUniqueName
  }

  function Dropping(s: BlockState, gone: set<string>): BlockState {
    s.(exportedInputs := Dropped(s.exportedInputs, gone), exportedOutputs := Dropped(s.exportedOutputs, gone))
  }

  /** The block that holds b has dropped the exported ports of these blocks, and is else the same. */
  ghost predicate ParentDrops(v0: View, v1: View, b: UiGraphBlock, gone: set<string>) {
    b.parentBlock != null && b.parentBlock in v0 ==> b.parentBlock in v1 && v1[b.parentBlock] == Dropping(v0[b.parentBlock], gone)
  }

  ghost function WithDrops(v: View, p: UiGraphBlock?, gone: set<string>): View {
    if p == null || p !in v then v else v[p := Dropping(v[p], gone)]
  }

  lemma LookAt(m: UiGraphModel, v: View, root: UiGraphBlock?, b: UiGraphBlock)
    requires ValidView(m, v, root) && b in v
    ensures Placed(m, v, root, b) && Holds(v, b)
  {
  }

  lemma ChildPath(m: UiGraphModel, v: View, root: UiGraphBlock?, b: UiGraphBlock, c: UiGraphBlock)
    requires ValidView(m, v, root) && b in v && c in v && c.parentBlock == b
    ensures Under(c, b) && !Under(b, c) && c != b
    ensures forall x :: x in v && Under(x, c) ==> Under(x, b) && x != b
  {
    assert Placed(m, v, root, c);
    forall x | x in v && Under(x, c)
      ensures Under(x, b) && x != b
    {
      assert Placed(m, v, root, x);
      if x != c {
        assert x.path[|c.path|] == c && c.path == x.path[..|c.path|];
        assert c.path[|b.path|] == b;
      }
    }
  }

  lemma SiblingPaths(m: UiGraphModel, v: View, root: UiGraphBlock?, b: UiGraphBlock, c1: UiGraphBlock, c2: UiGraphBlock)
    requires ValidView(m, v, root) && b in v && c1 in v && c2 in v && c1.parentBlock == b == c2.parentBlock && c1 != c2
    ensures forall x :: !(Under(x, c1) && Under(x, c2))
  {
    assert Placed(m, v, root, c1) && Placed(m, v, root, c2);
  }

  lemma SameBelowChild(m: UiGraphModel, root: UiGraphBlock?, v0: View, v1: View, b: UiGraphBlock, c: UiGraphBlock)
    requires ValidView(m, v0, root) && b in v0 && c in v0[b].children
    requires SameBelow(v0, v1, b)
    ensures c in v0 && c in v1 && v1[c] == v0[c] && SameBelow(v0, v1, c)
  {
    assert Holds(v0, b);
    ChildPath(m, v0, root, b, c);
  }

  /** The ports of a scheduler depend on its subtree alone. */
  lemma SchedulerPortsFrame(m: UiGraphModel, root: UiGraphBlock?, v0: View, v1: View, b: UiGraphBlock,
                            exports: seq<Export>, inputs: bool)
    requires ValidView(m, v0, root) && b in v0 && SameBelow(v0, v1, b)
    ensures b in v1 && v1[b] == v0[b]
    ensures SchedulerPorts(v0, v0[b].children, exports, inputs) == SchedulerPorts(v1, v0[b].children, exports, inputs)
  {
    assert Under(b, b);
    if |v0[b].children| != 0 {
      var g := v0[b].children[0];
      SameBelowChild(m, root, v0, v1, b, g);
      forall c | c in v0[g].children
        ensures c in v0 && c in v1 && v1[c] == v0[c]
      {
        SameBelowChild(m, root, v0, v1, g, c);
      }
      ExportedNamesFrame(v0, v1, v0[g].children, exports, inputs);
    }
  }

  lemma KeptSame(was: View, v: View, c: UiGraphBlock)
    requires Kept(was, v, c)
    ensures SameBelow(was, v, c)
  {
  }

  lemma SameBelowTrans(was: View, v0: View, v1: View, c: UiGraphBlock)
    requires SameBelow(was, v0, c) && SameBelow(v0, v1, c)
    ensures SameBelow(was, v1, c)
  {
  }

  lemma SinceFrame(was: Before, sent0: seq<Request>, sent1: seq<Request>, r: Request)
    requires r in Since(was, sent0) && sent0 <= sent1
    ensures r in Since(was, sent1)
  {
    var i :| 0 <= i < |Since(was, sent0)| && Since(was, sent0)[i] == r;
    assert Since(was, sent1)[i] == r;
  }

  lemma AwaitsFrame(m: UiGraphModel, root: UiGraphBlock?, was: Before, v0: View, v1: View, sent0: seq<Request>,
                    sent1: seq<Request>, b: UiGraphBlock, d: BlockData)
    requires ValidView(m, v0, root) && b in v0
    requires AwaitsSnapshot(was, v0, sent0, b, d) && SameBelow(v0, v1, b) && sent0 <= sent1
    ensures b in v1 && AwaitsSnapshot(was, v1, sent1, b, d)
  {
    SchedulerPortsFrame(m, root, v0, v1, b, v0[b].exportedInputs, true);
    SchedulerPortsFrame(m, root, v0, v1, b, v0[b].exportedOutputs, false);
    SinceFrame(was, sent0, sent1, InspectScheduler(b.blockUniqueName));
    forall c | c in v0[b].children
      ensures SameBelow(was.view, v1, c)
    {
      SameBelowChild(m, root, v0, v1, b, c);
      SameBelowTrans(was.view, v0, v1, c);
    }
  }

  /** Mirrors looks at nothing but the subtree. */
  lemma {:induction false} MirrorsFrame(m: UiGraphModel, root: UiGraphBlock?, was: Before, v0: View, v1: View,
                                        sent0: seq<Request>, sent1: seq<Request>, b: UiGraphBlock, d: BlockData)
    requires ValidView(m, v0, root)
    requires Mirrors(was, v0, sent0, b, d)
    requires SameBelow(v0, v1, b) && sent0 <= sent1
    ensures Mirrors(was, v1, sent1, b, d)
    decreases d, 1
  {
    hide AwaitsSnapshot, HoldsEntries;
    assert Under(b, b) && v1[b] == v0[b];
    if d.category == ScheduledBlockGroup {
      AwaitsFrame(m, root, was, v0, v1, sent0, sent1, b, d);
    } else if d.category == TransparentBlockGroup {
      EntriesFrame(m, root, was, v0, v1, sent0, sent1, b, d);
    }
  }

  lemma {:induction false} EntriesFrame(m: UiGraphModel, root: UiGraphBlock?, was: Before, v0: View, v1: View,
                                        sent0: seq<Request>, sent1: seq<Request>, b: UiGraphBlock, d: BlockData)
    requires ValidView(m, v0, root) && b in v0 && b in v1 && v1[b] == v0[b]
    requires HoldsEntries(was, v0, sent0, b, d)
    requires SameBelow(v0, v1, b) && sent0 <= sent1
    ensures HoldsEntries(was, v1, sent1, b, d)
    decreases d, 0
  {
    hide ValidView, Mirrors, SameBelow, HasEntry, Rows, Keys;
    forall c | c in v0[b].children
      ensures c in v0 && c in v1 && v1[c] == v0[c]
    {
      SameBelowChild(m, root, v0, v1, b, c);
    }
    RowsFrame(v0, v1, v0[b].children, d.edges);
    forall i | 0 <= i < |d.children|
      ensures HasEntry(was, v1, sent1, b, d.children[i].data)
    {
      EntryFrame(m, root, was, v0, v1, sent0, sent1, b, d.children[i].data);
    }
  }

  lemma {:induction false} EntryFrame(m: UiGraphModel, root: UiGraphBlock?, was: Before, v0: View, v1: View,
                                      sent0: seq<Request>, sent1: seq<Request>, b: UiGraphBlock, entry: BlockData)
    requires ValidView(m, v0, root) && b in v0 && b in v1 && v1[b] == v0[b]
    requires HasEntry(was, v0, sent0, b, entry)
    requires SameBelow(v0, v1, b) && sent0 <= sent1
    ensures HasEntry(was, v1, sent1, b, entry)
    decreases entry, 2
  {
    hide ValidView, Mirrors, SameBelow;
    var c :| c in v0[b].children && Mirrors(was, v0, sent0, c, entry);
    SameBelowChild(m, root, v0, v1, b, c);
    MirrorsFrame(m, root, was, v0, v1, sent0, sent1, c, entry);
  }

  /** Changing b alone, without its category or owner scheduler, keeps the tree valid. */
  lemma UpdateKeepsValid(m: UiGraphModel, v: View, root: UiGraphBlock?, b: UiGraphBlock, s: BlockState)
    requires ValidView(m, v, root) && b in v
    requires s.category == v[b].category
    requires s.info == v[b].info || (s.info.SchedulerBlockInfo? && v[b].info.SchedulerBlockInfo?)
    requires Holds(v[b := s], b)
    ensures ValidView(m, v[b := s], root) && OnlyBelow(v, v[b := s], b)
  {
    var w := v[b := s];
    forall x | x in w
      ensures Placed(m, w, root, x) && Holds(w, x)
    {
      assert Placed(m, v, root, x) && Holds(v, x);
    }
  }

  lemma NewBlockKeepsValid(m: UiGraphModel, v: View, root: UiGraphBlock?, b: UiGraphBlock, s: BlockState)
    requires ValidView(m, v, root) && b !in v && b.parentBlock != null && b.parentBlock in v
    requires b.ownerGraph == m && b.path == b.parentBlock.path + [b.parentBlock]
    requires b.blockUniqueName != "" && s.category == m.categoryOf(b.blockUniqueName)
    requires s.info.SchedulerBlockInfo? <==> s.category == ScheduledBlockGroup
    requires s.info.GraphBlockInfo? <==> s.category == TransparentBlockGroup
    requires !s.info.SchedulerBlockInfo? ==> OwnerScheduler(b, s) == OwnerScheduler(b.parentBlock, v[b.parentBlock])
    requires s.children == [] && s.edges == []
    ensures ValidView(m, v[b := s], root) && OnlyBelow(v, v[b := s], b)
    ensures forall x :: x in v ==> !Under(x, b)
  {
    var w := v[b := s];
    forall x | x in w
      ensures Placed(m, w, root, x) && Holds(w, x)
    {
      if x != b {
        assert Placed(m, v, root, x) && Holds(v, x);
      } else {
        assert Placed(m, v, root, b.parentBlock);
      }
    }
    forall x | x in v
      ensures !Under(x, b)
    {
      assert Placed(m, v, root, x);
    }
  }

  lemma DropsKeepHolds(v: View, p: UiGraphBlock, gone: set<string>)
    requires p in v && Holds(v, p)
    ensures Holds(v[p := Dropping(v[p], gone)], p)
  {
  }

  /** Dropping exported ports of the parent keeps the tree valid, and the subtree as it is. */
  lemma DropsKeepValid(m: UiGraphModel, v: View, root: UiGraphBlock?, b: UiGraphBlock, gone: set<string>)
    requires ValidView(m, v, root) && b in v
    ensures ValidView(m, WithDrops(v, b.parentBlock, gone), root)
    ensures OnlyBelow(v, WithDrops(v, b.parentBlock, gone), b)
    ensures SameBelow(v, WithDrops(v, b.parentBlock, gone), b)
    ensures ParentDrops(v, WithDrops(v, b.parentBlock, gone), b, gone)
  {
    LookAt(m, v, root, b);
    if b.parentBlock != null {
      var p: UiGraphBlock := b.parentBlock;
      LookAt(m, v, root, p);
      ChildPath(m, v, root, p, b);
      DropsKeepHolds(v, p, gone);
      UpdateKeepsValid(m, v, root, p, Dropping(v[p], gone));
    }
  }

  /** Changing b itself leaves the subtrees of its children as they are. */
  lemma ParentStep(m: UiGraphModel, root: UiGraphBlock?, v: View, b: UiGraphBlock, s: BlockState, c: UiGraphBlock)
    requires ValidView(m, v, root) && b in v && c in v && c.parentBlock == b
    ensures SameBelow(v, v[b := s], c)
  {
    ChildPath(m, v, root, b, c);
  }

  function WithoutBlock(es: seq<UiGraphEdge>, b: UiGraphBlock): (r: seq<UiGraphEdge>)
    ensures forall i :: 0 <= i < |r| ==> r[i] in es && r[i].source != b && r[i].destination != b
    ensures forall i :: 0 <= i < |es| && es[i].source != b && es[i].destination != b ==> es[i] in r
  {
    if |es| == 0 then []
    else
      var rest := WithoutBlock(es[1..], b);
      if es[0].source == b || es[0].destination == b then rest else [es[0]] + rest
  }

  /** The edges that are left keep their order, and none comes twice. */
  lemma {:induction false} WithoutBlockSplit(es: seq<UiGraphEdge>, fs: seq<UiGraphEdge>, b: UiGraphBlock)
    ensures WithoutBlock(es + fs, b) == WithoutBlock(es, b) + WithoutBlock(fs, b)
    ensures |WithoutBlock(es, b)| <= |es|
  {
    if |es| == 0 {
      assert es + fs == fs;
    } else {
      WithoutBlockSplit(es[1..], fs, b);
      assert (es + fs)[1..] == es[1..] + fs;
    }
  }

  lemma NoneNamed()
    ensures DistinctNames([])
  {
  }

  lemma StillDistinct(bs: seq<UiGraphBlock>, kept: seq<UiGraphBlock>, i: nat)
    requires DistinctNames(bs) && i < |bs| && DistinctNames(kept) && forall b :: b in kept ==> b in bs[..i]
    ensures DistinctNames(kept + [bs[i]])
  {
    forall j | 0 <= j < |kept|
      ensures kept[j].blockUniqueName != bs[i].blockUniqueName
    {
      assert kept[j] in bs[..i];
      var k :| 0 <= k < i && bs[k] == kept[j];
    }
  }

  /** As std::partition: the blocks with a known name, and the rest, each in some order. */
  method Partition(bs: seq<UiGraphBlock>, names: set<string>) returns (kept: seq<UiGraphBlock>, gone: seq<UiGraphBlock>)
    requires DistinctNames(bs)
    ensures multiset(kept) + multiset(gone) == multiset(bs)
    ensures forall b :: b in kept <==> b in bs && b.blockUniqueName in names
    ensures forall b :: b in gone <==> b in bs && b.blockUniqueName !in names
    ensures DistinctNames(kept)
  {
    hide DistinctNames;
    kept, gone := [], [];
    NoneNamed();
    for i := 0 to |bs|
      invariant multiset(kept) + multiset(gone) == multiset(bs[..i])
      invariant forall b :: b in kept <==> b in bs[..i] && b.blockUniqueName in names
      invariant forall b :: b in gone <==> b in bs[..i] && b.blockUniqueName !in names
      invariant DistinctNames(kept)
    {
      assert bs[..i + 1] == bs[..i] + [bs[i]];
      if bs[i].blockUniqueName in names {
        StillDistinct(bs, kept, i);
        kept := kept + [bs[i]];
      } else {
        gone := gone + [bs[i]];
      }
    }
    assert bs[..|bs|] == bs;
  }

  lemma SameName(children: seq<UiGraphBlock>, a: UiGraphBlock, b: UiGraphBlock)
    requires DistinctNames(children) && a in children && b in children && a.blockUniqueName == b.blockUniqueName
    ensures a == b
  {
  }

  lemma {:induction false} NamedIs(bs: seq<UiGraphBlock>, c: UiGraphBlock)
    requires DistinctNames(bs) && c in bs
    ensures Named(bs, c.blockUniqueName) == Some(c)
  {
    SameName(bs, Named(bs, c.blockUniqueName).value, c);
  }

  /** What the search for the two ports gives is the row of the edge description. */
  lemma EdgeRowAgrees(v: View, children: seq<UiGraphBlock>, e: EdgeData, r: Option<UiGraphEdge>)
    requires DistinctNames(children) && forall c :: c in children ==> c in v
    requires r.Some? ==>
        && r.value.source in children && r.value.source.blockUniqueName == e.source
        && r.value.destination in children && r.value.destination.blockUniqueName == e.destination
        && Denotes(v[r.value.source].outputPorts, e.sourcePort, r.value.sourcePort)
        && Denotes(v[r.value.destination].inputPorts, e.destinationPort, r.value.destinationPort)
    requires r.None? ==> forall s, t :: s in children && t in children && s.blockUniqueName == e.source && t.blockUniqueName == e.destination ==>
        !HasPort(v[s].outputPorts, e.sourcePort) || !HasPort(v[t].inputPorts, e.destinationPort)
    ensures RowOf(v, children, e) == if r.Some? then Some(RowOfEdge(r.value)) else None
  {
    if r.Some? {
      NamedIs(children, r.value.source);
      NamedIs(children, r.value.destination);
    }
  }

  lemma RowsStep(v: View, children: seq<UiGraphBlock>, edges: seq<EdgeData>, k: nat)
    requires k < |edges|
    ensures Rows(v, children, edges[..k + 1]) ==
            Rows(v, children, edges[..k]) + (var r := RowOf(v, children, edges[k]); if r.Some? then [r.value] else [])
  {
    assert edges[..k + 1][..k] == edges[..k];
  }

  lemma NoRows(v: View, children: seq<UiGraphBlock>)
    ensures Rows(v, children, []) == [] == RowsOfEdges([])
  {
  }

  lemma RowAppended(es: seq<UiGraphEdge>, e: UiGraphEdge)
    ensures RowsOfEdges(es + [e]) == RowsOfEdges(es) + [RowOfEdge(e)]
  {
  }

  /** Handling the child c of b leaves the subtree of any other child x as it was. */
  lemma OtherChild(m: UiGraphModel, root: UiGraphBlock?, was: View, v1: View, v2: View, b: UiGraphBlock,
                   s: BlockState, x: UiGraphBlock, c: UiGraphBlock)
    requires ValidView(m, v1, root) && ValidView(m, v2, root) && b in v1
    requires x in v1 && c in v2 && x.parentBlock == b == c.parentBlock && x != c
    requires OnlyBelow(v1[b := s], v2, c)
    ensures SameBelow(v1, v2, x)
    ensures Kept(was, v1, x) ==> Kept(was, v2, x)
  {
    SiblingPaths(m, v2, root, b, x, c);
    ChildPath(m, v1, root, b, x);
    ChildPath(m, v2, root, b, x);
  }

  function KeysUpTo(d: BlockData, n: nat): set<string>
    requires n <= |d.children|
  {
    set i | 0 <= i < n :: d.children[i].key
  }

  /** A new child c of b, made below b's place, is appended to b's children. */
  lemma AppendChild(m: UiGraphModel, root: UiGraphBlock?, was: Before, v: View, v1: View, sent: seq<Request>,
                    b: UiGraphBlock, c: UiGraphBlock, d: BlockData)
    requires ValidView(m, v, root) && ValidView(m, v1, root) && OnlyBelow(v, v1, c)
    requires b in v && v[b].category == TransparentBlockGroup && c in v1 && c !in v && c.parentBlock == b && v1[b] == v[b]
    requires forall x :: x in v[b].children ==> x.blockUniqueName != c.blockUniqueName
    requires Mirrors(was, v1, sent, c, d)
    ensures var s := v[b].(children := v[b].children + [c]);
      ValidView(m, v1[b := s], root) && OnlyBelow(v[b := s], v1[b := s], c) && Mirrors(was, v1[b := s], sent, c, d)
  {
    ChildPath(m, v1, root, b, c);
    var s := v[b].(children := v[b].children + [c]);
    assert Holds(v1, b);
    assert Holds(v1[b := s], b);
    UpdateKeepsValid(m, v1, root, b, s);
    ParentStep(m, root, v1, b, s, c);
    MirrorsFrame(m, root, was, v1, v1[b := s], sent, sent, c, d);
  }

  /** A new graph is hung below the empty scheduler b. */
  lemma HangGraph(m: UiGraphModel, root: UiGraphBlock?, was: Before, v: View, v1: View, sent: seq<Request>,
                  b: UiGraphBlock, c: UiGraphBlock, d: BlockData)
    requires ValidView(m, v, root) && ValidView(m, v1, root) && OnlyBelow(v, v1, c)
    requires b in v && v[b].category == ScheduledBlockGroup && v[b].children == []
    requires c in v1 && c !in v && c.parentBlock == b && v1[b] == v[b]
    requires Mirrors(was, v1, sent, c, d)
    ensures var s := v[b].(children := [c]);
      && ValidView(m, v1[b := s], root) && OnlyBelow(v, v1[b := s], b) && ParentSame(v, v1[b := s], b)
      && Mirrors(was, v1[b := s], sent, c, d)
  {
    ChildPath(m, v1, root, b, c);
    var s := v[b].(children := [c]);
    assert Holds(v1, b);
    assert Holds(v1[b := s], b);
    UpdateKeepsValid(m, v1, root, b, s);
    ParentStep(m, root, v1, b, s, c);
    MirrorsFrame(m, root, was, v1, v1[b := s], sent, sent, c, d);
    assert v[b := v1[b]] == v;
    OnlyBelowStep(m, root, v, v, v1, b, c);
    OnlyBelowTrans(v, v1, v1[b := s], b);
    GrandparentSame(m, root, v, v1[b := s], b, c);
  }

  /** The block that holds b is the same. */
  ghost predicate ParentSame(v0: View, v1: View, b: UiGraphBlock) {
    b.parentBlock != null && b.parentBlock in v0 ==> b.parentBlock in v1 && v1[b.parentBlock] == v0[b.parentBlock]
  }

  /** What changes below a child of b, and b itself, does not change the block that holds b. */
  lemma GrandparentSame(m: UiGraphModel, root: UiGraphBlock?, v0: View, v1: View, b: UiGraphBlock, c: UiGraphBlock)
    requires ValidView(m, v1, root) && b in v1 && c in v1 && c.parentBlock == b && b in v0
    requires OnlyBelow(v0[b := v1[b]], v1, c)
    ensures ParentSame(v0, v1, b)
  {
    LookAt(m, v1, root, b);
    if b.parentBlock != null {
      ChildPath(m, v1, root, b.parentBlock, b);
      ChildPath(m, v1, root, b, c);
    }
  }

  lemma ParentDropsSame(v0: View, v1: View, b: UiGraphBlock)
    ensures ParentSame(v0, v1, b) <==> ParentDrops(v0, v1, b, {})
  {
    if b.parentBlock != null && b.parentBlock in v0 {
      DroppedNone(v0[b.parentBlock].exportedInputs);
      DroppedNone(v0[b.parentBlock].exportedOutputs);
    }
  }

  /** From s to t children may have been added, and exported ports dropped. */
  ghost predicate Grows(s: BlockState, t: BlockState) {
    && s.children <= t.children
    && t == s.(children := t.children, exportedInputs := t.exportedInputs, exportedOutputs := t.exportedOutputs)
  }

  /** How far the entries of d have been applied to the children of b: kids[i] is the child for
      the i-th entry, and the children that are still to be handled are untouched. */
  ghost predicate Applied(was: Before, v0: View, v: View, sent: seq<Request>, b: UiGraphBlock,
                          kids: seq<UiGraphBlock>, d: BlockData) {
    && b in v0 && b in v && |kids| <= |d.children|
    && Grows(v0[b], v[b])
    && OnlyBelow(v0, v, b) && ParentSame(v0, v, b)
    && (forall c :: c in v[b].children && c !in v0[b].children ==> c.blockUniqueName in KeysUpTo(d, |kids|))
    && (forall j :: 0 <= j < |kids| ==> kids[j] in v[b].children && Mirrors(was, v, sent, kids[j], d.children[j].data))
    && (forall c :: c in v0[b].children && c.blockUniqueName !in KeysUpTo(d, |kids|) ==> Kept(was.view, v, c))
  }

  lemma AppliedStart(m: UiGraphModel, root: UiGraphBlock?, was: Before, v0: View, sent: seq<Request>, b: UiGraphBlock,
                     d: BlockData)
    requires ValidView(m, v0, root) && b in v0 && KeptInside(was.view, v0, b)
    ensures Applied(was, v0, v0, sent, b, [], d)
  {
    forall c | c in v0[b].children
      ensures Kept(was.view, v0, c)
    {
      ChildKept(m, root, was.view, v0, b, c);
    }
    OnlyBelowReflexive(v0, b);
  }

  lemma ChildKept(m: UiGraphModel, root: UiGraphBlock?, was: View, v: View, b: UiGraphBlock, c: UiGraphBlock)
    requires ValidView(m, v, root) && b in v && c in v[b].children && KeptInside(was, v, b)
    ensures Kept(was, v, c)
  {
    LookAt(m, v, root, b);
    ChildPath(m, v, root, b, c);
  }

  /** A subtree that is as it was is so inside, and has the exported ports it had. */
  lemma KeptIs(was: View, v: View, b: UiGraphBlock)
    requires Kept(was, v, b) && b in v
    ensures KeptInside(was, v, b) && SameExports(was, v, b)
  {
    assert Under(b, b);
  }

  lemma AppliedOwn(was: Before, v0: View, v: View, sent: seq<Request>, b: UiGraphBlock, kids: seq<UiGraphBlock>,
                   d: BlockData)
    requires Applied(was, v0, v, sent, b, kids, d)
    ensures b in v0 && b in v && Grows(v0[b], v[b])
  {
  }

  lemma FoundChild(m: UiGraphModel, root: UiGraphBlock?, was: Before, v0: View, v: View, sent: seq<Request>,
                   b: UiGraphBlock, kids: seq<UiGraphBlock>, c: UiGraphBlock, d: BlockData)
    requires ValidView(m, v, root) && WellFormed(d, m.categoryOf)
    requires Applied(was, v0, v, sent, b, kids, d) && |kids| < |d.children|
    requires c in v[b].children && c.blockUniqueName == d.children[|kids|].key
    ensures c in v && c.ownerGraph == m && Kept(was.view, v, c) && !Under(b, c) && c.parentBlock == b
    ensures c.blockUniqueName !in KeysUpTo(d, |kids|) && c in v0[b].children
  {
    assert Holds(v, b) && Placed(m, v, root, c);
    ChildPath(m, v, root, b, c);
  }

  lemma KeysStep(d: BlockData, i: nat)
    requires i < |d.children|
    ensures KeysUpTo(d, i + 1) == KeysUpTo(d, i) + {d.children[i].key}
  {
  }

  lemma EntryKeys(d: BlockData, categoryOf: string -> Category, j: nat, i: nat)
    requires WellFormed(d, categoryOf) && j < i < |d.children|
    ensures d.children[j].data.uniqueName == d.children[j].key != d.children[i].key
  {
  }

  lemma AppliedStep(m: UiGraphModel, root: UiGraphBlock?, was: Before, v0: View, v1: View, v2: View,
                    sent1: seq<Request>, sent2: seq<Request>, b: UiGraphBlock, kids: seq<UiGraphBlock>,
                    c: UiGraphBlock, d: BlockData)
    requires ValidView(m, v1, root) && ValidView(m, v2, root) && WellFormed(d, m.categoryOf)
    requires Applied(was, v0, v1, sent1, b, kids, d) && |kids| < |d.children|
    requires b in v2 && Grows(v1[b], v2[b])
    requires c in v2[b].children && (v2[b].children == v1[b].children || (v2[b].children == v1[b].children + [c] && c !in v1))
    requires c.blockUniqueName == d.children[|kids|].key
    requires OnlyBelow(v1[b := v2[b]], v2, c) && sent1 <= sent2
    requires Mirrors(was, v2, sent2, c, d.children[|kids|].data)
    ensures Applied(was, v0, v2, sent2, b, kids + [c], d)
  {
    hide Mirrors, ValidView, SameBelow, Kept, OnlyBelow, WellFormed, KeysUpTo;
    var i := |kids|;
    LookAt(m, v1, root, b);
    LookAt(m, v2, root, b);
    KeysStep(d, i);
    ChildPath(m, v2, root, b, c);
    forall x | x in v1[b].children && x != c
      ensures SameBelow(v1, v2, x)
      ensures Kept(was.view, v1, x) ==> Kept(was.view, v2, x)
    {
      OtherChild(m, root, was.view, v1, v2, b, v2[b], x, c);
    }
    forall j | 0 <= j < i
      ensures kids[j] in v2[b].children && Mirrors(was, v2, sent2, kids[j], d.children[j].data)
    {
      MirroredName(was, v1, sent1, kids[j], d.children[j].data);
      EntryKeys(d, m.categoryOf, j, i);
      MirrorsFrame(m, root, was, v1, v2, sent1, sent2, kids[j], d.children[j].data);
    }
    OnlyBelowStep(m, root, v0, v1, v2, b, c);
    GrandparentSame(m, root, v1, v2, b, c);
  }

  lemma MirroredName(was: Before, v: View, sent: seq<Request>, b: UiGraphBlock, d: BlockData)
    requires Mirrors(was, v, sent, b, d)
    ensures b in v && b.blockUniqueName == d.uniqueName
  {
  }

  lemma OnlyBelowStep(m: UiGraphModel, root: UiGraphBlock?, v0: View, v1: View, v2: View, b: UiGraphBlock,
                      c: UiGraphBlock)
    requires ValidView(m, v2, root) && b in v1 && b in v2 && c in v2 && c.parentBlock == b
    requires OnlyBelow(v0, v1, b) && OnlyBelow(v1[b := v2[b]], v2, c)
    ensures OnlyBelow(v0, v2, b)
  {
    ChildPath(m, v2, root, b, c);
    forall x | x in v0 && !Under(x, b)
      ensures if x == b.parentBlock then SameButExports(v0[x], v2[x]) else v2[x] == v0[x]
    {
      assert x != b && !Under(x, c);
    }
    forall x | x in v2 && x !in v0
      ensures Under(x, b)
    {
      if x !in v1 {
        assert Under(x, c);
      }
    }
  }

  /** All entries are applied; what is left of the children and edges of b is set to match d, and the
      block that holds b has dropped the exported ports of the children that are gone. */
  lemma AppliedEnd(m: UiGraphModel, root: UiGraphBlock?, was: Before, v0: View, v: View, sent: seq<Request>,
                   b: UiGraphBlock, kids: seq<UiGraphBlock>, s: BlockState, d: BlockData)
    requires ValidView(m, v, root) && WellFormed(d, m.categoryOf)
    requires KeptInside(was.view, v0, b)
    requires Applied(was, v0, v, sent, b, kids, d) && |kids| == |d.children|
    requires v[b].category == TransparentBlockGroup == d.category && b.blockUniqueName == d.uniqueName
    requires v[b].name == d.name && v[b].inputPorts == d.inputPorts && v[b].outputPorts == d.outputPorts
    requires s == v[b].(children := s.children, edges := s.edges)
    requires DistinctNames(s.children)
    requires forall x :: x in s.children <==> x in v[b].children && x.blockUniqueName in Keys(d)
    requires forall e :: e in s.edges ==> e.source in s.children && e.destination in s.children
    requires RowsOfEdges(s.edges) == Rows(v, s.children, d.edges)
    ensures ValidView(m, v[b := s], root)
    ensures OnlyBelow(v0, v[b := s], b) && ParentSame(v0, v[b := s], b)
    ensures Mirrors(was, v[b := s], sent, b, d)
  {
    hide Mirrors;
    var w := v[b := s];
    LookAt(m, v, root, b);
    assert Holds(w, b);
    UpdateKeepsValid(m, v, root, b, s);
    if b.parentBlock != null {
      ChildPath(m, v, root, b.parentBlock, b);
    }
    AppliedEntries(m, root, was, v0, v, sent, b, kids, s, d);
    MirrorsAre(was, w, sent, b, d);
  }

  /** The child for an entry is still there after b itself has changed. */
  lemma AppliedEntry(m: UiGraphModel, root: UiGraphBlock?, was: Before, v0: View, v: View, sent: seq<Request>,
                     b: UiGraphBlock, kids: seq<UiGraphBlock>, s: BlockState, d: BlockData, j: nat)
    requires ValidView(m, v, root) && WellFormed(d, m.categoryOf)
    requires Applied(was, v0, v, sent, b, kids, d) && j < |kids| == |d.children|
    requires forall x :: x in v[b].children && x.blockUniqueName in Keys(d) ==> x in s.children
    ensures HasEntry(was, v[b := s], sent, b, d.children[j].data)
  {
    hide ValidView, Mirrors, OnlyBelow, SameBelow, Kept, ParentSame, WellFormed, KeysUpTo;
    LookAt(m, v, root, b);
    MirroredName(was, v, sent, kids[j], d.children[j].data);
    WellFormedEntry(d, m.categoryOf, j);
    ParentStep(m, root, v, b, s, kids[j]);
    MirrorsFrame(m, root, was, v, v[b := s], sent, sent, kids[j], d.children[j].data);
  }

  lemma AppliedEntries(m: UiGraphModel, root: UiGraphBlock?, was: Before, v0: View, v: View, sent: seq<Request>,
                       b: UiGraphBlock, kids: seq<UiGraphBlock>, s: BlockState, d: BlockData)
    requires ValidView(m, v, root) && WellFormed(d, m.categoryOf)
    requires KeptInside(was.view, v0, b)
    requires Applied(was, v0, v, sent, b, kids, d) && |kids| == |d.children|
    requires forall x :: x in s.children <==> x in v[b].children && x.blockUniqueName in Keys(d)
    requires RowsOfEdges(s.edges) == Rows(v, s.children, d.edges)
    ensures HoldsEntries(was, v[b := s], sent, b, d)
  {
    hide ValidView, Mirrors, OnlyBelow, SameBelow, Rows, RowsOfEdges, Kept, ParentSame, WellFormed, HasEntry, KeysUpTo;
    var w := v[b := s];
    LookAt(m, v, root, b);
    forall c | c in s.children
      ensures c in v && c in w && w[c] == v[c]
    {
      ChildPath(m, v, root, b, c);
    }
    RowsFrame(v, w, s.children, d.edges);
    assert ChildrenIn(was.view, b) == v0[b].children;
    forall j | 0 <= j < |d.children|
      ensures HasEntry(was, w, sent, b, d.children[j].data)
    {
      AppliedEntry(m, root, was, v0, v, sent, b, kids, s, d, j);
    }
  }

  lemma MirrorsAre(was: Before, v: View, sent: seq<Request>, b: UiGraphBlock, d: BlockData)
    requires b in v && b.blockUniqueName == d.uniqueName && v[b].category == d.category == TransparentBlockGroup
    requires v[b].name == d.name && v[b].inputPorts == d.inputPorts && v[b].outputPorts == d.outputPorts
    requires HoldsEntries(was, v, sent, b, d)
    ensures Mirrors(was, v, sent, b, d)
  {
  }

  /** Dropping the exported ports of the parent changes nothing of what b mirrors. */
  lemma DropsKeepMirror(m: UiGraphModel, root: UiGraphBlock?, was: Before, v0: View, v: View, sent: seq<Request>,
                        b: UiGraphBlock, d: BlockData, gone: set<string>)
    requires ValidView(m, v, root) && b in v && OnlyBelow(v0, v, b) && ParentSame(v0, v, b) && Mirrors(was, v, sent, b, d)
    ensures var w := WithDrops(v, b.parentBlock, gone);
      ValidView(m, w, root) && OnlyBelow(v0, w, b) && ParentDrops(v0, w, b, gone) && Mirrors(was, w, sent, b, d)
  {
    hide ValidView, Mirrors;
    var w := WithDrops(v, b.parentBlock, gone);
    DropsKeepValid(m, v, root, b, gone);
    MirrorsFrame(m, root, was, v, w, sent, sent, b, d);
    OnlyBelowTrans(v0, v, w, b);
  }

  lemma SnapshotApplied(m: UiGraphModel, root: UiGraphBlock?, was: Before, v0: View, v: View, sent0: seq<Request>,
                        sent: seq<Request>, b: UiGraphBlock, kids: seq<UiGraphBlock>, s: BlockState, d: BlockData)
    requires ValidView(m, v, root) && WellFormed(d, m.categoryOf)
    requires KeptInside(was.view, v0, b) && sent0 <= sent
    requires Applied(was, v0, v, sent0, b, kids, d) && |kids| == |d.children|
    requires v[b].category == TransparentBlockGroup == d.category && b.blockUniqueName == d.uniqueName
    requires v[b].name == d.name && v[b].inputPorts == d.inputPorts && v[b].outputPorts == d.outputPorts
    requires s == v[b].(children := s.children, edges := s.edges)
    requires DistinctNames(s.children)
    requires forall x :: x in s.children <==> x in v[b].children && x.blockUniqueName in Keys(d)
    requires forall e :: e in s.edges ==> e.source in s.children && e.destination in s.children
    requires RowsOfEdges(s.edges) == Rows(v, s.children, d.edges)
    ensures var gone := GoneNames(was.view, b, d); var w := WithDrops(v[b := s], b.parentBlock, gone);
      ValidView(m, w, root) && OnlyBelow(v0, w, b) && ParentDrops(v0, w, b, gone) && Mirrors(was, w, sent, b, d)
  {
    hide ValidView, Mirrors, OnlyBelow, Applied, KeptInside, ParentSame, GoneNames;
    AppliedOwn(was, v0, v, sent0, b, kids, d);
    AppliedEnd(m, root, was, v0, v, sent0, b, kids, s, d);
    var u := v[b := s];
    AllSame(u, b);
    MirrorsFrame(m, root, was, u, u, sent0, sent, b, d);
    DropsKeepMirror(m, root, was, v0, u, sent, b, d, GoneNames(was.view, b, d));
  }

  lemma AllSame(v: View, b: UiGraphBlock)
    ensures SameBelow(v, v, b)
  {
  }

  lemma DropsThenOwn(v: View, b: UiGraphBlock, s: BlockState, t: BlockState, gone: set<string>)
    requires b.parentBlock != b
    ensures WithDrops(v[b := s], b.parentBlock, gone)[b := t] == WithDrops(v[b := t], b.parentBlock, gone)
  {
  }

  lemma DropsStart(v: View, b: UiGraphBlock, gone: seq<UiGraphBlock>)
    requires b in v
    ensures WithDrops(v[b := v[b]], b.parentBlock, NamesUpTo(gone, 0)) == v
  {
    assert v[b := v[b]] == v;
    assert NamesUpTo(gone, 0) == {};
    NoDrops(v, b.parentBlock);
  }

  lemma DropsStep(v: View, b: UiGraphBlock, s: BlockState, t: BlockState, gone: seq<UiGraphBlock>, i: nat)
    requires b.parentBlock != b && i < |gone|
    ensures WithDrops(WithDrops(v[b := s], b.parentBlock, NamesUpTo(gone, i))[b := t], b.parentBlock, {gone[i].blockUniqueName}) ==
            WithDrops(v[b := t], b.parentBlock, NamesUpTo(gone, i + 1))
  {
    DropsThenOwn(v, b, s, t, NamesUpTo(gone, i));
    if b.parentBlock != null && b.parentBlock in v {
      DroppingTwice(v[b.parentBlock], gone, i);
    }
  }

  lemma DropsAre(v: View, b: UiGraphBlock, gone: set<string>)
    requires b.parentBlock != b
    ensures var w := WithDrops(v, b.parentBlock, gone);
      && w.Keys == v.Keys
      && (forall x :: x in v && x != b.parentBlock ==> w[x] == v[x])
      && (b.parentBlock != null && b.parentBlock in v ==> w[b.parentBlock] == Dropping(v[b.parentBlock], gone))
  {
  }

  lemma BasicStep(was: View, v: View, b: UiGraphBlock, s: BlockState)
    requires b in v && s.children == v[b].children && KeptInside(was, v, b) && b.parentBlock != b
    ensures KeptInside(was, v[b := s], b) && OnlyBelow(v, v[b := s], b) && ParentSame(v, v[b := s], b)
    ensures ChildrenIn(was, b) == v[b].children
  {
    assert Under(b, b);
  }

  lemma OnlyBelowTrans(v0: View, v1: View, v2: View, b: UiGraphBlock)
    requires OnlyBelow(v0, v1, b) && OnlyBelow(v1, v2, b)
    ensures OnlyBelow(v0, v2, b)
  {
  }

  lemma OnlyBelowReflexive(v: View, b: UiGraphBlock)
    ensures OnlyBelow(v, v, b) && ParentSame(v, v, b)
  {
  }

  lemma DropsAfterSame(v0: View, v1: View, v2: View, b: UiGraphBlock, gone: set<string>)
    requires OnlyBelow(v0, v1, b) && ParentSame(v0, v1, b) && ParentDrops(v1, v2, b, gone)
    ensures ParentDrops(v0, v2, b, gone)
  {
  }

  lemma PlainMirrors(was: Before, v: View, sent: seq<Request>, b: UiGraphBlock, d: BlockData)
    requires b in v && b.blockUniqueName == d.uniqueName && v[b].category == d.category == NormalBlock
    requires v[b].name == d.name && v[b].inputPorts == d.inputPorts && v[b].outputPorts == d.outputPorts
    ensures Mirrors(was, v, sent, b, d)
  {
  }

  /** A nested scheduler mirrors its data as soon as its own fields follow them and it has been asked
      for its own snapshot. */
  lemma SchedulerMirrors(m: UiGraphModel, root: UiGraphBlock?, was: Before, v: View, w: View, sent: seq<Request>,
                         b: UiGraphBlock, d: BlockData)
    requires ValidView(m, v, root) && b in v && KeptInside(was.view, v, b) && SameExports(was.view, v, b)
    requires b.blockUniqueName == d.uniqueName && d.category == ScheduledBlockGroup == v[b].category
    requires var ei, eo := ExportsAfter(v[b].exportedInputs, d.exportedInputs), ExportsAfter(v[b].exportedOutputs, d.exportedOutputs);
      w == v[b := v[b].(name := d.name, inputPorts := SchedulerPorts(v, v[b].children, ei, true),
                        outputPorts := SchedulerPorts(v, v[b].children, eo, false), exportedInputs := ei, exportedOutputs := eo)]
    requires was.sent < |sent| && sent[|sent| - 1] == InspectScheduler(b.blockUniqueName)
    ensures Mirrors(was, w, sent, b, d)
  {
    LookAt(m, v, root, b);
    forall c | c in v[b].children
      ensures SameBelow(was.view, w, c)
    {
      ChildKept(m, root, was.view, v, b, c);
      KeptSame(was.view, v, c);
      ParentStep(m, root, v, b, w[b], c);
      SameBelowTrans(was.view, v, w, c);
    }
    PortsAfterUpdate(m, root, v, b, w[b], w[b].exportedInputs, true);
    PortsAfterUpdate(m, root, v, b, w[b], w[b].exportedOutputs, false);
    assert Since(was, sent)[|sent| - 1 - was.sent] == InspectScheduler(b.blockUniqueName);
  }

  /** The ports of a scheduler do not depend on its own fields. */
  lemma PortsAfterUpdate(m: UiGraphModel, root: UiGraphBlock?, v: View, b: UiGraphBlock, s: BlockState,
                         exports: seq<Export>, inputs: bool)
    requires ValidView(m, v, root) && b in v
    ensures SchedulerPorts(v, v[b].children, exports, inputs) == SchedulerPorts(v[b := s], v[b].children, exports, inputs)
  {
    LookAt(m, v, root, b);
    if |v[b].children| != 0 {
      var g := v[b].children[0];
      ChildPath(m, v, root, b, g);
      LookAt(m, v, root, g);
      forall c | c in v[g].children
        ensures c in v && c != b
      {
        ChildPath(m, v, root, g, c);
      }
      ExportedNamesFrame(v, v[b := s], v[g].children, exports, inputs);
    }
  }

  lemma NothingBelow(was: View, v: View, b: UiGraphBlock, s: BlockState)
    requires b !in was && was.Keys <= v.Keys && s.children == [] && s.exportedInputs == [] == s.exportedOutputs
    requires forall x :: x in v ==> !Under(x, b)
    ensures KeptInside(was, v[b := s], b) && SameExports(was, v[b := s], b)
  {
  }

  // ---- reading the tree ----

  /** b hangs in the tree below the root block. */
  ghost predicate InTree(v: View, root: UiGraphBlock?, b: UiGraphBlock)
    decreases |b.path|
  {
    && b in v
    && (b == root
        || (&& b.parentBlock != null && b.parentBlock in v && |b.parentBlock.path| < |b.path|
            && b in v[b.parentBlock].children && InTree(v, root, b.parentBlock)))
  }

  // ---- breadth-first order ----

  /** A visitor, and a search condition, see a block and its fields. */
  type Visitor = (UiGraphBlock, BlockState) -> VisitorResult

  type Matcher = (UiGraphBlock, BlockState) -> bool

  ghost function Visit(v: View, visit: Visitor, b: UiGraphBlock): VisitorResult {
    if b in v then visit(b, v[b]) else Recurse
  }

  ghost predicate Matches(v: View, match_: Matcher, b: UiGraphBlock) {
    b in v && match_(b, v[b])
  }

  /** The children that a visit of b leads to. */
  ghost function Next(v: View, visit: Visitor, b: UiGraphBlock): seq<UiGraphBlock> {
    if b in v && Visit(v, visit, b) == Recurse then v[b].children else []
  }

  ghost function Nexts(v: View, visit: Visitor): map<UiGraphBlock, seq<UiGraphBlock>> {
    map b | b in v :: Next(v, visit, b)
  }

  lemma NextIs(v: View, visit: Visitor, b: UiGraphBlock)
    ensures NextIn(Nexts(v, visit), b) == Next(v, visit, b)
  {
  }

  /** b is the root, or its parent is reached and recursed into. */
  ghost predicate Reached(v: View, visit: Visitor, root: UiGraphBlock, b: UiGraphBlock)
    decreases |b.path|
  {
    && b in v
    && (b == root
        || (&& b.parentBlock != null && b.parentBlock in v && |b.parentBlock.path| < |b.path|
            && b in v[b.parentBlock].children && Visit(v, visit, b.parentBlock) == Recurse
            && Reached(v, visit, root, b.parentBlock)))
  }

  lemma {:induction false} NextOfDistinct(m: UiGraphModel, v: View, root: UiGraphBlock?, visit: Visitor,
                                          bs: seq<UiGraphBlock>)
    requires ValidView(m, v, root) && NoDuplicates(bs)
    ensures NoDuplicates(NextOf(Nexts(v, visit), bs))
    decreases |bs|
  {
    if |bs| != 0 {
      var c, last := bs[..|bs| - 1], bs[|bs| - 1];
      NextOfDistinct(m, v, root, visit, c);
      if last in v {
        LookAt(m, v, root, last);
      }
      forall x | x in NextOf(Nexts(v, visit), c)
        ensures x !in Next(v, visit, last)
      {
        NextOfMembers(Nexts(v, visit), c, x);
        var i :| 0 <= i < |c| && x in NextIn(Nexts(v, visit), c[i]);
        NextIs(v, visit, c[i]);
        LookAt(m, v, root, c[i]);
      }
      assert NoDuplicates(Next(v, visit, last));
      DistinctConcat(NextOf(Nexts(v, visit), c), Next(v, visit, last));
    }
  }

  lemma LevelStep(m: UiGraphModel, v: View, root: UiGraphBlock, visit: Visitor, k: nat, x: UiGraphBlock)
    requires ValidView(m, v, root) && k > 0
    requires forall y :: y in Level(Nexts(v, visit), root, k - 1) <==> Reached(v, visit, root, y) && |y.path| == k - 1
    ensures x in Level(Nexts(v, visit), root, k) <==> Reached(v, visit, root, x) && |x.path| == k
  {
    var above := Level(Nexts(v, visit), root, k - 1);
    NextOfMembers(Nexts(v, visit), above, x);
    if x in Level(Nexts(v, visit), root, k) {
      var i :| 0 <= i < |above| && x in NextIn(Nexts(v, visit), above[i]);
      NextIs(v, visit, above[i]);
      LookAt(m, v, root, above[i]);
      LookAt(m, v, root, x);
    }
    if Reached(v, visit, root, x) && |x.path| == k {
      LookAt(m, v, root, x);
      LookAt(m, v, root, root);
      var i :| 0 <= i < |above| && above[i] == x.parentBlock;
      NextIs(v, visit, above[i]);
      assert x in NextIn(Nexts(v, visit), above[i]);
    }
  }

  lemma {:induction false} LevelFacts(m: UiGraphModel, v: View, root: UiGraphBlock, visit: Visitor, k: nat)
    requires ValidView(m, v, root)
    ensures NoDuplicates(Level(Nexts(v, visit), root, k))
    ensures forall x :: x in Level(Nexts(v, visit), root, k) <==> Reached(v, visit, root, x) && |x.path| == k
  {
    if k == 0 {
      forall x | Reached(v, visit, root, x) && |x.path| == 0
        ensures x == root
      {
        LookAt(m, v, root, x);
      }
      LookAt(m, v, root, root);
    } else {
      var above := Level(Nexts(v, visit), root, k - 1);
      LevelFacts(m, v, root, visit, k - 1);
      NextOfDistinct(m, v, root, visit, above);
      forall x
        ensures x in Level(Nexts(v, visit), root, k) <==> Reached(v, visit, root, x) && |x.path| == k
      {
        LevelStep(m, v, root, visit, k, x);
      }
    }
  }

  lemma {:induction false} OrderMember(m: UiGraphModel, v: View, root: UiGraphBlock, visit: Visitor, n: nat,
                                       x: UiGraphBlock)
    requires ValidView(m, v, root)
    ensures x in Order(Nexts(v, visit), root, n) <==> Reached(v, visit, root, x) && |x.path| < n
  {
    if n > 0 {
      OrderMember(m, v, root, visit, n - 1, x);
      LevelFacts(m, v, root, visit, n - 1);
    }
  }

  lemma {:induction false} OrderDistinct(m: UiGraphModel, v: View, root: UiGraphBlock, visit: Visitor, n: nat)
    requires ValidView(m, v, root)
    ensures NoDuplicates(Order(Nexts(v, visit), root, n))
  {
    if n > 0 {
      OrderDistinct(m, v, root, visit, n - 1);
      LevelFacts(m, v, root, visit, n - 1);
      var o, l := Order(Nexts(v, visit), root, n - 1), Level(Nexts(v, visit), root, n - 1);
      forall x: UiGraphBlock | x in o
        ensures x !in l
      {
        OrderMember(m, v, root, visit, n - 1, x);
      }
      DistinctConcat(o, l);
    }
  }

  lemma LevelMember(m: UiGraphModel, v: View, root: UiGraphBlock, visit: Visitor, k: nat, x: UiGraphBlock)
    requires ValidView(m, v, root)
    ensures x in Level(Nexts(v, visit), root, k) <==> Reached(v, visit, root, x) && |x.path| == k
  {
    LevelFacts(m, v, root, visit, k);
  }

  /** Once a level is empty, the levels before it are the whole traversal. */
  lemma {:induction false} OrderComplete(m: UiGraphModel, v: View, root: UiGraphBlock, visit: Visitor, n: nat,
                                         x: UiGraphBlock)
    requires ValidView(m, v, root) && Level(Nexts(v, visit), root, n) == [] && Reached(v, visit, root, x)
    ensures x in Order(Nexts(v, visit), root, n)
    decreases |x.path|
  {
    hide ValidView, Level, Order;
    OrderMember(m, v, root, visit, n, x);
    LevelMember(m, v, root, visit, n, x);
    if |x.path| > n {
      LookAt(m, v, root, x);
      RootPath(m, v, root);
      OrderComplete(m, v, root, visit, n, x.parentBlock);
      OrderMember(m, v, root, visit, n, x.parentBlock);
    }
  }

  lemma RootPath(m: UiGraphModel, v: View, root: UiGraphBlock)
    requires ValidView(m, v, root)
    ensures root in v && root.path == [] && root.parentBlock == null
  {
    LookAt(m, v, root, root);
  }

  lemma RootOrder(v: View, visit: Visitor, root: UiGraphBlock)
    ensures Order(Nexts(v, visit), root, 1) == [root]
    ensures Visit(v, visit, root) != Recurse ==> Level(Nexts(v, visit), root, 1) == []
  {
    assert Order(Nexts(v, visit), root, 0) == [];
    var level := Level(Nexts(v, visit), root, 0);
    NothingNext(Nexts(v, visit));
    NextOfHead(Nexts(v, visit), level);
    assert level[1..] == [];
  }

  ghost predicate NeverBreaks(v: View, visit: Visitor, bs: seq<UiGraphBlock>) {
    forall i :: 0 <= i < |bs| ==> Visit(v, visit, bs[i]) != Break
  }

  lemma NeverBreaksAppend(v: View, visit: Visitor, a: seq<UiGraphBlock>, b: seq<UiGraphBlock>)
    requires NeverBreaks(v, visit, a) && NeverBreaks(v, visit, b)
    ensures NeverBreaks(v, visit, a + b)
  {
  }

  lemma FirstVisit(v: View, visit: Visitor, root: UiGraphBlock)
    ensures NeverBreaks(v, visit, [root][..0])
    ensures Visit(v, visit, root) != Break ==> NeverBreaks(v, visit, [root])
  {
  }

  lemma NeverBreaksLast(v: View, visit: Visitor, bs: seq<UiGraphBlock>)
    requires NeverBreaks(v, visit, bs) && bs != []
    ensures NeverBreaks(v, visit, bs[..|bs| - 1]) && Visit(v, visit, bs[|bs| - 1]) != Break
  {
  }

  lemma Stopped(v: View, visit: Visitor, a: seq<UiGraphBlock>, seen: seq<UiGraphBlock>, next: seq<UiGraphBlock>,
                whole: seq<UiGraphBlock>)
    requires a + next <= whole && seen <= next && seen != []
    requires NeverBreaks(v, visit, a) && NeverBreaks(v, visit, seen[..|seen| - 1])
    ensures a + seen <= whole && NeverBreaks(v, visit, (a + seen)[..|a + seen| - 1])
  {
    assert (a + seen)[..|a + seen| - 1] == a + seen[..|seen| - 1];
  }

  lemma ProgressStart(v: View, visit: Visitor, root: UiGraphBlock)
    requires root in v && Visit(v, visit, root) == Recurse
    ensures Progress(Nexts(v, visit), root, 0, 0, [root], if v[root].children != [] then [root] else [])
  {
    var level := Level(Nexts(v, visit), root, 0);
    assert level[..0] == [] && level[0..] == [root] && [root][..0] == [];
    assert Order(Nexts(v, visit), root, 1) == [root];
  }

  /** What was visited is a prefix of the breadth-first order down to some depth; the whole traversal
      unless the last visit ended it. */
  ghost predicate Traversed(v: View, visit: Visitor, root: UiGraphBlock, visited: seq<UiGraphBlock>, depth: nat) {
    && visited != [] && visited <= Order(Nexts(v, visit), root, depth)
    && NeverBreaks(v, visit, visited[..|visited| - 1])
    && (Visit(v, visit, visited[|visited| - 1]) != Break ==>
          Level(Nexts(v, visit), root, depth) == [] && visited == Order(Nexts(v, visit), root, depth))
  }

  lemma RootTraversed(v: View, visit: Visitor, root: UiGraphBlock)
    ensures Visit(v, visit, root) != Recurse ==> Traversed(v, visit, root, [root], 1)
    ensures Visit(v, visit, root) != Break ==> NeverBreaks(v, visit, [root])
  {
    RootOrder(v, visit, root);
    FirstVisit(v, visit, root);
    assert [root][..|[root]| - 1] == [root][..0];
  }

  lemma AllTraversed(v: View, visit: Visitor, root: UiGraphBlock, k: nat, n: nat, visited: seq<UiGraphBlock>)
    requires Progress(Nexts(v, visit), root, k, n, visited, []) && visited != [] && NeverBreaks(v, visit, visited)
    ensures Traversed(v, visit, root, visited, k + 2)
  {
    hide Progress;
    ProgressEnd(Nexts(v, visit), root, k, n, visited);
    NeverBreaksLast(v, visit, visited);
  }

  /** No traversal visits more blocks than there are. */
  lemma VisitBound(m: UiGraphModel, v: View, root: UiGraphBlock, visit: Visitor, n: nat, visited: seq<UiGraphBlock>)
    requires ValidView(m, v, root) && visited <= Order(Nexts(v, visit), root, n)
    ensures |visited| <= |v| && NoDuplicates(visited)
  {
    OrderDistinct(m, v, root, visit, n);
    forall b | b in visited
      ensures b in v.Keys
    {
      OrderMember(m, v, root, visit, n, b);
    }
    DistinctBound(visited, v.Keys);
  }

  /** A traversal that was not stopped visits exactly the blocks below no pruned one, each once. */
  lemma TraversalExact(m: UiGraphModel, v: View, root: UiGraphBlock, visit: Visitor, n: nat, visited: seq<UiGraphBlock>)
    requires ValidView(m, v, root) && Level(Nexts(v, visit), root, n) == [] && visited == Order(Nexts(v, visit), root, n)
    ensures NoDuplicates(visited)
    ensures forall x :: x in visited <==> Reached(v, visit, root, x)
  {
    OrderDistinct(m, v, root, visit, n);
    forall x
      ensures x in visited <==> Reached(v, visit, root, x)
    {
      OrderMember(m, v, root, visit, n, x);
      if Reached(v, visit, root, x) {
        OrderComplete(m, v, root, visit, n, x);
      }
    }
  }

  function Finder(match_: Matcher): Visitor {
    (b: UiGraphBlock, s: BlockState) => if match_(b, s) then Break else Recurse
  }

  function HasUniqueName(uniqueName: string): Matcher {
    (b: UiGraphBlock, s: BlockState) => b.blockUniqueName == uniqueName
  }

  function HasName(name: string): Matcher {
    (b: UiGraphBlock, s: BlockState) => s.name == name
  }

  function Everything(): Visitor {
    (b: UiGraphBlock, s: BlockState) => Recurse
  }

  /** r is the first block, in breadth-first order of the whole tree, that matches. */
  ghost predicate FirstMatch(v: View, root: UiGraphBlock, match_: Matcher, r: UiGraphBlock) {
    && Matches(v, match_, r)
    && exists n: nat, i: nat ::
         && i < |Order(Nexts(v, Everything()), root, n)| && Order(Nexts(v, Everything()), root, n)[i] == r
         && forall j :: 0 <= j < i ==> !Matches(v, match_, Order(Nexts(v, Everything()), root, n)[j])
  }

  lemma {:induction false} InTreeReached(m: UiGraphModel, v: View, root: UiGraphBlock, b: UiGraphBlock)
    requires ValidView(m, v, root)
    ensures InTree(v, root, b) <==> Reached(v, Everything(), root, b)
    decreases |b.path|
  {
    if b in v && b != root && b.parentBlock != null && |b.parentBlock.path| < |b.path| {
      InTreeReached(m, v, root, b.parentBlock);
    }
  }

  lemma {:induction false} OrderPrefix(v: View, visit: Visitor, root: UiGraphBlock, d: nat, n: nat)
    requires d <= n
    ensures Order(Nexts(v, visit), root, d) <= Order(Nexts(v, visit), root, n)
  {
    if d < n {
      OrderPrefix(v, visit, root, d, n - 1);
    }
  }

  lemma {:induction false} SameNext(v: View, match_: Matcher, bs: seq<UiGraphBlock>)
    requires forall b :: b in bs ==> !Matches(v, match_, b)
    ensures NextOf(Nexts(v, Finder(match_)), bs) == NextOf(Nexts(v, Everything()), bs)
  {
    if |bs| != 0 {
      SameNext(v, match_, bs[..|bs| - 1]);
      var last := bs[|bs| - 1];
      assert !Matches(v, match_, last) && Visit(v, Everything(), last) == Recurse;
      assert Visit(v, Finder(match_), last) == Recurse;
    }
  }

  /** As long as nothing matches, the finder sees what an unpruned traversal sees. */
  lemma {:induction false} SameOrder(v: View, match_: Matcher, root: UiGraphBlock, n: nat)
    requires forall b :: b in Order(Nexts(v, Finder(match_)), root, n) ==> !Matches(v, match_, b)
    ensures Order(Nexts(v, Finder(match_)), root, n) == Order(Nexts(v, Everything()), root, n)
    ensures Level(Nexts(v, Finder(match_)), root, n) == Level(Nexts(v, Everything()), root, n)
  {
    if n > 0 {
      var above, level := Order(Nexts(v, Finder(match_)), root, n - 1), Level(Nexts(v, Finder(match_)), root, n - 1);
      assert Order(Nexts(v, Finder(match_)), root, n) == above + level;
      SameOrder(v, match_, root, n - 1);
      SameNext(v, match_, level);
    }
  }

  lemma IndexInPrefix(all: seq<UiGraphBlock>, start: seq<UiGraphBlock>, i: nat)
    requires NoDuplicates(all) && start <= all && i < |all|
    ensures all[i] in start <==> i < |start|
    ensures forall j :: 0 <= j < |start| ==> start[j] == all[j]
  {
  }

  lemma StoppedAtFirst(m: UiGraphModel, v: View, root: UiGraphBlock, match_: Matcher, n: nat,
                       visited: seq<UiGraphBlock>)
    requires ValidView(m, v, root) && visited != [] && visited <= Order(Nexts(v, Finder(match_)), root, n)
    requires NeverBreaks(v, Finder(match_), visited[..|visited| - 1]) && Matches(v, match_, visited[|visited| - 1])
    ensures FirstMatch(v, root, match_, visited[|visited| - 1]) && InTree(v, root, visited[|visited| - 1])
  {
    hide ValidView, Order, InTree, NoDuplicates, Reached, Finder, Everything, NeverBreaks;
    var visit, i, r := Finder(match_), |visited| - 1, visited[|visited| - 1];
    var d := |r.path|;
    var before, upTo, all := Order(Nexts(v, visit), root, d), Order(Nexts(v, visit), root, d + 1), Order(Nexts(v, visit), root, n);
    OrderDistinct(m, v, root, visit, n);
    OrderMember(m, v, root, visit, n, r);
    OrderMember(m, v, root, visit, d, r);
    OrderMember(m, v, root, visit, d + 1, r);
    assert d < n by {
      assert all[i] == r;
    }
    OrderPrefix(v, visit, root, d, n);
    OrderPrefix(v, visit, root, d + 1, n);
    IndexInPrefix(all, before, i);
    IndexInPrefix(all, upTo, i);
    NoneMatchesBefore(v, match_, visited);
    SameOrder(v, match_, root, d);
    SameLevelAfter(v, match_, root, d);
    assert upTo[i] == r;
    OrderMember(m, v, root, Everything(), d + 1, r);
    InTreeReached(m, v, root, r);
  }

  lemma NoneMatchesBefore(v: View, match_: Matcher, visited: seq<UiGraphBlock>)
    requires visited != [] && NeverBreaks(v, Finder(match_), visited[..|visited| - 1])
    ensures forall j :: 0 <= j < |visited| - 1 ==> !Matches(v, match_, visited[j])
  {
    forall j | 0 <= j < |visited| - 1
      ensures !Matches(v, match_, visited[j])
    {
      assert Visit(v, Finder(match_), visited[..|visited| - 1][j]) != Break;
    }
  }

  lemma SameLevelAfter(v: View, match_: Matcher, root: UiGraphBlock, n: nat)
    requires Order(Nexts(v, Finder(match_)), root, n) == Order(Nexts(v, Everything()), root, n)
    requires Level(Nexts(v, Finder(match_)), root, n) == Level(Nexts(v, Everything()), root, n)
    ensures Order(Nexts(v, Finder(match_)), root, n + 1) == Order(Nexts(v, Everything()), root, n + 1)
  {
  }

  lemma NoMatch(m: UiGraphModel, v: View, root: UiGraphBlock, match_: Matcher, n: nat, x: UiGraphBlock)
    requires ValidView(m, v, root) && Level(Nexts(v, Finder(match_)), root, n) == []
    requires NeverBreaks(v, Finder(match_), Order(Nexts(v, Finder(match_)), root, n))
    requires InTree(v, root, x)
    ensures !Matches(v, match_, x)
  {
    var visit := Finder(match_);
    forall b | b in Order(Nexts(v, visit), root, n)
      ensures !Matches(v, match_, b)
    {
      var j :| 0 <= j < |Order(Nexts(v, visit), root, n)| && Order(Nexts(v, visit), root, n)[j] == b;
      assert Visit(v, visit, b) != Break;
    }
    SameOrder(v, match_, root, n);
    InTreeReached(m, v, root, x);
    OrderComplete(m, v, root, Everything(), n, x);
  }

  // ---- messages ----

  function Erase(bs: seq<UiGraphBlock>, b: UiGraphBlock): (r: seq<UiGraphBlock>)
    ensures b !in bs ==> r == bs
    ensures forall i :: 0 <= i < |r| ==> r[i] in bs
  {
    if |bs| == 0 then [] else if bs[0] == b then bs[1..] else [bs[0]] + Erase(bs[1..], b)
  }

  /** Exactly the first place of the block goes, and the others keep their order. */
  lemma {:induction false} ErasedAt(bs: seq<UiGraphBlock>, b: UiGraphBlock) returns (k: nat)
    ensures k <= |bs| && (k < |bs| ==> bs[k] == b) && forall j :: 0 <= j < k ==> bs[j] != b
    ensures |Erase(bs, b)| == if k < |bs| then |bs| - 1 else |bs|
    ensures forall j :: 0 <= j < |Erase(bs, b)| ==> Erase(bs, b)[j] == bs[if j < k then j else j + 1]
  {
    if |bs| == 0 || bs[0] == b {
      k := 0;
    } else {
      k := ErasedAt(bs[1..], b);
      k := k + 1;
    }
  }

  lemma {:induction false} EraseOne(bs: seq<UiGraphBlock>, b: UiGraphBlock)
    requires DistinctNames(bs)
    ensures DistinctNames(Erase(bs, b))
    ensures forall x :: x in Erase(bs, b) <==> x in bs && x != b
  {
    if |bs| != 0 && bs[0] != b {
      EraseOne(bs[1..], b);
      var rest := Erase(bs[1..], b);
      forall j | 0 <= j < |rest|
        ensures rest[j].blockUniqueName != bs[0].blockUniqueName
      {
        assert rest[j] in bs[1..];
      }
    }
  }

  /** The blocks and edges of a graph that have nothing to do with the name n. */
  ghost predicate WithoutName(children0: seq<UiGraphBlock>, edges0: seq<UiGraphEdge>, children: seq<UiGraphBlock>,
                              edges: seq<UiGraphEdge>, n: string) {
    && (forall x :: x in children ==> x in children0 && x.blockUniqueName != n)
    && (forall x :: x in children0 && x.blockUniqueName != n ==> x in children)
    && (forall e :: e in edges ==> e in edges0 && e.source.blockUniqueName != n && e.destination.blockUniqueName != n)
    && (forall e :: e in edges0 && e.source.blockUniqueName != n && e.destination.blockUniqueName != n ==> e in edges)
  }

  /** A graph after the child with the name has been removed with its edges, if there was one. */
  function RemovedState(s: BlockState, n: string): BlockState {
    var c := Named(s.children, n);
    if c.None? then s
    else s.(children := Erase(s.children, c.value), edges := WithoutBlock(s.edges, c.value))
  }

  function GoneNamed(s: BlockState, n: string): set<string> {
    if Named(s.children, n).Some? then {n} else {}
  }

  /** Removing the child with a name leaves just what has nothing to do with the name, in a valid tree. */
  lemma RemoveChild(m: UiGraphModel, v: View, root: UiGraphBlock?, b: UiGraphBlock, n: string)
    requires ValidView(m, v, root) && b in v && v[b].category == TransparentBlockGroup
    ensures var s := RemovedState(v[b], n);
      && ValidView(m, v[b := s], root) && OnlyBelow(v, v[b := s], b) && ParentSame(v, v[b := s], b)
      && WithoutName(v[b].children, v[b].edges, s.children, s.edges, n)
      && s.category == v[b].category && forall x :: x in s.children ==> x in v[b].children
  {
    hide ValidView, OnlyBelow, Erase, WithoutBlock;
    LookAt(m, v, root, b);
    if b.parentBlock != null {
      ChildPath(m, v, root, b.parentBlock, b);
    }
    var c := Named(v[b].children, n);
    if c.Some? {
      forall x | x in v[b].children && x.blockUniqueName == n
        ensures x == c.value
      {
        SameName(v[b].children, x, c.value);
      }
      EraseOne(v[b].children, c.value);
      assert Holds(v[b := RemovedState(v[b], n)], b);
      UpdateKeepsValid(m, v, root, b, RemovedState(v[b], n));
    } else {
      assert v[b := v[b]] == v;
      OnlyBelowReflexive(v, b);
    }
  }

  /** After the child named n has gone, the children that stay are as they were. */
  lemma KeptAfterRemoval(m: UiGraphModel, root: UiGraphBlock?, v0: View, b: UiGraphBlock, s: BlockState,
                         gone: set<string>, x: UiGraphBlock)
    requires ValidView(m, v0, root) && b in v0 && x in v0[b].children
    ensures Kept(v0, WithDrops(v0[b := s], b.parentBlock, gone), x)
  {
    LookAt(m, v0, root, b);
    ChildPath(m, v0, root, b, x);
    if b.parentBlock != null {
      ChildPath(m, v0, root, b.parentBlock, b);
      LookAt(m, v0, root, b.parentBlock);
    }
  }

  /** The block c, described by d, is a child of b, updated where it was or appended as a new one; b
      drops the exported ports of the children that c has lost, and else only b's child list and what
      is below c have changed. `s` is what b was. */
  ghost predicate EmplacedAs(was: Before, v0: View, v: View, sent: seq<Request>, b: UiGraphBlock, s: BlockState,
                             c: UiGraphBlock, d: BlockData) {
    && b in v && c in v[b].children && Mirrors(was, v, sent, c, d)
    && OnlyBelow(v0[b := v[b]], v, c)
    && (if Named(s.children, d.uniqueName).Some? then
          Named(s.children, d.uniqueName) == Some(c) && v[b] == Dropping(s, GoneNames(was.view, c, d))
        else c !in v0 && v[b] == s.(children := s.children + [c]))
  }

  ghost predicate Emplaced(was: Before, v0: View, v: View, sent: seq<Request>, b: UiGraphBlock, s: BlockState,
                           d: BlockData) {
    exists c :: c in ChildrenIn(v, b) && EmplacedAs(was, v0, v, sent, b, s, c, d)
  }

  /** What is emplaced in b changes only below b. */
  lemma EmplacedBelow(m: UiGraphModel, root: UiGraphBlock?, was: Before, v0: View, v: View, sent: seq<Request>,
                      b: UiGraphBlock, c: UiGraphBlock, d: BlockData)
    requires ValidView(m, v, root) && b in v0 && EmplacedAs(was, v0, v, sent, b, v0[b], c, d)
    ensures OnlyBelow(v0, v, b) && ParentSame(v0, v, b) && Emplaced(was, v0, v, sent, b, v0[b], d)
  {
    LookAt(m, v, root, b);
    OnlyBelowReflexive(v0, b);
    OnlyBelowStep(m, root, v0, v0, v, b, c);
    GrandparentSame(m, root, v0, v, b, c);
  }

  lemma EmplacedGrows(was: Before, v0: View, v: View, sent: seq<Request>, b: UiGraphBlock, s: BlockState,
                      c: UiGraphBlock, d: BlockData)
    requires EmplacedAs(was, v0, v, sent, b, s, c, d)
    ensures b in v && Grows(s, v[b]) && c in v[b].children && c.blockUniqueName == d.uniqueName && Mirrors(was, v, sent, c, d)
    ensures v[b].children == s.children || (v[b].children == s.children + [c] && c !in v0)
    ensures OnlyBelow(v0[b := v[b]], v, c)
  {
  }

  /** The scheduler b holds exactly the graph that d describes; if b held a graph of that name
      before, it is the same object. */
  ghost predicate HoldsGraph(was: Before, v: View, sent: seq<Request>, b: UiGraphBlock, d: BlockData)
    requires |d.children| == 1
  {
    && b in v && |v[b].children| == 1
    && Mirrors(was, v, sent, v[b].children[0], d.children[0].data)
    && (forall c :: c in ChildrenIn(was.view, b) && c.blockUniqueName == d.children[0].key ==> v[b].children == [c])
  }

  /** The scheduler's own fields follow the data. Its ports are those that the blocks it held before
      export; the exported ports of the blocks that its graph has lost are dropped. */
  ghost predicate FollowsInspection(v0: View, v: View, b: UiGraphBlock, d: BlockData)
    requires |d.children| == 1
  {
    && b in v0 && b in v && |v[b].children| == 1
    && var ei, eo := ExportsAfter(v0[b].exportedInputs, d.exportedInputs), ExportsAfter(v0[b].exportedOutputs, d.exportedOutputs);
       var gone := GoneNames(v0, v[b].children[0], d.children[0].data);
       v[b] == BlockState(d.name, d.category, SchedulerBlockInfo(true),
                          SchedulerPorts(v0, v0[b].children, ei, true), SchedulerPorts(v0, v0[b].children, eo, false),
                          Dropped(ei, gone), Dropped(eo, gone), v[b].children, v0[b].edges)
  }

  /** The edge that e describes was appended, or e names no two children with such ports. */
  ghost predicate EdgeAppended(v: View, children: seq<UiGraphBlock>, before: seq<UiGraphEdge>,
                               after: seq<UiGraphEdge>, e: EdgeData) {
    if after == before then
      forall s, t :: s in children && t in children && s in v && t in v && s.blockUniqueName == e.source && t.blockUniqueName == e.destination ==>
        !HasPort(v[s].outputPorts, e.sourcePort) || !HasPort(v[t].inputPorts, e.destinationPort)
    else
      && |after| == |before| + 1 && after[..|before|] == before
      && var edge := after[|before|];
         && edge.source in children && edge.source.blockUniqueName == e.source
         && edge.destination in children && edge.destination.blockUniqueName == e.destination
         && edge.source in v && Denotes(v[edge.source].outputPorts, e.sourcePort, edge.sourcePort)
         && edge.destination in v && Denotes(v[edge.destination].inputPorts, e.destinationPort, edge.destinationPort)
  }

  lemma KindAt(m: UiGraphModel, v: View, root: UiGraphBlock?, b: UiGraphBlock)
    requires ValidView(m, v, root) && b in v
    ensures v[b].category == m.categoryOf(b.blockUniqueName) && Holds(v, b)
  {
    LookAt(m, v, root, b);
  }

  lemma SameHolds(v: View, b: UiGraphBlock, s: BlockState)
    requires b in v && Holds(v, b)
    requires s.category == v[b].category && s.children == v[b].children && s.edges == v[b].edges
    ensures Holds(v[b := s], b)
  {
  }

  lemma EdgeIsAppended(v: View, children: seq<UiGraphBlock>, before: seq<UiGraphEdge>, edge: UiGraphEdge, e: EdgeData)
    requires edge.source in children && edge.source.blockUniqueName == e.source
    requires edge.destination in children && edge.destination.blockUniqueName == e.destination
    requires edge.source in v && Denotes(v[edge.source].outputPorts, e.sourcePort, edge.sourcePort)
    requires edge.destination in v && Denotes(v[edge.destination].inputPorts, e.destinationPort, edge.destinationPort)
    ensures EdgeAppended(v, children, before, before + [edge], e)
  {
  }

  lemma EdgeKeepsHolds(v: View, b: UiGraphBlock, edge: UiGraphEdge)
    requires b in v && Holds(v, b) && v[b].category == TransparentBlockGroup
    requires edge.source in v[b].children && edge.destination in v[b].children
    ensures Holds(v[b := v[b].(edges := v[b].edges + [edge])], b)
  {
  }

  /** An edge was appended exactly if the description has a row. */
  lemma EdgeAppendedIs(v: View, children: seq<UiGraphBlock>, before: seq<UiGraphEdge>, after: seq<UiGraphEdge>,
                       e: EdgeData)
    requires DistinctNames(children) && (forall c :: c in children ==> c in v)
    requires EdgeAppended(v, children, before, after, e)
    ensures after == before <==> RowOf(v, children, e).None?
    ensures after != before ==> |after| == |before| + 1 && after[..|before|] == before && RowOf(v, children, e) == Some(RowOfEdge(after[|before|]))
  {
    EdgeRowAgrees(v, children, e, if after == before then None else Some(after[|before|]));
  }

  function Toggled(s: BlockState, inputs: bool, e: Export, flag: bool): BlockState {
    if inputs then s.(exportedInputs := ExportsToggled(s.exportedInputs, e, flag))
    else s.(exportedOutputs := ExportsToggled(s.exportedOutputs, e, flag))
  }

  /** The children of b whose exported ports the block that holds b drops. */
  ghost function GoneBy(msg: Message, b: UiGraphBlock, v0: View): set<string> {
    match msg
    case BlockRemoved(_, n) => if b in v0 then GoneNamed(v0[b], n) else {}
    case BlockReplaced(_, n, _) => if b in v0 then GoneNamed(v0[b], n) else {}
    case BlockInspected(_, d) => GoneNames(v0, b, d)
    case GraphInspected(_, d) => GoneNames(v0, b, d)
    case _ => {}
  }

  /** What a consumed message has done to the block b that it was for. */
  ghost predicate Outcome(msg: Message, b: UiGraphBlock, was: Before, v: View, sent: seq<Request>) {
    var v0, gone := was.view, GoneBy(msg, b, was.view);
    && b in v0 && b in v
    && OnlyBelow(v0, v, b) && ParentDrops(v0, v, b, gone)
    && match msg
       case BlockEmplaced(_, d) => Emplaced(was, v0, v, sent, b, v0[b], d)
       case BlockRemoved(_, n) => v == WithDrops(v0[b := RemovedState(v0[b], n)], b.parentBlock, gone)
       case BlockReplaced(_, n, d) =>
         var s := RemovedState(v0[b], n);
         Emplaced(was, WithDrops(v0[b := s], b.parentBlock, gone), v, sent, b, s, d)
       case EdgeEmplaced(_, e) =>
         && v == v0[b := v[b]] && v[b] == v0[b].(edges := v[b].edges)
         && EdgeAppended(v, v[b].children, v0[b].edges, v[b].edges, e)
       case PortExported(_, inputs, e, flag) => v == v0[b := Toggled(v0[b], inputs, e, flag)]
       case BlockInspected(_, d) => Mirrors(was, v, sent, b, d)
       case GraphInspected(_, d) => Mirrors(was, v, sent, b, d)
       case SchedulerInspected(_, _, d) => |d.children| == 1 && HoldsGraph(was, v, sent, b, d) && FollowsInspection(v0, v, b, d)
       case EdgeRemoved(_) => v == v0
       case LifecycleRunning(_) => v == v0
  }

  /** The message names something that is not there, or only says that something has changed; everything is
      to be asked for anew. */
  ghost predicate NotApplied(msg: Message, b: UiGraphBlock, v0: View, v: View)
    requires b in v0 && b in v
  {
    match msg
    case BlockRemoved(_, n) => Named(v0[b].children, n).None?
    case BlockReplaced(_, n, _) => Named(v0[b].children, n).None?
    case EdgeEmplaced(_, e) => RowOf(v, v[b].children, e).None?
    case EdgeRemoved(_) => true
    case LifecycleRunning(_) => true
    case _ => false
  }

  /** Changes below b do not take b, or any block around it, out of the tree. */
  lemma {:induction false} InTreeFrame(m: UiGraphModel, root: UiGraphBlock?, v0: View, v1: View, b: UiGraphBlock,
                                       a: UiGraphBlock)
    requires ValidView(m, v0, root) && OnlyBelow(v0, v1, b) && InTree(v0, root, a) && b in v0
    requires a == b || (|a.path| < |b.path| && b.path[|a.path|] == a)
    ensures InTree(v1, root, a)
    decreases |a.path|
  {
    LookAt(m, v0, root, b);
    LookAt(m, v0, root, a);
    if a != root {
      var p := a.parentBlock;
      LookAt(m, v0, root, p);
      if a != b {
        assert a.path == b.path[..|a.path|];
      }
      assert |p.path| < |b.path| && b.path[|p.path|] == p;
      assert !Under(p, b);
      InTreeFrame(m, root, v0, v1, b, p);
    }
  }

  lemma KeptItself(v: View, b: UiGraphBlock)
    requires b in v
    ensures Kept(v, v, b) && KeptInside(v, v, b) && SameExports(v, v, b)
  {
  }

  lemma TreeMember(v: View, root: UiGraphBlock?, b: UiGraphBlock)
    requires InTree(v, root, b)
    ensures b in v
  {
  }

  lemma OutcomeBelow(msg: Message, b: UiGraphBlock, was: Before, v: View, sent: seq<Request>)
    requires Outcome(msg, b, was, v, sent)
    ensures b in was.view && OnlyBelow(was.view, v, b)
  {
  }

  lemma GraphHeld(was: Before, v: View, sent: seq<Request>, b: UiGraphBlock, d: BlockData)
    requires |d.children| == 1 && HoldsGraph(was, v, sent, b, d)
    ensures b in v && |v[b].children| == 1
  {
  }

  /** The last step of inspecting a scheduler changes nothing below it. */
  lemma LoadedKeepsGraph(m: UiGraphModel, root: UiGraphBlock?, was: Before, v: View, sent: seq<Request>,
                         b: UiGraphBlock, d: BlockData, s: BlockState)
    requires ValidView(m, v, root) && |d.children| == 1 && HoldsGraph(was, v, sent, b, d) && v[b].category == ScheduledBlockGroup
    requires s == v[b].(info := SchedulerBlockInfo(true))
    ensures ValidView(m, v[b := s], root) && OnlyBelow(v, v[b := s], b) && ParentSame(v, v[b := s], b)
    ensures HoldsGraph(was, v[b := s], sent, b, d)
  {
    LookAt(m, v, root, b);
    if b.parentBlock != null {
      ChildPath(m, v, root, b.parentBlock, b);
    }
    assert Holds(v[b := s], b);
    UpdateKeepsValid(m, v, root, b, s);
    var c := v[b].children[0];
    ParentStep(m, root, v, b, s, c);
    MirrorsFrame(m, root, was, v, v[b := s], sent, sent, c, d.children[0].data);
  }

  /** Names that a snapshot drops are the same among the children that it has added to. */
  lemma GoneSame(was: Before, v0: View, v: View, sent: seq<Request>, b: UiGraphBlock, kids: seq<UiGraphBlock>,
                 d: BlockData)
    requires Applied(was, v0, v, sent, b, kids, d) && |kids| == |d.children| && KeptInside(was.view, v0, b) && d.category == TransparentBlockGroup
    ensures b in v && GoneNames(was.view, b, d) == GoneChildren(v[b].children, d)
  {
    assert KeysUpTo(d, |kids|) == Keys(d);
    assert ChildrenIn(was.view, b) == v0[b].children;
    forall c | c in v[b].children && c.blockUniqueName !in Keys(d)
      ensures c in v0[b].children
    {
    }
  }

  ghost function GoneChildren(children: seq<UiGraphBlock>, d: BlockData): set<string> {
    set c | c in children && c.blockUniqueName !in Keys(d) :: c.blockUniqueName
  }

  lemma NewLosesNothing(was: View, b: UiGraphBlock, d: BlockData)
    requires b !in was
    ensures GoneNames(was, b, d) == {}
  {
  }

  lemma DroppingNone(s: BlockState)
    ensures Dropping(s, {}) == s
  {
    DroppedNone(s.exportedInputs);
    DroppedNone(s.exportedOutputs);
  }

  lemma NotNamed(bs: seq<UiGraphBlock>, n: string)
    requires forall b :: b in bs ==> b.blockUniqueName != n
    ensures Named(bs, n) == None
  {
  }

  lemma NotOwnParent(m: UiGraphModel, v: View, root: UiGraphBlock?, b: UiGraphBlock)
    requires ValidView(m, v, root) && b in v
    ensures b.parentBlock != b
    ensures b.parentBlock != null ==> b.parentBlock in v && b.parentBlock.ownerGraph == m == b.ownerGraph && !Under(b.parentBlock, b)
  {
    LookAt(m, v, root, b);
    if b.parentBlock != null {
      LookAt(m, v, root, b.parentBlock);
      ChildPath(m, v, root, b.parentBlock, b);
    }
  }

  lemma OwnChildren(m: UiGraphModel, v: View, root: UiGraphBlock?, b: UiGraphBlock)
    requires ValidView(m, v, root) && b in v
    ensures forall c :: c in v[b].children ==> c in v && c != b && c != b.parentBlock
  {
    LookAt(m, v, root, b);
    forall c | c in v[b].children
      ensures c in v && c != b && c != b.parentBlock
    {
      ChildPath(m, v, root, b, c);
      if b.parentBlock != null {
        ChildPath(m, v, root, b.parentBlock, b);
      }
    }
  }

  lemma WasIncluded(was: View, v: View, b: UiGraphBlock)
    requires KeptInside(was, v, b)
    ensures was.Keys <= v.Keys && ChildrenIn(was, b) == ChildrenIn(v, b)
  {
  }

  /** The child c of b was updated: b itself has only dropped exported ports. */
  lemma ChildUpdated(v0: View, v1: View, b: UiGraphBlock, c: UiGraphBlock, gone: set<string>)
    requires b in v0 && c.parentBlock == b && !Under(b, c) && OnlyBelow(v0, v1, c) && ParentDrops(v0, v1, c, gone)
    ensures b in v1 && v1[b] == Dropping(v0[b], gone) && Grows(v0[b], v1[b]) && v1[b].children == v0[b].children
    ensures OnlyBelow(v0[b := v1[b]], v1, c)
  {
  }

  lemma ChildUpdatedBelow(m: UiGraphModel, root: UiGraphBlock?, v0: View, v1: View, b: UiGraphBlock, c: UiGraphBlock)
    requires ValidView(m, v1, root) && b in v0 && b in v1 && c in v1 && c.parentBlock == b && OnlyBelow(v0[b := v1[b]], v1, c)
    ensures OnlyBelow(v0, v1, b) && ParentSame(v0, v1, b)
  {
    OnlyBelowReflexive(v0, b);
    OnlyBelowStep(m, root, v0, v0, v1, b, c);
    GrandparentSame(m, root, v0, v1, b, c);
  }

  lemma KeysGrow(v0: View, v1: View, b: UiGraphBlock, c: UiGraphBlock)
    requires b in v0 && b in v1 && OnlyBelow(v0[b := v1[b]], v1, c)
    ensures v0.Keys <= v1.Keys
  {
  }

  ghost function NamesUpTo(bs: seq<UiGraphBlock>, n: nat): set<string>
    requires n <= |bs|
  {
    set i | 0 <= i < n :: bs[i].blockUniqueName
  }

  lemma DroppingTwice(s: BlockState, gone: seq<UiGraphBlock>, i: nat)
    requires i < |gone|
    ensures Dropping(Dropping(s, NamesUpTo(gone, i)), {gone[i].blockUniqueName}) == Dropping(s, NamesUpTo(gone, i + 1))
  {
    var a, b := NamesUpTo(gone, i), {gone[i].blockUniqueName};
    DroppedTwice(s.exportedInputs, a, b);
    DroppedTwice(s.exportedOutputs, a, b);
    assert a + b == NamesUpTo(gone, i + 1);
  }

  lemma NoDrops(v: View, p: UiGraphBlock?)
    ensures WithDrops(v, p, {}) == v
  {
    if p != null && p in v {
      DroppingNone(v[p]);
    }
  }

  lemma ParentSameTrans(v0: View, v1: View, v2: View, b: UiGraphBlock)
    requires OnlyBelow(v0, v1, b) && ParentSame(v0, v1, b) && ParentSame(v1, v2, b)
    ensures ParentSame(v0, v2, b)
  {
  }

  lemma NothingRemoved(v: View, b: UiGraphBlock, n: string)
    requires b in v && forall c :: c in v[b].children ==> c.blockUniqueName != n
    ensures WithDrops(v[b := RemovedState(v[b], n)], b.parentBlock, GoneNamed(v[b], n)) == v
  {
    NotNamed(v[b].children, n);
    NoDrops(v, b.parentBlock);
    assert v[b := v[b]] == v;
  }

  /** The parent of a new block does not change while the block is filled. */
  lemma NewParentSame(m: UiGraphModel, v: View, root: UiGraphBlock?, p: UiGraphBlock, b: UiGraphBlock, s: BlockState,
                      w: View)
    requires p in v && b !in v && b.parentBlock == p && ParentDrops(v[b := s], w, b, {})
    ensures p in w && w[p] == v[p]
  {
    DroppingNone(v[p]);
  }

  lemma RemovedOutcome(m: UiGraphModel, v: View, root: UiGraphBlock?, b: UiGraphBlock, n: string)
    requires ValidView(m, v, root) && b in v && v[b].category == TransparentBlockGroup
    ensures var s, gone := RemovedState(v[b], n), GoneNamed(v[b], n);
      var w := WithDrops(v[b := s], b.parentBlock, gone);
      && w.Keys == v.Keys && w[b] == s && OnlyBelow(v, w, b) && ParentDrops(v, w, b, gone)
      && s.category == v[b].category && forall x :: x in s.children ==> x in v[b].children
  {
    hide ValidView, RemovedState;
    var s, gone := RemovedState(v[b], n), GoneNamed(v[b], n);
    RemoveChild(m, v, root, b, n);
    NotOwnParent(m, v, root, b);
    DropsKeepValid(m, v[b := s], root, b, gone);
    OnlyBelowTrans(v, v[b := s], WithDrops(v[b := s], b.parentBlock, gone), b);
    DropsAfterSame(v, v[b := s], WithDrops(v[b := s], b.parentBlock, gone), b, gone);
  }

  lemma OwnUpdate(m: UiGraphModel, v: View, root: UiGraphBlock?, b: UiGraphBlock, s: BlockState)
    requires ValidView(m, v, root) && b in v
    ensures OnlyBelow(v, v[b := s], b) && ParentDrops(v, v[b := s], b, {})
  {
    NotOwnParent(m, v, root, b);
    assert Under(b, b);
    ParentDropsSame(v, v[b := s], b);
  }

  lemma NothingChanged(v: View, b: UiGraphBlock)
    ensures OnlyBelow(v, v, b) && ParentDrops(v, v, b, {})
  {
    ParentDropsSame(v, v, b);
  }

  lemma DropsBeforeSame(v0: View, v1: View, v2: View, b: UiGraphBlock, gone: set<string>)
    requires OnlyBelow(v0, v1, b) && ParentDrops(v0, v1, b, gone) && ParentSame(v1, v2, b)
    ensures ParentDrops(v0, v2, b, gone)
  {
  }

  /** The tree of a lone root block. */
  lemma RootAlone(v: View, root: UiGraphBlock)
    requires v == map[root := RootState()]
    ensures forall x :: InTree(v, root, x) <==> x == root
  {
  }

  lemma TreeRoot(m: UiGraphModel, v: View, root: UiGraphBlock, visited: seq<UiGraphBlock>, visit: Visitor, n: nat)
    requires ValidView(m, v, root) && visited <= Order(Nexts(v, visit), root, n) && visited != []
    ensures visited[|visited| - 1] in v
  {
    var r := visited[|visited| - 1];
    assert r in visited && r in Order(Nexts(v, visit), root, n);
    OrderMember(m, v, root, visit, n, r);
  }

  lemma FoundMatches(v: View, root: UiGraphBlock?, match_: Matcher, r: UiGraphBlock?)
    requires root != null
    ensures r != null && FirstMatch(v, root, match_, r) ==> r in v && match_(r, v[r])
    ensures forall x :: InTree(v, root, x) && !Matches(v, match_, x) ==> x in v && !match_(x, v[x])
  {
    forall x | InTree(v, root, x)
      ensures x in v
    {
      TreeMember(v, root, x);
    }
  }

  class UiGraphBlock {
    const ownerGraph: UiGraphModel
    const parentBlock: UiGraphBlock?
    const blockUniqueName: string
    ghost const path: seq<UiGraphBlock>  // the enclosing blocks, outermost first

    var blockName: string
    var blockCategory: Category
    var blockCategoryInfo: CategoryInfo
    var inputPorts: seq<string>
    var outputPorts: seq<string>
    var exportedInputPorts: seq<Export>
    var exportedOutputPorts: seq<Export>
    var childBlocks: seq<UiGraphBlock>
    var childEdges: seq<UiGraphEdge>

    constructor (ownerGraph: UiGraphModel, parentBlock: UiGraphBlock?, uniqueName: string, category: Category,
                 info: CategoryInfo)
      ensures this.ownerGraph == ownerGraph && this.parentBlock == parentBlock && blockUniqueName == uniqueName
      ensures path == if parentBlock == null then [] else parentBlock.path + [parentBlock]
      ensures State() == NewState(category, info)
    {
      this.ownerGraph, this.parentBlock, this.blockUniqueName := ownerGraph, parentBlock, uniqueName;
      this.path := if parentBlock == null then [] else parentBlock.path + [parentBlock];
      blockName, blockCategory, blockCategoryInfo := "", category, info;
      inputPorts, outputPorts, exportedInputPorts, exportedOutputPorts, childBlocks, childEdges := [], [], [], [], [], [];
    }

    function State(): BlockState
      reads this
    {
      BlockState(blockName, blockCategory, blockCategoryInfo, inputPorts, outputPorts,
                 exportedInputPorts, exportedOutputPorts, childBlocks, childEdges)
    }

    ghost function Parent(): set<UiGraphBlock> {
      if parentBlock == null then {} else {parentBlock}
    }

    // One field after the other, with the view.

    method AssignChildren(children: seq<UiGraphBlock>)
      requires ownerGraph.Linked() && this in ownerGraph.view
      modifies this`childBlocks, ownerGraph`view
      ensures ownerGraph.Linked() && State() == old(State()).(children := children)
      ensures ownerGraph.view == old(ownerGraph.view)[this := State()]
    {
      childBlocks := children;
      ownerGraph.view := ownerGraph.view[this := State()];
    }

    method AssignEdges(edges: seq<UiGraphEdge>)
      requires ownerGraph.Linked() && this in ownerGraph.view
      modifies this`childEdges, ownerGraph`view
      ensures ownerGraph.Linked() && State() == old(State()).(edges := edges)
      ensures ownerGraph.view == old(ownerGraph.view)[this := State()]
    {
      childEdges := edges;
      ownerGraph.view := ownerGraph.view[this := State()];
    }

    method AssignExports(inputs: seq<Export>, outputs: seq<Export>)
      requires ownerGraph.Linked() && this in ownerGraph.view
      modifies this`exportedInputPorts, this`exportedOutputPorts, ownerGraph`view
      ensures ownerGraph.Linked() && State() == old(State()).(exportedInputs := inputs, exportedOutputs := outputs)
      ensures ownerGraph.view == old(ownerGraph.view)[this := State()]
    {
      exportedInputPorts, exportedOutputPorts := inputs, outputs;
      ownerGraph.view := ownerGraph.view[this := State()];
    }

    method AssignBasic(name: string, category: Category, inputs: seq<string>, outputs: seq<string>)
      requires ownerGraph.Linked() && this in ownerGraph.view
      modifies this`blockName, this`blockCategory, this`inputPorts, this`outputPorts, ownerGraph`view
      ensures ownerGraph.Linked() && State() == old(State()).(name := name, category := category, inputPorts := inputs, outputPorts := outputs)
      ensures ownerGraph.view == old(ownerGraph.view)[this := State()]
    {
      blockName, blockCategory, inputPorts, outputPorts := name, category, inputs, outputs;
      ownerGraph.view := ownerGraph.view[this := State()];
    }

    method AssignInfo(info: CategoryInfo)
      requires ownerGraph.Linked() && this in ownerGraph.view
      modifies this`blockCategoryInfo, ownerGraph`view
      ensures ownerGraph.Linked() && State() == old(State()).(info := info)
      ensures ownerGraph.view == old(ownerGraph.view)[this := State()]
    {
      blockCategoryInfo := info;
      ownerGraph.view := ownerGraph.view[this := State()];
    }

    /** The child with the given unique name, or null. */
    method FindBlockByUniqueName(name: string) returns (c: UiGraphBlock?)
      ensures c != null ==> c in childBlocks && c.blockUniqueName == name
      ensures c == null ==> forall x :: x in childBlocks ==> x.blockUniqueName != name
    {
      var i := 0;
      while i < |childBlocks|
        invariant 0 <= i <= |childBlocks|
        invariant forall j :: 0 <= j < i ==> childBlocks[j].blockUniqueName != name
      {
        if childBlocks[i].blockUniqueName == name {
          return childBlocks[i];
        }
        i := i + 1;
      }
      c := null;
    }

    /** The exported ports that the children of this graph really have, by their exported names. */
    method ExportedPorts(exports: seq<Export>, inputs: bool) returns (ports: seq<string>)
      requires ownerGraph.Valid() && this in ownerGraph.view
      ensures ports == ExportedNames(ownerGraph.view, childBlocks, exports, inputs)
    {
      hide ValidView, Named;
      ghost var v := ownerGraph.view;
      LookAt(ownerGraph, v, ownerGraph.rootBlock, this);
      assert State() == v[this];
      ports := [];
      for k := 0 to |exports|
        invariant ports == ExportedNames(v, childBlocks, exports[..k], inputs)
      {
        assert exports[..k + 1][..k] == exports[..k];
        var e := exports[k];
        var child := FindBlockByUniqueName(e.child);
        if child != null {
          NamedIs(childBlocks, child);
          assert v[child] == child.State();
          if FirstIndex(PortsOf(child.State(), inputs), e.internalName, 0).Some? {
            ports := ports + [e.exportedName];
          }
        } else {
          NotNamed(childBlocks, e.child);
        }
      }
      assert exports[..|exports|] == exports;
    }

    /** processPorts: the ports of the data, but for a scheduler those that its graph's children export. */
    method ProcessPorts(d: BlockData, exports: seq<Export>, inputs: bool) returns (ports: seq<string>)
      requires ownerGraph.Valid() && this in ownerGraph.view
      ensures ports == PortsFor(ownerGraph.view, childBlocks, d, exports, inputs)
    {
      hide ValidView;
      LookAt(ownerGraph, ownerGraph.view, ownerGraph.rootBlock, this);
      assert State() == ownerGraph.view[this];
      if d.category != ScheduledBlockGroup {
        return if inputs then d.inputPorts else d.outputPorts;
      }
      ports := [];
      if childBlocks != [] {
        LookAt(ownerGraph, ownerGraph.view, ownerGraph.rootBlock, childBlocks[0]);
        assert childBlocks[0].State() == ownerGraph.view[childBlocks[0]];
        ports := childBlocks[0].ExportedPorts(exports, inputs);
      }
    }

    /** Sets the block's own fields. The name never changes, since it is not empty. */
    method SetBasicBlockData(d: BlockData)
      requires ownerGraph.Valid() && this in ownerGraph.view
      requires d.category == ownerGraph.categoryOf(blockUniqueName)
      modifies this, ownerGraph`view
      ensures ownerGraph.Valid()
      ensures ownerGraph.view == old(ownerGraph.view)[this := State()]
      ensures exportedInputPorts == if d.exportedInputs.Some? then d.exportedInputs.value else old(exportedInputPorts)
      ensures exportedOutputPorts == if d.exportedOutputs.Some? then d.exportedOutputs.value else old(exportedOutputPorts)
      ensures var ei, eo := ExportsAfter(old(exportedInputPorts), d.exportedInputs), ExportsAfter(old(exportedOutputPorts), d.exportedOutputs);
        State() == old(State()).(name := d.name, category := d.category, exportedInputs := ei, exportedOutputs := eo,
          inputPorts := PortsFor(old(ownerGraph.view), old(childBlocks), d, ei, true),
          outputPorts := PortsFor(old(ownerGraph.view), old(childBlocks), d, eo, false))
    {
      hide ValidView, UiGraphModel.Linked, PortsFor, OnlyBelow, Holds, Placed;
      ghost var v := ownerGraph.view;
      KindAt(ownerGraph, v, ownerGraph.rootBlock, this);
      ownerGraph.Look(this);
      var inputExports := ExportsAfter(exportedInputPorts, d.exportedInputs);
      var outputExports := ExportsAfter(exportedOutputPorts, d.exportedOutputs);
      var inputs := ProcessPorts(d, inputExports, true);
      var outputs := ProcessPorts(d, outputExports, false);
      AssignExports(inputExports, outputExports);
      AssignBasic(d.name, d.category, inputs, outputs);
      assert ownerGraph.view == v[this := State()];
      SameHolds(v, this, State());
      UpdateKeepsValid(ownerGraph, v, ownerGraph.rootBlock, this, State());
    }

    method ParseEdgeData(e: EdgeData) returns (r: Option<UiGraphEdge>)
      ensures r.Some? ==>
        && r.value.source in childBlocks && r.value.source.blockUniqueName == e.source
        && r.value.destination in childBlocks && r.value.destination.blockUniqueName == e.destination
        && Denotes(r.value.source.outputPorts, e.sourcePort, r.value.sourcePort)
        && Denotes(r.value.destination.inputPorts, e.destinationPort, r.value.destinationPort)
      ensures r.None? && DistinctNames(childBlocks) ==>
        forall s, t :: s in childBlocks && t in childBlocks && s.blockUniqueName == e.source && t.blockUniqueName == e.destination ==>
          !HasPort(s.outputPorts, e.sourcePort) || !HasPort(t.inputPorts, e.destinationPort)
    {
      r := None;
      var source := FindBlockByUniqueName(e.source);
      var destination := FindBlockByUniqueName(e.destination);
      if source != null && destination != null {
        var sourcePort := FindPort(source.outputPorts, e.sourcePort);
        var destinationPort := FindPort(destination.inputPorts, e.destinationPort);
        if sourcePort.Some? && destinationPort.Some? {
          r := Some(UiGraphEdge(source, sourcePort.value, destination, destinationPort.value));
        }
      }
    }

    /** Asks for this block anew; a nested scheduler through the graph that holds it. */
    method RequestBlockUpdate()
      modifies ownerGraph`sent
      ensures ownerGraph.sent == old(ownerGraph.sent) + UpdateRequests(this, State())
    {
      if OwnerScheduler(this, State()) == blockUniqueName {
        if parentBlock != null {
          ownerGraph.Send(InspectScheduler(parentBlock.blockUniqueName));
          ownerGraph.Send(InspectBlock(parentBlock.blockUniqueName, blockUniqueName));
        }
      } else {
        ownerGraph.Send(InspectBlock(OwnerScheduler(this, State()), blockUniqueName));
      }
    }

    /** Removes the edges of a block of this graph, and its exported ports from the block around. */
    method RemoveEdgesForBlock(block: UiGraphBlock)
      requires Settled()
      modifies this`childEdges, Parent(), ownerGraph`sent, ownerGraph`view
      ensures Settled() && State() == old(State()).(edges := WithoutBlock(old(childEdges), block))
      ensures ownerGraph.view == WithDrops(old(ownerGraph.view)[this := State()], parentBlock, {block.blockUniqueName})
      ensures parentBlock != null ==> parentBlock.exportedInputPorts == Dropped(old(parentBlock.exportedInputPorts), {block.blockUniqueName})
      ensures parentBlock != null ==> parentBlock.exportedOutputPorts == Dropped(old(parentBlock.exportedOutputPorts), {block.blockUniqueName})
      ensures ownerGraph.sent == old(ownerGraph.sent) + if parentBlock == null then [] else UpdateRequests(parentBlock, parentBlock.State())
    {
      hide UiGraphModel.Linked, UpdateRequests;
      AssignEdges(WithoutBlock(childEdges, block));
      if parentBlock != null {
        ownerGraph.LookLinked(parentBlock);
        parentBlock.AssignExports(Dropped(parentBlock.exportedInputPorts, {block.blockUniqueName}),
                                  Dropped(parentBlock.exportedOutputPorts, {block.blockUniqueName}));
        parentBlock.RequestBlockUpdate();
      }
    }

    /** The block and the one around it are in the view. */
    ghost predicate Settled()
      reads this, ownerGraph`view, ownerGraph.view.Keys
    {
      && ownerGraph.Linked() && this in ownerGraph.view
      && parentBlock != this && (parentBlock != null ==> parentBlock.ownerGraph == ownerGraph && parentBlock in ownerGraph.view)
    }

    /** Applies a snapshot to this block and everything below it. `was` is what the message of which
        this block's data are a part found. */
    method SetBlockData(d: BlockData, ghost was: Before)
      requires ownerGraph.Valid() && this in ownerGraph.view && was.sent <= |ownerGraph.sent|
      requires WellFormed(d, ownerGraph.categoryOf) && d.uniqueName == blockUniqueName
      requires KeptInside(was.view, ownerGraph.view, this) && SameExports(was.view, ownerGraph.view, this)
      modifies ownerGraph`sent, ownerGraph`view, ownerGraph.view.Keys
      ensures ownerGraph.Valid() && old(ownerGraph.sent) <= ownerGraph.sent
      ensures (forall x :: x in ownerGraph.view && x !in old(ownerGraph.view) ==> fresh(x))
      ensures OnlyBelow(old(ownerGraph.view), ownerGraph.view, this)
      ensures ParentDrops(old(ownerGraph.view), ownerGraph.view, this, GoneNames(was.view, this, d))
      ensures Mirrors(was, ownerGraph.view, ownerGraph.sent, this, d)
      decreases d, 4
    {
      hide ValidView, UiGraphModel.Linked, Mirrors, OnlyBelow, KeptInside, SameExports, SchedulerPorts, ParentSame,
           ParentDrops;
      ghost var v, root := ownerGraph.view, ownerGraph.rootBlock;
      LookAt(ownerGraph, v, root, this);
      ownerGraph.Look(this);
      NotOwnParent(ownerGraph, v, root, this);
      SetBasicBlockData(d);
      ghost var v1 := ownerGraph.view;
      BasicStep(was.view, v, this, State());
      if blockCategory != ScheduledBlockGroup {
        SetGraphChildren(d, was);
        OnlyBelowTrans(v, v1, ownerGraph.view, this);
        DropsAfterSame(v, v1, ownerGraph.view, this, GoneNames(was.view, this, d));
      } else {
        ownerGraph.Send(InspectScheduler(blockUniqueName));
        SchedulerMirrors(ownerGraph, root, was, v, v1, ownerGraph.sent, this, d);
        ParentDropsSame(v, v1, this);
      }
    }

    method SetGraphChildren(d: BlockData, ghost was: Before)
      requires ownerGraph.Valid() && this in ownerGraph.view && was.sent <= |ownerGraph.sent|
      requires WellFormed(d, ownerGraph.categoryOf) && d.uniqueName == blockUniqueName
      requires blockCategory == d.category != ScheduledBlockGroup
      requires blockName == d.name && inputPorts == d.inputPorts && outputPorts == d.outputPorts
      requires KeptInside(was.view, ownerGraph.view, this)
      modifies ownerGraph`sent, ownerGraph`view, ownerGraph.view.Keys
      ensures ownerGraph.Valid() && old(ownerGraph.sent) <= ownerGraph.sent
      ensures (forall x :: x in ownerGraph.view && x !in old(ownerGraph.view) ==> fresh(x))
      ensures OnlyBelow(old(ownerGraph.view), ownerGraph.view, this)
      ensures ParentDrops(old(ownerGraph.view), ownerGraph.view, this, GoneNames(was.view, this, d))
      ensures Mirrors(was, ownerGraph.view, ownerGraph.sent, this, d)
      decreases d, 3
    {
      hide ValidView, UiGraphModel.Linked, Mirrors, OnlyBelow, KeptInside, Applied, WellFormed, ParentSame, ParentDrops;
      ghost var v0 := ownerGraph.view;
      NotOwnParent(ownerGraph, v0, ownerGraph.rootBlock, this);
      if blockCategory == NormalBlock {
        ownerGraph.Look(this);
        PlainMirrors(was, v0, ownerGraph.sent, this, d);
        OnlyBelowReflexive(v0, this);
        ParentDropsSame(v0, v0, this);
        return;
      }
      ownerGraph.Look(this);
      ghost var kids := UpdateOrCreateChildren(d, was);
      AppliedOwn(was, v0, ownerGraph.view, ownerGraph.sent, this, kids, d);
      ReplaceChildrenAndEdges(d, kids, v0, was);
    }

    /** The second half of SetGraphChildren: only the named children stay, and the edges are new. */
    method ReplaceChildrenAndEdges(d: BlockData, ghost kids: seq<UiGraphBlock>, ghost v0: View, ghost was: Before)
      requires ownerGraph.Valid() && this in ownerGraph.view && this in v0
      requires WellFormed(d, ownerGraph.categoryOf) && d.uniqueName == blockUniqueName
      requires v0[this].category == TransparentBlockGroup == d.category
      requires v0[this].name == d.name && v0[this].inputPorts == d.inputPorts && v0[this].outputPorts == d.outputPorts
      requires KeptInside(was.view, v0, this)
      requires Applied(was, v0, ownerGraph.view, ownerGraph.sent, this, kids, d) && |kids| == |d.children|
      modifies this, Parent(), ownerGraph`view, ownerGraph`sent
      ensures ownerGraph.Valid() && ownerGraph.view.Keys == old(ownerGraph.view.Keys) && old(ownerGraph.sent) <= ownerGraph.sent
      ensures OnlyBelow(v0, ownerGraph.view, this)
      ensures ParentDrops(v0, ownerGraph.view, this, GoneNames(was.view, this, d))
      ensures Mirrors(was, ownerGraph.view, ownerGraph.sent, this, d)
    {
      hide ValidView, UiGraphModel.Linked, Mirrors, OnlyBelow, KeptInside, Applied, WellFormed, ParentSame,
           ParentDrops, WithDrops, GoneNames, GoneChildren, Rows, RowsOfEdges;
      ghost var v1, root, sent1 := ownerGraph.view, ownerGraph.rootBlock, ownerGraph.sent;
      AppliedOwn(was, v0, v1, sent1, this, kids, d);
      LookAt(ownerGraph, v1, root, this);
      NotOwnParent(ownerGraph, v1, root, this);
      ownerGraph.Look(this);
      OwnChildren(ownerGraph, v1, root, this);
      GoneSame(was, v0, v1, sent1, this, kids, d);
      ghost var gone := GoneNames(was.view, this, d);
      DeleteUnknownChildren(d);
      DropsAre(v1[this := State()], this, gone);
      forall c | c in childBlocks
        ensures c != this && c in v1 && c.inputPorts == v1[c].inputPorts && c.outputPorts == v1[c].outputPorts
      {
        ownerGraph.LookLinked(c);
      }
      DropsThenOwn(v1, this, State(), State(), gone);
      ghost var s := State();
      EstablishEdges(d, v1);
      DropsThenOwn(v1, this, s, State(), gone);
      SnapshotApplied(ownerGraph, root, was, v0, v1, sent1, ownerGraph.sent, this, kids, State(), d);
    }

    /** Applies every entry of d to the child of its name, making the child if there is none. */
    method UpdateOrCreateChildren(d: BlockData, ghost was: Before) returns (ghost kids: seq<UiGraphBlock>)
      requires ownerGraph.Valid() && this in ownerGraph.view && was.sent <= |ownerGraph.sent|
      requires WellFormed(d, ownerGraph.categoryOf)
      requires blockCategory == TransparentBlockGroup
      requires KeptInside(was.view, ownerGraph.view, this)
      modifies ownerGraph`sent, ownerGraph`view, ownerGraph.view.Keys
      ensures ownerGraph.Valid() && old(ownerGraph.sent) <= ownerGraph.sent
      ensures (forall x :: x in ownerGraph.view && x !in old(ownerGraph.view) ==> fresh(x))
      ensures Applied(was, old(ownerGraph.view), ownerGraph.view, ownerGraph.sent, this, kids, d)
      ensures |kids| == |d.children|
      decreases d, 2
    {
      hide ValidView, UiGraphModel.Linked, Mirrors, KeptInside, Applied, OnlyBelow, EmplacedAs, SameExports;
      ghost var v0 := ownerGraph.view;
      kids := [];
      AppliedStart(ownerGraph, ownerGraph.rootBlock, was, v0, ownerGraph.sent, this, d);
      WasIncluded(was.view, v0, this);
      for i := 0 to |d.children|
        invariant |kids| == i && this in ownerGraph.view && blockCategory == TransparentBlockGroup
        invariant ownerGraph.Valid() && old(ownerGraph.sent) <= ownerGraph.sent
        invariant (forall x :: x in ownerGraph.view && x !in old(ownerGraph.view) ==> fresh(x))
        invariant v0.Keys <= ownerGraph.view.Keys
        invariant Applied(was, v0, ownerGraph.view, ownerGraph.sent, this, kids, d)
      {
        ghost var c := ApplyEntry(d, i, was, v0, kids);
        kids := kids + [c];
      }
    }

    /** Applies the next entry of d. */
    method ApplyEntry(d: BlockData, i: nat, ghost was: Before, ghost v0: View, ghost kids: seq<UiGraphBlock>)
      returns (ghost c: UiGraphBlock)
      requires ownerGraph.Valid() && this in ownerGraph.view && blockCategory == TransparentBlockGroup
      requires was.sent <= |ownerGraph.sent| && was.view.Keys <= ownerGraph.view.Keys && WellFormed(d, ownerGraph.categoryOf)
      requires Applied(was, v0, ownerGraph.view, ownerGraph.sent, this, kids, d) && |kids| == i < |d.children|
      modifies ownerGraph`sent, ownerGraph`view, ownerGraph.view.Keys
      ensures ownerGraph.Valid() && old(ownerGraph.sent) <= ownerGraph.sent
      ensures this in ownerGraph.view && blockCategory == TransparentBlockGroup && old(ownerGraph.view.Keys) <= ownerGraph.view.Keys
      ensures (forall x :: x in ownerGraph.view && x !in old(ownerGraph.view) ==> fresh(x))
      ensures Applied(was, v0, ownerGraph.view, ownerGraph.sent, this, kids + [c], d)
      decreases d, 0
    {
      hide ValidView, UiGraphModel.Linked, Mirrors, KeptInside, Kept, Applied, OnlyBelow, EmplacedAs, SameExports,
           ParentDrops, GoneNames, WellFormed;
      ghost var root, v1, sent1 := ownerGraph.rootBlock, ownerGraph.view, ownerGraph.sent;
      var entry := d.children[i];
      WellFormedEntry(d, ownerGraph.categoryOf, |kids|);
      AppliedOwn(was, v0, v1, sent1, this, kids, d);
      LookAt(ownerGraph, v1, root, this);
      ownerGraph.Look(this);
      var found := FindBlockByUniqueName(entry.key);
      if found != null {
        FoundChild(ownerGraph, root, was, v0, v1, sent1, this, kids, found, d);
        KeptIs(was.view, v1, found);
        found.SetBlockData(entry.data, was);
        c := found;
        ChildUpdated(v1, ownerGraph.view, this, found, GoneNames(was.view, found, entry.data));
      } else {
        c := HandleChildBlockEmplaced(entry.data, was);
        EmplacedGrows(was, v1, ownerGraph.view, ownerGraph.sent, this, v1[this], c, entry.data);
      }
      KeysGrow(v1, ownerGraph.view, this, c);
      ownerGraph.Look(this);
      AppliedStep(ownerGraph, root, was, v0, v1, ownerGraph.view, sent1, ownerGraph.sent, this, kids, c, d);
    }

    /** Drops the children that the snapshot does not name, after their edges and exported ports. */
    method DeleteUnknownChildren(d: BlockData)
      requires Settled() && DistinctNames(childBlocks)
      modifies this`childBlocks, this`childEdges, Parent(), ownerGraph`sent, ownerGraph`view
      ensures Settled() && DistinctNames(childBlocks) && old(ownerGraph.sent) <= ownerGraph.sent
      ensures forall b :: b in childBlocks <==> b in old(childBlocks) && b.blockUniqueName in Keys(d)
      ensures State() == old(State()).(children := childBlocks, edges := childEdges)
      ensures ownerGraph.view == WithDrops(old(ownerGraph.view)[this := State()], parentBlock, GoneChildren(old(childBlocks), d))
    {
      hide UiGraphModel.Linked, WithDrops;
      var kept, gone := Partition(childBlocks, Keys(d));
      RemoveEdgesForBlocks(gone);
      assert NamesUpTo(gone, |gone|) == GoneChildren(old(childBlocks), d);
      DropsThenOwn(old(ownerGraph.view), this, State(), State().(children := kept), GoneChildren(old(childBlocks), d));
      AssignChildren(kept);
    }

    method RemoveEdgesForBlocks(gone: seq<UiGraphBlock>)
      requires Settled()
      modifies this`childEdges, Parent(), ownerGraph`sent, ownerGraph`view
      ensures Settled() && old(ownerGraph.sent) <= ownerGraph.sent
      ensures State() == old(State()).(edges := childEdges)
      ensures ownerGraph.view == WithDrops(old(ownerGraph.view)[this := State()], parentBlock, NamesUpTo(gone, |gone|))
    {
      hide UiGraphModel.Linked, UpdateRequests, NamesUpTo, WithoutBlock, WithDrops;
      ghost var v := ownerGraph.view;
      ownerGraph.LookLinked(this);
      DropsStart(v, this, gone);
      for i := 0 to |gone|
        invariant Settled() && old(ownerGraph.sent) <= ownerGraph.sent
        invariant State() == old(State()).(edges := childEdges)
        invariant ownerGraph.view == WithDrops(v[this := State()], parentBlock, NamesUpTo(gone, i))
      {
        ghost var s := State();
        RemoveEdgesForBlock(gone[i]);
        DropsStep(v, this, s, State(), gone, i);
      }
    }

    /** Replaces the edges by those of the snapshot that resolve among the children. */
    method EstablishEdges(d: BlockData, ghost v: View)
      requires ownerGraph.Linked() && this in ownerGraph.view && DistinctNames(childBlocks)
      requires forall c :: c in childBlocks ==> c != this && c in v && c.inputPorts == v[c].inputPorts && c.outputPorts == v[c].outputPorts
      modifies this`childEdges, ownerGraph`view
      ensures ownerGraph.Linked() && State() == old(State()).(edges := childEdges)
      ensures ownerGraph.view == old(ownerGraph.view)[this := State()]
      ensures forall e :: e in childEdges ==> e.source in childBlocks && e.destination in childBlocks
      ensures RowsOfEdges(childEdges) == Rows(v, childBlocks, d.edges)
    {
      hide UiGraphModel.Linked, Rows, RowOf, RowsOfEdges, FindPort;
      AssignEdges([]);
      NoRows(v, childBlocks);
      for i := 0 to |d.edges|
        invariant ownerGraph.Linked() && State() == old(State()).(edges := childEdges)
        invariant ownerGraph.view == old(ownerGraph.view)[this := State()]
        invariant forall e :: e in childEdges ==> e.source in childBlocks && e.destination in childBlocks
        invariant RowsOfEdges(childEdges) == Rows(v, childBlocks, d.edges[..i])
      {
        var edge := ParseEdgeData(d.edges[i]);
        EdgeRowAgrees(v, childBlocks, d.edges[i], edge);
        RowsStep(v, childBlocks, d.edges, i);
        if edge.Some? {
          RowAppended(childEdges, edge.value);
          AssignEdges(childEdges + [edge.value]);
        }
      }
      assert d.edges[..|d.edges|] == d.edges;
    }

    /** Adds the described block to this graph, or updates it if there is one with its name. */
    method HandleChildBlockEmplaced(d: BlockData, ghost was: Before) returns (ghost c: UiGraphBlock)
      requires ownerGraph.Valid() && this in ownerGraph.view && blockCategory == TransparentBlockGroup
      requires WellFormed(d, ownerGraph.categoryOf)
      requires was.sent <= |ownerGraph.sent| && was.view.Keys <= ownerGraph.view.Keys
      requires forall x :: x in childBlocks && x.blockUniqueName == d.uniqueName ==> Kept(was.view, ownerGraph.view, x)
      modifies ownerGraph`sent, ownerGraph`view, ownerGraph.view.Keys
      ensures ownerGraph.Valid() && old(ownerGraph.sent) <= ownerGraph.sent && this in ownerGraph.view
      ensures (forall x :: x in ownerGraph.view && x !in old(ownerGraph.view) ==> fresh(x))
      ensures EmplacedAs(was, old(ownerGraph.view), ownerGraph.view, ownerGraph.sent, this, old(State()), c, d)
      decreases d, 7
    {
      hide ValidView, UiGraphModel.Linked, Mirrors, OnlyBelow, Kept, WellFormed, Named, KeptInside, SameExports,
           ParentDrops, GoneNames;
      ghost var v, root := ownerGraph.view, ownerGraph.rootBlock;
      LookAt(ownerGraph, v, root, this);
      ownerGraph.Look(this);
      var found := FindBlockByUniqueName(d.uniqueName);
      if found != null {
        ChildPath(ownerGraph, v, root, this, found);
        LookAt(ownerGraph, v, root, found);
        NamedIs(childBlocks, found);
        KeptIs(was.view, v, found);
        found.SetBlockData(d, was);
        c := found;
        ChildUpdated(v, ownerGraph.view, this, found, GoneNames(was.view, found, d));
      } else {
        NotNamed(childBlocks, d.uniqueName);
        c := AppendNewBlock(d, was);
      }
    }

    method AppendNewBlock(d: BlockData, ghost was: Before) returns (ghost c: UiGraphBlock)
      requires ownerGraph.Valid() && this in ownerGraph.view && blockCategory == TransparentBlockGroup
      requires WellFormed(d, ownerGraph.categoryOf)
      requires was.sent <= |ownerGraph.sent| && was.view.Keys <= ownerGraph.view.Keys
      requires forall x :: x in childBlocks ==> x.blockUniqueName != d.uniqueName
      modifies ownerGraph`sent, ownerGraph`view, ownerGraph.view.Keys
      ensures ownerGraph.Valid() && old(ownerGraph.sent) <= ownerGraph.sent && this in ownerGraph.view
      ensures (forall x :: x in ownerGraph.view && x !in old(ownerGraph.view) ==> fresh(x))
      ensures c !in old(ownerGraph.view) && Mirrors(was, ownerGraph.view, ownerGraph.sent, c, d)
      ensures ownerGraph.view[this] == old(State()).(children := old(childBlocks) + [c])
      ensures OnlyBelow(old(ownerGraph.view)[this := ownerGraph.view[this]], ownerGraph.view, c)
      decreases d, 6
    {
      hide ValidView, UiGraphModel.Linked, Mirrors, WellFormed, OnlyBelow;
      ghost var v, root := ownerGraph.view, ownerGraph.rootBlock;
      LookAt(ownerGraph, v, root, this);
      ownerGraph.Look(this);
      var block := ownerGraph.MakeGraphBlock(this, d, blockCategoryInfo.ownerSchedulerUniqueName, blockUniqueName, was);
      c := block;
      ghost var v1 := ownerGraph.view;
      AppendChild(ownerGraph, root, was, v, v1, ownerGraph.sent, this, c, d);
      ownerGraph.Look(this);
      AssignChildren(childBlocks + [block]);
    }

    method HandleChildBlockRemoved(uniqueName: string) returns (removed: bool)
      requires ownerGraph.Valid() && this in ownerGraph.view && blockCategory == TransparentBlockGroup
      modifies this, Parent(), ownerGraph`view, ownerGraph`sent, ownerGraph`requestedFullUpdate, ownerGraph`selectedBlock
      ensures ownerGraph.Valid() && old(ownerGraph.sent) <= ownerGraph.sent
      ensures ownerGraph.view ==
              WithDrops(old(ownerGraph.view)[this := RemovedState(old(State()), uniqueName)], parentBlock, GoneNamed(old(State()), uniqueName))
      ensures removed <==> exists c :: c in old(childBlocks) && c.blockUniqueName == uniqueName
      ensures removed && parentBlock != null ==> ownerGraph.sent == old(ownerGraph.sent) + UpdateRequests(parentBlock, parentBlock.State())
      ensures ownerGraph.requestedFullUpdate == (old(ownerGraph.requestedFullUpdate) || !removed)
      ensures ownerGraph.selectedBlock == old(ownerGraph.selectedBlock) || ownerGraph.selectedBlock == null
    {
      hide ValidView, UiGraphModel.Linked, RemovedState, GoneNamed, WithDrops, UpdateRequests;
      ghost var v, root := ownerGraph.view, ownerGraph.rootBlock;
      LookAt(ownerGraph, v, root, this);
      ownerGraph.Look(this);
      NotOwnParent(ownerGraph, v, root, this);
      var block := FindBlockByUniqueName(uniqueName);
      if block == null {
        NothingRemoved(v, this, uniqueName);
        ownerGraph.RequestFullUpdate();
        return false;
      }
      NamedIs(childBlocks, block);
      RemoveFound(block);
      if block == ownerGraph.selectedBlock {
        ownerGraph.selectedBlock := null;
      }
      removed := true;
    }

    method RemoveFound(block: UiGraphBlock)
      requires ownerGraph.Valid() && Settled() && blockCategory == TransparentBlockGroup
      requires Named(childBlocks, block.blockUniqueName) == Some(block)
      modifies this, Parent(), ownerGraph`view, ownerGraph`sent
      ensures ownerGraph.Valid()
      ensures ownerGraph.view == WithDrops(old(ownerGraph.view)[this := RemovedState(old(State()), block.blockUniqueName)],
                                           parentBlock, GoneNamed(old(State()), block.blockUniqueName))
      ensures ownerGraph.sent == old(ownerGraph.sent) + if parentBlock == null then [] else UpdateRequests(parentBlock, parentBlock.State())
    {
      hide ValidView, UiGraphModel.Linked, Erase, WithoutBlock, Named, OnlyBelow, SameBelow, ParentDrops, ParentSame,
           WithoutName, UpdateRequests, WithDrops;
      ghost var v, root := ownerGraph.view, ownerGraph.rootBlock;
      ownerGraph.Look(this);
      RemoveChild(ownerGraph, v, root, this, block.blockUniqueName);
      RemoveEdgesForBlock(block);
      ghost var s := State();
      AssignChildren(Erase(childBlocks, block));
      DropsThenOwn(v, this, s, State(), {block.blockUniqueName});
      DropsKeepValid(ownerGraph, v[this := State()], root, this, {block.blockUniqueName});
    }

    method HandleChildEdgeEmplaced(e: EdgeData)
      requires ownerGraph.Valid() && this in ownerGraph.view && blockCategory == TransparentBlockGroup
      modifies this`childEdges, ownerGraph`view, ownerGraph`sent, ownerGraph`requestedFullUpdate
      ensures ownerGraph.Valid() && old(ownerGraph.sent) <= ownerGraph.sent
      ensures ownerGraph.view == old(ownerGraph.view)[this := State()]
      ensures EdgeAppended(ownerGraph.view, childBlocks, old(childEdges), childEdges, e)
      ensures ownerGraph.requestedFullUpdate == (old(ownerGraph.requestedFullUpdate) || childEdges == old(childEdges))
    {
      hide ValidView, UiGraphModel.Linked, Denotes, HasPort, OnlyBelow;
      ghost var v, root := ownerGraph.view, ownerGraph.rootBlock;
      LookAt(ownerGraph, v, root, this);
      ownerGraph.Look(this);
      forall c | c in childBlocks
        ensures c in v && c != this && v[c] == c.State()
      {
        ownerGraph.Look(c);
        ChildPath(ownerGraph, v, root, this, c);
      }
      var edge := ParseEdgeData(e);
      if edge.Some? {
        EdgeKeepsHolds(v, this, edge.value);
        AssignEdges(childEdges + [edge.value]);
        EdgeIsAppended(ownerGraph.view, childBlocks, v[this].edges, edge.value, e);
        UpdateKeepsValid(ownerGraph, v, root, this, State());
      } else {
        ownerGraph.RequestFullUpdate();
        assert v == v[this := State()];
      }
    }

    /** A port of a block inside is shown as a port of this block, or no longer. */
    method HandlePortExported(inputs: bool, e: Export, flag: bool)
      requires ownerGraph.Valid() && this in ownerGraph.view
      modifies this`exportedInputPorts, this`exportedOutputPorts, ownerGraph`view, ownerGraph`sent
      ensures ownerGraph.Valid()
      ensures ownerGraph.view == old(ownerGraph.view)[this := Toggled(old(State()), inputs, e, flag)]
      ensures exportedInputPorts == if inputs then ExportsToggled(old(exportedInputPorts), e, flag) else old(exportedInputPorts)
      ensures exportedOutputPorts == if inputs then old(exportedOutputPorts) else ExportsToggled(old(exportedOutputPorts), e, flag)
      ensures ownerGraph.sent == old(ownerGraph.sent) + UpdateRequests(this, State())
    {
      hide ValidView, UiGraphModel.Linked;
      ghost var v, root := ownerGraph.view, ownerGraph.rootBlock;
      LookAt(ownerGraph, v, root, this);
      ownerGraph.Look(this);
      if inputs {
        AssignExports(ExportsToggled(exportedInputPorts, e, flag), exportedOutputPorts);
      } else {
        AssignExports(exportedInputPorts, ExportsToggled(exportedOutputPorts, e, flag));
      }
      UpdateKeepsValid(ownerGraph, v, root, this, State());
      RequestBlockUpdate();
    }

    /** Gives a scheduler the one graph it schedules, keeping the graph object if the name is the same. */
    method SetSchedulerGraph(d: BlockData, ghost was: Before)
      requires ownerGraph.Valid() && this in ownerGraph.view && blockCategory == ScheduledBlockGroup && was.sent <= |ownerGraph.sent|
      requires |d.children| == 1 && d.children[0].key == d.children[0].data.uniqueName
      requires WellFormed(d.children[0].data, ownerGraph.categoryOf)
      requires KeptInside(was.view, ownerGraph.view, this)
      modifies ownerGraph`sent, ownerGraph`view, ownerGraph.view.Keys
      ensures ownerGraph.Valid() && old(ownerGraph.sent) <= ownerGraph.sent
      ensures forall x :: x in ownerGraph.view && x !in old(ownerGraph.view) ==> fresh(x)
      ensures OnlyBelow(old(ownerGraph.view), ownerGraph.view, this) && ParentSame(old(ownerGraph.view), ownerGraph.view, this)
      ensures HoldsGraph(was, ownerGraph.view, ownerGraph.sent, this, d)
      ensures this in ownerGraph.view && |ownerGraph.view[this].children| == 1
      ensures ownerGraph.view[this] ==
              Dropping(old(State()), GoneNames(was.view, ownerGraph.view[this].children[0], d.children[0].data))
                .(children := ownerGraph.view[this].children)
    {
      hide ValidView, UiGraphModel.Linked, Mirrors, WellFormed, OnlyBelow, KeptInside, Kept, SameExports, ParentDrops,
           ParentSame, GoneNames;
      ghost var v, root := ownerGraph.view, ownerGraph.rootBlock;
      LookAt(ownerGraph, v, root, this);
      WasIncluded(was.view, v, this);
      ownerGraph.Look(this);
      if childBlocks != [] && childBlocks[0].blockUniqueName == d.children[0].key {
        var graph := childBlocks[0];
        ChildPath(ownerGraph, v, root, this, graph);
        LookAt(ownerGraph, v, root, graph);
        ChildKept(ownerGraph, root, was.view, v, this, graph);
        KeptIs(was.view, v, graph);
        graph.SetBlockData(d.children[0].data, was);
        ChildUpdated(v, ownerGraph.view, this, graph, GoneNames(was.view, graph, d.children[0].data));
        ChildUpdatedBelow(ownerGraph, root, v, ownerGraph.view, this, graph);
      } else {
        ghost var graph := ReplaceGraph(d.children[0].data, was);
        NewLosesNothing(was.view, graph, d.children[0].data);
        DroppingNone(old(State()));
      }
    }

    method ClearChildren()
      requires ownerGraph.Valid() && this in ownerGraph.view && blockCategory == ScheduledBlockGroup
      modifies this`childBlocks, ownerGraph`view
      ensures ownerGraph.Valid() && State() == old(State()).(children := [])
      ensures ownerGraph.view == old(ownerGraph.view)[this := State()]
      ensures OnlyBelow(old(ownerGraph.view), ownerGraph.view, this) && ParentSame(old(ownerGraph.view), ownerGraph.view, this)
    {
      hide ValidView, UiGraphModel.Linked, OnlyBelow;
      ghost var v, root := ownerGraph.view, ownerGraph.rootBlock;
      LookAt(ownerGraph, v, root, this);
      NotOwnParent(ownerGraph, v, root, this);
      ownerGraph.Look(this);
      AssignChildren([]);
      UpdateKeepsValid(ownerGraph, v, root, this, State());
    }

    /** The answer to an inspection: the scheduler's own data, and its graph. */
    method HandleSchedulerInspected(d: BlockData, ghost was: Before)
      requires ownerGraph.Valid() && this in ownerGraph.view && blockCategory == ScheduledBlockGroup == d.category
      requires |d.children| == 1 && d.children[0].key == d.children[0].data.uniqueName
      requires WellFormed(d.children[0].data, ownerGraph.categoryOf)
      requires was == Before(ownerGraph.view, |ownerGraph.sent|)
      modifies ownerGraph`sent, ownerGraph`view, ownerGraph.view.Keys
      ensures ownerGraph.Valid() && old(ownerGraph.sent) <= ownerGraph.sent
      ensures forall x :: x in ownerGraph.view && x !in old(ownerGraph.view) ==> fresh(x)
      ensures OnlyBelow(old(ownerGraph.view), ownerGraph.view, this) && ParentSame(old(ownerGraph.view), ownerGraph.view, this)
      ensures HoldsGraph(was, ownerGraph.view, ownerGraph.sent, this, d)
      ensures FollowsInspection(old(ownerGraph.view), ownerGraph.view, this, d)
    {
      hide ValidView, UiGraphModel.Linked, Mirrors, WellFormed, KeptInside, SameExports, OnlyBelow, HoldsGraph,
           ParentSame, GoneNames, SchedulerPorts;
      ghost var v0, root := ownerGraph.view, ownerGraph.rootBlock;
      LookAt(ownerGraph, v0, root, this);
      NotOwnParent(ownerGraph, v0, root, this);
      ownerGraph.Look(this);
      KeptItself(v0, this);
      SetBasicBlockData(d);
      ghost var v1 := ownerGraph.view;
      BasicStep(was.view, v0, this, State());
      SetSchedulerGraph(d, was);
      ghost var v2 := ownerGraph.view;
      OnlyBelowTrans(v0, v1, v2, this);
      ParentSameTrans(v0, v1, v2, this);
      LookAt(ownerGraph, v2, root, this);
      ownerGraph.Look(this);
      SetChildrenLoaded(d, was);
      OnlyBelowTrans(v0, v2, ownerGraph.view, this);
      ParentSameTrans(v0, v2, ownerGraph.view, this);
    }

    method SetChildrenLoaded(d: BlockData, ghost was: Before)
      requires ownerGraph.Valid() && this in ownerGraph.view && blockCategory == ScheduledBlockGroup
      requires |d.children| == 1 && HoldsGraph(was, ownerGraph.view, ownerGraph.sent, this, d)
      modifies this`blockCategoryInfo, ownerGraph`view
      ensures ownerGraph.Valid() && ownerGraph.view.Keys == old(ownerGraph.view.Keys)
      ensures OnlyBelow(old(ownerGraph.view), ownerGraph.view, this) && ParentSame(old(ownerGraph.view), ownerGraph.view, this)
      ensures HoldsGraph(was, ownerGraph.view, ownerGraph.sent, this, d)
      ensures ownerGraph.view[this] == old(State()).(info := SchedulerBlockInfo(true))
    {
      hide ValidView, UiGraphModel.Linked, OnlyBelow, HoldsGraph;
      ghost var v, root := ownerGraph.view, ownerGraph.rootBlock;
      LookAt(ownerGraph, v, root, this);
      ownerGraph.Look(this);
      AssignInfo(SchedulerBlockInfo(true));
      LoadedKeepsGraph(ownerGraph, root, was, v, ownerGraph.sent, this, d, State());
    }

    method ReplaceGraph(d: BlockData, ghost was: Before) returns (ghost c: UiGraphBlock)
      requires ownerGraph.Valid() && this in ownerGraph.view && blockCategory == ScheduledBlockGroup
      requires WellFormed(d, ownerGraph.categoryOf)
      requires was.sent <= |ownerGraph.sent| && was.view.Keys <= ownerGraph.view.Keys
      modifies ownerGraph`sent, ownerGraph`view, ownerGraph.view.Keys
      ensures ownerGraph.Valid() && old(ownerGraph.sent) <= ownerGraph.sent
      ensures forall x :: x in ownerGraph.view && x !in old(ownerGraph.view) ==> fresh(x)
      ensures OnlyBelow(old(ownerGraph.view), ownerGraph.view, this) && ParentSame(old(ownerGraph.view), ownerGraph.view, this)
      ensures Mirrors(was, ownerGraph.view, ownerGraph.sent, c, d) && c !in was.view
      ensures this in ownerGraph.view && ownerGraph.view[this] == old(State()).(children := [c])
    {
      hide ValidView, UiGraphModel.Linked, Mirrors, WellFormed, OnlyBelow, ParentSame;
      ghost var v := ownerGraph.view;
      ClearChildren();
      ghost var v1 := ownerGraph.view;
      c := HangNewGraph(d, was);
      OnlyBelowTrans(v, v1, ownerGraph.view, this);
      ParentSameTrans(v, v1, ownerGraph.view, this);
    }

    method HangNewGraph(d: BlockData, ghost was: Before) returns (ghost c: UiGraphBlock)
      requires ownerGraph.Valid() && this in ownerGraph.view && blockCategory == ScheduledBlockGroup
      requires childBlocks == [] && WellFormed(d, ownerGraph.categoryOf)
      requires was.sent <= |ownerGraph.sent| && was.view.Keys <= ownerGraph.view.Keys
      modifies ownerGraph`sent, ownerGraph`view, ownerGraph.view.Keys
      ensures ownerGraph.Valid() && old(ownerGraph.sent) <= ownerGraph.sent
      ensures forall x :: x in ownerGraph.view && x !in old(ownerGraph.view) ==> fresh(x)
      ensures OnlyBelow(old(ownerGraph.view), ownerGraph.view, this) && ParentSame(old(ownerGraph.view), ownerGraph.view, this)
      ensures Mirrors(was, ownerGraph.view, ownerGraph.sent, c, d) && c !in was.view
      ensures this in ownerGraph.view && ownerGraph.view[this] == old(State()).(children := [c])
    {
      hide ValidView, UiGraphModel.Linked, Mirrors, WellFormed, OnlyBelow, ParentSame;
      ghost var v, root := ownerGraph.view, ownerGraph.rootBlock;
      LookAt(ownerGraph, v, root, this);
      ownerGraph.Look(this);
      var block := ownerGraph.MakeGraphBlock(this, d, blockUniqueName, "", was);
      c := block;
      ghost var v1 := ownerGraph.view;
      HangGraph(ownerGraph, root, was, v, v1, ownerGraph.sent, this, c, d);
      ownerGraph.Look(this);
      AssignChildren([block]);
    }
  }

  class UiGraphModel {
    ghost const categoryOf: string -> Category
    var rootBlock: UiGraphBlock?  // null as long as no scheduler was inspected
    var selectedBlock: UiGraphBlock?
    var requestedFullUpdate: bool
    var sent: seq<Request>
    ghost var view: View  // the state of every block made so far

    /** The view is the heap. */
    ghost predicate Linked()
      reads this`view, view.Keys
    {
      forall b {:trigger view[b]} :: b in view ==> b.State() == view[b]
    }

    ghost predicate Valid()
      reads this`view, this`rootBlock, view.Keys
    {
      ValidView(this, view, rootBlock) && Linked()
    }

    lemma LookLinked(b: UiGraphBlock)
      requires Linked() && b in view
      ensures b.State() == view[b]
    {
    }

    lemma Look(b: UiGraphBlock)
      requires Valid() && b in view
      ensures b.State() == view[b]
    {
    }

    constructor (ghost categoryOf: string -> Category)
      ensures Valid() && rootBlock == null && !requestedFullUpdate && sent == [] && view == map[]
      ensures this.categoryOf == categoryOf
    {
      this.categoryOf := categoryOf;
      rootBlock, selectedBlock, requestedFullUpdate, sent, view := null, null, false, [], map[];
    }

    /** What a message finds. */
    ghost function Found(): Before
      reads this
    {
      Before(view, |sent|)
    }

    method Send(r: Request)
      modifies this`sent
      ensures sent == old(sent) + [r]
    {
      sent := sent + [r];
    }

    method AddBlock(parent: UiGraphBlock, uniqueName: string, category: Category, info: CategoryInfo)
      returns (block: UiGraphBlock)
      requires Linked()
      modifies this`view
      ensures Linked() && fresh(block) && block !in old(view) && view == old(view)[block := NewState(category, info)]
      ensures block.ownerGraph == this && block.parentBlock == parent && block.blockUniqueName == uniqueName
      ensures block.path == parent.path + [parent]
    {
      block := new UiGraphBlock(this, parent, uniqueName, category, info);
      view := view[block := block.State()];
    }

    method MakeGraphBlock(parent: UiGraphBlock, d: BlockData, ownerScheduler: string, ownerGraphName: string,
                          ghost was: Before)
      returns (block: UiGraphBlock)
      requires Valid() && parent in view && WellFormed(d, categoryOf)
      requires was.sent <= |sent| && was.view.Keys <= view.Keys
      requires ownerScheduler == OwnerScheduler(parent, parent.State())
      modifies this`sent, this`view, view.Keys
      ensures Valid() && old(sent) <= sent
      ensures (forall x :: x in view && x !in old(view) ==> fresh(x))
      ensures fresh(block) && block !in old(view) && block in view && block.parentBlock == parent && block.blockUniqueName == d.uniqueName
      ensures OnlyBelow(old(view), view, block) && parent in view && view[parent] == old(view)[parent]
      ensures Mirrors(was, view, sent, block, d)
      decreases d, 5
    {
      var info := match d.category
        case TransparentBlockGroup => GraphBlockInfo(ownerScheduler)
        case ScheduledBlockGroup => SchedulerBlockInfo(false)
        case NormalBlock => NormalBlockInfo(ownerGraphName, ownerScheduler);
      hide ValidView, Linked, Mirrors, KeptInside, SameExports, OnlyBelow, ParentDrops;
      ghost var v := view;
      LookAt(this, v, rootBlock, parent);
      Look(parent);
      block := AddBlock(parent, d.uniqueName, d.category, info);
      NewBlockKeepsValid(this, v, rootBlock, block, NewState(d.category, info));
      NothingBelow(was.view, v, block, NewState(d.category, info));
      block.SetBlockData(d, was);
      OnlyBelowTrans(v, v[block := NewState(d.category, info)], view, block);
      MirroredName(was, view, sent, block, d);
      NewLosesNothing(was.view, block, d);
      NewParentSame(this, v, rootBlock, parent, block, NewState(d.category, info), view);
    }

    /** Visits the children of one block; gives those visited, and those that have children to visit. */
    method VisitChildren(visit: Visitor, current: UiGraphBlock)
      returns (seen: seq<UiGraphBlock>, queued: seq<UiGraphBlock>, stopped: bool)
      requires Valid() && current in view
      ensures seen <= current.childBlocks && (stopped ==> seen != [])
      ensures !stopped ==> seen == current.childBlocks && queued == Pending(Nexts(view, visit), seen) && NeverBreaks(view, visit, seen)
      ensures stopped ==> Visit(view, visit, seen[|seen| - 1]) == Break && NeverBreaks(view, visit, seen[..|seen| - 1])
    {
      hide ValidView, Pending, NextOf;
      seen, queued, stopped := [], [], false;
      LookAt(this, view, rootBlock, current);
      assert current.State() == view[current];
      NothingNext(Nexts(view, visit));
      var children := current.childBlocks;
      for j := 0 to |children|
        invariant seen == children[..j] && queued == Pending(Nexts(view, visit), seen) && NeverBreaks(view, visit, seen)
      {
        var block := children[j];
        PendingStep(Nexts(view, visit), seen, block);
        seen := seen + [block];
        var result := visit(block, block.State());
        assert view[block] == block.State();
        if result == Break {
          stopped := true;
          assert seen[..|seen| - 1] == children[..j];
          return;
        }
        if result == Recurse && block.childBlocks != [] {
          queued := queued + [block];
        }
      }
    }

    /** Visits the tree from the root block in breadth-first order; a block that the visitor does
        not recurse into hides everything below it, and Break ends the traversal. */
    method RecursiveForEachBlock(visit: Visitor) returns (visited: seq<UiGraphBlock>, ghost depth: nat)
      requires Valid() && rootBlock != null
      ensures Traversed(view, visit, rootBlock, visited, depth)
    {
      hide ValidView, Linked, Pending, NextOf, Level, Order, Progress, NoDuplicates, NeverBreaks, Traversed;
      ghost var v := view;
      var root: UiGraphBlock := rootBlock;
      visited, depth := [root], 1;
      RootPath(this, v, root);
      Look(root);
      RootTraversed(v, visit, root);
      if visit(root, root.State()) != Recurse {
        return;
      }
      ProgressStart(v, visit, root);
      // A childless root block would be queued, too, and be dropped again without a visit.
      var queue := if root.childBlocks == [] then [] else [root];
      ghost var k, n := 0, 0;
      while queue != []
        invariant Progress(Nexts(v, visit), root, k, n, visited, queue)
        invariant visited != [] && NeverBreaks(v, visit, visited)
        decreases |v| - |visited|
      {
        var stopped;
        visited, queue, stopped, k, n := ExpandFirst(visit, root, k, n, visited, queue);
        if stopped {
          depth := k + 2;
          return;
        }
      }
      depth := k + 2;
      AllTraversed(v, visit, root, k, n, visited);
    }

    /** Takes the first block from the worklist and visits its children. */
    method ExpandFirst(visit: Visitor, ghost root: UiGraphBlock, ghost k: nat, ghost n: nat,
                       visited: seq<UiGraphBlock>, queue: seq<UiGraphBlock>)
      returns (visited2: seq<UiGraphBlock>, queue2: seq<UiGraphBlock>, stopped: bool, ghost k2: nat, ghost n2: nat)
      requires Valid() && root == rootBlock && queue != [] && Progress(Nexts(view, visit), root, k, n, visited, queue)
      requires visited != [] && NeverBreaks(view, visit, visited)
      ensures visited2 != [] && (stopped ==> Traversed(view, visit, root, visited2, k2 + 2))
      ensures !stopped ==> Progress(Nexts(view, visit), root, k2, n2, visited2, queue2) && NeverBreaks(view, visit, visited2)
      ensures !stopped ==> |visited| < |visited2| <= |view|
    {
      hide ValidView, Linked, Pending, NextOf, Level, Order, Progress, NoDuplicates, NeverBreaks;
      ghost var v := view;
      var current := queue[0];
      k2, n2 := Pop(Nexts(v, visit), root, k, n, visited, queue);
      ghost var next := Next(v, visit, current);
      ProgressPrefix(Nexts(v, visit), root, k2, n2, visited + next, queue[1..] + Pending(Nexts(v, visit), next));
      VisitBound(this, v, root, visit, k2 + 2, visited + next);
      Look(current);
      var seen, queued;
      seen, queued, stopped := VisitChildren(visit, current);
      visited2, queue2 := visited + seen, queue[1..] + queued;
      if stopped {
        Stopped(v, visit, visited, seen, next, Order(Nexts(v, visit), root, k2 + 2));
      } else {
        NeverBreaksAppend(v, visit, visited, seen);
      }
    }

    /** The first block in breadth-first order that matches, or null if there is none. */
    method RecursiveFind(match_: Matcher) returns (r: UiGraphBlock?)
      requires Valid() && rootBlock != null
      ensures r != null ==> InTree(view, rootBlock, r) && FirstMatch(view, rootBlock, match_, r)
      ensures r == null ==> forall x :: InTree(view, rootBlock, x) ==> !Matches(view, match_, x)
    {
      hide ValidView, Linked, Level, Order, FirstMatch, InTree, NoDuplicates;
      var visited, depth := RecursiveForEachBlock(Finder(match_));
      r := visited[|visited| - 1];
      ghost var root: UiGraphBlock := rootBlock;
      TreeRoot(this, view, root, visited, Finder(match_), depth);
      Look(r);
      if match_(r, r.State()) {
        StoppedAtFirst(this, view, root, match_, depth, visited);
      } else {
        r := null;
        assert NeverBreaks(view, Finder(match_), visited);
        forall x | InTree(view, root, x)
          ensures !Matches(view, match_, x)
        {
          NoMatch(this, view, root, match_, depth, x);
        }
      }
    }

    method RecursiveFindBlockByUniqueName(uniqueName: string) returns (r: UiGraphBlock?)
      requires Valid() && rootBlock != null
      ensures r != null ==> r.blockUniqueName == uniqueName && InTree(view, rootBlock, r)
      ensures r != null ==> FirstMatch(view, rootBlock, HasUniqueName(uniqueName), r)
      ensures r == null ==> forall x :: InTree(view, rootBlock, x) ==> x.blockUniqueName != uniqueName
    {
      hide ValidView, InTree, FirstMatch;
      r := RecursiveFind(HasUniqueName(uniqueName));
      FoundMatches(view, rootBlock, HasUniqueName(uniqueName), r);
    }

    method RecursiveFindBlockByName(name: string) returns (r: UiGraphBlock?)
      requires Valid() && rootBlock != null
      ensures r != null ==> r in view && view[r].name == name && InTree(view, rootBlock, r)
      ensures r != null ==> FirstMatch(view, rootBlock, HasName(name), r)
      ensures r == null ==> forall x :: InTree(view, rootBlock, x) ==> x in view && view[x].name != name
    {
      hide ValidView, InTree, FirstMatch;
      r := RecursiveFind(HasName(name));
      FoundMatches(view, rootBlock, HasName(name), r);
    }

    /** Asks for the whole flowgraph, unless an answer is still awaited. */
    method RequestFullUpdate()
      requires Valid()
      modifies this`sent, this`requestedFullUpdate
      ensures Valid() && requestedFullUpdate
      ensures sent == if old(requestedFullUpdate) then old(sent) else old(sent) + [FullUpdate]
    {
      if !requestedFullUpdate {
        requestedFullUpdate := true;
        sent := sent + [FullUpdate];
      }
    }

    /** The first inspected scheduler becomes the root block. */
    method MakeRoot(serviceName: string)
      requires Valid() && rootBlock == null && serviceName != "" && categoryOf(serviceName) == ScheduledBlockGroup
      modifies this`rootBlock, this`view
      ensures Valid() && rootBlock != null && fresh(rootBlock) && rootBlock.blockUniqueName == serviceName
      ensures view == map[rootBlock := RootState()]
    {
      var root := new UiGraphBlock(this, null, serviceName, ScheduledBlockGroup, SchedulerBlockInfo(false));
      rootBlock := root;
      view := map[root := root.State()];
    }

    method OnBlockEmplaced(b: UiGraphBlock, msg: Message)
      requires Valid() && b in view && msg.BlockEmplaced? && WellFormed(msg.data, categoryOf) && b.blockCategory == TransparentBlockGroup
      modifies this`sent, this`view, view.Keys
      ensures Valid() && old(sent) <= sent
      ensures forall x :: x in view && x !in old(view) ==> fresh(x)
      ensures Outcome(msg, b, old(Found()), view, sent)
    {
      hide ValidView, UiGraphModel.Linked, Mirrors, WellFormed, Kept, OnlyBelow, EmplacedAs, ParentSame, ParentDrops,
           Emplaced;
      ghost var was, v0 := Found(), view;
      LookAt(this, v0, rootBlock, b);
      Look(b);
      forall x | x in v0 { KeptItself(v0, x); }
      ghost var c := b.HandleChildBlockEmplaced(msg.data, was);
      EmplacedBelow(this, rootBlock, was, v0, view, sent, b, c, msg.data);
      ParentDropsSame(v0, view, b);
    }

    method OnBlockRemoved(b: UiGraphBlock, msg: Message)
      requires Valid() && b in view && msg.BlockRemoved? && b.blockCategory == TransparentBlockGroup
      modifies this, b, b.Parent()
      ensures Valid() && old(sent) <= sent && rootBlock == old(rootBlock) && view.Keys == old(view.Keys)
      ensures Outcome(msg, b, old(Found()), view, sent)
      ensures b in old(view) && b in view && (requestedFullUpdate <==> old(requestedFullUpdate) || NotApplied(msg, b, old(view), view))
    {
      hide ValidView, UiGraphModel.Linked, RemovedState, GoneNamed, OnlyBelow, ParentSame, ParentDrops;
      ghost var v0 := view;
      LookAt(this, v0, rootBlock, b);
      Look(b);
      var removed := b.HandleChildBlockRemoved(msg.uniqueName);
      RemovedOutcome(this, v0, rootBlock, b, msg.uniqueName);
    }

    method OnEdgeEmplaced(b: UiGraphBlock, msg: Message)
      requires Valid() && b in view && msg.EdgeEmplaced? && b.blockCategory == TransparentBlockGroup
      modifies this, b
      ensures Valid() && old(sent) <= sent && rootBlock == old(rootBlock) && view.Keys == old(view.Keys)
      ensures Outcome(msg, b, old(Found()), view, sent)
      ensures b in old(view) && b in view && (requestedFullUpdate <==> old(requestedFullUpdate) || NotApplied(msg, b, old(view), view))
    {
      hide ValidView, UiGraphModel.Linked, EdgeAppended, OnlyBelow, ParentDrops;
      ghost var v0 := view;
      LookAt(this, v0, rootBlock, b);
      Look(b);
      b.HandleChildEdgeEmplaced(msg.edge);
      OwnUpdate(this, v0, rootBlock, b, b.State());
      assert view == v0[b := view[b]];
      LookAt(this, view, rootBlock, b);
      EdgeAppendedIs(view, view[b].children, v0[b].edges, view[b].edges, msg.edge);
    }

    method OnPortExported(b: UiGraphBlock, msg: Message)
      requires Valid() && b in view && msg.PortExported?
      modifies this, b
      ensures Valid() && old(sent) <= sent && rootBlock == old(rootBlock) && view.Keys == old(view.Keys)
      ensures Outcome(msg, b, old(Found()), view, sent)
      ensures sent == old(sent) + UpdateRequests(b, view[b]) && requestedFullUpdate == old(requestedFullUpdate)
    {
      hide ValidView, UiGraphModel.Linked, OnlyBelow, ParentDrops;
      ghost var v0 := view;
      LookAt(this, v0, rootBlock, b);
      Look(b);
      b.HandlePortExported(msg.inputs, msg.export_, msg.flag);
      OwnUpdate(this, v0, rootBlock, b, Toggled(v0[b], msg.inputs, msg.export_, msg.flag));
    }

    method OnBlockReplaced(b: UiGraphBlock, msg: Message)
      requires Valid() && b in view && msg.BlockReplaced? && WellFormed(msg.data, categoryOf) && b.blockCategory == TransparentBlockGroup
      modifies this, view.Keys
      ensures Valid() && old(sent) <= sent && rootBlock == old(rootBlock)
      ensures forall x :: x in view && x !in old(view) ==> fresh(x)
      ensures Outcome(msg, b, old(Found()), view, sent)
      ensures b in old(view) && b in view && (requestedFullUpdate <==> old(requestedFullUpdate) || NotApplied(msg, b, old(view), view))
    {
      hide ValidView, UiGraphModel.Linked, Mirrors, WellFormed, Kept, OnlyBelow, RemovedState, GoneNamed, EmplacedAs,
           ParentSame, ParentDrops, Emplaced, WithDrops;
      ghost var was, v0 := Found(), view;
      LookAt(this, v0, rootBlock, b);
      NotOwnParent(this, v0, rootBlock, b);
      Look(b);
      var removed := b.HandleChildBlockRemoved(msg.replaced);
      ghost var v1 := view;
      RemovedOutcome(this, v0, rootBlock, b, msg.replaced);
      Look(b);
      forall x | x in b.childBlocks
        ensures Kept(v0, v1, x)
      {
        KeptAfterRemoval(this, rootBlock, v0, b, RemovedState(v0[b], msg.replaced), GoneNamed(v0[b], msg.replaced), x);
      }
      ghost var c := b.HandleChildBlockEmplaced(msg.data, was);
      EmplacedBelow(this, rootBlock, was, v1, view, sent, b, c, msg.data);
      OnlyBelowTrans(v0, v1, view, b);
      DropsBeforeSame(v0, v1, view, b, GoneNamed(v0[b], msg.replaced));
    }

    method OnSnapshot(b: UiGraphBlock, msg: Message)
      requires Valid() && b in view && (msg.BlockInspected? || msg.GraphInspected?) && WellFormed(msg.data, categoryOf)
      requires b.blockUniqueName == msg.data.uniqueName
      modifies this`sent, this`view, view.Keys
      ensures Valid() && old(sent) <= sent
      ensures forall x :: x in view && x !in old(view) ==> fresh(x)
      ensures Outcome(msg, b, old(Found()), view, sent)
    {
      hide ValidView, UiGraphModel.Linked, Mirrors, WellFormed, KeptInside, SameExports, Kept, OnlyBelow, ParentDrops,
           GoneNames;
      LookAt(this, view, rootBlock, b);
      KeptItself(view, b);
      ghost var was := Found();
      b.SetBlockData(msg.data, was);
      MirroredName(was, view, sent, b, msg.data);
    }

    method OnSchedulerInspected(b: UiGraphBlock, msg: Message)
      requires Valid() && b in view && WellFormedMessage(msg, categoryOf) && msg.SchedulerInspected? && b.blockUniqueName == msg.target
      modifies this, view.Keys
      ensures Valid() && old(sent) <= sent && rootBlock == old(rootBlock)
      ensures forall x :: x in view && x !in old(view) ==> fresh(x)
      ensures Outcome(msg, b, old(Found()), view, sent) && !requestedFullUpdate
    {
      hide ValidView, UiGraphModel.Linked, Mirrors, WellFormed, OnlyBelow, HoldsGraph, FollowsInspection, ParentSame,
           ParentDrops;
      LookAt(this, view, rootBlock, b);
      Look(b);
      ghost var was := Found();
      b.HandleSchedulerInspected(msg.data, was);
      GraphHeld(was, view, sent, b, msg.data);
      ParentDropsSame(was.view, view, b);
      requestedFullUpdate := false;
    }

    /** Handles one message. `b` is the block that the message changed; it is null if a full update
        was requested instead. The first scheduler that is inspected becomes the root block before. */
    method ProcessMessage(msg: Message) returns (consumed: bool, ghost b: UiGraphBlock?)
      requires Valid() && WellFormedMessage(msg, categoryOf)
      modifies this, view.Keys
      ensures Valid()
      ensures forall x :: x in view && x !in old(view) ==> fresh(x)
      ensures old(sent) <= sent
      ensures b == null ==> requestedFullUpdate && sent == if old(requestedFullUpdate) then old(sent) else old(sent) + [FullUpdate]
      ensures b != null ==> consumed && InTree(view, rootBlock, b)
      ensures b != null && !msg.BlockInspected? ==> b.blockUniqueName == msg.target
      ensures consumed && !msg.BlockInspected? ==> b != null
      ensures msg.SchedulerInspected? && consumed ==> !requestedFullUpdate
      ensures old(rootBlock) != null ==> rootBlock == old(rootBlock)
      ensures b != null && old(rootBlock) != null ==> Outcome(msg, b, old(Found()), view, sent)
      ensures b != null && old(rootBlock) != null && !msg.SchedulerInspected? ==>
                (requestedFullUpdate <==> old(requestedFullUpdate) || NotApplied(msg, b, old(view), view))
      ensures b != null && old(rootBlock) != null ==>
                FirstMatch(old(view), old(rootBlock), HasUniqueName(if msg.BlockInspected? then msg.data.uniqueName else msg.target), b)
      ensures b == null && old(rootBlock) != null ==> view == old(view)
      ensures consumed && b == null ==>
                msg.BlockInspected? && forall x :: InTree(old(view), old(rootBlock), x) ==> x.blockUniqueName != msg.data.uniqueName
      ensures old(rootBlock) != null ==>
                (consumed <==> exists x :: InTree(old(view), old(rootBlock), x) && x.blockUniqueName == msg.target)
      ensures old(rootBlock) == null && !msg.SchedulerInspected? ==> !consumed && view == old(view)
      ensures old(rootBlock) == null && msg.SchedulerInspected? ==>
                && rootBlock != null && fresh(rootBlock) && rootBlock.blockUniqueName == msg.serviceName
                && (consumed <==> msg.target == msg.serviceName)
                && (consumed ==> b == rootBlock && Outcome(msg, b, Before(map[rootBlock := RootState()], |old(sent)|), view, sent))
                && (!consumed ==> view == map[rootBlock := RootState()])
    {
      hide ValidView, UiGraphModel.Linked, WellFormed, InTree, Outcome, OnlyBelow, FirstMatch;
      consumed, b := false, null;
      ghost var v0 := view;
      if rootBlock == null {
        if msg.SchedulerInspected? {
          MakeRoot(msg.serviceName);
          RootAlone(view, rootBlock);
        } else {
          RequestFullUpdate();
          return;
        }
      }
      var target := RecursiveFindBlockByUniqueName(msg.target);
      if target == null {
        ghost var known := view;
        assert forall x :: x in known && InTree(known, rootBlock, x) ==> x.blockUniqueName != msg.target;
        RequestFullUpdate();
        forall x | InTree(known, rootBlock, x)
          ensures x.blockUniqueName != msg.target
        {
          TreeMember(known, rootBlock, x);
        }
        return;
      }
      TreeMember(view, rootBlock, target);
      consumed := true;
      b := Dispatch(target, msg);
    }

    method Dispatch(target: UiGraphBlock, msg: Message) returns (ghost b: UiGraphBlock?)
      requires Valid() && rootBlock != null && WellFormedMessage(msg, categoryOf)
      requires InTree(view, rootBlock, target) && target.blockUniqueName == msg.target
      modifies this, view.Keys
      ensures Valid() && rootBlock == old(rootBlock)
      ensures forall x :: x in view && x !in old(view) ==> fresh(x)
      ensures old(sent) <= sent
      ensures b == null ==> requestedFullUpdate && sent == if old(requestedFullUpdate) then old(sent) else old(sent) + [FullUpdate]
      ensures b != null ==> InTree(view, rootBlock, b) && Outcome(msg, b, old(Found()), view, sent)
      ensures b != null && !msg.SchedulerInspected? ==>
                (requestedFullUpdate <==> old(requestedFullUpdate) || NotApplied(msg, b, old(view), view))
      ensures b == null ==>
                && view == old(view) && msg.BlockInspected?
                && forall x :: InTree(old(view), old(rootBlock), x) ==> x.blockUniqueName != msg.data.uniqueName
      ensures !msg.BlockInspected? ==> b == target
      ensures b != null && msg.BlockInspected? ==> FirstMatch(old(view), old(rootBlock), HasUniqueName(msg.data.uniqueName), b)
      ensures msg.SchedulerInspected? ==> !requestedFullUpdate
    {
      hide ValidView, UiGraphModel.Linked, WellFormed, OnlyBelow, FirstMatch, Mirrors, HoldsGraph, FollowsInspection,
           Emplaced, ParentDrops, ParentSame, InTree;
      ghost var was, v0 := Found(), view;
      TreeMember(v0, rootBlock, target);
      LookAt(this, v0, rootBlock, target);
      NotOwnParent(this, v0, rootBlock, target);
      Look(target);
      b := target;
      match msg {
        case BlockEmplaced(_, _) =>
          OnBlockEmplaced(target, msg);
        case BlockRemoved(_, _) =>
          OnBlockRemoved(target, msg);
        case BlockReplaced(_, _, _) =>
          OnBlockReplaced(target, msg);
        case BlockInspected(_, d) =>
          var found := RecursiveFindBlockByUniqueName(d.uniqueName);
          b := found;
          if found == null {
            assert forall x :: x in v0 && InTree(v0, rootBlock, x) ==> x.blockUniqueName != d.uniqueName;
            RequestFullUpdate();
            forall x | InTree(v0, rootBlock, x)
              ensures x.blockUniqueName != d.uniqueName
            {
              TreeMember(v0, rootBlock, x);
            }
            return;
          }
          TreeMember(v0, rootBlock, found);
          OnSnapshot(found, msg);
        case EdgeEmplaced(_, _) =>
          OnEdgeEmplaced(target, msg);
        case PortExported(_, _, _, _) =>
          OnPortExported(target, msg);
        case EdgeRemoved(_) =>
          RequestFullUpdate();
          NothingChanged(v0, target);
        case SchedulerInspected(_, _, _) =>
          OnSchedulerInspected(target, msg);
        case GraphInspected(_, _) =>
          OnSnapshot(target, msg);
        case LifecycleRunning(_) =>
          RequestFullUpdate();
          NothingChanged(v0, target);
      }
      OutcomeBelow(msg, b, was, view, sent);
      TreeMember(v0, rootBlock, b);
      InTreeFrame(this, rootBlock, v0, view, b, b);
    }

    /** Every run of well-formed messages keeps the tree valid. */
    method Run(messages: seq<Message>)
      requires Valid() && forall i :: 0 <= i < |messages| ==> WellFormedMessage(messages[i], categoryOf)
      modifies this, view.Keys
      ensures Valid()
    {
      for i := 0 to |messages|
        invariant Valid() && forall x :: x in view && x !in old(view) ==> fresh(x)
      {
        var consumed, _ := ProcessMessage(messages[i]);
      }
    }
  }
}
