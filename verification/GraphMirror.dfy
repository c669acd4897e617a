/** What it means for a tree to mirror a snapshot, read off the predicates of GraphModel: which
    names lead where, which objects stay, which edges survive (src/ui/GraphModel.cpp). */
module GraphMirror {
  import opened GraphModel
  import opened GraphSnapshot
  import opened Shared

  // ---- what mirroring means for names ----

  /** The block that is reached from b by going down through graphs along these names. */
  ghost function WalkDown(v: View, b: UiGraphBlock, names: seq<string>): Option<UiGraphBlock>
    decreases |names|
  {
    if |names| == 0 then Some(b)
    else if b !in v || v[b].category != TransparentBlockGroup then None
    else
      var c := Named(v[b].children, names[0]);
      if c.None? then None else WalkDown(v, c.value, names[1..])
  }

  lemma MirroredEntry(was: Before, v: View, sent: seq<Request>, b: UiGraphBlock, d: BlockData, i: nat)
    returns (c: UiGraphBlock)
    requires Mirrors(was, v, sent, b, d) && d.category == TransparentBlockGroup && i < |d.children|
    ensures b in v && c in v[b].children && Mirrors(was, v, sent, c, d.children[i].data)
    ensures c.blockUniqueName == d.children[i].data.uniqueName
  {
    assert HoldsEntries(was, v, sent, b, d);
    assert HasEntry(was, v, sent, b, d.children[i].data);
    c :| c in v[b].children && Mirrors(was, v, sent, c, d.children[i].data);
    MirroredName(was, v, sent, c, d.children[i].data);
  }

  lemma MirroredNames(was: Before, v: View, sent: seq<Request>, b: UiGraphBlock, d: BlockData)
    requires Mirrors(was, v, sent, b, d) && d.category == TransparentBlockGroup
    ensures b in v && v[b].category == TransparentBlockGroup
    ensures forall c :: c in v[b].children ==> c.blockUniqueName in Keys(d)
    ensures forall c :: c in ChildrenIn(was.view, b) && c.blockUniqueName in Keys(d) ==> c in v[b].children
    ensures RowsOfEdges(v[b].edges) == Rows(v, v[b].children, d.edges)
  {
  }

  lemma MirroredSelf(was: Before, v: View, sent: seq<Request>, b: UiGraphBlock, d: BlockData)
    requires Mirrors(was, v, sent, b, d)
    ensures b in v && b.blockUniqueName == d.uniqueName && v[b].category == d.category && v[b].name == d.name
    ensures d.category != ScheduledBlockGroup ==> v[b].inputPorts == d.inputPorts && v[b].outputPorts == d.outputPorts
    ensures d.category == ScheduledBlockGroup ==> AwaitsSnapshot(was, v, sent, b, d)
  {
  }

  lemma MirroredChild(m: UiGraphModel, root: UiGraphBlock?, was: Before, v: View, sent: seq<Request>, b: UiGraphBlock,
                      d: BlockData, n: string)
    requires ValidView(m, v, root) && WellFormed(d, m.categoryOf) && Mirrors(was, v, sent, b, d)
    requires d.category == TransparentBlockGroup
    ensures b in v && v[b].category == TransparentBlockGroup
    ensures Named(v[b].children, n).Some? <==> Lookup(d.children, n).Some?
    ensures Lookup(d.children, n).Some? ==>
      && n in Keys(d)
      && Mirrors(was, v, sent, Named(v[b].children, n).value, Lookup(d.children, n).value)
      && WellFormed(Lookup(d.children, n).value, m.categoryOf)
  {
    hide ValidView, WellFormed, Mirrors, Named, Lookup;
    MirroredNames(was, v, sent, b, d);
    LookAt(m, v, root, b);
    var e := Lookup(d.children, n);
    if e.Some? {
      var i :| 0 <= i < |d.children| && d.children[i].key == n && d.children[i].data == e.value;
      var k := MirroredEntry(was, v, sent, b, d, i);
      WellFormedEntry(d, m.categoryOf, i);
      NamedIs(v[b].children, k);
    }
  }

  /** A block that mirrors a snapshot has, below it, exactly the names of the snapshot in exactly
      the snapshot's nesting, with their categories; each with the ports of its data or, if it is a
      nested scheduler, with the ports that the blocks it kept really export. */
  lemma {:induction false} MirrorsNesting(m: UiGraphModel, root: UiGraphBlock?, was: Before, v: View,
                                          sent: seq<Request>, b: UiGraphBlock, d: BlockData, names: seq<string>)
    requires ValidView(m, v, root) && WellFormed(d, m.categoryOf) && Mirrors(was, v, sent, b, d)
    ensures WalkDown(v, b, names).Some? <==> Follow(d, names).Some?
    ensures Follow(d, names).Some? ==>
      var x, e := WalkDown(v, b, names).value, Follow(d, names).value;
      && x in v && x.blockUniqueName == e.uniqueName && v[x].category == e.category && v[x].name == e.name
      && (e.category != ScheduledBlockGroup ==> v[x].inputPorts == e.inputPorts && v[x].outputPorts == e.outputPorts)
      && (e.category == ScheduledBlockGroup ==> AwaitsSnapshot(was, v, sent, x, e))
    decreases |names|
  {
    hide ValidView, WellFormed, Mirrors, Named, Lookup, AwaitsSnapshot;
    MirroredSelf(was, v, sent, b, d);
    if |names| != 0 && d.category == TransparentBlockGroup {
      MirroredChild(m, root, was, v, sent, b, d, names[0]);
      var e := Lookup(d.children, names[0]);
      if e.Some? {
        MirrorsNesting(m, root, was, v, sent, Named(v[b].children, names[0]).value, e.value, names[1..]);
      }
    }
  }

  /** Applying a snapshot keeps the object of every block whose names the snapshot still has. */
  lemma {:induction false} MirrorsKeepsObjects(m: UiGraphModel, root0: UiGraphBlock?, root: UiGraphBlock?,
                                               was: Before, v: View, sent: seq<Request>, b: UiGraphBlock,
                                               d: BlockData, names: seq<string>)
    requires ValidView(m, was.view, root0) && ValidView(m, v, root) && WellFormed(d, m.categoryOf)
    requires b in was.view && Mirrors(was, v, sent, b, d)
    requires WalkDown(was.view, b, names).Some? && Follow(d, names).Some?
    ensures WalkDown(v, b, names) == WalkDown(was.view, b, names)
    decreases |names|
  {
    hide ValidView, WellFormed, Mirrors, Named, Lookup;
    if |names| != 0 {
      MirroredChild(m, root, was, v, sent, b, d, names[0]);
      MirroredNames(was, v, sent, b, d);
      LookAt(m, was.view, root0, b);
      LookAt(m, v, root, b);
      var c, e := Named(was.view[b].children, names[0]).value, Lookup(d.children, names[0]).value;
      NamedIs(v[b].children, c);
      MirrorsKeepsObjects(m, root0, root, was, v, sent, c, e, names[1..]);
    }
  }

  // ---- what mirroring means for edges ----

  /** The export is of a port that one of these blocks really has. */
  ghost predicate IsReal(v: View, children: seq<UiGraphBlock>, e: Export, inputs: bool) {
    exists c :: c in children && c in v && c.blockUniqueName == e.child &&
                e.internalName in if inputs then v[c].inputPorts else v[c].outputPorts
  }

  /** A name is among the ports of a scheduler exactly if it is the exported name of a port that a
      block in the graph it holds really has. */
  lemma {:induction false} ExportedNamesIs(v: View, children: seq<UiGraphBlock>, exports: seq<Export>, inputs: bool,
                                           n: string)
    requires DistinctNames(children) && forall c :: c in children ==> c in v
    ensures n in ExportedNames(v, children, exports, inputs) <==>
            exists e :: e in exports && e.exportedName == n && IsReal(v, children, e, inputs)
  {
    hide IsReal;
    if |exports| != 0 {
      var init, last := exports[..|exports| - 1], exports[|exports| - 1];
      ExportedNamesIs(v, children, init, inputs, n);
      IsRealNamed(v, children, last, inputs);
      assert exports == init + [last];
      assert forall e :: e in exports <==> e in init || e == last;
    }
  }

  lemma IsRealNamed(v: View, children: seq<UiGraphBlock>, e: Export, inputs: bool)
    requires DistinctNames(children) && forall c :: c in children ==> c in v
    ensures IsReal(v, children, e, inputs) <==>
            var c := Named(children, e.child);
            c.Some? && e.internalName in PortsOf(v[c.value], inputs)
  {
    hide DistinctNames, Named;
    if c :| c in children && c.blockUniqueName == e.child {
      NamedIs(children, c);
      forall x | x in children && x.blockUniqueName == e.child
        ensures x == c
      {
        NamedIs(children, x);
      }
    }
  }

  /** The ports are in the order of the exports, each with one port at most. */
  lemma {:induction false} ExportedNamesSplit(v: View, children: seq<UiGraphBlock>, es: seq<Export>, fs: seq<Export>,
                                              inputs: bool)
    ensures ExportedNames(v, children, es + fs, inputs) ==
            ExportedNames(v, children, es, inputs) + ExportedNames(v, children, fs, inputs)
    ensures |ExportedNames(v, children, fs, inputs)| <= |fs|
  {
    if |fs| == 0 {
      assert es + fs == es;
    } else {
      var init, last := fs[..|fs| - 1], fs[|fs| - 1];
      ExportedNamesSplit(v, children, es, init, inputs);
      assert (es + fs)[..|es + fs| - 1] == es + init;
    }
  }

  /** A scheduler shows the exported ports of the blocks in the graph it holds, and none while it holds none. */
  lemma SchedulerPortsAre(m: UiGraphModel, root: UiGraphBlock?, v: View, b: UiGraphBlock, exports: seq<Export>,
                          inputs: bool, n: string)
    requires ValidView(m, v, root) && b in v
    ensures n in SchedulerPorts(v, v[b].children, exports, inputs) <==>
            && |v[b].children| != 0 && v[b].children[0] in v
            && exists e :: e in exports && e.exportedName == n && IsReal(v, v[v[b].children[0]].children, e, inputs)
  {
    hide ValidView, IsReal;
    LookAt(m, v, root, b);
    if |v[b].children| != 0 {
      var g := v[b].children[0];
      LookAt(m, v, root, g);
      ExportedNamesIs(v, v[g].children, exports, inputs, n);
    }
  }

  /** The ports with which the child for an entry takes part in the edges. */
  ghost function ShownPorts(v: View, c: UiGraphBlock, entry: BlockData, inputs: bool): seq<string>
    requires c in v
  {
    PortsFor(v, v[c].children, entry, if inputs then v[c].exportedInputs else v[c].exportedOutputs, inputs)
  }

  /** The row is that of the described edge between blocks that show these ports. */
  predicate RowDenotes(outputs: seq<string>, inputs: seq<string>, e: EdgeData, row: EdgeRow) {
    && row.source == e.source && row.destination == e.destination
    && Denotes(outputs, e.sourcePort, row.sourcePort)
    && Denotes(inputs, e.destinationPort, row.destinationPort)
  }

  /** The description names two entries, and the row is its edge between the ports that they show. */
  ghost predicate EdgeShown(v: View, b: UiGraphBlock, d: BlockData, e: EdgeData, row: EdgeRow)
    requires b in v
  {
    var s, t := Lookup(d.children, e.source), Lookup(d.children, e.destination);
    var cs, ct := Named(v[b].children, e.source), Named(v[b].children, e.destination);
    && s.Some? && t.Some? && cs.Some? && ct.Some? && cs.value in v && ct.value in v
    && RowDenotes(ShownPorts(v, cs.value, s.value, false), ShownPorts(v, ct.value, t.value, true), e, row)
  }

  /** An edge of the snapshot survives exactly if it names two entries and ports that these show; for
      a nested scheduler those are exported ports of the blocks it has kept, not the ports in its data. */
  lemma EdgeSurvivesExactlyWhen(m: UiGraphModel, root: UiGraphBlock?, was: Before, v: View, sent: seq<Request>,
                                b: UiGraphBlock, d: BlockData, e: EdgeData)
    requires ValidView(m, v, root) && WellFormed(d, m.categoryOf) && Mirrors(was, v, sent, b, d)
    requires d.category == TransparentBlockGroup
    ensures b in v
    ensures forall row :: RowOf(v, v[b].children, e) == Some(row) <==> EdgeShown(v, b, d, e, row)
    ensures var s, t := Lookup(d.children, e.source), Lookup(d.children, e.destination);
      var cs, ct := Named(v[b].children, e.source), Named(v[b].children, e.destination);
      && (s.Some? ==> cs.Some? && cs.value in v) && (t.Some? ==> ct.Some? && ct.value in v)
      && (RowOf(v, v[b].children, e).Some? <==>
            && s.Some? && t.Some?
            && HasPort(ShownPorts(v, cs.value, s.value, false), e.sourcePort)
            && HasPort(ShownPorts(v, ct.value, t.value, true), e.destinationPort))
  {
    hide ValidView, WellFormed, Mirrors, Named, Lookup, FindPort, SchedulerPorts, Denotes, HasPort;
    MirroredChild(m, root, was, v, sent, b, d, e.source);
    MirroredChild(m, root, was, v, sent, b, d, e.destination);
    var s, t := Lookup(d.children, e.source), Lookup(d.children, e.destination);
    if s.Some? { MirroredSelf(was, v, sent, Named(v[b].children, e.source).value, s.value); }
    if t.Some? { MirroredSelf(was, v, sent, Named(v[b].children, e.destination).value, t.value); }
  }

  /** Only the edges with a row have one in the list, and all of them. */
  lemma {:induction false} RowsOfThese(v: View, children: seq<UiGraphBlock>, edges: seq<EdgeData>, row: EdgeRow)
    ensures row in Rows(v, children, edges) <==> exists e :: e in edges && RowOf(v, children, e) == Some(row)
  {
    hide RowOf;
    if |edges| != 0 {
      RowsOfThese(v, children, edges[..|edges| - 1], row);
      assert edges == edges[..|edges| - 1] + [edges[|edges| - 1]];
    }
  }

  /** The rows are in the order of the edges, each with one row at most. */
  lemma {:induction false} RowsSplit(v: View, children: seq<UiGraphBlock>, es: seq<EdgeData>, fs: seq<EdgeData>)
    ensures Rows(v, children, es + fs) == Rows(v, children, es) + Rows(v, children, fs)
    ensures |Rows(v, children, fs)| <= |fs|
  {
    hide RowOf;
    if |fs| == 0 {
      assert es + fs == es;
    } else {
      var init, last := fs[..|fs| - 1], fs[|fs| - 1];
      RowsSplit(v, children, es, init);
      assert (es + fs)[..|es + fs| - 1] == es + init;
    }
  }

  /** The edges of a block that mirrors a snapshot are those of the snapshot between ports that are shown. */
  lemma EdgesAreShown(m: UiGraphModel, root: UiGraphBlock?, was: Before, v: View, sent: seq<Request>,
                      b: UiGraphBlock, d: BlockData, row: EdgeRow)
    requires ValidView(m, v, root) && WellFormed(d, m.categoryOf) && Mirrors(was, v, sent, b, d)
    requires d.category == TransparentBlockGroup
    ensures b in v && (row in RowsOfEdges(v[b].edges) <==> exists e :: e in d.edges && EdgeShown(v, b, d, e, row))
  {
    hide ValidView, WellFormed, Mirrors, RowOf, EdgeShown;
    MirroredNames(was, v, sent, b, d);
    RowsOfThese(v, v[b].children, d.edges, row);
    forall e
      ensures RowOf(v, v[b].children, e) == Some(row) <==> EdgeShown(v, b, d, e, row)
    {
      EdgeSurvivesExactlyWhen(m, root, was, v, sent, b, d, e);
    }
  }

  /** A scheduler that a snapshot adds has no ports yet, so no edge to or from it survives. */
  lemma NewSchedulerHasNoEdges(m: UiGraphModel, root: UiGraphBlock?, was: Before, v: View, sent: seq<Request>,
                               b: UiGraphBlock, d: BlockData, e: EdgeData, n: string)
    requires ValidView(m, v, root) && WellFormed(d, m.categoryOf) && Mirrors(was, v, sent, b, d)
    requires d.category == TransparentBlockGroup && (n == e.source || n == e.destination)
    requires Lookup(d.children, n).Some? && Lookup(d.children, n).value.category == ScheduledBlockGroup
    requires b in v && Named(v[b].children, n).Some? ==> Named(v[b].children, n).value !in was.view
    ensures b in v && RowOf(v, v[b].children, e) == None
  {
    hide ValidView, WellFormed, Mirrors, Named, Lookup;
    MirroredChild(m, root, was, v, sent, b, d, n);
    MirroredSelf(was, v, sent, Named(v[b].children, n).value, Lookup(d.children, n).value);
  }

  /** The row of an edge description read off the snapshot alone. */
  function PlainRow(children: seq<Entry>, e: EdgeData): (r: Option<EdgeRow>)
    ensures forall row :: r == Some(row) <==>
      var s, t := Lookup(children, e.source), Lookup(children, e.destination);
      s.Some? && t.Some? && RowDenotes(s.value.outputPorts, t.value.inputPorts, e, row)
  {
    var s, t := Lookup(children, e.source), Lookup(children, e.destination);
    if s.None? || t.None? then None
    else
      var sp, tp := FindPort(s.value.outputPorts, e.sourcePort), FindPort(t.value.inputPorts, e.destinationPort);
      if sp.None? || tp.None? then None
      else Some(EdgeRow(e.source, sp.value, e.destination, tp.value))
  }

  function PlainRows(children: seq<Entry>, edges: seq<EdgeData>): seq<EdgeRow> {
    if |edges| == 0 then []
    else
      var init := PlainRows(children, edges[..|edges| - 1]);
      var r := PlainRow(children, edges[|edges| - 1]);
      if r.Some? then init + [r.value] else init
  }

  predicate IsScheduler(entry: Option<BlockData>) {
    entry.Some? && entry.value.category == ScheduledBlockGroup
  }

  lemma RowFollowsSnapshot(m: UiGraphModel, root: UiGraphBlock?, was: Before, v: View, sent: seq<Request>,
                           b: UiGraphBlock, d: BlockData, e: EdgeData)
    requires ValidView(m, v, root) && WellFormed(d, m.categoryOf) && Mirrors(was, v, sent, b, d)
    requires d.category == TransparentBlockGroup
    requires !IsScheduler(Lookup(d.children, e.source)) && !IsScheduler(Lookup(d.children, e.destination))
    ensures b in v && RowOf(v, v[b].children, e) == PlainRow(d.children, e)
  {
    hide ValidView, WellFormed, Mirrors, Named, Lookup, RowOf, PlainRow, RowDenotes;
    EdgeSurvivesExactlyWhen(m, root, was, v, sent, b, d, e);
    var r, p := RowOf(v, v[b].children, e), PlainRow(d.children, e);
    assert r.Some? ==> EdgeShown(v, b, d, e, r.value);
    assert p.Some? ==> EdgeShown(v, b, d, e, p.value);
  }

  /** Where no edge ends at a nested scheduler, the edges are those of the snapshot. */
  lemma {:induction false} EdgesFollowSnapshot(m: UiGraphModel, root: UiGraphBlock?, was: Before, v: View,
                                               sent: seq<Request>, b: UiGraphBlock, d: BlockData, edges: seq<EdgeData>)
    requires ValidView(m, v, root) && WellFormed(d, m.categoryOf) && Mirrors(was, v, sent, b, d)
    requires d.category == TransparentBlockGroup
    requires forall e :: e in edges ==> !IsScheduler(Lookup(d.children, e.source)) && !IsScheduler(Lookup(d.children, e.destination))
    ensures b in v && Rows(v, v[b].children, edges) == PlainRows(d.children, edges)
    ensures edges == d.edges ==> RowsOfEdges(v[b].edges) == PlainRows(d.children, d.edges)
  {
    hide ValidView, WellFormed, Mirrors, Named, Lookup, RowOf, PlainRow;
    MirroredNames(was, v, sent, b, d);
    if |edges| != 0 {
      var e := edges[|edges| - 1];
      EdgesFollowSnapshot(m, root, was, v, sent, b, d, edges[..|edges| - 1]);
      assert e in edges;
      RowFollowsSnapshot(m, root, was, v, sent, b, d, e);
    }
  }

  // ---- owners ----

  /** The innermost scheduler among b and the blocks around it. */
  ghost function NearestScheduler(v: View, b: UiGraphBlock): (r: Option<UiGraphBlock>)
    decreases |b.path|
  {
    if b in v && v[b].category == ScheduledBlockGroup then Some(b)
    else if b.parentBlock != null && |b.parentBlock.path| < |b.path| then NearestScheduler(v, b.parentBlock)
    else None
  }

  /** In a valid tree the recorded owner scheduler is the nearest enclosing scheduler. */
  lemma {:induction false} OwnerIsNearestScheduler(m: UiGraphModel, v: View, root: UiGraphBlock?, b: UiGraphBlock)
    requires ValidView(m, v, root) && b in v
    ensures NearestScheduler(v, b).Some?
    ensures OwnerScheduler(b, v[b]) == NearestScheduler(v, b).value.blockUniqueName
    decreases |b.path|
  {
    LookAt(m, v, root, b);
    if v[b].category != ScheduledBlockGroup {
      OwnerIsNearestScheduler(m, v, root, b.parentBlock);
    }
  }

  /** Where a block is asked for anew: at its nearest enclosing scheduler; a nested scheduler at the
      graph that holds it, which the service looks into first; the root block nowhere. */
  lemma RequestsGoTo(m: UiGraphModel, v: View, root: UiGraphBlock?, b: UiGraphBlock)
    requires ValidView(m, v, root) && b in v
    ensures v[b].category != ScheduledBlockGroup ==>
      && NearestScheduler(v, b).Some?
      && UpdateRequests(b, v[b]) == [InspectBlock(NearestScheduler(v, b).value.blockUniqueName, b.blockUniqueName)]
    ensures v[b].category == ScheduledBlockGroup && b.parentBlock != null ==>
      UpdateRequests(b, v[b]) ==
      [InspectScheduler(b.parentBlock.blockUniqueName), InspectBlock(b.parentBlock.blockUniqueName, b.blockUniqueName)]
    ensures v[b].category == ScheduledBlockGroup && b.parentBlock == null ==> UpdateRequests(b, v[b]) == []
  {
    hide ValidView;
    LookAt(m, v, root, b);
    OwnerIsNearestScheduler(m, v, root, b);
    if v[b].category != ScheduledBlockGroup {
      var s := NearestInView(m, v, root, b);
      LookAt(m, v, root, s);
    }
  }

  lemma {:induction false} NearestInView(m: UiGraphModel, v: View, root: UiGraphBlock?, b: UiGraphBlock)
    returns (s: UiGraphBlock)
    requires ValidView(m, v, root) && b in v
    ensures NearestScheduler(v, b) == Some(s) && s in v && v[s].category == ScheduledBlockGroup
    decreases |b.path|
  {
    LookAt(m, v, root, b);
    if v[b].category == ScheduledBlockGroup {
      s := b;
    } else {
      s := NearestInView(m, v, root, b.parentBlock);
    }
  }
}
