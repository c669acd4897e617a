/** Messages keep a tree that mirrors a snapshot in step with the snapshot as they change it
    (src/ui/GraphModel.cpp). */
module GraphInStep {
  import opened GraphMirror
  import opened GraphModel
  import opened GraphSnapshot
  import opened Shared

  // ---- being in step ----

  /** The subtree of b has the names, categories, ports, nesting and edges of the snapshot d: what
      Mirrors says, but for what became of the objects and of the requests. */
  ghost predicate InStep(v: View, b: UiGraphBlock, d: BlockData)
    decreases d, 1
  {
    && b in v
    && b.blockUniqueName == d.uniqueName
    && v[b].category == d.category
    && v[b].name == d.name
    && (d.category != ScheduledBlockGroup ==> v[b].inputPorts == d.inputPorts && v[b].outputPorts == d.outputPorts)
    && (d.category == ScheduledBlockGroup ==> ShowsExports(v, b))
    && (d.category == TransparentBlockGroup ==> GraphInStep(v, b, d))
  }

  ghost predicate ShowsExports(v: View, b: UiGraphBlock)
    requires b in v
  {
    && v[b].inputPorts == SchedulerPorts(v, v[b].children, v[b].exportedInputs, true)
    && v[b].outputPorts == SchedulerPorts(v, v[b].children, v[b].exportedOutputs, false)
  }

  ghost predicate EntryInStep(v: View, b: UiGraphBlock, entry: BlockData)
    requires b in v
    decreases entry, 2
  {
    exists c :: c in v[b].children && InStep(v, c, entry)
  }

  /** A graph has a child for every entry and no other, and the edges that resolve. */
  ghost predicate GraphInStep(v: View, b: UiGraphBlock, d: BlockData)
    requires b in v
    decreases d, 0
  {
    && (forall c :: c in v[b].children ==> c.blockUniqueName in Keys(d))
    && (forall i :: 0 <= i < |d.children| ==> EntryInStep(v, b, d.children[i].data))
    && RowsOfEdges(v[b].edges) == Rows(v, v[b].children, d.edges)
  }

  lemma {:induction false} MirrorsInStep(was: Before, v: View, sent: seq<Request>, b: UiGraphBlock, d: BlockData)
    requires Mirrors(was, v, sent, b, d)
    ensures InStep(v, b, d)
    decreases d
  {
    if d.category == TransparentBlockGroup {
      forall i | 0 <= i < |d.children|
        ensures EntryInStep(v, b, d.children[i].data)
      {
        var c := MirroredEntry(was, v, sent, b, d, i);
        MirrorsInStep(was, v, sent, c, d.children[i].data);
      }
    }
  }

  lemma StepName(v: View, b: UiGraphBlock, d: BlockData)
    requires InStep(v, b, d)
    ensures b in v && b.blockUniqueName == d.uniqueName && v[b].category == d.category
    ensures d.category != ScheduledBlockGroup ==> v[b].inputPorts == d.inputPorts && v[b].outputPorts == d.outputPorts
    ensures d.category == TransparentBlockGroup ==> GraphInStep(v, b, d)
  {
  }

  lemma StepEntry(v: View, b: UiGraphBlock, d: BlockData, i: nat) returns (c: UiGraphBlock)
    requires b in v && GraphInStep(v, b, d) && i < |d.children|
    ensures c in v[b].children && InStep(v, c, d.children[i].data) && c.blockUniqueName == d.children[i].data.uniqueName
  {
    assert EntryInStep(v, b, d.children[i].data);
    c :| c in v[b].children && InStep(v, c, d.children[i].data);
    StepName(v, c, d.children[i].data);
  }

  /** Being in step depends on the subtree alone. */
  lemma {:induction false} InStepFrame(m: UiGraphModel, root: UiGraphBlock?, v0: View, v1: View, b: UiGraphBlock,
                                       d: BlockData)
    requires ValidView(m, v0, root) && InStep(v0, b, d) && SameBelow(v0, v1, b)
    ensures InStep(v1, b, d)
    decreases d
  {
    hide ValidView, SameBelow, SchedulerPorts, Rows;
    SchedulerPortsFrame(m, root, v0, v1, b, v0[b].exportedInputs, true);
    SchedulerPortsFrame(m, root, v0, v1, b, v0[b].exportedOutputs, false);
    if d.category == TransparentBlockGroup {
      forall c | c in v0[b].children
        ensures c in v0 && c in v1 && v1[c] == v0[c] && SameBelow(v0, v1, c)
      {
        SameBelowChild(m, root, v0, v1, b, c);
      }
      RowsFrame(v0, v1, v0[b].children, d.edges);
      forall i | 0 <= i < |d.children|
        ensures EntryInStep(v1, b, d.children[i].data)
      {
        var c := StepEntry(v0, b, d, i);
        InStepFrame(m, root, v0, v1, c, d.children[i].data);
      }
    }
  }

  // ---- rows ----

  /** A name leads to a block with the same ports, or to none, on both sides. */
  ghost predicate SamePorts(v0: View, bs0: seq<UiGraphBlock>, v1: View, bs1: seq<UiGraphBlock>, n: string) {
    var c0, c1 := Named(bs0, n), Named(bs1, n);
    && (c0.Some? && c0.value in v0 <==> c1.Some? && c1.value in v1)
    && (c0.Some? && c0.value in v0 ==>
          v0[c0.value].inputPorts == v1[c1.value].inputPorts && v0[c0.value].outputPorts == v1[c1.value].outputPorts)
  }

  lemma {:induction false} RowsAgree(v0: View, bs0: seq<UiGraphBlock>, v1: View, bs1: seq<UiGraphBlock>,
                                     edges: seq<EdgeData>)
    requires forall e :: e in edges ==> SamePorts(v0, bs0, v1, bs1, e.source) && SamePorts(v0, bs0, v1, bs1, e.destination)
    ensures Rows(v0, bs0, edges) == Rows(v1, bs1, edges)
  {
    if |edges| != 0 {
      var front, last := edges[..|edges| - 1], edges[|edges| - 1];
      RowsAgree(v0, bs0, v1, bs1, front);
      assert last in edges;
    }
  }

  predicate Names(e: EdgeData, n: string) {
    e.source == n || e.destination == n
  }

  function RowsWithout(rows: seq<EdgeRow>, n: string): seq<EdgeRow> {
    if |rows| == 0 then []
    else (if rows[0].source == n || rows[0].destination == n then [] else [rows[0]]) + RowsWithout(rows[1..], n)
  }

  /** The edges of a snapshot that do not name the block. */
  function EdgesWithout(edges: seq<EdgeData>, n: string): (r: seq<EdgeData>)
    ensures forall e :: e in r <==> e in edges && !Names(e, n)
  {
    if |edges| == 0 then []
    else
      var init, last := EdgesWithout(edges[..|edges| - 1], n), edges[|edges| - 1];
      assert edges == edges[..|edges| - 1] + [last];
      if Names(last, n) then init else init + [last]
  }

  lemma {:induction false} RowsWithoutStep(rows: seq<EdgeRow>, r: EdgeRow, n: string)
    ensures RowsWithout(rows + [r], n) == RowsWithout(rows, n) + (if r.source == n || r.destination == n then [] else [r])
  {
    if |rows| != 0 {
      assert (rows + [r])[1..] == rows[1..] + [r];
      RowsWithoutStep(rows[1..], r, n);
    }
  }

  lemma NoEdgeRows()
    ensures RowsOfEdges([]) == []
  {
  }

  lemma FirstRow(e: UiGraphEdge, rest: seq<UiGraphEdge>)
    ensures RowsOfEdges([e] + rest) == [RowOfEdge(e)] + RowsOfEdges(rest)
  {
  }

  /** Removing the edges of a block removes the rows with its name. */
  lemma {:induction false} EdgesOfBlock(es: seq<UiGraphEdge>, c: UiGraphBlock, n: string)
    requires forall e :: e in es ==> (e.source == c <==> e.source.blockUniqueName == n)
                                     && (e.destination == c <==> e.destination.blockUniqueName == n)
    ensures RowsOfEdges(WithoutBlock(es, c)) == RowsWithout(RowsOfEdges(es), n)
  {
    hide RowsOfEdges;
    if |es| == 0 {
      NoEdgeRows();
    } else {
      var first, rest := es[0], es[1..];
      EdgesOfBlock(rest, c, n);
      assert es == [first] + rest;
      FirstRow(first, rest);
      FirstRow(first, WithoutBlock(rest, c));
      assert ([RowOfEdge(first)] + RowsOfEdges(rest))[1..] == RowsOfEdges(rest);
      assert first in es;
    }
  }

  /** No row has the name of a block without edges. */
  lemma {:induction false} NoRowsOfBlock(es: seq<UiGraphEdge>, n: string)
    requires forall e :: e in es ==> e.source.blockUniqueName != n && e.destination.blockUniqueName != n
    ensures RowsWithout(RowsOfEdges(es), n) == RowsOfEdges(es)
  {
    hide RowsOfEdges;
    if |es| == 0 {
      NoEdgeRows();
    } else {
      NoRowsOfBlock(es[1..], n);
      assert es == [es[0]] + es[1..];
      FirstRow(es[0], es[1..]);
      assert es[0] in es;
      assert RowsOfEdges(es)[1..] == RowsOfEdges(es[1..]);
    }
  }

  /** The rows without a name are those of the edges that do not name it, among the other children. */
  lemma {:induction false} RowsWithoutChild(v0: View, bs0: seq<UiGraphBlock>, v1: View, bs1: seq<UiGraphBlock>,
                                            edges: seq<EdgeData>, n: string)
    requires forall x :: x != n ==> SamePorts(v0, bs0, v1, bs1, x)
    ensures RowsWithout(Rows(v0, bs0, edges), n) == Rows(v1, bs1, EdgesWithout(edges, n))
  {
    if |edges| != 0 {
      var front, last := edges[..|edges| - 1], edges[|edges| - 1];
      RowsWithoutChild(v0, bs0, v1, bs1, front, n);
      var r := RowOf(v0, bs0, last);
      if r.Some? {
        RowsWithoutStep(Rows(v0, bs0, front), r.value, n);
      }
      if !Names(last, n) {
        assert SamePorts(v0, bs0, v1, bs1, last.source) && SamePorts(v0, bs0, v1, bs1, last.destination);
        var kept := EdgesWithout(front, n);
        assert (kept + [last])[..|kept|] == kept;
      }
    }
  }

  // ---- what a message makes of a snapshot ----

  function EntriesWithout(entries: seq<Entry>, n: string): (r: seq<Entry>)
    ensures forall e :: e in r <==> e in entries && e.key != n
  {
    if |entries| == 0 then []
    else (if entries[0].key == n then [] else [entries[0]]) + EntriesWithout(entries[1..], n)
  }

  predicate DistinctKeys(entries: seq<Entry>) {
    forall i, j :: 0 <= i < j < |entries| ==> entries[i].key != entries[j].key
  }

  lemma {:induction false} StillDistinct(entries: seq<Entry>, n: string)
    requires DistinctKeys(entries)
    ensures DistinctKeys(EntriesWithout(entries, n))
  {
    if |entries| != 0 {
      StillDistinct(entries[1..], n);
      var rest := EntriesWithout(entries[1..], n);
      forall j | 0 <= j < |rest|
        ensures rest[j].key != entries[0].key
      {
        assert rest[j] in entries[1..];
      }
    }
  }

  /** The snapshot without an entry, and without the edges that name it. */
  function WithoutEntry(d: BlockData, n: string): BlockData {
    d.(children := EntriesWithout(d.children, n), edges := EdgesWithout(d.edges, n))
  }

  /** The snapshot with the block as an entry, in place of the one with its name if there is one. */
  function WithEntry(d: BlockData, e: BlockData): BlockData {
    d.(children := EntriesWithout(d.children, e.uniqueName) + [Entry(e.uniqueName, e)])
  }

  predicate HasKey(d: BlockData, n: string) {
    exists e :: e in d.children && e.key == n
  }

  lemma KeysHave(d: BlockData, n: string)
    ensures n in Keys(d) <==> HasKey(d, n)
  {
    if e :| e in d.children && e.key == n {
      var i :| 0 <= i < |d.children| && d.children[i] == e;
      assert d.children[i].key in Keys(d);
    }
  }

  lemma EntryIs(d: BlockData, categoryOf: string -> Category, e: Entry)
    requires WellFormed(d, categoryOf) && e in d.children
    ensures e.key == e.data.uniqueName && WellFormed(e.data, categoryOf)
  {
    var i :| 0 <= i < |d.children| && d.children[i] == e;
  }

  lemma WellFormedFrom(d: BlockData, categoryOf: string -> Category)
    requires d.uniqueName != "" && d.category == categoryOf(d.uniqueName) && DistinctKeys(d.children)
    requires forall e :: e in d.children ==> e.key == e.data.uniqueName && WellFormed(e.data, categoryOf)
    ensures WellFormed(d, categoryOf)
  {
    assert forall i :: 0 <= i < |d.children| ==> d.children[i] in d.children;
  }

  lemma WellFormedKeys(d: BlockData, categoryOf: string -> Category)
    requires WellFormed(d, categoryOf)
    ensures DistinctKeys(d.children) && d.uniqueName != "" && d.category == categoryOf(d.uniqueName)
  {
  }

  lemma WithoutEntryWellFormed(d: BlockData, categoryOf: string -> Category, n: string)
    requires WellFormed(d, categoryOf)
    ensures WellFormed(WithoutEntry(d, n), categoryOf)
  {
    hide WellFormed;
    WellFormedKeys(d, categoryOf);
    StillDistinct(d.children, n);
    forall e | e in WithoutEntry(d, n).children
      ensures e.key == e.data.uniqueName && WellFormed(e.data, categoryOf)
    {
      EntryIs(d, categoryOf, e);
    }
    WellFormedFrom(WithoutEntry(d, n), categoryOf);
  }

  lemma WithEntryWellFormed(d: BlockData, categoryOf: string -> Category, e: BlockData)
    requires WellFormed(d, categoryOf) && WellFormed(e, categoryOf)
    ensures WellFormed(WithEntry(d, e), categoryOf)
  {
    hide WellFormed;
    WellFormedKeys(d, categoryOf);
    StillDistinct(d.children, e.uniqueName);
    forall x | x in WithEntry(d, e).children
      ensures x.key == x.data.uniqueName && WellFormed(x.data, categoryOf)
    {
      if x in d.children {
        EntryIs(d, categoryOf, x);
      }
    }
    var kept := EntriesWithout(d.children, e.uniqueName);
    assert forall i :: 0 <= i < |kept| ==> kept[i] in kept;
    WellFormedFrom(WithEntry(d, e), categoryOf);
  }

  /** A child for every entry is enough, whatever their order. */
  lemma GraphInStepFrom(v: View, b: UiGraphBlock, d: BlockData)
    requires b in v
    requires forall c :: c in v[b].children ==> HasKey(d, c.blockUniqueName)
    requires forall e :: e in d.children ==> EntryInStep(v, b, e.data)
    requires RowsOfEdges(v[b].edges) == Rows(v, v[b].children, d.edges)
    ensures GraphInStep(v, b, d)
  {
    forall c | c in v[b].children
      ensures c.blockUniqueName in Keys(d)
    {
      KeysHave(d, c.blockUniqueName);
    }
    forall i | 0 <= i < |d.children|
      ensures EntryInStep(v, b, d.children[i].data)
    {
      assert d.children[i] in d.children;
    }
  }

  lemma ChildHasEntry(v: View, b: UiGraphBlock, d: BlockData, c: UiGraphBlock)
    requires b in v && GraphInStep(v, b, d) && c in v[b].children
    ensures HasKey(d, c.blockUniqueName)
  {
    KeysHave(d, c.blockUniqueName);
  }

  /** The child for an entry. */
  lemma EntryHasChild(v: View, b: UiGraphBlock, d: BlockData, categoryOf: string -> Category, e: Entry)
    returns (c: UiGraphBlock)
    requires b in v && GraphInStep(v, b, d) && WellFormed(d, categoryOf) && e in d.children
    ensures c in v[b].children && InStep(v, c, e.data) && c.blockUniqueName == e.key
  {
    var i :| 0 <= i < |d.children| && d.children[i] == e;
    c := StepEntry(v, b, d, i);
  }

  // ---- one message for one graph ----

  lemma SameNamed(v0: View, bs0: seq<UiGraphBlock>, v1: View, bs1: seq<UiGraphBlock>, n: string)
    requires DistinctNames(bs0) && DistinctNames(bs1)
    requires forall x :: x in bs0 && x.blockUniqueName == n ==> x in bs1
    requires forall x :: x in bs1 && x.blockUniqueName == n ==> x in bs0 && x in v0 && x in v1 && v1[x] == v0[x]
    ensures SamePorts(v0, bs0, v1, bs1, n)
  {
    if Named(bs0, n).Some? {
      NamedIs(bs1, Named(bs0, n).value);
    } else {
      NotNamed(bs1, n);
    }
  }

  /** The rows after a child has gone with its edges. */
  lemma RemovedRows(m: UiGraphModel, root: UiGraphBlock?, v: View, b: UiGraphBlock, n: string)
    requires ValidView(m, v, root) && b in v && v[b].category == TransparentBlockGroup
    ensures RowsOfEdges(RemovedState(v[b], n).edges) == RowsWithout(RowsOfEdges(v[b].edges), n)
  {
    hide ValidView, RowsOfEdges, RowsWithout, WithoutBlock, Erase;
    LookAt(m, v, root, b);
    var c := Named(v[b].children, n);
    if c.Some? {
      forall x | x in v[b].children
        ensures x == c.value <==> x.blockUniqueName == n
      {
        if x.blockUniqueName == n {
          SameName(v[b].children, x, c.value);
        }
      }
      EdgesOfBlock(v[b].edges, c.value, n);
    } else {
      NoRowsOfBlock(v[b].edges, n);
    }
  }

  /** Removing a child takes its entry, and the edges that name it, out of the snapshot. */
  lemma RemovedInStep(m: UiGraphModel, root: UiGraphBlock?, v: View, b: UiGraphBlock, d: BlockData, n: string)
    requires ValidView(m, v, root) && WellFormed(d, m.categoryOf) && InStep(v, b, d) && d.category == TransparentBlockGroup
    ensures InStep(WithDrops(v[b := RemovedState(v[b], n)], b.parentBlock, GoneNamed(v[b], n)), b, WithoutEntry(d, n))
  {
    hide ValidView, WellFormed, InStep, GraphInStep, RowsOfEdges, RowsWithout, Rows, RemovedState, OnlyBelow, Kept,
         SameBelow, GoneNamed, SamePorts;
    StepName(v, b, d);
    var s, gone, e := RemovedState(v[b], n), GoneNamed(v[b], n), WithoutEntry(d, n);
    var w := WithDrops(v[b := s], b.parentBlock, gone);
    RemoveChild(m, v, root, b, n);
    RemovedOwn(v[b], n);
    NotOwnParent(m, v, root, b);
    LookAt(m, v, root, b);
    LookAt(m, v[b := s], root, b);
    forall x | x in s.children
      ensures x in v && x in w && w[x] == v[x] && SameBelow(v, w, x)
    {
      KeptAfterRemoval(m, root, v, b, s, gone, x);
      KeptSame(v, w, x);
      SameBelowSelf(v, w, x);
    }
    forall x | x in e.children
      ensures EntryInStep(w, b, x.data)
    {
      var c := EntryHasChild(v, b, d, m.categoryOf, x);
      InStepFrame(m, root, v, w, c, x.data);
    }
    forall c | c in s.children
      ensures HasKey(e, c.blockUniqueName)
    {
      ChildHasEntry(v, b, d, c);
    }
    forall x | x != n
      ensures SamePorts(v, v[b].children, w, s.children, x)
    {
      SameNamed(v, v[b].children, w, s.children, x);
    }
    RemovedRows(m, root, v, b, n);
    StepRows(v, b, d);
    RowsWithoutChild(v, v[b].children, w, s.children, d.edges, n);
    GraphInStepFrom(w, b, e);
    StepFrom(v, w, b, d, e);
  }

  lemma RemovedOwn(s: BlockState, n: string)
    ensures var t := RemovedState(s, n); t == s.(children := t.children, edges := t.edges)
  {
  }

  lemma SameBelowSelf(v0: View, v1: View, x: UiGraphBlock)
    requires SameBelow(v0, v1, x) && x in v0
    ensures x in v1 && v1[x] == v0[x]
  {
    assert Under(x, x);
  }

  lemma StepRows(v: View, b: UiGraphBlock, d: BlockData)
    requires b in v && GraphInStep(v, b, d)
    ensures RowsOfEdges(v[b].edges) == Rows(v, v[b].children, d.edges)
  {
  }

  /** The own fields are the same, so a graph is in step if what it holds is. */
  lemma StepFrom(v: View, w: View, b: UiGraphBlock, d: BlockData, e: BlockData)
    requires InStep(v, b, d) && d.category == TransparentBlockGroup && b in w && GraphInStep(w, b, e)
    requires e == d.(children := e.children, edges := e.edges)
    requires w[b].name == v[b].name && w[b].category == v[b].category
    requires w[b].inputPorts == v[b].inputPorts && w[b].outputPorts == v[b].outputPorts
    ensures InStep(w, b, e)
  {
  }

  /** An edge is added to the snapshot, whether or not it resolves. */
  lemma EdgeInStep(m: UiGraphModel, root: UiGraphBlock?, v: View, b: UiGraphBlock, d: BlockData, e: EdgeData,
                   after: seq<UiGraphEdge>)
    requires ValidView(m, v, root) && WellFormed(d, m.categoryOf) && InStep(v, b, d) && d.category == TransparentBlockGroup
    requires EdgeAppended(v[b := v[b].(edges := after)], v[b].children, v[b].edges, after, e)
    ensures InStep(v[b := v[b].(edges := after)], b, d.(edges := d.edges + [e]))
  {
    hide ValidView, WellFormed, InStep, GraphInStep, RowsOfEdges, Rows, RowOf, EdgeAppended, SameBelow;
    StepName(v, b, d);
    var s, f := v[b].(edges := after), d.(edges := d.edges + [e]);
    var w, children := v[b := s], v[b].children;
    LookAt(m, v, root, b);
    forall c | c in children
      ensures c in v && c in w && w[c] == v[c] && SameBelow(v, w, c)
    {
      ParentStep(m, root, v, b, s, c);
      SameBelowSelf(v, w, c);
    }
    forall x | x in f.children
      ensures EntryInStep(w, b, x.data)
    {
      var c := EntryHasChild(v, b, d, m.categoryOf, x);
      InStepFrame(m, root, v, w, c, x.data);
    }
    forall c | c in children
      ensures HasKey(f, c.blockUniqueName)
    {
      ChildHasEntry(v, b, d, c);
    }
    StepRows(v, b, d);
    RowsFrame(v, w, children, d.edges);
    EdgeAppendedIs(w, children, v[b].edges, after, e);
    RowsStep(w, children, f.edges, |d.edges|);
    assert f.edges[..|d.edges|] == d.edges && f.edges[..|f.edges|] == f.edges;
    if after != v[b].edges {
      RowAppended(v[b].edges, after[|v[b].edges|]);
      assert after == v[b].edges + [after[|v[b].edges|]];
    }
    GraphInStepFrom(w, b, f);
    StepFrom(v, w, b, d, f);
  }

  predicate NoneNames(edges: seq<EdgeData>, n: string) {
    forall e :: e in edges ==> !Names(e, n)
  }

  /** The other children of b are as they were. */
  lemma EmplacedOther(m: UiGraphModel, root: UiGraphBlock?, was: Before, v: View, w: View, sent: seq<Request>,
                      b: UiGraphBlock, c: UiGraphBlock, e: BlockData, x: UiGraphBlock)
    requires ValidView(m, v, root) && ValidView(m, w, root) && b in v && EmplacedAs(was, v, w, sent, b, v[b], c, e)
    requires x in v[b].children && x != c
    ensures x in v && x in w && w[x] == v[x] && SameBelow(v, w, x) && x.blockUniqueName != e.uniqueName
  {
    hide ValidView, EmplacedAs, OnlyBelow, SameBelow, Kept, Mirrors;
    EmplacedGrows(was, v, w, sent, b, v[b], c, e);
    LookAt(m, v, root, b);
    LookAt(m, w, root, b);
    OtherChild(m, root, v, v, w, b, w[b], x, c);
    SameBelowSelf(v, w, x);
    if x.blockUniqueName == c.blockUniqueName {
      SameName(w[b].children, x, c);
    }
  }

  lemma WithEntryHas(d: BlockData, e: BlockData, x: Entry)
    ensures x in WithEntry(d, e).children <==> x == Entry(e.uniqueName, e) || (x in d.children && x.key != e.uniqueName)
  {
  }

  /** Every entry has a child, and every child an entry. */
  lemma EmplacedEntry(m: UiGraphModel, root: UiGraphBlock?, was: Before, v: View, w: View, sent: seq<Request>,
                      b: UiGraphBlock, c: UiGraphBlock, d: BlockData, e: BlockData, x: Entry)
    requires ValidView(m, v, root) && ValidView(m, w, root) && WellFormed(d, m.categoryOf)
    requires b in v && GraphInStep(v, b, d) && EmplacedAs(was, v, w, sent, b, v[b], c, e)
    requires x in WithEntry(d, e).children
    ensures b in w && EntryInStep(w, b, x.data)
  {
    hide ValidView, WellFormed, InStep, GraphInStep, EmplacedAs, OnlyBelow, SameBelow, Mirrors, WithEntry;
    EmplacedGrows(was, v, w, sent, b, v[b], c, e);
    WithEntryHas(d, e, x);
    if x == Entry(e.uniqueName, e) {
      MirrorsInStep(was, w, sent, c, e);
    } else {
      var k := EntryHasChild(v, b, d, m.categoryOf, x);
      EmplacedOther(m, root, was, v, w, sent, b, c, e, k);
      InStepFrame(m, root, v, w, k, x.data);
    }
  }

  lemma EmplacedChild(m: UiGraphModel, root: UiGraphBlock?, was: Before, v: View, w: View, sent: seq<Request>,
                      b: UiGraphBlock, c: UiGraphBlock, d: BlockData, e: BlockData, k: UiGraphBlock)
    requires ValidView(m, v, root) && ValidView(m, w, root)
    requires b in v && GraphInStep(v, b, d) && EmplacedAs(was, v, w, sent, b, v[b], c, e)
    requires b in w && k in w[b].children
    ensures HasKey(WithEntry(d, e), k.blockUniqueName)
  {
    hide ValidView, GraphInStep, EmplacedAs, OnlyBelow, SameBelow, Mirrors, WithEntry, HasKey;
    EmplacedGrows(was, v, w, sent, b, v[b], c, e);
    if k == c {
      HasNewKey(d, e);
    } else {
      EmplacedOther(m, root, was, v, w, sent, b, c, e, k);
      ChildHasEntry(v, b, d, k);
      StillHasKey(d, e, k.blockUniqueName);
    }
  }

  lemma HasNewKey(d: BlockData, e: BlockData)
    ensures HasKey(WithEntry(d, e), e.uniqueName)
  {
    assert Entry(e.uniqueName, e) in WithEntry(d, e).children;
  }

  lemma StillHasKey(d: BlockData, e: BlockData, n: string)
    requires HasKey(d, n) && n != e.uniqueName
    ensures HasKey(WithEntry(d, e), n)
  {
    var x :| x in d.children && x.key == n;
    assert x in WithEntry(d, e).children;
  }

  /** Edges that do not name the block resolve as before. */
  lemma EmplacedRows(m: UiGraphModel, root: UiGraphBlock?, was: Before, v: View, w: View, sent: seq<Request>,
                     b: UiGraphBlock, c: UiGraphBlock, e: BlockData, edges: seq<EdgeData>)
    requires ValidView(m, v, root) && ValidView(m, w, root) && b in v && EmplacedAs(was, v, w, sent, b, v[b], c, e)
    requires NoneNames(edges, e.uniqueName)
    ensures b in w && Rows(v, v[b].children, edges) == Rows(w, w[b].children, edges)
  {
    hide ValidView, EmplacedAs, OnlyBelow, SameBelow, Mirrors, Rows, SamePorts;
    EmplacedGrows(was, v, w, sent, b, v[b], c, e);
    LookAt(m, v, root, b);
    LookAt(m, w, root, b);
    forall x | x in v[b].children && x != c
      ensures x in v && x in w && w[x] == v[x]
    {
      EmplacedOther(m, root, was, v, w, sent, b, c, e, x);
    }
    forall n | n != e.uniqueName
      ensures SamePorts(v, v[b].children, w, w[b].children, n)
    {
      SameNamed(v, v[b].children, w, w[b].children, n);
    }
    RowsAgree(v, v[b].children, w, w[b].children, edges);
  }

  /** A block that was emplaced is an entry of the snapshot, in place of the one with its name. The edges
      are not looked at again, so the graph is in step exactly if they resolve as before; as they do if
      none names the block. */
  lemma EmplacedInStep(m: UiGraphModel, root: UiGraphBlock?, was: Before, v: View, w: View, sent: seq<Request>,
                       b: UiGraphBlock, c: UiGraphBlock, d: BlockData, e: BlockData)
    requires ValidView(m, v, root) && ValidView(m, w, root) && WellFormed(d, m.categoryOf) && WellFormed(e, m.categoryOf)
    requires InStep(v, b, d) && d.category == TransparentBlockGroup
    requires EmplacedAs(was, v, w, sent, b, v[b], c, e)
    ensures b in w
    ensures InStep(w, b, WithEntry(d, e)) <==> RowsOfEdges(v[b].edges) == Rows(w, w[b].children, d.edges)
    ensures NoneNames(d.edges, e.uniqueName) ==> InStep(w, b, WithEntry(d, e))
  {
    hide ValidView, WellFormed, InStep, GraphInStep, RowsOfEdges, Rows, EmplacedAs, OnlyBelow, Mirrors, NoneNames,
         EntryInStep, HasKey;
    var f := WithEntry(d, e);
    StepName(v, b, d);
    EmplacedGrows(was, v, w, sent, b, v[b], c, e);
    forall x | x in f.children
      ensures EntryInStep(w, b, x.data)
    {
      EmplacedEntry(m, root, was, v, w, sent, b, c, d, e, x);
    }
    forall k | k in w[b].children
      ensures HasKey(f, k.blockUniqueName)
    {
      EmplacedChild(m, root, was, v, w, sent, b, c, d, e, k);
    }
    StepRows(v, b, d);
    if NoneNames(d.edges, e.uniqueName) {
      EmplacedRows(m, root, was, v, w, sent, b, c, e, d.edges);
    }
    if RowsOfEdges(v[b].edges) == Rows(w, w[b].children, d.edges) {
      GraphInStepFrom(w, b, f);
      StepFrom(v, w, b, d, f);
    }
    if InStep(w, b, f) {
      StepName(w, b, f);
      StepRows(w, b, f);
    }
  }

  // ---- one message anywhere in a mirrored tree ----

  function EntriesUpdated(entries: seq<Entry>, n: string, data: BlockData): (r: seq<Entry>)
    ensures |r| == |entries| && forall i :: 0 <= i < |r| ==> r[i] == if entries[i].key == n then Entry(n, data) else entries[i]
  {
    seq(|entries|, i requires 0 <= i < |entries| => if entries[i].key == n then Entry(n, data) else entries[i])
  }

  /** The snapshot with its part at the end of these names replaced. */
  function Updated(d: BlockData, names: seq<string>, part: BlockData): BlockData
    decreases |names|
  {
    if |names| == 0 then part
    else
      var c := Lookup(d.children, names[0]);
      if c.None? then d else d.(children := EntriesUpdated(d.children, names[0], Updated(c.value, names[1..], part)))
  }

  lemma UnderTrans(m: UiGraphModel, v: View, root: UiGraphBlock?, z: UiGraphBlock, b: UiGraphBlock, x: UiGraphBlock)
    requires ValidView(m, v, root) && z in v && b in v && Under(z, b) && Under(b, x)
    ensures Under(z, x)
  {
    LookAt(m, v, root, z);
    if z != b && b != x {
      assert b.path == z.path[..|b.path|];
    }
  }

  /** Walking down leads to a block below. */
  lemma {:induction false} WalkUnder(m: UiGraphModel, v: View, root: UiGraphBlock?, a: UiGraphBlock,
                                     names: seq<string>, b: UiGraphBlock)
    requires ValidView(m, v, root) && a in v && WalkDown(v, a, names) == Some(b)
    ensures b in v && Under(b, a) && (|names| != 0 ==> !Under(a, b))
    decreases |names|
  {
    hide ValidView;
    if |names| != 0 {
      var x := Named(v[a].children, names[0]).value;
      LookAt(m, v, root, a);
      ChildPath(m, v, root, a, x);
      WalkUnder(m, v, root, x, names[1..], b);
    }
  }

  /** What changes below one child of a leaves the other children as they were. */
  lemma OtherBranch(m: UiGraphModel, root: UiGraphBlock?, v: View, w: View, a: UiGraphBlock, x: UiGraphBlock,
                    y: UiGraphBlock, b: UiGraphBlock)
    requires ValidView(m, v, root) && a in v && x in v[a].children && y in v[a].children && x != y
    requires b in v && Under(b, x) && OnlyBelow(v, w, b)
    ensures SameBelow(v, w, y) && y in v && y in w && w[y] == v[y]
  {
    LookAt(m, v, root, a);
    LookAt(m, v, root, b);
    SiblingPaths(m, v, root, a, x, y);
    forall z | z in v && Under(z, y)
      ensures z in w && w[z] == v[z]
    {
      if Under(z, b) {
        UnderTrans(m, v, root, z, b, x);
      }
      if z == b.parentBlock {
        ChildPath(m, v, root, z, b);
        UnderTrans(m, v, root, b, z, y);
      }
    }
    assert Under(y, y);
  }

  /** The child and the entry of one name. */
  lemma StepChild(m: UiGraphModel, root: UiGraphBlock?, v: View, b: UiGraphBlock, d: BlockData, n: string)
    requires ValidView(m, v, root) && WellFormed(d, m.categoryOf) && b in v && GraphInStep(v, b, d) && Named(v[b].children, n).Some?
    ensures Lookup(d.children, n).Some? && WellFormed(Lookup(d.children, n).value, m.categoryOf)
    ensures InStep(v, Named(v[b].children, n).value, Lookup(d.children, n).value)
  {
    hide ValidView, WellFormed, InStep, GraphInStep;
    var c := Named(v[b].children, n).value;
    LookAt(m, v, root, b);
    ChildHasEntry(v, b, d, c);
    var i :| 0 <= i < |d.children| && d.children[i].key == n && d.children[i].data == Lookup(d.children, n).value;
    WellFormedEntry(d, m.categoryOf, i);
    var k := StepEntry(v, b, d, i);
    SameName(v[b].children, c, k);
  }

  /** The ports with which the children of a take part in its edges, after a change below one of them. */
  ghost predicate SameShown(v: View, w: View, c: UiGraphBlock) {
    c in v && c in w && w[c].inputPorts == v[c].inputPorts && w[c].outputPorts == v[c].outputPorts
  }

  lemma {:induction false} RowsShown(v: View, w: View, children: seq<UiGraphBlock>, edges: seq<EdgeData>)
    requires forall c :: c in children ==> SameShown(v, w, c)
    ensures Rows(v, children, edges) == Rows(w, children, edges)
  {
    forall n
      ensures SamePorts(v, children, w, children, n)
    {
    }
    RowsAgree(v, children, w, children, edges);
  }

  /** If the block b, at the end of these names, is in step with a new part, then what is around it is in
      step with the snapshot that has this part; for b shows the same ports as before. */
  lemma {:induction false} StepAround(m: UiGraphModel, root: UiGraphBlock?, v: View, w: View, a: UiGraphBlock,
                                      d: BlockData, names: seq<string>, b: UiGraphBlock, part: BlockData)
    requires ValidView(m, v, root) && WellFormed(d, m.categoryOf) && InStep(v, a, d)
    requires WalkDown(v, a, names) == Some(b) && OnlyBelow(v, w, b)
    requires InStep(w, b, part) && (|names| != 0 ==> SameShown(v, w, b))
    ensures InStep(w, a, Updated(d, names, part))
    decreases |names|
  {
    hide ValidView, WellFormed, InStep, GraphInStep, OnlyBelow, SameBelow, Rows, RowsOfEdges, SamePorts, HasKey,
         EntryInStep;
    StepName(v, a, d);
    if |names| != 0 {
      var x := Named(v[a].children, names[0]).value;
      StepChild(m, root, v, a, d, names[0]);
      var entry := Lookup(d.children, names[0]).value;
      StepAround(m, root, v, w, x, entry, names[1..], b, part);
      var inner := Updated(entry, names[1..], part);
      var e := Updated(d, names, part);
      LookAt(m, v, root, a);
      WalkUnder(m, v, root, a, names, b);
      WalkUnder(m, v, root, x, names[1..], b);
      OnlyExports(v, w, a, b);
      ShownAround(v, w, x, b);
      forall y | y in v[a].children && y != x
        ensures SameBelow(v, w, y) && SameShown(v, w, y)
      {
        OtherBranch(m, root, v, w, a, x, y, b);
      }
      forall i | 0 <= i < |e.children|
        ensures EntryInStep(w, a, e.children[i].data)
      {
        UpdatedEntry(m, root, v, w, a, d, names[0], x, inner, i);
      }
      RowsShown(v, w, v[a].children, d.edges);
      StepRows(v, a, d);
      SameKeys(d, e, names[0], inner);
      StepKeys(v, a, d);
      GraphFrom(w, a, e);
      StepFrom(v, w, a, d, e);
    }
  }

  lemma OnlyExports(v: View, w: View, a: UiGraphBlock, b: UiGraphBlock)
    requires OnlyBelow(v, w, b) && a in v && !Under(a, b)
    ensures a in w && SameButExports(v[a], w[a])
  {
  }

  lemma ShownAround(v: View, w: View, x: UiGraphBlock, b: UiGraphBlock)
    requires OnlyBelow(v, w, b) && x in v && (x == b || !Under(x, b)) && SameShown(v, w, b)
    ensures SameShown(v, w, x)
  {
  }

  lemma StepKeys(v: View, b: UiGraphBlock, d: BlockData)
    requires b in v && GraphInStep(v, b, d)
    ensures forall c :: c in v[b].children ==> c.blockUniqueName in Keys(d)
  {
  }

  lemma SameKeys(d: BlockData, e: BlockData, n: string, data: BlockData)
    requires e == d.(children := EntriesUpdated(d.children, n, data))
    ensures Keys(e) == Keys(d)
  {
    assert forall i :: 0 <= i < |d.children| ==> e.children[i].key == d.children[i].key;
  }

  lemma GraphFrom(v: View, b: UiGraphBlock, d: BlockData)
    requires b in v && (forall c :: c in v[b].children ==> c.blockUniqueName in Keys(d))
    requires forall i :: 0 <= i < |d.children| ==> EntryInStep(v, b, d.children[i].data)
    requires RowsOfEdges(v[b].edges) == Rows(v, v[b].children, d.edges)
    ensures GraphInStep(v, b, d)
  {
  }

  lemma UpdatedEntry(m: UiGraphModel, root: UiGraphBlock?, v: View, w: View, a: UiGraphBlock, d: BlockData, n: string,
                     x: UiGraphBlock, inner: BlockData, i: nat)
    requires ValidView(m, v, root) && WellFormed(d, m.categoryOf) && a in v && a in w && GraphInStep(v, a, d) && i < |d.children|
    requires w[a].children == v[a].children && x in v[a].children && x.blockUniqueName == n && InStep(w, x, inner)
    requires forall y :: y in v[a].children && y != x ==> SameBelow(v, w, y)
    ensures EntryInStep(w, a, EntriesUpdated(d.children, n, inner)[i].data)
  {
    hide ValidView, WellFormed, InStep, GraphInStep, SameBelow;
    if d.children[i].key != n {
      var y := StepEntry(v, a, d, i);
      WellFormedEntry(d, m.categoryOf, i);
      InStepFrame(m, root, v, w, y, d.children[i].data);
    }
  }

  /** What a message for a graph makes of its snapshot. A removed edge is not named by the message as it is
      read, so the snapshot stays, and everything is asked for anew. */
  function AfterMessage(d: BlockData, msg: Message): BlockData {
    match msg
    case BlockEmplaced(_, e) => WithEntry(d, e)
    case BlockRemoved(_, n) => WithoutEntry(d, n)
    case BlockReplaced(_, n, e) => WithEntry(WithoutEntry(d, n), e)
    case EdgeEmplaced(_, e) => d.(edges := d.edges + [e])
    case BlockInspected(_, e) => e
    case GraphInspected(_, e) => e
    case _ => d
  }

  /** A block comes before the edges that name it. */
  predicate BlockBeforeEdges(d: BlockData, msg: Message) {
    match msg
    case BlockEmplaced(_, e) => NoneNames(d.edges, e.uniqueName)
    case BlockReplaced(_, n, e) => NoneNames(EdgesWithout(d.edges, n), e.uniqueName)
    case _ => true
  }

  lemma OutcomeIs(msg: Message, b: UiGraphBlock, was: Before, w: View, sent: seq<Request>)
    requires Outcome(msg, b, was, w, sent)
    ensures b in was.view && b in w && OnlyBelow(was.view, w, b)
    ensures msg.BlockEmplaced? ==> Emplaced(was, was.view, w, sent, b, was.view[b], msg.data)
    ensures msg.BlockRemoved? ==>
      w == WithDrops(was.view[b := RemovedState(was.view[b], msg.uniqueName)], b.parentBlock, GoneNamed(was.view[b], msg.uniqueName))
    ensures msg.BlockReplaced? ==>
      var s := RemovedState(was.view[b], msg.replaced);
      Emplaced(was, WithDrops(was.view[b := s], b.parentBlock, GoneNamed(was.view[b], msg.replaced)), w, sent, b, s, msg.data)
    ensures msg.EdgeEmplaced? ==>
      var after := w[b].edges;
      w == was.view[b := was.view[b].(edges := after)] && EdgeAppended(w, was.view[b].children, was.view[b].edges, after, msg.edge)
    ensures msg.BlockInspected? || msg.GraphInspected? ==> Mirrors(was, w, sent, b, msg.data)
    ensures msg.PortExported? ==> w == was.view[b := Toggled(was.view[b], msg.inputs, msg.export_, msg.flag)]
    ensures msg.EdgeRemoved? || msg.LifecycleRunning? ==> w == was.view
  {
  }

  lemma ExportsInStep(m: UiGraphModel, root: UiGraphBlock?, v: View, b: UiGraphBlock, d: BlockData, t: BlockState)
    requires ValidView(m, v, root) && WellFormed(d, m.categoryOf) && InStep(v, b, d) && d.category == TransparentBlockGroup
    requires SameButExports(v[b], t)
    ensures InStep(v[b := t], b, d)
  {
    hide ValidView, WellFormed, InStep, GraphInStep, RowsOfEdges, Rows, SameBelow, EntryInStep;
    StepName(v, b, d);
    var w := v[b := t];
    LookAt(m, v, root, b);
    forall c | c in v[b].children
      ensures c in v && c in w && w[c] == v[c] && SameBelow(v, w, c)
    {
      ParentStep(m, root, v, b, t, c);
      SameBelowSelf(v, w, c);
    }
    forall i | 0 <= i < |d.children|
      ensures EntryInStep(w, b, d.children[i].data)
    {
      KeptEntry(m, root, v, w, b, d, i);
    }
    RowsFrame(v, w, v[b].children, d.edges);
    StepRows(v, b, d);
    StepKeys(v, b, d);
    GraphFrom(w, b, d);
    StepFrom(v, w, b, d, d);
  }

  lemma KeptEntry(m: UiGraphModel, root: UiGraphBlock?, v: View, w: View, b: UiGraphBlock, d: BlockData, i: nat)
    requires ValidView(m, v, root) && b in v && b in w && GraphInStep(v, b, d) && i < |d.children|
    requires w[b].children == v[b].children && forall c :: c in v[b].children ==> SameBelow(v, w, c)
    ensures EntryInStep(w, b, d.children[i].data)
  {
    hide ValidView, InStep, GraphInStep, SameBelow;
    var c := StepEntry(v, b, d, i);
    InStepFrame(m, root, v, w, c, d.children[i].data);
  }

  /** A message for a graph in step leaves it in step with what the message makes of its snapshot. */
  lemma MessageInStep(m: UiGraphModel, root: UiGraphBlock?, was: Before, w: View, sent: seq<Request>, msg: Message,
                      b: UiGraphBlock, d: BlockData)
    requires ValidView(m, was.view, root) && ValidView(m, w, root) && WellFormedMessage(msg, m.categoryOf)
    requires WellFormed(d, m.categoryOf) && InStep(was.view, b, d) && d.category == TransparentBlockGroup
    requires Outcome(msg, b, was, w, sent) && !msg.SchedulerInspected? && BlockBeforeEdges(d, msg)
    ensures InStep(w, b, AfterMessage(d, msg)) && WellFormed(AfterMessage(d, msg), m.categoryOf)
    ensures !msg.BlockInspected? && !msg.GraphInspected? ==> SameShown(was.view, w, b)
  {
    hide ValidView, WellFormed, InStep, GraphInStep, Outcome, OnlyBelow, Mirrors, EdgeAppended, RemovedState, GoneNamed,
         WithDrops, EmplacedAs, NoneNames, WithEntry, WithoutEntry;
    var v := was.view;
    OutcomeIs(msg, b, was, w, sent);
    StepName(v, b, d);
    match msg {
      case BlockEmplaced(_, e) =>
        EmplacedStep(m, root, was, v, w, sent, b, d, e);
      case BlockRemoved(_, n) =>
        RemovedInStep(m, root, v, b, d, n);
        WithoutEntryWellFormed(d, m.categoryOf, n);
        RemovedView(m, root, v, b, n);
      case BlockReplaced(_, n, e) =>
        var u := WithDrops(v[b := RemovedState(v[b], n)], b.parentBlock, GoneNamed(v[b], n));
        RemovedInStep(m, root, v, b, d, n);
        WithoutEntryWellFormed(d, m.categoryOf, n);
        RemovedView(m, root, v, b, n);
        WithoutEntryIs(d, n);
        EmplacedStep(m, root, was, u, w, sent, b, WithoutEntry(d, n), e);
      case EdgeEmplaced(_, e) =>
        EdgeInStep(m, root, v, b, d, e, w[b].edges);
        MoreEdgesWellFormed(d, m.categoryOf, d.edges + [e]);
      case PortExported(_, inputs, e, flag) =>
        ExportsInStep(m, root, v, b, d, Toggled(v[b], inputs, e, flag));
      case BlockInspected(_, e) =>
        MirrorsInStep(was, w, sent, b, e);
      case GraphInspected(_, e) =>
        MirrorsInStep(was, w, sent, b, e);
      case _ =>
    }
  }

  lemma WithoutEntryIs(d: BlockData, n: string)
    ensures var e := WithoutEntry(d, n); e.edges == EdgesWithout(d.edges, n) && e.category == d.category && e.uniqueName == d.uniqueName
  {
  }

  lemma MoreEdgesWellFormed(d: BlockData, categoryOf: string -> Category, edges: seq<EdgeData>)
    requires WellFormed(d, categoryOf)
    ensures WellFormed(d.(edges := edges), categoryOf)
  {
  }

  lemma RemovedView(m: UiGraphModel, root: UiGraphBlock?, v: View, b: UiGraphBlock, n: string)
    requires ValidView(m, v, root) && b in v && v[b].category == TransparentBlockGroup
    ensures var u := WithDrops(v[b := RemovedState(v[b], n)], b.parentBlock, GoneNamed(v[b], n));
      ValidView(m, u, root) && b in u && u[b] == RemovedState(v[b], n) && SameShown(v, u, b)
  {
    hide ValidView, RemovedState, OnlyBelow;
    RemoveChild(m, v, root, b, n);
    RemovedOwn(v[b], n);
    NotOwnParent(m, v, root, b);
    DropsKeepValid(m, v[b := RemovedState(v[b], n)], root, b, GoneNamed(v[b], n));
  }

  lemma EmplacedStep(m: UiGraphModel, root: UiGraphBlock?, was: Before, v: View, w: View, sent: seq<Request>,
                     b: UiGraphBlock, d: BlockData, e: BlockData)
    requires ValidView(m, v, root) && ValidView(m, w, root) && WellFormed(d, m.categoryOf) && WellFormed(e, m.categoryOf)
    requires InStep(v, b, d) && d.category == TransparentBlockGroup
    requires b in v && Emplaced(was, v, w, sent, b, v[b], e) && NoneNames(d.edges, e.uniqueName)
    ensures InStep(w, b, WithEntry(d, e)) && WellFormed(WithEntry(d, e), m.categoryOf) && SameShown(v, w, b)
  {
    hide ValidView, WellFormed, InStep, EmplacedAs, OnlyBelow, Mirrors, NoneNames, WithEntry;
    var c :| c in ChildrenIn(w, b) && EmplacedAs(was, v, w, sent, b, v[b], c, e);
    EmplacedGrows(was, v, w, sent, b, v[b], c, e);
    EmplacedInStep(m, root, was, v, w, sent, b, c, d, e);
    WithEntryWellFormed(d, m.categoryOf, e);
  }

  /** Every block below is in step with its part of the snapshot. */
  lemma {:induction false} StepFollows(m: UiGraphModel, root: UiGraphBlock?, v: View, a: UiGraphBlock, d: BlockData,
                                       names: seq<string>, b: UiGraphBlock)
    requires ValidView(m, v, root) && WellFormed(d, m.categoryOf) && InStep(v, a, d) && WalkDown(v, a, names) == Some(b)
    ensures Follow(d, names).Some?
    ensures InStep(v, b, Follow(d, names).value) && WellFormed(Follow(d, names).value, m.categoryOf)
    decreases |names|
  {
    hide ValidView, WellFormed, InStep, GraphInStep;
    StepName(v, a, d);
    if |names| != 0 {
      StepChild(m, root, v, a, d, names[0]);
      StepFollows(m, root, v, Named(v[a].children, names[0]).value, Lookup(d.children, names[0]).value, names[1..], b);
    }
  }

  lemma EntryUpdated(d: BlockData, categoryOf: string -> Category, n: string, data: BlockData, i: nat)
    requires WellFormed(d, categoryOf) && WellFormed(data, categoryOf) && data.uniqueName == n && i < |d.children|
    ensures var x := EntriesUpdated(d.children, n, data)[i];
      x.key == d.children[i].key == x.data.uniqueName && WellFormed(x.data, categoryOf)
  {
    hide WellFormed;
    WellFormedEntry(d, categoryOf, i);
  }

  lemma WellFormedAt(d: BlockData, categoryOf: string -> Category)
    requires d.uniqueName != "" && d.category == categoryOf(d.uniqueName) && DistinctKeys(d.children)
    requires forall i :: 0 <= i < |d.children| ==>
               d.children[i].key == d.children[i].data.uniqueName && WellFormed(d.children[i].data, categoryOf)
    ensures WellFormed(d, categoryOf)
  {
  }

  lemma EntriesUpdatedWellFormed(d: BlockData, categoryOf: string -> Category, n: string, data: BlockData)
    requires WellFormed(d, categoryOf) && WellFormed(data, categoryOf) && data.uniqueName == n
    ensures WellFormed(d.(children := EntriesUpdated(d.children, n, data)), categoryOf)
  {
    hide WellFormed, EntriesUpdated;
    var e := d.(children := EntriesUpdated(d.children, n, data));
    WellFormedKeys(d, categoryOf);
    forall i | 0 <= i < |e.children|
      ensures e.children[i].key == d.children[i].key == e.children[i].data.uniqueName && WellFormed(e.children[i].data, categoryOf)
    {
      EntryUpdated(d, categoryOf, n, data, i);
    }
    WellFormedAt(e, categoryOf);
  }

  /** Replacing a part by one of the same name and category keeps a snapshot well formed. */
  lemma {:induction false} UpdatedWellFormed(d: BlockData, categoryOf: string -> Category, names: seq<string>,
                                             part: BlockData)
    requires WellFormed(d, categoryOf) && WellFormed(part, categoryOf)
    requires Follow(d, names).Some? && part.uniqueName == Follow(d, names).value.uniqueName
    ensures WellFormed(Updated(d, names, part), categoryOf) && Updated(d, names, part).uniqueName == d.uniqueName
    decreases |names|
  {
    hide WellFormed;
    if |names| != 0 {
      var c := Lookup(d.children, names[0]).value;
      var i :| 0 <= i < |d.children| && d.children[i].key == names[0] && d.children[i].data == c;
      WellFormedEntry(d, categoryOf, i);
      UpdatedWellFormed(c, categoryOf, names[1..], part);
      EntriesUpdatedWellFormed(d, categoryOf, names[0], Updated(c, names[1..], part));
    }
  }

  // ---- runs ----

  /** A message for the graph that these names lead to from the mirrored block. */
  datatype Step = Step(msg: Message, names: seq<string>)

  /** The step can be followed: it is for a graph of the snapshot, a block comes before the edges that
      name it, and a graph that is inspected shows the ports it had. */
  ghost predicate Follows(d: BlockData, step: Step) {
    var part := Follow(d, step.names);
    && part.Some? && part.value.category == TransparentBlockGroup && !step.msg.SchedulerInspected?
    && BlockBeforeEdges(part.value, step.msg)
    && (step.msg.BlockInspected? || step.msg.GraphInspected? ==>
          |step.names| == 0 || (step.msg.data.inputPorts == part.value.inputPorts && step.msg.data.outputPorts == part.value.outputPorts))
  }

  /** The snapshot after a step. */
  ghost function AfterStep(d: BlockData, step: Step): BlockData {
    var part := Follow(d, step.names);
    if part.None? then d else Updated(d, step.names, AfterMessage(part.value, step.msg))
  }

  /** A message anywhere below a mirrored block leaves that block in step with the snapshot so changed. */
  lemma StepKeepsInStep(m: UiGraphModel, root: UiGraphBlock?, was: Before, w: View, sent: seq<Request>,
                        a: UiGraphBlock, d: BlockData, step: Step, b: UiGraphBlock)
    requires ValidView(m, was.view, root) && ValidView(m, w, root) && WellFormedMessage(step.msg, m.categoryOf)
    requires WellFormed(d, m.categoryOf) && InStep(was.view, a, d) && Follows(d, step)
    requires WalkDown(was.view, a, step.names) == Some(b) && Outcome(step.msg, b, was, w, sent)
    ensures InStep(w, a, AfterStep(d, step)) && WellFormed(AfterStep(d, step), m.categoryOf)
  {
    hide ValidView, WellFormed, InStep, Outcome, OnlyBelow, AfterMessage, BlockBeforeEdges, WellFormedMessage;
    var part := Follow(d, step.names).value;
    StepFollows(m, root, was.view, a, d, step.names, b);
    StepName(was.view, b, part);
    MessageInStep(m, root, was, w, sent, step.msg, b, part);
    StepName(w, b, AfterMessage(part, step.msg));
    OutcomeBelow(step.msg, b, was, w, sent);
    if step.msg.BlockInspected? || step.msg.GraphInspected? {
      InspectedIs(part, step.msg);
      if |step.names| != 0 {
        ShownAfter(m, was.view, w, b, part, step.msg.data);
      }
    }
    StepAround(m, root, was.view, w, a, d, step.names, b, AfterMessage(part, step.msg));
    UpdatedWellFormed(d, m.categoryOf, step.names, AfterMessage(part, step.msg));
  }

  lemma ShownAfter(m: UiGraphModel, v: View, w: View, b: UiGraphBlock, d: BlockData, e: BlockData)
    requires WellFormed(d, m.categoryOf) && WellFormed(e, m.categoryOf) && InStep(v, b, d) && InStep(w, b, e)
    requires d.category == TransparentBlockGroup && e.inputPorts == d.inputPorts && e.outputPorts == d.outputPorts
    ensures SameShown(v, w, b)
  {
  }

  lemma InspectedIs(d: BlockData, msg: Message)
    requires msg.BlockInspected? || msg.GraphInspected?
    ensures AfterMessage(d, msg) == msg.data
  {
  }

  /** A consumed message has taken the tree from v to w; it was for the block at the end of the names. */
  ghost predicate Steps(m: UiGraphModel, root: UiGraphBlock?, a: UiGraphBlock, v: View, w: View, step: Step) {
    && ValidView(m, v, root) && ValidView(m, w, root) && WellFormedMessage(step.msg, m.categoryOf)
    && WalkDown(v, a, step.names).Some?
    && exists n: nat, sent :: Outcome(step.msg, WalkDown(v, a, step.names).value, Before(v, n), w, sent)
  }

  ghost function AfterSteps(d: BlockData, steps: seq<Step>): BlockData {
    if |steps| == 0 then d else AfterStep(AfterSteps(d, steps[..|steps| - 1]), steps[|steps| - 1])
  }

  ghost predicate AllFollow(d: BlockData, steps: seq<Step>) {
    |steps| == 0
    || (AllFollow(d, steps[..|steps| - 1]) && Follows(AfterSteps(d, steps[..|steps| - 1]), steps[|steps| - 1]))
  }

  /** Over any run of such messages the block stays in step with its snapshot as the messages change it. */
  lemma {:induction false} RunKeepsInStep(m: UiGraphModel, root: UiGraphBlock?, a: UiGraphBlock, d: BlockData,
                                          steps: seq<Step>, views: seq<View>)
    requires |views| == |steps| + 1 && WellFormed(d, m.categoryOf) && InStep(views[0], a, d) && AllFollow(d, steps)
    requires forall i :: 0 <= i < |steps| ==> Steps(m, root, a, views[i], views[i + 1], steps[i])
    ensures InStep(views[|steps|], a, AfterSteps(d, steps)) && WellFormed(AfterSteps(d, steps), m.categoryOf)
    decreases |steps|
  {
    hide ValidView, WellFormed, InStep, Outcome, Follows, AfterStep, WellFormedMessage;
    if |steps| != 0 {
      var k := |steps| - 1;
      RunKeepsInStep(m, root, a, d, steps[..k], views[..k + 1]);
      assert Steps(m, root, a, views[k], views[k + 1], steps[k]);
      var b := WalkDown(views[k], a, steps[k].names).value;
      var n: nat, sent :| Outcome(steps[k].msg, b, Before(views[k], n), views[k + 1], sent);
      StepKeepsInStep(m, root, Before(views[k], n), views[k + 1], sent, a, AfterSteps(d, steps[..k]), steps[k], b);
    }
  }

  // ---- inspected schedulers ----

  /** The graph of an inspected scheduler is in step with the message. */
  lemma InspectedInStep(b: UiGraphBlock, was: Before, w: View, sent: seq<Request>, msg: Message)
    requires Outcome(msg, b, was, w, sent) && msg.SchedulerInspected?
    ensures b in w && |w[b].children| == 1 == |msg.data.children|
    ensures InStep(w, w[b].children[0], msg.data.children[0].data)
  {
    MirrorsInStep(was, w, sent, w[b].children[0], msg.data.children[0].data);
  }

  /** A scheduler shows the ports of what it held before the message, so one that held nothing shows none yet. */
  lemma InspectedPorts(m: UiGraphModel, root: UiGraphBlock?, v0: View, v: View, b: UiGraphBlock, d: BlockData,
                       inputs: bool, n: string)
    requires ValidView(m, v0, root) && |d.children| == 1 && FollowsInspection(v0, v, b, d)
    ensures v0[b].children == [] ==> v[b].inputPorts == [] == v[b].outputPorts
    ensures var exports := if inputs then ExportsAfter(v0[b].exportedInputs, d.exportedInputs)
                           else ExportsAfter(v0[b].exportedOutputs, d.exportedOutputs);
      n in (if inputs then v[b].inputPorts else v[b].outputPorts) <==>
        && v0[b].children != [] && v0[b].children[0] in v0
        && exists e :: e in exports && e.exportedName == n && IsReal(v0, v0[v0[b].children[0]].children, e, inputs)
  {
    hide ValidView, IsReal;
    SchedulerPortsAre(m, root, v0, b, ExportsAfter(v0[b].exportedInputs, d.exportedInputs), true, n);
    SchedulerPortsAre(m, root, v0, b, ExportsAfter(v0[b].exportedOutputs, d.exportedOutputs), false, n);
  }
}
