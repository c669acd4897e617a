/** What the service sends about a flowgraph, as values (src/ui/GraphModel.cpp, gr::property_map). */
module GraphSnapshot {
  import opened Shared

  datatype Category = NormalBlock | TransparentBlockGroup | ScheduledBlockGroup

  datatype PortDefinition = IndexBased(topLevel: nat) | StringBased(name: string)

  datatype EdgeData = EdgeData(source: string, sourcePort: PortDefinition,
                               destination: string, destinationPort: PortDefinition)

  /** A port of a block inside a scheduler or a graph that is shown as a port of the outer one. */
  datatype Export = Export(child: string, internalName: string, exportedName: string)

  /** One block of a snapshot. `children` lists the entries of the "children" map (or of the
      "blocks" list, where the key is the unique name) in iteration order. The exported ports come
      with the meta information, in the order of the map they are read into, and stay as they are
      where the data say nothing of them. */
  datatype BlockData = BlockData(uniqueName: string, category: Category, name: string,
                                 inputPorts: seq<string>, outputPorts: seq<string>,
                                 exportedInputs: Option<seq<Export>>, exportedOutputs: Option<seq<Export>>,
                                 children: seq<Entry>, edges: seq<EdgeData>)

  datatype Entry = Entry(key: string, data: BlockData)

  datatype Message =
    | BlockEmplaced(target: string, data: BlockData)
    | BlockRemoved(target: string, uniqueName: string)
    | BlockReplaced(target: string, replaced: string, data: BlockData)
    | BlockInspected(target: string, data: BlockData)
    | EdgeEmplaced(target: string, edge: EdgeData)
    | EdgeRemoved(target: string)
    | SchedulerInspected(serviceName: string, target: string, data: BlockData)
    | GraphInspected(target: string, data: BlockData)
    | PortExported(target: string, inputs: bool, export_: Export, flag: bool)
    | LifecycleRunning(target: string)

  function Keys(d: BlockData): set<string> {
    set i | 0 <= i < |d.children| :: d.children[i].key
  }

  /** What the service promises of block data: names are not empty, an entry's key is the unique
      name of its block, sibling keys differ, and a name always has the same category. */
  ghost predicate WellFormed(d: BlockData, categoryOf: string -> Category) {
    && d.uniqueName != ""
    && d.category == categoryOf(d.uniqueName)
    && (forall i :: 0 <= i < |d.children| ==>
          d.children[i].key == d.children[i].data.uniqueName && WellFormed(d.children[i].data, categoryOf))
    && (forall i, j :: 0 <= i < j < |d.children| ==> d.children[i].key != d.children[j].key)
  }

  ghost predicate WellFormedMessage(m: Message, categoryOf: string -> Category) {
    match m
    case BlockEmplaced(target, d) => categoryOf(target) == TransparentBlockGroup && WellFormed(d, categoryOf)
    case BlockRemoved(target, _) => categoryOf(target) == TransparentBlockGroup
    case BlockReplaced(target, _, d) => categoryOf(target) == TransparentBlockGroup && WellFormed(d, categoryOf)
    case BlockInspected(_, d) => WellFormed(d, categoryOf)
    case EdgeEmplaced(target, _) => categoryOf(target) == TransparentBlockGroup
    case EdgeRemoved(_) => true
    case SchedulerInspected(serviceName, target, d) =>
      && serviceName != "" && categoryOf(serviceName) == ScheduledBlockGroup
      && categoryOf(target) == ScheduledBlockGroup == d.category
      && |d.children| == 1 && d.children[0].key == d.children[0].data.uniqueName && WellFormed(d.children[0].data, categoryOf)
    case GraphInspected(target, d) => d.uniqueName == target && WellFormed(d, categoryOf)
    case PortExported(_, _, _, _) => true
    case LifecycleRunning(_) => true
  }

  lemma WellFormedEntry(d: BlockData, categoryOf: string -> Category, i: nat)
    requires WellFormed(d, categoryOf) && i < |d.children|
    ensures d.children[i].key == d.children[i].data.uniqueName && WellFormed(d.children[i].data, categoryOf)
    ensures d.category == categoryOf(d.uniqueName)
  {
  }

  /** The definition means the port at k: the one with this index, or the first with this name. */
  predicate Denotes(ports: seq<string>, definition: PortDefinition, k: nat) {
    match definition
    case IndexBased(i) => k == i < |ports|
    case StringBased(n) => k < |ports| && ports[k] == n && forall j :: 0 <= j < k ==> ports[j] != n
  }

  /** There is a port that the definition means. */
  predicate HasPort(ports: seq<string>, definition: PortDefinition) {
    match definition
    case IndexBased(i) => i < |ports|
    case StringBased(n) => n in ports
  }

  function FindPort(ports: seq<string>, definition: PortDefinition): (r: Option<nat>)
    ensures r.Some? <==> HasPort(ports, definition)
    ensures forall k: nat :: Denotes(ports, definition, k) <==> r == Some(k)
  {
    match definition
    case IndexBased(i) => if i < |ports| then Some(i) else None
    case StringBased(n) => FirstIndex(ports, n, 0)
  }

  function FirstIndex(ports: seq<string>, n: string, from: nat): (r: Option<nat>)
    requires from <= |ports|
    ensures r.Some? ==> from <= r.value < |ports| && ports[r.value] == n && forall j :: from <= j < r.value ==> ports[j] != n
    ensures r.None? ==> forall j :: from <= j < |ports| ==> ports[j] != n
    decreases |ports| - from
  {
    if from == |ports| then None else if ports[from] == n then Some(from) else FirstIndex(ports, n, from + 1)
  }

  function Lookup(children: seq<Entry>, key: string): (r: Option<BlockData>)
    ensures r.Some? ==> exists i :: 0 <= i < |children| && children[i].key == key && children[i].data == r.value
    ensures r.None? ==> forall i :: 0 <= i < |children| ==> children[i].key != key
  {
    if |children| == 0 then None
    else if children[0].key == key then Some(children[0].data)
    else Lookup(children[1..], key)
  }

  /** The part of a snapshot that is reached by going down through graphs along these names. */
  function Follow(d: BlockData, names: seq<string>): Option<BlockData>
    decreases |names|
  {
    if |names| == 0 then Some(d)
    else if d.category != TransparentBlockGroup then None
    else
      var c := Lookup(d.children, names[0]);
      if c.None? then None else Follow(c.value, names[1..])
  }

  // ---- exported ports ----

  /** The exported ports after data have been read. */
  function ExportsAfter(own: seq<Export>, data: Option<seq<Export>>): seq<Export> {
    if data.Some? then data.value else own
  }

  /** The exported ports of all blocks but these. */
  function Dropped(exports: seq<Export>, gone: set<string>): (r: seq<Export>)
    ensures forall e :: e in r <==> e in exports && e.child !in gone
  {
    if |exports| == 0 then []
    else
      var init, last := Dropped(exports[..|exports| - 1], gone), exports[|exports| - 1];
      assert exports == exports[..|exports| - 1] + [last];
      if last.child in gone then init else init + [last]
  }

  lemma {:induction false} DroppedTwice(exports: seq<Export>, a: set<string>, b: set<string>)
    ensures Dropped(Dropped(exports, a), b) == Dropped(exports, a + b)
  {
    if |exports| != 0 {
      var init, last := exports[..|exports| - 1], exports[|exports| - 1];
      DroppedTwice(init, a, b);
      if last.child !in a {
        assert (Dropped(init, a) + [last])[..|Dropped(init, a)|] == Dropped(init, a);
      }
    }
  }

  lemma {:induction false} DroppedNone(exports: seq<Export>)
    ensures Dropped(exports, {}) == exports
  {
    if |exports| != 0 {
      DroppedNone(exports[..|exports| - 1]);
    }
  }

  /** The order of std::string. */
  predicate StringLess(a: string, b: string) {
    if |b| == 0 then false
    else if |a| == 0 then true
    else a[0] < b[0] || (a[0] == b[0] && StringLess(a[1..], b[1..]))
  }

  /** The first place where two strings differ decides, or that one of them has ended. */
  lemma {:induction false} StringLessIs(a: string, b: string)
    ensures StringLess(a, b) <==> exists k :: 0 <= k <= |a| && k < |b| && a[..k] == b[..k] && (k == |a| || a[k] < b[k])
  {
    if |a| == 0 && |b| != 0 {
      assert a[..0] == b[..0];
    } else if |a| != 0 && |b| != 0 {
      StringLessIs(a[1..], b[1..]);
      if a[0] == b[0] {
        forall k | 0 <= k <= |a[1..]| && k < |b[1..]|
          ensures a[1..][..k] == b[1..][..k] <==> a[..k + 1] == b[..k + 1]
        {
          assert a[..k + 1] == [a[0]] + a[1..][..k] && b[..k + 1] == [b[0]] + b[1..][..k];
        }
      }
    }
  }

  /** The order of the map of exported ports: by block, then by the port's names. */
  predicate ExportLess(a: Export, b: Export) {
    || StringLess(a.child, b.child)
    || (a.child == b.child && StringLess(a.internalName, b.internalName))
    || (a.child == b.child && a.internalName == b.internalName && StringLess(a.exportedName, b.exportedName))
  }

  ghost predicate InOrder(exports: seq<Export>) {
    forall i, j :: 0 <= i < j < |exports| ==> ExportLess(exports[i], exports[j])
  }

  lemma {:induction false} StringsInOrder(a: string, b: string, c: string)
    ensures StringLess(a, b) || a == b || StringLess(b, a)
    ensures StringLess(a, b) && StringLess(b, c) ==> StringLess(a, c)
  {
    if |a| != 0 && |b| != 0 {
      if |c| != 0 {
        StringsInOrder(a[1..], b[1..], c[1..]);
      } else {
        StringsInOrder(a[1..], b[1..], []);
      }
      assert a == [a[0]] + a[1..] && b == [b[0]] + b[1..];
    }
  }

  /** The block decides, then the port's own name, then its exported one. */
  lemma ExportLessIs(a: Export, b: Export)
    ensures a.child != b.child ==> (ExportLess(a, b) <==> StringLess(a.child, b.child))
    ensures a.child == b.child && a.internalName != b.internalName ==>
              (ExportLess(a, b) <==> StringLess(a.internalName, b.internalName))
    ensures a.child == b.child && a.internalName == b.internalName ==>
              (ExportLess(a, b) <==> StringLess(a.exportedName, b.exportedName))
  {
    hide StringLess;
    NotLess(a.child);
    NotLess(a.internalName);
  }

  lemma {:induction false} NotLess(a: string)
    ensures !StringLess(a, a)
  {
    if |a| != 0 {
      NotLess(a[1..]);
    }
  }

  lemma ExportsInOrder(a: Export, b: Export, c: Export)
    ensures ExportLess(a, b) || a == b || ExportLess(b, a)
    ensures ExportLess(a, b) && ExportLess(b, c) ==> ExportLess(a, c)
  {
    hide StringLess;
    StringsInOrder(a.child, b.child, c.child);
    StringsInOrder(a.internalName, b.internalName, c.internalName);
    StringsInOrder(a.exportedName, b.exportedName, c.exportedName);
  }

  /** Insertion into the ordered map; an entry that is there is not added again. */
  function Inserted(exports: seq<Export>, e: Export): (r: seq<Export>)
    ensures forall x :: x in r <==> x in exports || x == e
  {
    if |exports| == 0 then [e]
    else if exports[0] == e then exports
    else if ExportLess(e, exports[0]) then [e] + exports
    else [exports[0]] + Inserted(exports[1..], e)
  }

  /** The exported ports stay in the order of the map, on which their positions depend. */
  lemma {:induction false} InsertedInOrder(exports: seq<Export>, e: Export)
    requires InOrder(exports)
    ensures InOrder(Inserted(exports, e))
  {
    hide ExportLess;
    var r := Inserted(exports, e);
    if |exports| != 0 && exports[0] != e {
      var first, rest := exports[0], exports[1..];
      ExportsInOrder(e, first, first);
      if ExportLess(e, first) {
        forall j | 0 < j < |r|
          ensures ExportLess(e, r[j])
        {
          ExportsInOrder(e, first, r[j]);
        }
      } else {
        InsertedInOrder(rest, e);
        assert forall x :: x in rest ==> ExportLess(first, x);
        assert forall j :: 0 < j < |r| ==> r[j] in Inserted(rest, e);
      }
    }
  }

  predicate IsFor(e: Export, child: string, internalName: string) {
    e.child == child && e.internalName == internalName
  }

  /** The first entry for the port, or the end. */
  function PlaceOf(exports: seq<Export>, child: string, internalName: string): (k: nat)
    ensures k <= |exports| && (k < |exports| ==> IsFor(exports[k], child, internalName))
    ensures forall j :: 0 <= j < k ==> !IsFor(exports[j], child, internalName)
  {
    if |exports| == 0 || IsFor(exports[0], child, internalName) then 0
    else 1 + PlaceOf(exports[1..], child, internalName)
  }

  /** Without the first entry for the port; the others keep their order. */
  function Withdrawn(exports: seq<Export>, child: string, internalName: string): (r: seq<Export>)
    ensures (forall x :: x in exports ==> !IsFor(x, child, internalName)) ==> r == exports
    ensures forall k :: 0 <= k < |exports| && IsFor(exports[k], child, internalName)
                        && (forall j :: 0 <= j < k ==> !IsFor(exports[j], child, internalName)) ==>
              r == exports[..k] + exports[k + 1..]
  {
    var k := PlaceOf(exports, child, internalName);
    if k == |exports| then exports else exports[..k] + exports[k + 1..]
  }

  /** handlePortExported: the flag adds the exported port, or takes one entry of that port back. */
  function ExportsToggled(exports: seq<Export>, e: Export, flag: bool): (r: seq<Export>)
    ensures flag ==> forall x :: x in r <==> x in exports || x == e
    ensures !flag && (forall x :: x in exports ==> !IsFor(x, e.child, e.internalName)) ==> r == exports
    ensures !flag && (exists x :: x in exports && IsFor(x, e.child, e.internalName)) ==> |r| + 1 == |exports|
    ensures !flag ==> forall x :: x in exports && !IsFor(x, e.child, e.internalName) ==> x in r
  {
    if flag then Inserted(exports, e) else Withdrawn(exports, e.child, e.internalName)
  }
}
