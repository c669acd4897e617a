/** Whether a block is connected to another one through the edges between the children of one
    graph (UiGraphModel::blockInTree in src/ui/GraphModel.cpp). The search keeps no record of where
    it has been, so on edges that form a ring it may not end; `depth` bounds the nested calls, and
    None means that they were not enough. */
module BlockReachability {
  import opened GraphModel
  import opened Shared

  datatype Role = Source | Destination

  function Opposite(role: Role): Role {
    if role == Source then Destination else Source
  }

  function GetBlock(e: UiGraphEdge, role: Role): UiGraphBlock {
    if role == Source then e.source else e.destination
  }

  // ---- the search ----

  /** The search from `tree` against the edges (Source) or along them (Destination). */
  function InDirection(edges: seq<UiGraphEdge>, block: UiGraphBlock, tree: UiGraphBlock, direction: Role, depth: nat): Option<bool>
    decreases depth, |edges| + 1
  {
    if block.parentBlock == null then Some(false)
    else if block == tree then Some(true)
    else if depth == 0 then None
    else AmongEdges(edges, block, tree, direction, depth, 0)
  }

  /** The loop over the edges at `tree`, from position i on; it stops at the first neighbour that leads to the block. */
  function AmongEdges(edges: seq<UiGraphEdge>, block: UiGraphBlock, tree: UiGraphBlock, direction: Role, depth: nat,
                      i: nat): Option<bool>
    requires 0 < depth && i <= |edges|
    decreases depth, |edges| - i
  {
    if i == |edges| then Some(false)
    else if GetBlock(edges[i], Opposite(direction)) == tree then
      match InDirection(edges, block, GetBlock(edges[i], direction), direction, depth - 1)
      case None => None
      case Some(found) => if found then Some(true) else AmongEdges(edges, block, tree, direction, depth, i + 1)
    else AmongEdges(edges, block, tree, direction, depth, i + 1)
  }

  /** blockInTree; `edges` are the edges of the graph that holds `block`. */
  function BlockInTree(edges: seq<UiGraphEdge>, block: UiGraphBlock, tree: UiGraphBlock, depth: nat): Option<bool> {
    match InDirection(edges, block, tree, Source, depth)
    case None => None
    case Some(found) => if found then Some(true) else InDirection(edges, block, tree, Destination, depth)
  }

  /** One direction ends, with this answer. */
  ghost predicate Ends(edges: seq<UiGraphEdge>, block: UiGraphBlock, tree: UiGraphBlock, direction: Role, answer: bool) {
    exists depth: nat :: InDirection(edges, block, tree, direction, depth) == Some(answer)
  }

  /** The search ends, with this answer. */
  ghost predicate Answers(edges: seq<UiGraphEdge>, block: UiGraphBlock, tree: UiGraphBlock, answer: bool) {
    exists depth: nat :: BlockInTree(edges, block, tree, depth) == Some(answer)
  }

  // ---- walks ----

  /** An edge by which the search goes on from a block: one that ends there if the search goes against
      the edges, one that starts there if it goes along them. */
  ghost predicate At(edges: seq<UiGraphEdge>, i: nat, tree: UiGraphBlock, direction: Role) {
    i < |edges| && tree == if direction == Source then edges[i].destination else edges[i].source
  }

  function Next(edges: seq<UiGraphEdge>, i: nat, direction: Role): UiGraphBlock
    requires i < |edges|
  {
    if direction == Source then edges[i].source else edges[i].destination
  }

  /** w lists positions of edges, each of which starts where the one before it ends. */
  ghost predicate IsWalk(edges: seq<UiGraphEdge>, w: seq<nat>, tree: UiGraphBlock, direction: Role) {
    w == [] || (At(edges, w[0], tree, direction) && IsWalk(edges, w[1..], Next(edges, w[0], direction), direction))
  }

  function End(edges: seq<UiGraphEdge>, w: seq<nat>, tree: UiGraphBlock, direction: Role): UiGraphBlock
    requires IsWalk(edges, w, tree, direction)
  {
    if w == [] then tree else End(edges, w[1..], Next(edges, w[0], direction), direction)
  }

  ghost predicate Leads(edges: seq<UiGraphEdge>, w: seq<nat>, tree: UiGraphBlock, block: UiGraphBlock, direction: Role) {
    IsWalk(edges, w, tree, direction) && End(edges, w, tree, direction) == block
  }

  ghost predicate Reaches(edges: seq<UiGraphEdge>, tree: UiGraphBlock, block: UiGraphBlock, direction: Role) {
    exists w :: Leads(edges, w, tree, block, direction)
  }

  ghost predicate IsRing(edges: seq<UiGraphEdge>, c: seq<nat>, tree: UiGraphBlock, direction: Role) {
    c != [] && Leads(edges, c, tree, tree, direction)
  }

  /** A walk from the block enters a ring. */
  ghost predicate Lasso(edges: seq<UiGraphEdge>, w: seq<nat>, c: seq<nat>, tree: UiGraphBlock, direction: Role) {
    IsWalk(edges, w, tree, direction) && IsRing(edges, c, End(edges, w, tree, direction), direction)
  }

  ghost predicate RingAhead(edges: seq<UiGraphEdge>, tree: UiGraphBlock, direction: Role) {
    exists w, c :: Lasso(edges, w, c, tree, direction)
  }

  /** Nothing to be found from here, and no ring to get lost in. */
  ghost predicate DeadEnd(edges: seq<UiGraphEdge>, block: UiGraphBlock, tree: UiGraphBlock, direction: Role) {
    !Reaches(edges, tree, block, direction) && !RingAhead(edges, tree, direction)
  }

  /** All edges at `tree` before position i lead into dead ends. */
  ghost predicate DeadBefore(edges: seq<UiGraphEdge>, block: UiGraphBlock, tree: UiGraphBlock, direction: Role, i: nat) {
    forall j: nat | j < i && At(edges, j, tree, direction) :: DeadEnd(edges, block, Next(edges, j, direction), direction)
  }

  /** The walk leads to the block, and on its way the edges before the ones it takes lead into dead ends. */
  ghost predicate FirstWay(edges: seq<UiGraphEdge>, w: seq<nat>, tree: UiGraphBlock, block: UiGraphBlock,
                           direction: Role) {
    if w == [] then tree == block
    else
      && tree != block && At(edges, w[0], tree, direction)
      && DeadBefore(edges, block, tree, direction, w[0])
      && FirstWay(edges, w[1..], Next(edges, w[0], direction), block, direction)
  }

  ghost predicate HasFirstWay(edges: seq<UiGraphEdge>, tree: UiGraphBlock, block: UiGraphBlock, direction: Role) {
    exists w :: FirstWay(edges, w, tree, block, direction)
  }

  /** No walk along the edges comes back to where it started. */
  ghost predicate Acyclic(edges: seq<UiGraphEdge>) {
    forall i: nat, c | i < |edges| :: !IsRing(edges, c, edges[i].source, Destination)
  }

  // ---- walks: joining, turning round, repeating ----

  lemma {:induction false} Joined(edges: seq<UiGraphEdge>, u: seq<nat>, v: seq<nat>, tree: UiGraphBlock,
                                  direction: Role)
    requires IsWalk(edges, u, tree, direction) && IsWalk(edges, v, End(edges, u, tree, direction), direction)
    ensures IsWalk(edges, u + v, tree, direction)
    ensures End(edges, u + v, tree, direction) == End(edges, v, End(edges, u, tree, direction), direction)
  {
    if u == [] {
      assert u + v == v;
    } else {
      Joined(edges, u[1..], v, Next(edges, u[0], direction), direction);
      assert (u + v)[1..] == u[1..] + v;
    }
  }

  lemma {:induction false} Split(edges: seq<UiGraphEdge>, w: seq<nat>, k: nat, tree: UiGraphBlock, direction: Role)
    requires IsWalk(edges, w, tree, direction) && k <= |w|
    ensures IsWalk(edges, w[..k], tree, direction)
    ensures IsWalk(edges, w[k..], End(edges, w[..k], tree, direction), direction)
    ensures End(edges, w, tree, direction) == End(edges, w[k..], End(edges, w[..k], tree, direction), direction)
  {
    if k == 0 {
      assert w[..0] == [] && w[0..] == w;
    } else {
      Split(edges, w[1..], k - 1, Next(edges, w[0], direction), direction);
      assert w[..k][1..] == w[1..][..k - 1] && w[1..][k - 1..] == w[k..];
    }
  }

  function Reversed(w: seq<nat>): seq<nat> {
    if w == [] then [] else Reversed(w[1..]) + [w[0]]
  }

  /** A walk against the edges is a walk along them, read backwards. */
  lemma {:induction false} TurnRound(edges: seq<UiGraphEdge>, w: seq<nat>, tree: UiGraphBlock, direction: Role)
    requires IsWalk(edges, w, tree, direction)
    ensures Leads(edges, Reversed(w), End(edges, w, tree, direction), tree, Opposite(direction))
    ensures |Reversed(w)| == |w|
  {
    if w != [] {
      var end := End(edges, w, tree, direction);
      TurnRound(edges, w[1..], Next(edges, w[0], direction), direction);
      var last := [w[0]];
      assert last[1..] == [];
      assert IsWalk(edges, last, Next(edges, w[0], direction), Opposite(direction));
      Joined(edges, Reversed(w[1..]), last, end, Opposite(direction));
    }
  }

  lemma ReachesTurned(edges: seq<UiGraphEdge>, a: UiGraphBlock, b: UiGraphBlock, direction: Role)
    ensures Reaches(edges, a, b, direction) <==> Reaches(edges, b, a, Opposite(direction))
  {
    if w :| Leads(edges, w, a, b, direction) {
      TurnRound(edges, w, a, direction);
    }
    if w :| Leads(edges, w, b, a, Opposite(direction)) {
      TurnRound(edges, w, b, Opposite(direction));
    }
  }

  lemma AcyclicHasNoRing(edges: seq<UiGraphEdge>, tree: UiGraphBlock, direction: Role)
    requires Acyclic(edges)
    ensures !RingAhead(edges, tree, direction)
  {
    if w, c :| Lasso(edges, w, c, tree, direction) {
      var start := End(edges, w, tree, direction);
      if direction == Source {
        TurnRound(edges, c, start, direction);
      }
      var d := if direction == Source then Reversed(c) else c;
      assert edges[d[0]].source == start && IsRing(edges, d, start, Destination);
    }
  }

  lemma {:induction false} Pigeonhole(w: seq<nat>, n: nat) returns (i: nat, j: nat)
    requires |w| > n && forall k :: 0 <= k < |w| ==> w[k] < n
    ensures i < j < |w| && w[i] == w[j]
    decreases n
  {
    assert w[0] < n;
    if a, b :| 0 <= a < b < |w| && w[a] == n - 1 == w[b] {
      i, j := a, b;
    } else if a :| 0 <= a < |w| && w[a] == n - 1 {
      var u := w[..a] + w[a + 1..];
      forall k | 0 <= k < |u|
        ensures u[k] < n - 1
      {
        assert u[k] == w[if k < a then k else k + 1];
      }
      var c, d := Pigeonhole(u, n - 1);
      i, j := if c < a then c else c + 1, if d < a then d else d + 1;
    } else {
      i, j := Pigeonhole(w, n - 1);
    }
  }

  lemma {:induction false} WalkPositions(edges: seq<UiGraphEdge>, w: seq<nat>, tree: UiGraphBlock, direction: Role)
    requires IsWalk(edges, w, tree, direction)
    ensures forall k :: 0 <= k < |w| ==> w[k] < |edges|
  {
    if w != [] {
      WalkPositions(edges, w[1..], Next(edges, w[0], direction), direction);
      assert forall k :: 0 < k < |w| ==> w[k] == w[1..][k - 1];
    }
  }

  /** A walk of more edges than there are takes one of them twice. */
  lemma LongWalkHasRing(edges: seq<UiGraphEdge>, w: seq<nat>, tree: UiGraphBlock, direction: Role)
    requires IsWalk(edges, w, tree, direction) && |w| > |edges|
    ensures RingAhead(edges, tree, direction)
  {
    WalkPositions(edges, w, tree, direction);
    var i, j := Pigeonhole(w, |edges|);
    Split(edges, w, j, tree, direction);
    Split(edges, w[..j], i, tree, direction);
    Split(edges, w, i, tree, direction);
    assert w[..j][..i] == w[..i];
    var u, c := w[..i], w[..j][i..];
    assert c[0] == w[i] && w[j..][0] == w[j];
    assert Lasso(edges, u, c, tree, direction);
  }

  /** Going round a ring gives walks of any length. */
  lemma {:induction false} RoundAndRound(edges: seq<UiGraphEdge>, c: seq<nat>, tree: UiGraphBlock, direction: Role,
                                         n: nat)
    returns (w: seq<nat>)
    requires IsRing(edges, c, tree, direction)
    ensures Leads(edges, w, tree, tree, direction) && |w| >= n
  {
    if n == 0 {
      w := [];
    } else {
      var u := RoundAndRound(edges, c, tree, direction, n - 1);
      Joined(edges, c, u, tree, direction);
      w := c + u;
    }
  }

  lemma RingGivesLongWalk(edges: seq<UiGraphEdge>, tree: UiGraphBlock, direction: Role, n: nat) returns (w: seq<nat>)
    requires RingAhead(edges, tree, direction)
    ensures IsWalk(edges, w, tree, direction) && |w| >= n
  {
    var u, c :| Lasso(edges, u, c, tree, direction);
    var v := RoundAndRound(edges, c, End(edges, u, tree, direction), direction, n);
    Joined(edges, u, v, tree, direction);
    w := u + v;
  }

  // ---- what the search answers ----

  lemma {:induction false} AmongEdgesFalse(edges: seq<UiGraphEdge>, block: UiGraphBlock, tree: UiGraphBlock,
                                           direction: Role, depth: nat, i: nat)
    requires 0 < depth && i <= |edges|
    ensures AmongEdges(edges, block, tree, direction, depth, i) == Some(false) <==>
            forall j: nat | i <= j && At(edges, j, tree, direction) ::
              InDirection(edges, block, Next(edges, j, direction), direction, depth - 1) == Some(false)
    decreases |edges| - i
  {
    if i < |edges| {
      AmongEdgesFalse(edges, block, tree, direction, depth, i + 1);
      assert At(edges, i, tree, direction) <==> GetBlock(edges[i], Opposite(direction)) == tree;
    }
  }

  /** The edge at which the loop finds the block, and those that it tried before. */
  ghost predicate FoundAt(edges: seq<UiGraphEdge>, block: UiGraphBlock, tree: UiGraphBlock, direction: Role,
                          depth: nat, i: nat, k: nat)
    requires 0 < depth
  {
    && i <= k && At(edges, k, tree, direction)
    && InDirection(edges, block, Next(edges, k, direction), direction, depth - 1) == Some(true)
    && forall j: nat | i <= j < k && At(edges, j, tree, direction) ::
         InDirection(edges, block, Next(edges, j, direction), direction, depth - 1) == Some(false)
  }

  lemma {:induction false} AmongEdgesTrue(edges: seq<UiGraphEdge>, block: UiGraphBlock, tree: UiGraphBlock,
                                          direction: Role, depth: nat, i: nat)
    requires 0 < depth && i <= |edges|
    ensures AmongEdges(edges, block, tree, direction, depth, i) == Some(true) <==>
            exists k :: FoundAt(edges, block, tree, direction, depth, i, k)
    decreases |edges| - i
  {
    if i < |edges| {
      AmongEdgesTrue(edges, block, tree, direction, depth, i + 1);
      assert At(edges, i, tree, direction) <==> GetBlock(edges[i], Opposite(direction)) == tree;
      if AmongEdges(edges, block, tree, direction, depth, i) == Some(true) {
        if At(edges, i, tree, direction) && InDirection(edges, block, Next(edges, i, direction), direction, depth - 1) == Some(true) {
          assert FoundAt(edges, block, tree, direction, depth, i, i);
        } else {
          var k :| FoundAt(edges, block, tree, direction, depth, i + 1, k);
          assert FoundAt(edges, block, tree, direction, depth, i, k);
        }
      }
      if k :| FoundAt(edges, block, tree, direction, depth, i, k) {
        if k != i {
          assert FoundAt(edges, block, tree, direction, depth, i + 1, k);
        }
      }
    }
  }

  /** A deeper search gives the same answer. */
  lemma {:induction false} DeeperAgrees(edges: seq<UiGraphEdge>, block: UiGraphBlock, tree: UiGraphBlock,
                                        direction: Role, depth: nat, more: nat)
    requires InDirection(edges, block, tree, direction, depth).Some? && depth <= more
    ensures InDirection(edges, block, tree, direction, more) == InDirection(edges, block, tree, direction, depth)
    decreases depth
  {
    if block.parentBlock != null && block != tree {
      forall j: nat | At(edges, j, tree, direction) && InDirection(edges, block, Next(edges, j, direction), direction, depth - 1).Some?
        ensures InDirection(edges, block, Next(edges, j, direction), direction, more - 1)
                == InDirection(edges, block, Next(edges, j, direction), direction, depth - 1)
      {
        DeeperAgrees(edges, block, Next(edges, j, direction), direction, depth - 1, more - 1);
      }
      AmongEdgesFalse(edges, block, tree, direction, depth, 0);
      AmongEdgesFalse(edges, block, tree, direction, more, 0);
      AmongEdgesTrue(edges, block, tree, direction, depth, 0);
      AmongEdgesTrue(edges, block, tree, direction, more, 0);
      if InDirection(edges, block, tree, direction, depth).value {
        var k :| FoundAt(edges, block, tree, direction, depth, 0, k);
        assert FoundAt(edges, block, tree, direction, more, 0, k);
      }
    }
  }

  /** A search that comes back empty has followed every walk to its end. */
  lemma {:induction false} EmptySearchBoundsWalks(edges: seq<UiGraphEdge>, block: UiGraphBlock, tree: UiGraphBlock,
                                                  direction: Role, depth: nat, w: seq<nat>)
    requires block.parentBlock != null && InDirection(edges, block, tree, direction, depth) == Some(false)
    requires IsWalk(edges, w, tree, direction)
    ensures |w| <= depth && End(edges, w, tree, direction) != block
    decreases depth
  {
    if w != [] {
      AmongEdgesFalse(edges, block, tree, direction, depth, 0);
      EmptySearchBoundsWalks(edges, block, Next(edges, w[0], direction), direction, depth - 1, w[1..]);
    }
  }

  lemma {:induction false} FoundIsReached(edges: seq<UiGraphEdge>, block: UiGraphBlock, tree: UiGraphBlock,
                                          direction: Role, depth: nat)
    requires InDirection(edges, block, tree, direction, depth) == Some(true)
    ensures Reaches(edges, tree, block, direction)
    decreases depth
  {
    if block == tree {
      assert Leads(edges, [], tree, block, direction);
    } else {
      AmongEdgesTrue(edges, block, tree, direction, depth, 0);
      var k :| FoundAt(edges, block, tree, direction, depth, 0, k);
      FoundIsReached(edges, block, Next(edges, k, direction), direction, depth - 1);
      var w :| Leads(edges, w, Next(edges, k, direction), block, direction);
      assert ([k] + w)[1..] == w;
      assert Leads(edges, [k] + w, tree, block, direction);
    }
  }

  /** A search that runs out of depth is on a walk of that many edges. */
  lemma {:induction false} UnfinishedGivesWalk(edges: seq<UiGraphEdge>, block: UiGraphBlock, tree: UiGraphBlock,
                                               direction: Role, depth: nat)
    returns (w: seq<nat>)
    requires InDirection(edges, block, tree, direction, depth) == None
    ensures IsWalk(edges, w, tree, direction) && |w| == depth
    decreases depth
  {
    if depth == 0 {
      w := [];
    } else {
      var k := UnfinishedEdge(edges, block, tree, direction, depth, 0);
      var u := UnfinishedGivesWalk(edges, block, Next(edges, k, direction), direction, depth - 1);
      w := [k] + u;
      assert w[1..] == u;
    }
  }

  lemma {:induction false} UnfinishedEdge(edges: seq<UiGraphEdge>, block: UiGraphBlock, tree: UiGraphBlock,
                                          direction: Role, depth: nat, i: nat)
    returns (k: nat)
    requires 0 < depth && i <= |edges| && AmongEdges(edges, block, tree, direction, depth, i) == None
    ensures At(edges, k, tree, direction) && InDirection(edges, block, Next(edges, k, direction), direction, depth - 1) == None
    decreases |edges| - i
  {
    if GetBlock(edges[i], Opposite(direction)) == tree && InDirection(edges, block, GetBlock(edges[i], direction), direction, depth - 1) == None {
      k := i;
    } else {
      k := UnfinishedEdge(edges, block, tree, direction, depth, i + 1);
    }
  }

  /** Without a ring ahead as many nested calls as there are edges, and one more, are enough. */
  lemma EndsWithoutRing(edges: seq<UiGraphEdge>, block: UiGraphBlock, tree: UiGraphBlock, direction: Role)
    requires !RingAhead(edges, tree, direction)
    ensures InDirection(edges, block, tree, direction, |edges| + 1).Some?
  {
    if InDirection(edges, block, tree, direction, |edges| + 1) == None {
      var w := UnfinishedGivesWalk(edges, block, tree, direction, |edges| + 1);
      LongWalkHasRing(edges, w, tree, direction);
    }
  }

  /** A direction comes back empty exactly when it starts at a dead end; it then needs no more depth than
      there are edges, and one. */
  lemma EmptyExactlyWhenDeadEnd(edges: seq<UiGraphEdge>, block: UiGraphBlock, tree: UiGraphBlock, direction: Role)
    requires block.parentBlock != null
    ensures Ends(edges, block, tree, direction, false) <==> DeadEnd(edges, block, tree, direction)
    ensures DeadEnd(edges, block, tree, direction) ==> InDirection(edges, block, tree, direction, |edges| + 1) == Some(false)
  {
    if depth: nat :| InDirection(edges, block, tree, direction, depth) == Some(false) {
      if w :| Leads(edges, w, tree, block, direction) {
        EmptySearchBoundsWalks(edges, block, tree, direction, depth, w);
      }
      if RingAhead(edges, tree, direction) {
        var w := RingGivesLongWalk(edges, tree, direction, depth + 1);
        EmptySearchBoundsWalks(edges, block, tree, direction, depth, w);
      }
    }
    if DeadEnd(edges, block, tree, direction) {
      EndsWithoutRing(edges, block, tree, direction);
      if InDirection(edges, block, tree, direction, |edges| + 1).value {
        FoundIsReached(edges, block, tree, direction, |edges| + 1);
      }
    }
  }

  lemma {:induction false} FoundHasFirstWay(edges: seq<UiGraphEdge>, block: UiGraphBlock, tree: UiGraphBlock,
                                            direction: Role, depth: nat)
    returns (w: seq<nat>)
    requires InDirection(edges, block, tree, direction, depth) == Some(true)
    ensures FirstWay(edges, w, tree, block, direction)
    decreases depth
  {
    if block == tree {
      w := [];
    } else {
      AmongEdgesTrue(edges, block, tree, direction, depth, 0);
      var k :| FoundAt(edges, block, tree, direction, depth, 0, k);
      forall j: nat | j < k && At(edges, j, tree, direction)
        ensures DeadEnd(edges, block, Next(edges, j, direction), direction)
      {
        assert Ends(edges, block, Next(edges, j, direction), direction, false);
        EmptyExactlyWhenDeadEnd(edges, block, Next(edges, j, direction), direction);
      }
      var u := FoundHasFirstWay(edges, block, Next(edges, k, direction), direction, depth - 1);
      w := [k] + u;
      assert w[1..] == u;
    }
  }

  lemma {:induction false} FirstWayIsFound(edges: seq<UiGraphEdge>, block: UiGraphBlock, tree: UiGraphBlock,
                                           direction: Role, w: seq<nat>)
    requires block.parentBlock != null && FirstWay(edges, w, tree, block, direction)
    ensures InDirection(edges, block, tree, direction, |edges| + 1 + |w|) == Some(true)
    decreases |w|
  {
    if w != [] {
      var depth := |edges| + 1 + |w|;
      FirstWayIsFound(edges, block, Next(edges, w[0], direction), direction, w[1..]);
      forall j: nat | j < w[0] && At(edges, j, tree, direction)
        ensures InDirection(edges, block, Next(edges, j, direction), direction, depth - 1) == Some(false)
      {
        EmptyExactlyWhenDeadEnd(edges, block, Next(edges, j, direction), direction);
        DeeperAgrees(edges, block, Next(edges, j, direction), direction, |edges| + 1, depth - 1);
      }
      AmongEdgesTrue(edges, block, tree, direction, depth, 0);
      assert FoundAt(edges, block, tree, direction, depth, 0, w[0]);
    }
  }

  /** A direction finds the block exactly when a walk leads to it that no ring and no dead end is tried before. */
  lemma FoundExactlyWhenFirstWay(edges: seq<UiGraphEdge>, block: UiGraphBlock, tree: UiGraphBlock, direction: Role)
    requires block.parentBlock != null
    ensures Ends(edges, block, tree, direction, true) <==> HasFirstWay(edges, tree, block, direction)
  {
    if depth: nat :| InDirection(edges, block, tree, direction, depth) == Some(true) {
      var w := FoundHasFirstWay(edges, block, tree, direction, depth);
    }
    if w :| FirstWay(edges, w, tree, block, direction) {
      FirstWayIsFound(edges, block, tree, direction, w);
    }
  }

  /** For any edges, rings or not: what blockInTree answers, and so also when it does not end. */
  lemma AnswersExactlyWhen(edges: seq<UiGraphEdge>, block: UiGraphBlock, tree: UiGraphBlock)
    requires block.parentBlock != null
    ensures Answers(edges, block, tree, false) <==>
            DeadEnd(edges, block, tree, Source) && DeadEnd(edges, block, tree, Destination)
    ensures Answers(edges, block, tree, true) <==>
            || HasFirstWay(edges, tree, block, Source)
            || (DeadEnd(edges, block, tree, Source) && HasFirstWay(edges, tree, block, Destination))
  {
    forall direction
      ensures Ends(edges, block, tree, direction, false) <==> DeadEnd(edges, block, tree, direction)
      ensures DeadEnd(edges, block, tree, direction) ==> InDirection(edges, block, tree, direction, |edges| + 1) == Some(false)
      ensures Ends(edges, block, tree, direction, true) <==> HasFirstWay(edges, tree, block, direction)
    {
      EmptyExactlyWhenDeadEnd(edges, block, tree, direction);
      FoundExactlyWhenFirstWay(edges, block, tree, direction);
    }
    if DeadEnd(edges, block, tree, Source) && DeadEnd(edges, block, tree, Destination) {
      assert BlockInTree(edges, block, tree, |edges| + 1) == Some(false);
    }
    if depth: nat :| InDirection(edges, block, tree, Source, depth) == Some(true) {
      assert BlockInTree(edges, block, tree, depth) == Some(true);
    } else if DeadEnd(edges, block, tree, Source) && HasFirstWay(edges, tree, block, Destination) {
      var depth: nat :| InDirection(edges, block, tree, Destination, depth) == Some(true);
      DeeperAgrees(edges, block, tree, Source, |edges| + 1, |edges| + 1 + depth);
      DeeperAgrees(edges, block, tree, Destination, depth, |edges| + 1 + depth);
      assert BlockInTree(edges, block, tree, |edges| + 1 + depth) == Some(true);
    }
  }

  /** For blocks that no walk joins, blockInTree ends exactly when neither direction has a ring ahead. */
  lemma UnjoinedEndsExactlyWhen(edges: seq<UiGraphEdge>, block: UiGraphBlock, tree: UiGraphBlock)
    requires block.parentBlock != null
    requires !Reaches(edges, tree, block, Source) && !Reaches(edges, tree, block, Destination)
    ensures (exists answer :: Answers(edges, block, tree, answer)) <==>
            !RingAhead(edges, tree, Source) && !RingAhead(edges, tree, Destination)
    ensures !Answers(edges, block, tree, true)
  {
    AnswersExactlyWhen(edges, block, tree);
    forall w, direction | FirstWay(edges, w, tree, block, direction)
      ensures Leads(edges, w, tree, block, direction)
    {
      FirstWayLeads(edges, w, tree, block, direction);
    }
    if !RingAhead(edges, tree, Source) && !RingAhead(edges, tree, Destination) {
      assert Answers(edges, block, tree, false);
    }
  }

  lemma {:induction false} FirstWayLeads(edges: seq<UiGraphEdge>, w: seq<nat>, tree: UiGraphBlock,
                                         block: UiGraphBlock, direction: Role)
    requires FirstWay(edges, w, tree, block, direction)
    ensures Leads(edges, w, tree, block, direction)
  {
    if w != [] {
      FirstWayLeads(edges, w[1..], Next(edges, w[0], direction), block, direction);
    }
  }

  /** On acyclic edges the search ends and is right: true exactly when a walk along the edges joins the blocks. */
  lemma BlockInTreeIsReachability(edges: seq<UiGraphEdge>, block: UiGraphBlock, tree: UiGraphBlock)
    requires Acyclic(edges) && block.parentBlock != null
    ensures BlockInTree(edges, block, tree, |edges| + 1) ==
            Some(Reaches(edges, block, tree, Destination) || Reaches(edges, tree, block, Destination))
  {
    forall direction
      ensures InDirection(edges, block, tree, direction, |edges| + 1) == Some(Reaches(edges, tree, block, direction))
    {
      AcyclicHasNoRing(edges, tree, direction);
      EndsWithoutRing(edges, block, tree, direction);
      EmptyExactlyWhenDeadEnd(edges, block, tree, direction);
      if InDirection(edges, block, tree, direction, |edges| + 1).value {
        FoundIsReached(edges, block, tree, direction, |edges| + 1);
      }
    }
    ReachesTurned(edges, tree, block, Source);
  }

  /** Children of one graph are connected to each other, or not, whichever is asked about. */
  lemma BlockInTreeIsSymmetric(edges: seq<UiGraphEdge>, a: UiGraphBlock, b: UiGraphBlock)
    requires Acyclic(edges) && a.parentBlock != null && a.parentBlock == b.parentBlock
    ensures BlockInTree(edges, a, b, |edges| + 1).Some?
    ensures BlockInTree(edges, a, b, |edges| + 1) == BlockInTree(edges, b, a, |edges| + 1)
  {
    BlockInTreeIsReachability(edges, a, b);
    BlockInTreeIsReachability(edges, b, a);
  }

  lemma OneEdge(edges: seq<UiGraphEdge>, i: nat, tree: UiGraphBlock, direction: Role)
    requires At(edges, i, tree, direction)
    ensures Leads(edges, [i], tree, Next(edges, i, direction), direction)
  {
    assert [i][1..] == [];
  }

  /** Two blocks on a ring: asked about each other they are found at the first edge at hand, and a third
      block is searched for without end. */
  lemma RingOfTwo(a: UiGraphBlock, b: UiGraphBlock, other: UiGraphBlock)
    requires a != b && other != a && other != b && a.parentBlock != null && other.parentBlock != null
    ensures var edges := [UiGraphEdge(b, 0, a, 0), UiGraphEdge(a, 0, b, 0)];
            Answers(edges, a, b, true) && forall answer :: !Answers(edges, other, b, answer)
  {
    var edges := [UiGraphEdge(b, 0, a, 0), UiGraphEdge(a, 0, b, 0)];
    assert AmongEdges(edges, a, b, Source, 1, 1) == Some(true);
    assert InDirection(edges, a, b, Source, 1) == AmongEdges(edges, a, b, Source, 1, 0) == Some(true);
    assert BlockInTree(edges, a, b, 1) == Some(true);
    OneEdge(edges, 0, b, Destination);
    OneEdge(edges, 1, a, Destination);
    Joined(edges, [0], [1], b, Destination);
    var c := [0] + [1];
    assert IsRing(edges, c, b, Destination);
    assert IsWalk(edges, [], b, Destination) && Lasso(edges, [], c, b, Destination);
    forall w, direction
      ensures !Leads(edges, w, b, other, direction)
    {
      NeverLeaves(edges, w, a, b, other, direction);
    }
    UnjoinedEndsExactlyWhen(edges, other, b);
  }

  lemma {:induction false} NeverLeaves(edges: seq<UiGraphEdge>, w: seq<nat>, a: UiGraphBlock, b: UiGraphBlock,
                                       other: UiGraphBlock, direction: Role)
    requires forall e :: e in edges ==> e.source in {a, b} && e.destination in {a, b}
    requires other !in {a, b}
    ensures !Leads(edges, w, a, other, direction) && !Leads(edges, w, b, other, direction)
  {
    if w != [] && w[0] < |edges| {
      assert edges[w[0]] in edges;
      NeverLeaves(edges, w[1..], a, b, other, direction);
    }
  }
}
