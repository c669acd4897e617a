/** The layered layout order of a flowgraph (topologicalSort in src/ui/FlowgraphPage.cpp): level k
    holds the blocks whose longest incoming path has k edges. */
module TopologicalSort {

  datatype Edge<B> = Edge(source: B, destination: B)

  datatype BlockConnections<B> = BlockConnections(parents: set<B>, children: set<B>)

  type Graph<B(==)> = map<B, BlockConnections<B>>

  function Nodes<B>(blocks: seq<B>, edges: seq<Edge<B>>): set<B> {
    (set i | 0 <= i < |blocks| :: blocks[i])
    + (set i | 0 <= i < |edges| :: edges[i].source)
    + (set i | 0 <= i < |edges| :: edges[i].destination)
  }

  ghost predicate Adjacent<B>(edges: seq<Edge<B>>, a: B, b: B) {
    Edge(a, b) in edges
  }

  /** p is a directed path; it has |p| - 1 edges and may visit a block more than once. */
  ghost predicate IsPath<B>(edges: seq<Edge<B>>, p: seq<B>) {
    |p| > 0 && forall i :: 0 <= i < |p| - 1 ==> Adjacent(edges, p[i], p[i + 1])
  }

  /** Some path with k edges ends at b. */
  ghost predicate HasIncoming<B(!new)>(edges: seq<Edge<B>>, b: B, k: nat) {
    exists p :: IsPath(edges, p) && |p| == k + 1 && p[k] == b
  }

  /** The longest path that ends at b has k edges. */
  ghost predicate LongestIncoming<B(!new)>(edges: seq<Edge<B>>, b: B, k: nat) {
    HasIncoming(edges, b, k) && forall j: nat :: HasIncoming(edges, b, j) ==> j <= k
  }

  ghost predicate OnCycle<B(!new)>(edges: seq<Edge<B>>, a: B) {
    exists p :: IsPath(edges, p) && |p| >= 2 && p[0] == a && p[|p| - 1] == a
  }

  /** b lies on a cycle or downstream of one. */
  ghost predicate BelowCycle<B(!new)>(edges: seq<Edge<B>>, b: B) {
    exists p :: IsPath(edges, p) && p[|p| - 1] == b && OnCycle(edges, p[0])
  }

  ghost predicate Distinct<B>(s: seq<B>) {
    forall i, j :: 0 <= i < j < |s| ==> s[i] != s[j]
  }

  // ---- paths ----

  lemma ShorterIncoming<B(!new)>(edges: seq<Edge<B>>, b: B, k: nat, j: nat)
    requires HasIncoming(edges, b, k) && j <= k
    ensures HasIncoming(edges, b, j)
  {
    var p :| IsPath(edges, p) && |p| == k + 1 && p[k] == b;
    var q := p[k - j..];
    assert IsPath(edges, q) && |q| == j + 1 && q[j] == b;
  }

  lemma NoEdges<B(!new)>(edges: seq<Edge<B>>, b: B)
    ensures HasIncoming(edges, b, 0)
  {
    var p := [b];
    assert IsPath(edges, p) && |p| == 1 && p[0] == b;
  }

  /** A path with one more edge comes through a parent. */
  lemma IncomingStep<B(!new)>(edges: seq<Edge<B>>, b: B, k: nat)
    ensures HasIncoming(edges, b, k + 1) <==> exists a :: Adjacent(edges, a, b) && HasIncoming(edges, a, k)
  {
    if HasIncoming(edges, b, k + 1) {
      var p :| IsPath(edges, p) && |p| == k + 2 && p[k + 1] == b;
      var q := p[..k + 1];
      assert IsPath(edges, q) && |q| == k + 1 && q[k] == p[k];
      assert Adjacent(edges, p[k], b) && HasIncoming(edges, p[k], k);
    }
    if a :| Adjacent(edges, a, b) && HasIncoming(edges, a, k) {
      var q :| IsPath(edges, q) && |q| == k + 1 && q[k] == a;
      var p := q + [b];
      assert IsPath(edges, p) && |p| == k + 2 && p[k + 1] == b;
    }
  }

  lemma LongestIs<B(!new)>(edges: seq<Edge<B>>, b: B, k: nat)
    ensures LongestIncoming(edges, b, k) <==> HasIncoming(edges, b, k) && !HasIncoming(edges, b, k + 1)
  {
    if HasIncoming(edges, b, k) && !HasIncoming(edges, b, k + 1) {
      forall j: nat | HasIncoming(edges, b, j)
        ensures j <= k
      {
        if j > k {
          ShorterIncoming(edges, b, j, k + 1);
        }
      }
    }
  }

  /** Going round a cycle gives paths of any length. */
  lemma {:induction false} CycleIncoming<B(!new)>(edges: seq<Edge<B>>, c: seq<B>, k: nat) returns (p: seq<B>)
    requires IsPath(edges, c) && |c| >= 2 && c[0] == c[|c| - 1]
    ensures IsPath(edges, p) && |p| == k + 1 && p[k] == c[0]
  {
    if k < |c| {
      p := c[|c| - 1 - k..];
    } else {
      var q := CycleIncoming(edges, c, k - (|c| - 1));
      p := q + c[1..];
    }
  }

  lemma BelowCycleIncoming<B(!new)>(edges: seq<Edge<B>>, b: B, k: nat)
    requires BelowCycle(edges, b)
    ensures HasIncoming(edges, b, k)
  {
    var q :| IsPath(edges, q) && q[|q| - 1] == b && OnCycle(edges, q[0]);
    var c :| IsPath(edges, c) && |c| >= 2 && c[0] == q[0] && c[|c| - 1] == q[0];
    var r := CycleIncoming(edges, c, k);
    var p := r + q[1..];
    assert IsPath(edges, p) && |p| == k + |q| && p[k + |q| - 1] == b;
    ShorterIncoming(edges, b, k + |q| - 1, k);
  }

  lemma {:induction false} Pigeonhole<B>(s: seq<B>, nodes: set<B>)
    requires (forall i :: 0 <= i < |s| ==> s[i] in nodes) && |s| > |nodes|
    ensures !Distinct(s)
  {
    var last := s[|s| - 1];
    if last in s[..|s| - 1] {
      var i :| 0 <= i < |s| - 1 && s[i] == last;
    } else {
      Pigeonhole(s[..|s| - 1], nodes - {last});
    }
  }

  /** A path longer than there are blocks passes a block twice. */
  lemma LongPathHasCycle<B(!new)>(edges: seq<Edge<B>>, nodes: set<B>, b: B)
    requires b in nodes && forall e :: e in edges ==> e.source in nodes
    requires HasIncoming(edges, b, |nodes|)
    ensures BelowCycle(edges, b)
  {
    var p :| IsPath(edges, p) && |p| == |nodes| + 1 && p[|nodes|] == b;
    forall i | 0 <= i < |p|
      ensures p[i] in nodes
    {
      if i < |nodes| {
        assert Adjacent(edges, p[i], p[i + 1]);
      }
    }
    Pigeonhole(p, nodes);
    var i, j :| 0 <= i < j < |p| && p[i] == p[j];
    var c, q := p[i..j + 1], p[j..];
    assert IsPath(edges, c) && |c| >= 2 && c[0] == p[j] && c[|c| - 1] == p[j];
    assert IsPath(edges, q) && q[|q| - 1] == b && OnCycle(edges, q[0]);
  }

  // ---- the algorithm ----

  /** The graph has exactly the connections of these edges. */
  ghost predicate Connected<B(!new)>(g: Graph<B>, edges: seq<Edge<B>>) {
    forall b :: b in g ==>
      && (forall a :: a in g[b].parents <==> Adjacent(edges, a, b))
      && (forall a :: a in g[b].children <==> Adjacent(edges, b, a))
  }

  function WithBlock<B>(g: Graph<B>, b: B): Graph<B> {
    if b in g then g else g[b := BlockConnections({}, {})]
  }

  function WithEdge<B>(g: Graph<B>, e: Edge<B>): Graph<B> {
    var g1 := WithBlock(g, e.source);
    var g2 := WithBlock(g1[e.source := g1[e.source].(children := g1[e.source].children + {e.destination})], e.destination);
    g2[e.destination := g2[e.destination].(parents := g2[e.destination].parents + {e.source})]
  }

  lemma WithEdgeConnects<B(!new)>(g: Graph<B>, edges: seq<Edge<B>>, e: Edge<B>)
    requires Connected(g, edges)
    requires forall d :: d in edges ==> d.source in g && d.destination in g
    ensures WithEdge(g, e).Keys == g.Keys + {e.source, e.destination}
    ensures Connected(WithEdge(g, e), edges + [e])
  {
    var h := WithEdge(g, e);
    forall b | b in h
      ensures forall a :: a in h[b].parents <==> Adjacent(edges + [e], a, b)
      ensures forall a :: a in h[b].children <==> Adjacent(edges + [e], b, a)
    {
    }
  }

  lemma NodesStart<B>(blocks: seq<B>, edges: seq<Edge<B>>)
    ensures Nodes(blocks, []) == set j | 0 <= j < |blocks| :: blocks[j]
  {
  }

  lemma NodesStep<B>(blocks: seq<B>, edges: seq<Edge<B>>, e: Edge<B>)
    ensures Nodes(blocks, edges + [e]) == Nodes(blocks, edges) + {e.source, e.destination}
    ensures forall d :: d in edges ==> d.source in Nodes(blocks, edges) && d.destination in Nodes(blocks, edges)
  {
    var more := edges + [e];
    var sources, more_sources := set i | 0 <= i < |edges| :: edges[i].source, set i | 0 <= i < |more| :: more[i].source;
    var targets, more_targets := set i | 0 <= i < |edges| :: edges[i].destination, set i | 0 <= i < |more| :: more[i].destination;
    assert more[|edges|] == e && forall i :: 0 <= i < |edges| ==> more[i] == edges[i];
    assert more_sources == sources + {e.source};
    assert more_targets == targets + {e.destination};
  }

  lemma NotConnected<B(!new)>(g: Graph<B>, edges: seq<Edge<B>>)
    requires edges == [] && forall b :: b in g ==> g[b] == BlockConnections({}, {})
    ensures Connected(g, edges)
  {
  }

  /** Every block, with its parents and children read off the edges. */
  method Connect<B(!new,==)>(blocks: seq<B>, edges: seq<Edge<B>>) returns (g: Graph<B>)
    ensures g.Keys == Nodes(blocks, edges) && Connected(g, edges)
  {
    hide Nodes, WithEdge, Connected;
    NodesStart(blocks, edges);
    g := map[];
    for i := 0 to |blocks|
      invariant g.Keys == set j | 0 <= j < i :: blocks[j]
      invariant forall b :: b in g ==> g[b] == BlockConnections({}, {})
    {
      g := WithBlock(g, blocks[i]);
    }
    assert edges[..0] == [];
    NotConnected(g, edges[..0]);
    for i := 0 to |edges|
      invariant g.Keys == Nodes(blocks, edges[..i]) && Connected(g, edges[..i])
    {
      assert edges[..i + 1] == edges[..i] + [edges[i]];
      NodesStep(blocks, edges[..i], edges[i]);
      WithEdgeConnects(g, edges[..i], edges[i]);
      g := WithEdge(g, edges[i]);
    }
    assert edges[..|edges|] == edges;
  }

  /** The blocks without parents, in the order in which the hash map gives them. */
  method WithoutParents<B(==)>(g: Graph<B>) returns (level: seq<B>)
    ensures forall b :: b in level <==> b in g && g[b].parents == {}
    ensures Distinct(level)
  {
    level := [];
    var rest := g.Keys;
    while rest != {}
      invariant rest <= g.Keys
      invariant forall b :: b in level <==> b in g && b !in rest && g[b].parents == {}
      invariant Distinct(level)
    {
      var b :| b in rest;
      rest := rest - {b};
      if g[b].parents == {} {
        level := level + [b];
      }
    }
  }

  function EraseParent<B>(g: Graph<B>, b: B): (r: Graph<B>) {
    map a | a in g && a != b :: g[a].(parents := g[a].parents - {b})
  }

  /** Takes the blocks of a level out of the graph and out of all parent sets. */
  method EraseLevel<B(==)>(g0: Graph<B>, level: seq<B>) returns (g: Graph<B>)
    ensures g.Keys == g0.Keys - (set b | b in level)
    ensures forall b :: b in g ==> g[b].parents == g0[b].parents - (set a | a in level)
  {
    g := g0;
    for i := 0 to |level|
      invariant g.Keys == g0.Keys - (set b | b in level[..i])
      invariant forall b :: b in g ==> g[b].parents == g0[b].parents - (set a | a in level[..i])
    {
      assert level[..i + 1] == level[..i] + [level[i]];
      g := EraseParent(g, level[i]);
    }
    assert level[..|level|] == level;
  }

  function Reverse<B>(s: seq<B>): (r: seq<B>)
    ensures |r| == |s| && forall i :: 0 <= i < |s| ==> r[i] == s[|s| - 1 - i]
  {
    seq(|s|, i requires 0 <= i < |s| => s[|s| - 1 - i])
  }

  lemma ReverseMembers<B>(s: seq<B>)
    requires Distinct(s)
    ensures Distinct(Reverse(s)) && (s != [] ==> Reverse(s) != []) && forall b :: b in Reverse(s) <==> b in s
  {
    forall b | b in s
      ensures b in Reverse(s)
    {
      var i :| 0 <= i < |s| && s[i] == b;
      assert Reverse(s)[|s| - 1 - i] == b;
    }
  }

  /** After k levels the graph holds the blocks with an incoming path of k edges, and of their
      parents those that it still holds. */
  ghost predicate AfterLevels<B(!new)>(g: Graph<B>, nodes: set<B>, edges: seq<Edge<B>>, k: nat) {
    && (forall b :: b in g <==> b in nodes && HasIncoming(edges, b, k))
    && (forall b :: b in g ==> forall a :: a in g[b].parents <==> Adjacent(edges, a, b) && HasIncoming(edges, a, k))
  }

  lemma LevelStep<B(!new)>(g: Graph<B>, h: Graph<B>, nodes: set<B>, edges: seq<Edge<B>>, k: nat, level: seq<B>)
    requires AfterLevels(g, nodes, edges, k)
    requires forall e :: e in edges ==> e.source in nodes
    requires forall b :: b in level <==> b in g && g[b].parents == {}
    requires h.Keys == g.Keys - (set b | b in level)
    requires forall b :: b in h ==> h[b].parents == g[b].parents - (set a | a in level)
    ensures AfterLevels(h, nodes, edges, k + 1)
    ensures forall b :: b in level <==> b in nodes && LongestIncoming(edges, b, k)
  {
    forall b | b in nodes
      ensures HasIncoming(edges, b, k + 1) <==> b in g && b !in level
      ensures b in level <==> LongestIncoming(edges, b, k)
    {
      IncomingStep(edges, b, k);
      LongestIs(edges, b, k);
      if HasIncoming(edges, b, k + 1) {
        ShorterIncoming(edges, b, k + 1, k);
        var a :| Adjacent(edges, a, b) && HasIncoming(edges, a, k);
        assert a in g[b].parents;
      }
      if b in g && b !in level {
        var a :| a in g[b].parents;
      }
    }
    forall b | b in h
      ensures forall a :: a in h[b].parents <==> Adjacent(edges, a, b) && HasIncoming(edges, a, k + 1)
    {
      forall a
        ensures a in h[b].parents <==> Adjacent(edges, a, b) && HasIncoming(edges, a, k + 1)
      {
        if HasIncoming(edges, a, k + 1) {
          ShorterIncoming(edges, a, k + 1, k);
        }
        if Adjacent(edges, a, b) {
          assert Edge(a, b) in edges && a in nodes;
        }
      }
    }
  }

  ghost predicate Stuck<B(!new)>(g: Graph<B>) {
    forall a :: a in g ==> g[a].parents != {}
  }

  lemma SomeParent<B(!new)>(g: Graph<B>, nodes: set<B>, edges: seq<Edge<B>>, k: nat, b: B) returns (a: B)
    requires AfterLevels(g, nodes, edges, k) && b in g && (forall e :: e in edges ==> e.source in nodes) && Stuck(g)
    ensures a in g && Adjacent(edges, a, b)
  {
    a :| a in g[b].parents;
    assert Edge(a, b) in edges;
  }

  /** When no block of a non-empty rest is without parents, the rest has paths of any length. */
  lemma {:induction false} StuckIncoming<B(!new)>(g: Graph<B>, nodes: set<B>, edges: seq<Edge<B>>, k: nat, b: B, j: nat)
    requires AfterLevels(g, nodes, edges, k) && b in g && (forall e :: e in edges ==> e.source in nodes)
    requires Stuck(g)
    ensures HasIncoming(edges, b, j)
    decreases j
  {
    hide Stuck, AfterLevels, HasIncoming;
    if j == 0 {
      NoEdges(edges, b);
    } else {
      var a := SomeParent(g, nodes, edges, k, b);
      StuckIncoming(g, nodes, edges, k, a, j - 1);
      IncomingStep(edges, b, j - 1);
    }
  }

  /** What is left over at the end is what lies on a cycle or below one. */
  lemma LeftOver<B(!new)>(g: Graph<B>, nodes: set<B>, edges: seq<Edge<B>>, k: nat, b: B)
    requires AfterLevels(g, nodes, edges, k) && b in nodes && (forall e :: e in edges ==> e.source in nodes)
    requires Stuck(g)
    ensures b in g <==> BelowCycle(edges, b)
    ensures b in g <==> forall i :: 0 <= i < k ==> !LongestIncoming(edges, b, i)
  {
    if b in g {
      StuckIncoming(g, nodes, edges, k, b, |nodes|);
      LongPathHasCycle(edges, nodes, b);
      forall i | 0 <= i < k
        ensures !LongestIncoming(edges, b, i)
      {
        LongestIs(edges, b, i);
        ShorterIncoming(edges, b, k, i + 1);
      }
    } else {
      if BelowCycle(edges, b) {
        BelowCycleIncoming(edges, b, k);
      }
      var i := LongestExists(edges, b, k);
    }
  }

  lemma {:induction false} LongestExists<B(!new)>(edges: seq<Edge<B>>, b: B, k: nat) returns (i: nat)
    requires !HasIncoming(edges, b, k)
    ensures i < k && LongestIncoming(edges, b, i)
  {
    if k == 0 {
      NoEdges(edges, b);
      assert false;
    } else if HasIncoming(edges, b, k - 1) {
      i := k - 1;
      LongestIs(edges, b, i);
    } else {
      i := LongestExists(edges, b, k - 1);
    }
  }

  /** Level k has exactly the blocks whose longest incoming path has k edges, each once. */
  ghost predicate IsLevel<B(!new)>(level: seq<B>, nodes: set<B>, edges: seq<Edge<B>>, k: nat) {
    level != [] && Distinct(level) && forall b :: b in level <==> b in nodes && LongestIncoming(edges, b, k)
  }

  lemma StartLevels<B(!new)>(g: Graph<B>, blocks: seq<B>, edges: seq<Edge<B>>)
    requires g.Keys == Nodes(blocks, edges) && Connected(g, edges)
    ensures AfterLevels(g, g.Keys, edges, 0)
    ensures forall e :: e in edges ==> e.source in g.Keys
  {
    forall b
      ensures HasIncoming(edges, b, 0)
    {
      NoEdges(edges, b);
    }
  }

  lemma EraseNothing<B(!new)>(g: Graph<B>, h: Graph<B>, level: seq<B>)
    requires level == [] && forall b :: b in level <==> b in g && g[b].parents == {}
    requires h.Keys == g.Keys - (set b | b in level)
    requires forall b :: b in h ==> h[b].parents == g[b].parents - (set a | a in level)
    ensures h.Keys == g.Keys && Stuck(h)
  {
  }

  /** Every block is in one of the levels, or on a cycle or below one. */
  lemma Complete<B(!new)>(g: Graph<B>, nodes: set<B>, edges: seq<Edge<B>>, result: seq<seq<B>>)
    requires AfterLevels(g, nodes, edges, |result|) && Stuck(g) && (forall e :: e in edges ==> e.source in nodes)
    requires forall k :: 0 <= k < |result| ==> IsLevel(result[k], nodes, edges, k)
    ensures forall b :: b in nodes ==> ((forall k :: 0 <= k < |result| ==> b !in result[k]) <==> BelowCycle(edges, b))
  {
    forall b | b in nodes
      ensures (forall k :: 0 <= k < |result| ==> b !in result[k]) <==> BelowCycle(edges, b)
    {
      LeftOver(g, nodes, edges, |result|, b);
      if forall k :: 0 <= k < |result| ==> b !in result[k] {
        forall i | 0 <= i < |result|
          ensures !LongestIncoming(edges, b, i)
        {
          assert b !in result[i] && IsLevel(result[i], nodes, edges, i);
        }
      }
    }
  }

  /** One round: the blocks without parents are taken out and form the next level. */
  method TakeLevel<B(!new,==)>(g: Graph<B>, ghost nodes: set<B>, ghost edges: seq<Edge<B>>, ghost k: nat)
    returns (h: Graph<B>, level: seq<B>)
    requires AfterLevels(g, nodes, edges, k) && forall e :: e in edges ==> e.source in nodes
    ensures level == [] ==> AfterLevels(h, nodes, edges, k) && Stuck(h)
    ensures level != [] ==> AfterLevels(h, nodes, edges, k + 1) && IsLevel(level, nodes, edges, k) && |h| < |g|
  {
    hide AfterLevels, LongestIncoming, Stuck;
    var roots := WithoutParents(g);
    h := EraseLevel(g, roots);
    ReverseMembers(roots);
    level := Reverse(roots);
    if roots == [] {
      EraseNothing(g, h, roots);
      LeftOverSame(g, h, nodes, edges, k, roots);
    } else {
      LevelStep(g, h, nodes, edges, k, roots);
      Shrinks(g, h, roots);
    }
  }

  /** The levels, each block at most once; blocks on or below a cycle are in no level. */
  method Sort<B(!new,==)>(blocks: seq<B>, edges: seq<Edge<B>>) returns (result: seq<seq<B>>)
    ensures forall k :: 0 <= k < |result| ==> IsLevel(result[k], Nodes(blocks, edges), edges, k)
    ensures forall b :: b in Nodes(blocks, edges) ==>
              ((forall k :: 0 <= k < |result| ==> b !in result[k]) <==> BelowCycle(edges, b))
  {
    hide AfterLevels, Connected, LongestIncoming, Nodes, Stuck, BelowCycle, IsLevel;
    var graphConnections := Connect(blocks, edges);
    ghost var nodes := graphConnections.Keys;
    result := [];
    StartLevels(graphConnections, blocks, edges);
    while |graphConnections| != 0
      invariant AfterLevels(graphConnections, nodes, edges, |result|)
      invariant forall k :: 0 <= k < |result| ==> IsLevel(result[k], nodes, edges, k)
      decreases |graphConnections|
    {
      var newLevel;
      graphConnections, newLevel := TakeLevel(graphConnections, nodes, edges, |result|);
      if newLevel == [] {
        Complete(graphConnections, nodes, edges, result);
        // A last level of the blocks that are left over is built here, but it is not appended.
        return;
      }
      result := result + [newLevel];
    }
    NothingStuck(graphConnections);
    Complete(graphConnections, nodes, edges, result);
  }

  lemma LeftOverSame<B(!new)>(g: Graph<B>, h: Graph<B>, nodes: set<B>, edges: seq<Edge<B>>, k: nat, level: seq<B>)
    requires AfterLevels(g, nodes, edges, k) && level == [] && h.Keys == g.Keys
    requires forall b :: b in h ==> h[b].parents == g[b].parents - (set a | a in level)
    ensures AfterLevels(h, nodes, edges, k)
  {
  }

  lemma Shrinks<B(!new)>(g: Graph<B>, h: Graph<B>, level: seq<B>)
    requires level != [] && (forall b :: b in level ==> b in g) && h.Keys == g.Keys - (set b | b in level)
    ensures |h| < |g|
  {
    assert level[0] in g.Keys && level[0] !in h.Keys;
    assert h.Keys < g.Keys;
    SmallerSet(h.Keys, g.Keys);
  }

  lemma {:induction false} SmallerSet<B>(a: set<B>, b: set<B>)
    requires a < b
    ensures |a| < |b|
  {
    if a != {} {
      var x :| x in a;
      SmallerSet(a - {x}, b - {x});
    }
  }

  lemma NothingStuck<B(!new)>(g: Graph<B>)
    requires |g| == 0
    ensures Stuck(g)
  {
  }
}
