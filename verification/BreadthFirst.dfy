/** Breadth-first order over a map from every node to the nodes that come next, and the worklist
    that produces it. */
module BreadthFirst {

  ghost function NextIn<B>(next: map<B, seq<B>>, b: B): seq<B> {
    if b in next then next[b] else []
  }

  ghost function NextOf<B>(next: map<B, seq<B>>, bs: seq<B>): seq<B> {
    if |bs| == 0 then [] else NextOf(next, bs[..|bs| - 1]) + NextIn(next, bs[|bs| - 1])
  }

  /** The nodes at depth k, from left to right. */
  ghost function Level<B>(next: map<B, seq<B>>, root: B, k: nat): seq<B> {
    if k == 0 then [root] else NextOf(next, Level(next, root, k - 1))
  }

  /** Breadth-first order down to depth n - 1: the levels one after the other. */
  ghost function Order<B>(next: map<B, seq<B>>, root: B, n: nat): seq<B> {
    if n == 0 then [] else Order(next, root, n - 1) + Level(next, root, n - 1)
  }

  ghost predicate NoDuplicates<B>(bs: seq<B>) {
    forall i, j :: 0 <= i < j < |bs| ==> bs[i] != bs[j]
  }

  lemma DistinctConcat<B>(a: seq<B>, b: seq<B>)
    requires NoDuplicates(a) && NoDuplicates(b) && forall x :: x in a ==> x !in b
    ensures NoDuplicates(a + b)
  {
    var c := a + b;
    forall i, j | 0 <= i < j < |c|
      ensures c[i] != c[j]
    {
      if i < |a| <= j {
        assert a[i] in a && b[j - |a|] in b;
      }
    }
  }

  lemma {:induction false} NextOfAppend<B>(next: map<B, seq<B>>, a: seq<B>, b: seq<B>)
    ensures NextOf(next, a + b) == NextOf(next, a) + NextOf(next, b)
    decreases |b|
  {
    if |b| == 0 {
      assert a + b == a;
    } else {
      var c := b[..|b| - 1];
      assert (a + b)[..|a + b| - 1] == a + c;
      NextOfAppend(next, a, c);
    }
  }

  lemma {:induction false} NextOfMembers<B>(next: map<B, seq<B>>, bs: seq<B>, x: B)
    ensures x in NextOf(next, bs) <==> exists i :: 0 <= i < |bs| && x in NextIn(next, bs[i])
    decreases |bs|
  {
    if |bs| != 0 {
      var c := bs[..|bs| - 1];
      NextOfMembers(next, c, x);
      if x in NextOf(next, c) {
        var i :| 0 <= i < |c| && x in NextIn(next, c[i]);
        assert x in NextIn(next, bs[i]);
      }
      if i :| 0 <= i < |bs| && x in NextIn(next, bs[i]) {
        if i < |c| {
          assert x in NextIn(next, c[i]);
        }
      }
    }
  }

  lemma {:induction false} DistinctBound<B>(bs: seq<B>, s: set<B>)
    requires NoDuplicates(bs) && forall b :: b in bs ==> b in s
    ensures |bs| <= |s|
  {
    if |bs| != 0 {
      var last := bs[|bs| - 1];
      DistinctBound(bs[..|bs| - 1], s - {last});
    }
  }

  /** The nodes that the worklist keeps: those after which something comes. */
  ghost function Pending<B>(next: map<B, seq<B>>, bs: seq<B>): seq<B> {
    if |bs| == 0 then []
    else
      var init, last := Pending(next, bs[..|bs| - 1]), bs[|bs| - 1];
      if NextIn(next, last) != [] then init + [last] else init
  }

  lemma {:induction false} PendingAppend<B>(next: map<B, seq<B>>, a: seq<B>, b: seq<B>)
    ensures Pending(next, a + b) == Pending(next, a) + Pending(next, b)
    decreases |b|
  {
    if |b| == 0 {
      assert a + b == a;
    } else {
      var c := b[..|b| - 1];
      assert (a + b)[..|a + b| - 1] == a + c;
      PendingAppend(next, a, c);
    }
  }

  lemma NothingNext<B>(next: map<B, seq<B>>)
    ensures NextOf(next, []) == [] == Pending(next, [])
  {
  }

  lemma PendingHead<B>(next: map<B, seq<B>>, bs: seq<B>)
    requires |bs| > 0
    ensures Pending(next, bs) == (if NextIn(next, bs[0]) != [] then [bs[0]] else []) + Pending(next, bs[1..])
  {
    assert bs == [bs[0]] + bs[1..];
    assert [bs[0]][..0] == [];
    PendingAppend(next, [bs[0]], bs[1..]);
  }

  lemma NextOfHead<B>(next: map<B, seq<B>>, bs: seq<B>)
    requires |bs| > 0
    ensures NextOf(next, bs) == NextIn(next, bs[0]) + NextOf(next, bs[1..])
  {
    assert bs == [bs[0]] + bs[1..];
    assert [bs[0]][..0] == [];
    NextOfAppend(next, [bs[0]], bs[1..]);
  }

  lemma {:induction false} NonePending<B>(next: map<B, seq<B>>, bs: seq<B>)
    requires Pending(next, bs) == []
    ensures NextOf(next, bs) == []
  {
    if |bs| != 0 {
      NonePending(next, bs[..|bs| - 1]);
    }
  }

  /** The first pending node of bs, with nothing to visit before it. */
  lemma {:induction false} FirstPending<B>(next: map<B, seq<B>>, bs: seq<B>) returns (n: nat)
    requires Pending(next, bs) != []
    ensures n < |bs| && bs[n] == Pending(next, bs)[0] && NextIn(next, bs[n]) != []
    ensures NextOf(next, bs[..n]) == [] && Pending(next, bs[n + 1..]) == Pending(next, bs)[1..]
    decreases |bs|
  {
    hide NextOf, Pending;
    NothingNext(next);
    PendingHead(next, bs);
    if NextIn(next, bs[0]) != [] {
      n := 0;
      assert bs[..0] == [];
    } else {
      var t := bs[1..];
      var k := FirstPending(next, t);
      n := k + 1;
      NextOfHead(next, bs[..n]);
      assert bs[..n][1..] == t[..k];
      assert t[k + 1..] == bs[n + 1..];
    }
  }

  /** Where the worklist is: the first n nodes of level k are expanded. */
  ghost predicate Progress<B>(next: map<B, seq<B>>, root: B, k: nat, n: nat, visited: seq<B>, queue: seq<B>) {
    var level := Level(next, root, k);
    && n <= |level|
    && visited == Order(next, root, k + 1) + NextOf(next, level[..n])
    && queue == Pending(next, level[n..]) + Pending(next, NextOf(next, level[..n]))
  }

  lemma NextOfSplit<B>(next: map<B, seq<B>>, bs: seq<B>, n: nat)
    requires n <= |bs|
    ensures NextOf(next, bs) == NextOf(next, bs[..n]) + NextOf(next, bs[n..])
  {
    assert bs == bs[..n] + bs[n..];
    NextOfAppend(next, bs[..n], bs[n..]);
  }

  /** When nothing is pending in level k, the traversal stands at the start of level k + 1. */
  lemma NextLevel<B>(next: map<B, seq<B>>, root: B, k: nat, n: nat, visited: seq<B>, queue: seq<B>)
    requires Progress(next, root, k, n, visited, queue)
    requires Pending(next, Level(next, root, k)[n..]) == []
    ensures Progress(next, root, k + 1, 0, visited, queue)
    ensures visited == Order(next, root, k + 2)
  {
    hide Pending;
    var level, below := Level(next, root, k), Level(next, root, k + 1);
    NonePending(next, level[n..]);
    NextOfSplit(next, level, n);
    assert below == NextOf(next, level[..n]);
    NothingNext(next);
    assert below[..0] == [] && below[0..] == below;
  }

  lemma PopInLevel<B>(next: map<B, seq<B>>, root: B, k: nat, n: nat, visited: seq<B>, queue: seq<B>) returns (n2: nat)
    requires Progress(next, root, k, n, visited, queue)
    requires Pending(next, Level(next, root, k)[n..]) != []
    ensures var below := NextIn(next, queue[0]);
      below != [] && Progress(next, root, k, n2, visited + below, queue[1..] + Pending(next, below))
  {
    hide Pending, NextOf, Level, Order;
    var level := Level(next, root, k);
    var rest := level[n..];
    var i := FirstPending(next, rest);
    n2 := n + i + 1;
    var below := NextIn(next, queue[0]);
    assert level[..n2] == level[..n] + (rest[..i] + [rest[i]]);
    NextOfAppend(next, level[..n], rest[..i] + [rest[i]]);
    NextOfAppend(next, rest[..i], [rest[i]]);
    NextOfHead(next, [rest[i]]);
    NothingNext(next);
    assert [rest[i]][1..] == [];
    assert NextOf(next, level[..n2]) == NextOf(next, level[..n]) + below;
    PendingAppend(next, NextOf(next, level[..n]), below);
    assert level[n2..] == rest[i + 1..];
  }

  lemma Pop<B>(next: map<B, seq<B>>, root: B, k: nat, n: nat, visited: seq<B>, queue: seq<B>) returns (k2: nat, n2: nat)
    requires Progress(next, root, k, n, visited, queue) && queue != []
    ensures var below := NextIn(next, queue[0]);
      below != [] && Progress(next, root, k2, n2, visited + below, queue[1..] + Pending(next, below))
  {
    hide Pending, Level, Order, NextOf;
    k2 := k;
    if Pending(next, Level(next, root, k)[n..]) != [] {
      n2 := PopInLevel(next, root, k, n, visited, queue);
    } else {
      NextLevel(next, root, k, n, visited, queue);
      k2 := k + 1;
      NothingNext(next);
      assert Level(next, root, k2)[..0] == [];
      n2 := PopInLevel(next, root, k2, 0, visited, queue);
    }
  }

  lemma ProgressPrefix<B>(next: map<B, seq<B>>, root: B, k: nat, n: nat, visited: seq<B>, queue: seq<B>)
    requires Progress(next, root, k, n, visited, queue)
    ensures visited <= Order(next, root, k + 2)
  {
    NextOfSplit(next, Level(next, root, k), n);
  }

  lemma ProgressEnd<B>(next: map<B, seq<B>>, root: B, k: nat, n: nat, visited: seq<B>)
    requires Progress(next, root, k, n, visited, [])
    ensures visited == Order(next, root, k + 2) && Level(next, root, k + 2) == []
  {
    NextLevel(next, root, k, n, visited, []);
    var below := Level(next, root, k + 1);
    assert below[0..] == below;
    NonePending(next, below);
  }

  lemma PendingStep<B>(next: map<B, seq<B>>, bs: seq<B>, b: B)
    ensures Pending(next, bs + [b]) == Pending(next, bs) + (if NextIn(next, b) != [] then [b] else [])
  {
    assert (bs + [b])[..|bs|] == bs;
  }
}
