/** Directed graphs given as adjacency lists, as the SCC routine of tarjan.ts receives them:
    node x's successors are listed in g[x]. A listed id that is not a node of the graph
    (negative, or at least |g|) is ignored by that routine, so it is not an edge here. */
module Digraphs {

  type AdjList = seq<seq<int>>

  /** x -> y is an edge: y is listed among x's successors and is a node. */
  predicate Edge(g: AdjList, x: int, y: int) {
    0 <= x < |g| && 0 <= y < |g| && y in g[x]
  }

  /** p is a non-empty walk along edges of g. */
  ghost predicate IsPath(g: AdjList, p: seq<int>) {
    && |p| >= 1
    && (forall i :: 0 <= i < |p| ==> 0 <= p[i] < |g|)
    && (forall i :: 0 <= i < |p| - 1 ==> Edge(g, p[i], p[i + 1]))
  }

  /** y can be reached from x by following zero or more edges. */
  ghost predicate Reach(g: AdjList, x: int, y: int) {
    exists p :: IsPath(g, p) && p[0] == x && p[|p| - 1] == y
  }

  lemma {:induction false} ReachRefl(g: AdjList, x: int)
    requires 0 <= x < |g|
    ensures Reach(g, x, x)
  {
    assert IsPath(g, [x]);
  }

  lemma {:induction false} EdgeReach(g: AdjList, x: int, y: int)
    requires Edge(g, x, y)
    ensures Reach(g, x, y)
  {
    assert IsPath(g, [x, y]);
  }

  /** Reachability is transitive: walks can be glued at their common node. */
  lemma {:induction false} ReachTrans(g: AdjList, x: int, y: int, z: int)
    requires Reach(g, x, y) && Reach(g, y, z)
    ensures Reach(g, x, z)
  {
    var p :| IsPath(g, p) && p[0] == x && p[|p| - 1] == y;
    var q :| IsPath(g, q) && q[0] == y && q[|q| - 1] == z;
    var r := p + q[1..];
    assert |r| == |p| + |q| - 1;
    forall i | 0 <= i < |r| - 1
      ensures Edge(g, r[i], r[i + 1])
    {
      if i < |p| - 1 {
        assert r[i] == p[i] && r[i + 1] == p[i + 1];
      } else {
        assert r[i] == q[i - |p| + 1] && r[i + 1] == q[i - |p| + 2];
      }
    }
    assert IsPath(g, r);
  }

  /** One more edge at the end of a walk. */
  lemma {:induction false} ReachStep(g: AdjList, x: int, y: int, z: int)
    requires Reach(g, x, y) && Edge(g, y, z)
    ensures Reach(g, x, z)
  {
    EdgeReach(g, y, z);
    ReachTrans(g, x, y, z);
  }

  /** A set of nodes that no edge leaves is closed under reachability. */
  lemma {:induction false} ClosedUnderReach(g: AdjList, d: set<int>, x: int, y: int)
    requires forall a, b :: a in d && Edge(g, a, b) ==> b in d
    requires x in d && Reach(g, x, y)
    ensures y in d
  {
    var p :| IsPath(g, p) && p[0] == x && p[|p| - 1] == y;
    var i := 0;
    while i < |p| - 1
      invariant 0 <= i <= |p| - 1
      invariant p[i] in d
    {
      assert Edge(g, p[i], p[i + 1]);
      i := i + 1;
    }
  }
}
