/** The bipartite matching of TarjanSCC.createMaximumPerfectMatching in tarjan.ts, as values.
    The input is a matrix g whose rows are the left nodes (0..|g|-1) and whose columns are the
    right nodes (0..|g[0]|-1); there is an edge u - v when g[u][v] is 1. A matching is held as
    `match`: for every right node v, its left partner, or -1. The routine's result is a
    directed graph on |g| + |g[0]| nodes: left nodes first, right node v as node |g| + v. */
module Matching {
  import opened Digraphs

  /** The entry the routine reads at row u, column v of its copy of g: a missing entry reads
      `undefined`, which is not 1, and is modelled as 0. */
  function Cell(g: seq<seq<int>>, u: int, v: int): int {
    if 0 <= u < |g| && 0 <= v < |g[u]| then g[u][v] else 0
  }

  /** Every matched right node is matched along an edge to a left node. */
  ghost predicate Valid(g: seq<seq<int>>, m: seq<int>) {
    forall v :: 0 <= v < |m| && m[v] != -1 ==> 0 <= m[v] < |g| && Cell(g, m[v], v) == 1
  }

  /** No left node is the partner of two right nodes. */
  ghost predicate Injective(m: seq<int>) {
    forall v, w :: 0 <= v < w < |m| && m[v] != -1 ==> m[v] != m[w]
  }

  /** No edge joins two unmatched nodes: the matching cannot be grown by one edge. */
  ghost predicate Maximal(g: seq<seq<int>>, m: seq<int>) {
    forall u, v :: 0 <= u < |g| && 0 <= v < |m| && Cell(g, u, v) == 1 ==> u in m || m[v] != -1
  }

  /** result holds the routine's copy of g: |g| rows of |g[0]| columns. */
  ghost predicate Copy(g: seq<seq<int>>, result: array2<int>)
    reads result
  {
    && |g| >= 1 && result.Length0 == |g| && result.Length1 == |g[0]|
    && forall u, v :: 0 <= u < result.Length0 && 0 <= v < result.Length1 ==> result[u, v] == Cell(g, u, v)
  }

  /** m' agrees with m on every right node whose partner in m is u or is marked in vis. */
  ghost predicate Kept(vis: seq<bool>, u: int, m: seq<int>, m': seq<int>) {
    |m'| == |m| &&
    forall v :: 0 <= v < |m| && (m[v] == u || (0 <= m[v] < |vis| && vis[m[v]])) ==> m'[v] == m[v]
  }

  /** The frame of one step of an augmenting path: u, marked, reassigns right node v from its
      old partner y, found unmarked, after the search from y kept every entry whose partner
      was marked (or was y). Entries whose partner was u or was marked before u are kept. */
  lemma {:induction false} KeptAfterFlip(vis0: seq<bool>, vis1: seq<bool>, u: int, m0: seq<int>, m1: seq<int>, v: int)
    requires StillMarked(vis0, vis1)
    requires 0 <= u < |vis1| && vis1[u]
    requires 0 <= v < |m0| && 0 <= m0[v] < |vis1| && !vis1[m0[v]]
    requires Kept(vis1, m0[v], m0, m1)
    ensures Kept(vis0, u, m0, m1[v := u])
  {
  }

  /** Every right node matched in m is still matched in m'. */
  ghost predicate StillMatched(m: seq<int>, m': seq<int>) {
    |m'| == |m| && forall v :: 0 <= v < |m| && m[v] != -1 ==> m'[v] != -1
  }

  /** Every mark in vis is still set in vis'. */
  ghost predicate StillMarked(vis: seq<bool>, vis': seq<bool>) {
    |vis'| == |vis| && forall x :: 0 <= x < |vis| && vis[x] ==> vis'[x]
  }

  /** Every right node adjacent to left node u is matched. */
  ghost predicate NeighboursMatched(g: seq<seq<int>>, u: int, m: seq<int>) {
    forall v :: 0 <= v < |m| && Cell(g, u, v) == 1 ==> m[v] != -1
  }

  /** The left nodes not yet marked. */
  ghost function Unvisited(vis: seq<bool>): set<int> {
    set x | 0 <= x < |vis| && !vis[x]
  }

  /** The right nodes that have a partner. */
  ghost function MatchedRight(m: seq<int>): set<int> {
    set v | 0 <= v < |m| && m[v] != -1
  }

  /** The multiset {x}, or nothing for the "no partner" mark -1. */
  function Single(x: int): multiset<int> {
    if x == -1 then multiset{} else multiset{x}
  }

  /** The partners of the matched right nodes, with repetitions. */
  function Partners(m: seq<int>): (p: multiset<int>)
    ensures -1 !in p
    decreases |m|
  {
    if m == [] then multiset{} else Partners(m[..|m| - 1]) + Single(m[|m| - 1])
  }

  // ---- partners

  lemma {:induction false} Cancel(a: multiset<int>, b: multiset<int>, y: int)
    requires a + multiset{y} == b + multiset{y}
    ensures a == b
  {
    forall x
      ensures a[x] == b[x]
    {
      assert (a + multiset{y})[x] == (b + multiset{y})[x];
    }
  }

  /** Adding the same multiset to both sides of an equation. */
  lemma {:induction false} AddBoth(x: multiset<int>, y: multiset<int>, s: multiset<int>, t: multiset<int>, l: multiset<int>)
    requires x + s == y + t
    ensures (x + l) + s == (y + l) + t
  {
    assert (x + l) + s == (x + s) + l;
    assert (y + l) + t == (y + t) + l;
  }

  /** Partners of m: those of m without its last entry, and that entry's partner. */
  lemma {:induction false} PartnersSnoc(m: seq<int>)
    requires m != []
    ensures Partners(m) == Partners(m[..|m| - 1]) + Single(m[|m| - 1])
  {
  }

  /** Changing an entry before the last one: the prefix changes at the same place. */
  lemma {:induction false} UpdatePrefix(m: seq<int>, v: int, a: int)
    requires 0 <= v < |m| - 1
    ensures m[v := a][..|m| - 1] == m[..|m| - 1][v := a]
    ensures m[v := a][|m| - 1] == m[|m| - 1] && m[..|m| - 1][v] == m[v]
  {
  }

  /** Changing the last entry of m. */
  lemma {:induction false} PartnersUpdateLast(m: seq<int>, a: int)
    requires m != []
    ensures Partners(m[|m| - 1 := a]) + Single(m[|m| - 1]) == Partners(m) + Single(a)
  {
    var n := |m|;
    var m' := m[n - 1 := a];
    PartnersSnoc(m);
    PartnersSnoc(m');
    assert m'[..n - 1] == m[..n - 1];
  }

  /** Changing one entry of m takes its old partner out of Partners and puts the new one in. */
  lemma {:induction false} PartnersUpdate(m: seq<int>, v: int, a: int)
    requires 0 <= v < |m|
    ensures Partners(m[v := a]) + Single(m[v]) == Partners(m) + Single(a)
    decreases |m|
  {
    var n := |m|;
    if v == n - 1 {
      PartnersUpdateLast(m, a);
    } else {
      var m' := m[v := a];
      var p, p' := m[..n - 1], m'[..n - 1];
      PartnersSnoc(m);
      PartnersSnoc(m');
      UpdatePrefix(m, v, a);
      PartnersUpdate(p, v, a);
      AddBoth(Partners(p'), Partners(p), Single(p[v]), Single(a), Single(m[n - 1]));
    }
  }

  /** A left node is a partner exactly when some right node is matched to it. */
  lemma {:induction false} PartnersMembers(m: seq<int>, x: int)
    requires x != -1
    ensures x in Partners(m) <==> x in m
    decreases |m|
  {
    if m != [] {
      var n := |m|;
      PartnersMembers(m[..n - 1], x);
      assert m == m[..n - 1] + [m[n - 1]];
    }
  }

  /** The matched right nodes of m are those of m without its last entry, and that entry's
      node when it has a partner. */
  lemma {:induction false} MatchedRightLast(m: seq<int>)
    requires m != []
    ensures |m| - 1 !in MatchedRight(m[..|m| - 1])
    ensures MatchedRight(m) == MatchedRight(m[..|m| - 1]) + (if m[|m| - 1] == -1 then {} else {|m| - 1})
  {
    var n := |m|;
    var p := m[..n - 1];
    forall v | 0 <= v < n - 1
      ensures p[v] == m[v]
    {
    }
  }

  /** There are as many partners as matched right nodes. */
  lemma {:induction false} PartnersCount(m: seq<int>)
    ensures |Partners(m)| == |MatchedRight(m)|
    decreases |m|
  {
    if m != [] {
      var n := |m|;
      PartnersCount(m[..n - 1]);
      MatchedRightLast(m);
      assert |Partners(m)| == |Partners(m[..n - 1])| + |Single(m[n - 1])|;
    }
  }

  /** When no partner is repeated, no two right nodes share a partner. */
  lemma {:induction false} PartnersInjective(m: seq<int>)
    requires forall x :: Partners(m)[x] <= 1
    ensures Injective(m)
    decreases |m|
  {
    if m != [] {
      var n := |m|;
      var p := m[..n - 1];
      assert forall x :: Partners(p)[x] <= Partners(m)[x];
      PartnersInjective(p);
      forall v | 0 <= v < n - 1 && m[v] != -1
        ensures m[v] != m[n - 1]
      {
        assert p[v] == m[v];
        PartnersMembers(p, m[v]);
      }
    }
  }

  // ---- the steps of the search

  /** Matching a free right node v to u along an edge. */
  lemma {:induction false} FreeStep(g: seq<seq<int>>, vis: seq<bool>, u: int, m: seq<int>, v: int)
    requires Valid(g, m) && 0 <= u < |g| && 0 <= v < |m| && m[v] == -1 && Cell(g, u, v) == 1
    ensures Valid(g, m[v := u]) && StillMatched(m, m[v := u]) && Kept(vis, u, m, m[v := u])
    ensures Partners(m[v := u]) == Partners(m) + multiset{u}
  {
    PartnersUpdate(m, v, u);
  }

  /** The partners after u takes v over from y, whose search added y once to the partners. */
  lemma {:induction false} FlipPartners(m0: seq<int>, m1: seq<int>, u: int, v: int)
    requires |m1| == |m0| && 0 <= v < |m0| && m1[v] == m0[v] != -1 && u != -1
    requires Partners(m1) == Partners(m0) + multiset{m0[v]}
    ensures Partners(m1[v := u]) == Partners(m0) + multiset{u}
  {
    PartnersUpdate(m1, v, u);
    Cancel(Partners(m1[v := u]), Partners(m0) + multiset{u}, m0[v]);
  }

  /** One edge of an augmenting path: the search from y, the partner of v, succeeded (so y was
      unmarked and got one more occurrence among the partners), and u takes v over. The
      partners gain exactly one occurrence of u. */
  lemma {:induction false} FlipStep(g: seq<seq<int>>, vis0: seq<bool>, vis1: seq<bool>, u: int, m0: seq<int>, m1: seq<int>, v: int)
    requires StillMarked(vis0, vis1) && 0 <= u < |vis1| && vis1[u] && |vis1| == |g|
    requires 0 <= v < |m0| && 0 <= m0[v] < |vis1| && !vis1[m0[v]] && Cell(g, u, v) == 1
    requires Valid(g, m1) && StillMatched(m0, m1) && Kept(vis1, m0[v], m0, m1)
    requires Partners(m1) == Partners(m0) + multiset{m0[v]}
    ensures Valid(g, m1[v := u]) && StillMatched(m0, m1[v := u]) && Kept(vis0, u, m0, m1[v := u])
    ensures Partners(m1[v := u]) == Partners(m0) + multiset{u}
  {
    assert m1[v] == m0[v];
    FlipPartners(m0, m1, u, v);
    KeptAfterFlip(vis0, vis1, u, m0, m1, v);
    FlipValid(g, u, m0, m1, v);
  }

  /** Giving right node v to u along an edge keeps every partner on an edge, and every
      matched right node matched. */
  lemma {:induction false} FlipValid(g: seq<seq<int>>, u: int, m0: seq<int>, m1: seq<int>, v: int)
    requires 0 <= u < |g| && 0 <= v < |m1| && Cell(g, u, v) == 1
    requires Valid(g, m1) && StillMatched(m0, m1)
    ensures Valid(g, m1[v := u]) && StillMatched(m0, m1[v := u])
  {
  }

  /** Partners(m) holds each of the left nodes 0..u-1 at most once, and nothing else. */
  ghost predicate PartnersBelow(m: seq<int>, u: int) {
    forall x :: Partners(m)[x] <= if 0 <= x < u then 1 else 0
  }

  /** Every edge from the left nodes 0..u-1 has a matched end. */
  ghost predicate Settled(g: seq<seq<int>>, u: int, m: seq<int>) {
    forall w, v :: 0 <= w < u && 0 <= v < |m| && Cell(g, w, v) == 1 ==> w in Partners(m) || m[v] != -1
  }

  /** The state of the main loop before round u: the matching is valid, each of the left nodes
      0..u-1 is a partner at most once and no other node is, every edge from those nodes has a
      matched end, and size counts the partners. */
  ghost predicate Progress(g: seq<seq<int>>, u: int, m: seq<int>, size: int) {
    Valid(g, m) && PartnersBelow(m, u) && Settled(g, u, m) && size == |Partners(m)|
  }

  /** The loop starts from the empty matching, with size 0. */
  lemma {:induction false} ProgressStart(g: seq<seq<int>>, m: seq<int>)
    requires forall v :: 0 <= v < |m| ==> m[v] == -1
    ensures Progress(g, 0, m, 0)
  {
    PartnersCount(m);
    assert MatchedRight(m) == {};
  }

  /** One round of the main loop, for left node u with every mark cleared: a successful search
      adds u to the partners and one to the size, a failed one leaves the matching as it was,
      with every neighbour of u matched. */
  lemma {:induction false} RoundStep(g: seq<seq<int>>, u: int, m: seq<int>, m': seq<int>, found: bool, size: int)
    requires 0 <= u && Progress(g, u, m, size) && Valid(g, m') && StillMatched(m, m')
    requires found ==> Partners(m') == Partners(m) + multiset{u}
    requires !found ==> m' == m && NeighboursMatched(g, u, m)
    ensures Progress(g, u + 1, m', if found then size + 1 else size)
  {
    if found {
      RoundFound(g, u, m, m');
    }
  }

  /** A successful round: u, not yet a partner, becomes one exactly once, and every edge from
      the rows up to u keeps a matched end. */
  lemma {:induction false} RoundFound(g: seq<seq<int>>, u: int, m: seq<int>, m': seq<int>)
    requires 0 <= u && PartnersBelow(m, u) && Settled(g, u, m) && StillMatched(m, m')
    requires Partners(m') == Partners(m) + multiset{u}
    ensures PartnersBelow(m', u + 1) && Settled(g, u + 1, m')
  {
    assert Partners(m)[u] == 0;
    forall x
      ensures Partners(m')[x] <= if 0 <= x < u + 1 then 1 else 0
    {
      assert Partners(m')[x] == Partners(m)[x] + if x == u then 1 else 0;
    }
    forall w, v | 0 <= w < u + 1 && 0 <= v < |m'| && Cell(g, w, v) == 1
      ensures w in Partners(m') || m'[v] != -1
    {
      if w < u && m[v] == -1 {
        assert w in Partners(m);
      }
    }
  }

  /** After the rounds for all left nodes: the matching is injective and maximal. */
  lemma {:induction false} RoundsDone(g: seq<seq<int>>, m: seq<int>)
    requires PartnersBelow(m, |g|) && Settled(g, |g|, m)
    ensures Injective(m) && Maximal(g, m)
  {
    PartnersInjective(m);
    forall w | 0 <= w < |g| {
      PartnersMembers(m, w);
    }
  }

  // ---- the graph built from a matching

  /** The successors of left node u among the columns 0..n-1: column v, as node |g| + v,
      when u - v is an edge that is not matched to u; in column order. */
  function LeftRow(g: seq<seq<int>>, m: seq<int>, u: int, n: nat): seq<int>
    requires n <= |m|
  {
    if n == 0 then []
    else LeftRow(g, m, u, n - 1) + (if Cell(g, u, n - 1) == 1 && m[n - 1] != u then [|g| + n - 1] else [])
  }

  /** The directed graph the routine returns: unmatched edges point left to right, matched
      edges right to left. */
  function Adjacency(g: seq<seq<int>>, m: seq<int>): (adj: AdjList)
    ensures |adj| == |g| + |m|
  {
    seq(|g| + |m|, k requires 0 <= k < |g| + |m| =>
      if k < |g| then LeftRow(g, m, k, |m|)
      else if m[k - |g|] != -1 then [m[k - |g|]] else [])
  }

  lemma {:induction false} LeftRowMembers(g: seq<seq<int>>, m: seq<int>, u: int, n: nat, w: int)
    requires n <= |m|
    ensures w in LeftRow(g, m, u, n) <==>
              |g| <= w < |g| + n && Cell(g, u, w - |g|) == 1 && m[w - |g|] != u
    decreases n
  {
    if n > 0 {
      LeftRowMembers(g, m, u, n - 1, w);
    }
  }

  /** The edges of Adjacency(g, m), with right node v numbered |g| + v: u -> |g| + v for an
      unmatched edge u - v, and |g| + v -> u for a matched one; nothing else. So left nodes
      lead only to right nodes, and each right node has at most one successor, its partner. */
  lemma {:induction false} AdjacencyEdges(g: seq<seq<int>>, m: seq<int>, adj: AdjList)
    requires Valid(g, m) && adj == Adjacency(g, m)
    ensures forall u, x :: 0 <= u < |g| && |g| <= x < |g| + |m| ==>
              (Edge(adj, u, x) <==> Cell(g, u, x - |g|) == 1 && m[x - |g|] != u)
    ensures forall x, u :: |g| <= x < |g| + |m| && 0 <= u < |g| ==>
              (Edge(adj, x, u) <==> m[x - |g|] == u)
    ensures forall u, w :: 0 <= u < |g| && Edge(adj, u, w) ==> |g| <= w
    ensures forall x, w :: |g| <= x && Edge(adj, x, w) ==> w < |g|
    ensures forall x :: |g| <= x < |adj| ==> |adj[x]| <= 1
  {
    forall u, w | 0 <= u < |g|
      ensures w in adj[u] <==> |g| <= w < |g| + |m| && Cell(g, u, w - |g|) == 1 && m[w - |g|] != u
    {
      LeftRowMembers(g, m, u, |m|, w);
    }
  }

  /** The returned graph read on its own: each edge of g appears in it in exactly one direction,
      each left node is pointed to by at most one right node and each right node points to at
      most one left node (the matched edges form a matching), and every edge of g has an end
      that a matched edge touches (the matching is maximal). */
  lemma {:induction false} AdjacencyIsMatching(g: seq<seq<int>>, m: seq<int>, adj: AdjList)
    requires Valid(g, m) && Injective(m) && Maximal(g, m) && adj == Adjacency(g, m)
    ensures forall u, x :: 0 <= u < |g| && |g| <= x < |g| + |m| ==>
              !(Edge(adj, u, x) && Edge(adj, x, u)) &&
              (Edge(adj, u, x) || Edge(adj, x, u) <==> Cell(g, u, x - |g|) == 1)
    ensures forall x, y, u :: |g| <= x < y < |g| + |m| && 0 <= u < |g| ==>
              !(Edge(adj, x, u) && Edge(adj, y, u))
    ensures forall x, u, w :: |g| <= x < |g| + |m| && 0 <= u < w < |g| ==>
              !(Edge(adj, x, u) && Edge(adj, x, w))
    ensures forall u, v :: 0 <= u < |g| && 0 <= v < |m| && Cell(g, u, v) == 1 ==>
              |adj[|g| + v]| == 1 || exists y :: |g| <= y < |g| + |m| && Edge(adj, y, u)
  {
    AdjacencyEdges(g, m, adj);
    forall u, v | 0 <= u < |g| && 0 <= v < |m| && Cell(g, u, v) == 1
      ensures |adj[|g| + v]| == 1 || exists y :: |g| <= y < |g| + |m| && Edge(adj, y, u)
    {
      if u in m {
        var w :| 0 <= w < |m| && m[w] == u;
        assert Edge(adj, |g| + w, u);
      } else {
        assert adj[|g| + v] == [m[v]];
      }
    }
  }
}
