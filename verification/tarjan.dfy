/** Class TarjanSCC of tarjan.ts: the strongly connected components of a directed graph by a
    variant of Tarjan's algorithm, and a bipartite matching turned into a directed graph. */
module Tarjan {
  import opened Digraphs
  import opened SccState
  import opened SccSteps
  import opened SccSearch
  import opened Matching

  class TarjanSCC {
    var n: int
    var count: int
    var comp: int
    var num: seq<int>
    var low: seq<int>
    var answer: seq<int>
    var onStack: seq<bool>
    var stack: seq<int>
    var graph: AdjList

    /** All fields start empty or zero, as their initialisers say. */
    constructor ()
      ensures n == 0 && count == 0 && comp == 0 && graph == []
      ensures num == [] && low == [] && answer == [] && onStack == [] && stack == []
    {
      n := 0;
      count := 0;
      comp := 0;
      num := [];
      low := [];
      answer := [];
      onStack := [];
      stack := [];
      graph := [];
    }

    /** The search state held in the fields. */
    ghost function State(): Snapshot
      reads this
    {
      Snapshot(num, low, answer, onStack, stack, count, comp)
    }

    /** The component of every node of g: the fields end as Scc(g) says, so two nodes get the
        same id exactly when each can reach the other, the ids used are 0..comp-1, and every
        node got its own discovery number in 1..|g|. The fields are reset first, so the result
        depends on g alone. */
    method Strong(g: AdjList) returns (r: seq<int>)
      modifies this
      ensures graph == g && n == |g| && State() == Scc(g) && r == answer
      ensures |r| == |g| && forall x :: 0 <= x < |g| ==> 0 <= r[x] < comp
      ensures forall x, y :: 0 <= x < |g| && 0 <= y < |g| ==>
                (r[x] == r[y] <==> Reach(g, x, y) && Reach(g, y, x))
      ensures forall c :: 0 <= c < comp ==> c in r
      ensures stack == [] && forall x :: 0 <= x < |g| ==> !onStack[x]
      ensures count == |g| && forall x :: 0 <= x < |g| ==> 1 <= num[x] <= |g|
      ensures forall x, y :: 0 <= x < |g| && 0 <= y < |g| && x != y ==> num[x] != num[y]
    {
      graph := g;
      n := |graph|;
      num := seq(n, _ => 0);
      low := seq(n, _ => 0);
      answer := seq(n, _ => 0);
      onStack := seq(n, _ => false);
      stack := [];
      count := 0;
      comp := 0;
      assert State() == Initial(|g|);
      assert VisitedSet(num) == {};
      var x := 0;
      while x < n
        invariant 0 <= x <= n && graph == g && n == |g|
        invariant Shape(g, State()) && Sweep(g, State(), x) == Scc(g)
      {
        DFS(x);
        x := x + 1;
      }
      SccCorrect(g);
      r := answer;
    }

    /** The recursive search from v: it changes the fields exactly as Dfs says. */
    method DFS(v: int)
      requires Shape(graph, State())
      modifies this`num, this`low, this`answer, this`onStack, this`stack, this`count, this`comp
      ensures State() == Dfs(graph, old(State()), v)
      decreases |graph| - count, 0
    {
      ghost var s0 := State();
      // An id outside the graph reads `undefined`, which is not 0: such a call returns too.
      if v < 0 || v >= |num| || num[v] != 0 {
        return;
      }
      ShapeCount(graph, s0);
      VisitShape(graph, s0, v);
      count := count + 1;
      num := num[v := count];
      low := low[v := count];
      stack := stack + [v];
      onStack := onStack[v := true];
      assert State() == Visit(s0, v);
      SearchSuccessors(v);
      LowerLink(v);
      if num[v] == low[v] {
        // v is the root of a component: pop down to v.
        assert stack[|s0.stack|] == v;
        PopComponent(v);
      }
    }

    /** The first loop of DFS: search from every successor of v, as Descend says. */
    method SearchSuccessors(v: int)
      requires 0 <= v < |graph| && Shape(graph, State())
      modifies this`num, this`low, this`answer, this`onStack, this`stack, this`count, this`comp
      ensures State() == Descend(graph, old(State()), v, 0)
      decreases |graph| - count, 1
    {
      ghost var s1 := State();
      ShapeCount(graph, s1);
      var succ := graph[v];
      var i := 0;
      while i < |succ|
        invariant 0 <= i <= |succ| && s1.count <= count
        invariant Shape(graph, State()) && Descend(graph, State(), v, i) == Descend(graph, s1, v, 0)
      {
        DescendTurn(graph, State(), v, i);
        DFS(succ[i]);
        i := i + 1;
      }
    }

    /** The second loop of DFS: lower low[v] to the low-link of every successor still on the
        stack that has a smaller one, as Lowering says. */
    method LowerLink(v: int)
      requires 0 <= v < |graph| && Shape(graph, State())
      modifies this`low
      ensures State() == Lowering(graph, old(State()), v, 0)
    {
      ghost var s2 := State();
      var succ := graph[v];
      var i := 0;
      while i < |succ|
        invariant 0 <= i <= |succ|
        invariant Shape(graph, State()) && Lowering(graph, State(), v, i) == Lowering(graph, s2, v, 0)
      {
        ghost var st := State();
        LoweringTurn(graph, st, v, i);
        var w := succ[i];
        // `onStack[w]` is `undefined`, so false, for an id outside the graph.
        if 0 <= w < |onStack| && onStack[w] {
          low := low[v := if low[w] < low[v] then low[w] else low[v]];
        }
        assert State() == LowerStep(graph, st, v, i);
        i := i + 1;
      }
    }

    /** The pop loop of DFS followed by `comp++`, as Pop says. */
    method PopComponent(v: int)
      requires v in stack && StackIndexes(State())
      modifies this`answer, this`onStack, this`stack, this`comp
      ensures State() == Pop(old(State()), v)
    {
      ghost var c := State();
      while true
        invariant v in stack && StackIndexes(State()) && comp == c.comp
        invariant PopUntil(State(), v) == PopUntil(c, v)
        decreases |stack|
      {
        var x := stack[|stack| - 1];
        assert State().(stack := stack[..|stack| - 1], onStack := onStack[x := false],
                        answer := answer[x := comp]) == PopTop(State());
        stack := stack[..|stack| - 1];
        onStack := onStack[x := false];
        answer := answer[x := comp];
        if x == v {
          break;
        }
        assert v in stack;
      }
      comp := comp + 1;
    }

    /** Kuhn's matching of the bipartite graph g (left nodes are rows, right nodes columns;
        g[u][v] == 1 is an edge), returned as a directed graph: an unmatched edge u - v as
        u -> |g| + v, a matched one as |g| + v -> u. The matching m it builds is valid,
        injective and maximal (no edge joins two unmatched nodes). */
    method CreateMaximumPerfectMatching(g: seq<seq<int>>) returns (adj: AdjList, ghost m: seq<int>)
      requires |g| >= 1
      ensures |m| == |g[0]| && Valid(g, m) && Injective(m) && Maximal(g, m)
      ensures adj == Adjacency(g, m)
      ensures forall u, x :: 0 <= u < |g| && |g| <= x < |g| + |m| ==>
                (Edge(adj, u, x) <==> Cell(g, u, x - |g|) == 1 && m[x - |g|] != u)
      ensures forall x, u :: |g| <= x < |g| + |m| && 0 <= u < |g| ==>
                (Edge(adj, x, u) <==> m[x - |g|] == u)
      ensures |adj| == |g| + |g[0]|
      ensures forall u, x :: 0 <= u < |g| && |g| <= x < |adj| ==>
                !(Edge(adj, u, x) && Edge(adj, x, u)) &&
                (Edge(adj, u, x) || Edge(adj, x, u) <==> Cell(g, u, x - |g|) == 1)
      ensures forall x, y, u :: |g| <= x < y < |adj| && 0 <= u < |g| ==>
                !(Edge(adj, x, u) && Edge(adj, y, u))
      ensures forall x, u, w :: |g| <= x < |adj| && 0 <= u < w < |g| ==>
                !(Edge(adj, x, u) && Edge(adj, x, w))
      ensures forall u, v :: 0 <= u < |g| && 0 <= v < |g[0]| && Cell(g, u, v) == 1 ==>
                |adj[|g| + v]| == 1 || exists y :: |g| <= y < |adj| && Edge(adj, y, u)
    {
      var leftSize, rightSize := |g|, |g[0]|;
      var result := CopyMatrix(g);
      var partner := new int[rightSize](_ => -1);
      var visited := new bool[leftSize](_ => false);
      var matchingSize := MatchAll(g, result, partner, visited);
      m := partner[..];
      RoundsDone(g, m);
      adj := BuildAdjacency(g, result, partner);
      AdjacencyEdges(g, m, adj);
      AdjacencyIsMatching(g, m, adj);
    }

    /** The main loop of the matching: one search per left node u, with every mark cleared,
        counting the successful ones. Afterwards each left node is a partner at most once,
        every edge has a matched end, and the count is the number of matched right nodes. */
    static method MatchAll(ghost g: seq<seq<int>>, result: array2<int>, partner: array<int>,
                           visited: array<bool>) returns (matchingSize: int)
      requires Copy(g, result) && partner.Length == result.Length1 && visited.Length == result.Length0
      requires forall v :: 0 <= v < partner.Length ==> partner[v] == -1
      modifies partner, visited
      ensures Valid(g, partner[..]) && PartnersBelow(partner[..], |g|) && Settled(g, |g|, partner[..])
      ensures matchingSize == |MatchedRight(partner[..])|
    {
      ProgressStart(g, partner[..]);
      matchingSize := 0;
      for u := 0 to visited.Length
        invariant Progress(g, u, partner[..], matchingSize)
      {
        ghost var m0 := partner[..];
        Fill(visited, false);
        var found := Augment(g, result, partner, visited, u);
        RoundStep(g, u, m0, partner[..], found, matchingSize);
        if found {
          matchingSize := matchingSize + 1;
        }
      }
      PartnersCount(partner[..]);
    }

    /** Array.prototype.fill: every element of a becomes x. */
    static method Fill<T>(a: array<T>, x: T)
      modifies a
      ensures forall i :: 0 <= i < a.Length ==> a[i] == x
    {
      forall i | 0 <= i < a.Length {
        a[i] := x;
      }
    }

    /** The copy of g the matching works on: row i of g, cut or padded to |g[0]| columns. */
    static method CopyMatrix(g: seq<seq<int>>) returns (result: array2<int>)
      requires |g| >= 1
      ensures fresh(result) && Copy(g, result)
    {
      result := new int[|g|, |g[0]|]((_, _) => 0);
      for i := 0 to |g|
        invariant forall u, v :: 0 <= u < result.Length0 && 0 <= v < result.Length1 ==>
                    result[u, v] == if u < i then Cell(g, u, v) else 0
      {
        for j := 0 to |g[0]|
          invariant forall u, v :: 0 <= u < result.Length0 && 0 <= v < result.Length1 ==>
                      result[u, v] == if u < i || (u == i && v < j) then Cell(g, u, v) else 0
        {
          result[i, j] := Cell(g, i, j);
        }
      }
    }

    /** The nested dfs of the matching: look for an augmenting path from left node u through
        unmarked left nodes. On success the path is flipped, which matches one more right node
        and adds u once more to the partners; on failure nothing changes, and if u was
        unmarked every neighbour of u is matched. Entries whose partner is u or is already
        marked are never reassigned. */
    static method Augment(ghost g: seq<seq<int>>, result: array2<int>, partner: array<int>,
                          visited: array<bool>, u: int) returns (found: bool)
      requires Copy(g, result) && partner.Length == result.Length1 && visited.Length == result.Length0
      requires 0 <= u < visited.Length && Valid(g, partner[..])
      modifies partner, visited
      ensures Valid(g, partner[..]) && visited[u]
      ensures StillMarked(old(visited[..]), visited[..]) && StillMatched(old(partner[..]), partner[..])
      ensures Kept(old(visited[..]), u, old(partner[..]), partner[..])
      ensures found ==> !old(visited[u]) && Partners(partner[..]) == Partners(old(partner[..])) + multiset{u}
      ensures !found ==> partner[..] == old(partner[..])
      ensures !found && !old(visited[u]) ==> NeighboursMatched(g, u, partner[..])
      decreases Unvisited(visited[..])
    {
      if visited[u] {
        return false;
      }
      ghost var vis0, m0 := visited[..], partner[..];
      visited[u] := true;
      var v := 0;
      while v < result.Length1
        invariant 0 <= v <= result.Length1 && partner[..] == m0
        invariant visited[u] && StillMarked(vis0, visited[..])
        invariant forall w :: 0 <= w < v && Cell(g, u, w) == 1 ==> partner[w] != -1
      {
        if result[u, v] == 1 {
          if partner[v] == -1 {
            FreeStep(g, vis0, u, m0, v);
            partner[v] := u;
            return true;
          }
          ghost var vis1 := visited[..];
          assert Unvisited(vis1) < Unvisited(vis0) by {
            assert u in Unvisited(vis0) - Unvisited(vis1);
          }
          var ok := Augment(g, result, partner, visited, partner[v]);
          if ok {
            FlipStep(g, vis0, vis1, u, m0, partner[..], v);
            partner[v] := u;
            return true;
          }
        }
        v := v + 1;
      }
      return false;
    }

    /** The directed graph built from the copy of g and the matching, as Adjacency says: first
        the unmatched edges of every left node in column order, then the matched edges. */
    static method BuildAdjacency(ghost g: seq<seq<int>>, result: array2<int>, partner: array<int>)
      returns (adj: AdjList)
      requires Copy(g, result) && partner.Length == result.Length1
      ensures adj == Adjacency(g, partner[..])
    {
      var leftSize, rightSize := result.Length0, result.Length1;
      ghost var m := partner[..];
      adj := seq(leftSize + rightSize, _ => []);
      for u := 0 to leftSize
        invariant |adj| == leftSize + rightSize
        invariant forall k :: 0 <= k < |adj| ==> adj[k] == if k < u then LeftRow(g, m, k, rightSize) else []
      {
        for v := 0 to rightSize
          invariant |adj| == leftSize + rightSize && adj[u] == LeftRow(g, m, u, v)
          invariant forall k :: 0 <= k < |adj| && k != u ==>
                      adj[k] == if k < u then LeftRow(g, m, k, rightSize) else []
        {
          if result[u, v] == 1 && partner[v] != u {
            adj := adj[u := adj[u] + [v + leftSize]];
          }
        }
      }
      for v := 0 to rightSize
        invariant |adj| == leftSize + rightSize
        invariant forall k :: 0 <= k < leftSize ==> adj[k] == LeftRow(g, m, k, rightSize)
        invariant forall k :: leftSize <= k < |adj| ==>
                    adj[k] == if k - leftSize < v && m[k - leftSize] != -1 then [m[k - leftSize]] else []
      {
        if partner[v] != -1 {
          adj := adj[v + leftSize := adj[v + leftSize] + [partner[v]]];
        }
      }
    }
  }
}
