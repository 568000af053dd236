/** How one call of the recursive search DFS(v) in tarjan.ts changes the state, stated over
    snapshots: DfsPost relates the state before a call to the state after it, and the lemmas
    below carry it across the two loops over v's successors and the final root test. */
module SccSteps {
  import opened Digraphs
  import opened SccState

  /** t comes later than s in the same search: nodes visited in s keep their number and
      low-link, the counters do not go back, and the stack of s is still the bottom of the
      stack of t. */
  ghost predicate Grows(g: AdjList, s: Snapshot, t: Snapshot)
    requires Sized(g, s) && Sized(g, t)
  {
    && (forall x :: 0 <= x < |g| && s.num[x] != 0 ==> t.num[x] == s.num[x] && t.low[x] == s.low[x])
    && s.count <= t.count && s.comp <= t.comp
    && |s.stack| <= |t.stack| && (forall i :: 0 <= i < |s.stack| ==> t.stack[i] == s.stack[i])
  }

  /** Every node pushed since s was unvisited in s and is reachable from v. */
  ghost predicate PushedFrom(g: AdjList, s: Snapshot, t: Snapshot, v: int)
    requires Sized(g, s) && Sized(g, t)
  {
    forall i :: |s.stack| <= i < |t.stack| ==>
      0 <= t.stack[i] < |g| && s.num[t.stack[i]] == 0 && Reach(g, v, t.stack[i])
  }

  /** What a call DFS(v) started in state s guarantees of the state t it returns in: v is
      visited (when it is a node), and whatever it leaves on the stack starts with v and has
      low-links no smaller than v's. */
  ghost predicate DfsPost(g: AdjList, s: Snapshot, t: Snapshot, v: int)
    requires Sized(g, s) && Sized(g, t)
  {
    && Grows(g, s, t) && PushedFrom(g, s, t, v)
    && (0 <= v < |g| ==> t.num[v] != 0)
    && (|s.stack| < |t.stack| ==>
          && 0 <= v < |g| && t.stack[|s.stack|] == v
          && forall i :: |s.stack| <= i < |t.stack| ==> t.low[v] <= t.low[t.stack[i]])
  }

  /** Every node pushed since s sits above a successor of v, pushed no earlier, whose low-link
      is no larger. */
  ghost predicate NeighbourBelow(g: AdjList, s: Snapshot, t: Snapshot, v: int)
    requires Sized(g, t)
  {
    forall i :: |s.stack| <= i < |t.stack| ==>
      0 <= t.stack[i] < |g| &&
      exists j :: |s.stack| <= j <= i && Edge(g, v, t.stack[j]) && t.low[t.stack[j]] <= t.low[t.stack[i]]
  }

  /** The invariant of the first loop over v's successors; s1 is the state right after v
      was discovered. */
  ghost predicate Descending(g: AdjList, s1: Snapshot, t: Snapshot, v: int)
    requires Sized(g, s1) && Sized(g, t)
  {
    Grows(g, s1, t) && PushedFrom(g, s1, t, v) && NeighbourBelow(g, s1, t, v)
  }

  /** A call that finds its node already visited (or not a node at all) changes nothing. */
  lemma {:induction false} DfsPostSkip(g: AdjList, s: Snapshot, v: int)
    requires Sized(g, s) && (0 <= v < |g| ==> s.num[v] != 0)
    ensures DfsPost(g, s, s, v)
  {
  }

  /** Right after v is discovered the first loop's invariant holds. */
  lemma {:induction false} DescendingStart(g: AdjList, s0: Snapshot, v: int)
    requires Sized(g, s0) && 0 <= v < |g|
    ensures Sized(g, Visit(s0, v)) && Descending(g, Visit(s0, v), Visit(s0, v), v)
  {
  }

  /** One recursive call DFS(w) on a successor w of v keeps the first loop's invariant. */
  lemma {:induction false} ChildCall(g: AdjList, s1: Snapshot, cur: Snapshot, nxt: Snapshot, v: int, w: int)
    requires Sized(g, s1) && Sized(g, cur) && Sized(g, nxt) && StackVisited(g, cur)
    requires Descending(g, s1, cur, v) && DfsPost(g, cur, nxt, w)
    requires 0 <= v < |g| && w in g[v]
    ensures Descending(g, s1, nxt, v)
  {
    forall i | |s1.stack| <= i < |nxt.stack|
      ensures 0 <= nxt.stack[i] < |g| && s1.num[nxt.stack[i]] == 0 && Reach(g, v, nxt.stack[i])
      ensures exists j :: |s1.stack| <= j <= i && Edge(g, v, nxt.stack[j])
                          && nxt.low[nxt.stack[j]] <= nxt.low[nxt.stack[i]]
    {
      if i < |cur.stack| {
        assert nxt.stack[i] == cur.stack[i];
        var j :| |s1.stack| <= j <= i && Edge(g, v, cur.stack[j]) && cur.low[cur.stack[j]] <= cur.low[cur.stack[i]];
        assert nxt.stack[j] == cur.stack[j];
      } else {
        var x := nxt.stack[i];
        assert nxt.stack[|cur.stack|] == w;
        assert Edge(g, v, w);
        EdgeReach(g, v, w);
        ReachTrans(g, v, w, x);
        assert s1.num[x] == 0;
      }
    }
  }

  /** The state c after the second loop over v's successors, against the state s0 before v
      was discovered and the state s2 after the first loop: the first loop visited every
      successor, the second only lowered low[v], to at most the low-link of every successor
      on the stack. */
  ghost predicate AfterLoops(g: AdjList, v: int, s0: Snapshot, s2: Snapshot, c: Snapshot)
  {
    && 0 <= v < |g| && Sized(g, s0) && s0.num[v] == 0 && 0 <= s0.count && Sized(g, s2) && Sized(g, c)
    && Descending(g, Visit(s0, v), s2, v)
    && c == s2.(low := s2.low[v := c.low[v]])
    && (forall w :: Edge(g, v, w) ==> s2.num[w] != 0)
    && (forall w :: Edge(g, v, w) && c.onStack[w] ==> c.low[v] <= c.low[w])
  }

  lemma {:induction false} AfterLoopsSettled(g: AdjList, v: int, s0: Snapshot, s2: Snapshot, c: Snapshot)
    requires AfterLoops(g, v, s0, s2, c) && LowBounds(g, c)
    ensures SuccessorsSettled(g, c, v)
  {
    assert c.num == s2.num;
  }

  lemma {:induction false} AfterLoopsGrows(g: AdjList, v: int, s0: Snapshot, s2: Snapshot, c: Snapshot)
    requires AfterLoops(g, v, s0, s2, c)
    ensures Grows(g, s0, c)
  {
    var s1 := Visit(s0, v);
    forall x | 0 <= x < |g| && s0.num[x] != 0
      ensures c.num[x] == s0.num[x] && c.low[x] == s0.low[x]
    {
      assert s1.num[x] == s0.num[x] && s1.low[x] == s0.low[x];
    }
    forall i | 0 <= i < |s0.stack|
      ensures c.stack[i] == s0.stack[i]
    {
      assert s1.stack[i] == s0.stack[i];
    }
  }

  /** The stack from v's position up: v itself, then nodes pushed by v's calls, all reachable
      from v and with low-links no smaller than v's. */
  lemma {:induction false} AfterLoopsSegment(g: AdjList, v: int, s0: Snapshot, s2: Snapshot, c: Snapshot)
    requires AfterLoops(g, v, s0, s2, c) && OnStackMirror(g, c)
    ensures |s0.stack| < |c.stack| && c.stack[|s0.stack|] == v
    ensures forall i :: |s0.stack| <= i < |c.stack| ==>
              0 <= c.stack[i] < |g| && s0.num[c.stack[i]] == 0 && Reach(g, v, c.stack[i])
              && c.low[v] <= c.low[c.stack[i]]
  {
    var s1 := Visit(s0, v);
    assert c.stack == s2.stack && c.onStack == s2.onStack;
    assert c.stack[|s0.stack|] == s1.stack[|s0.stack|];
    ReachRefl(g, v);
    forall i | |s1.stack| <= i < |c.stack|
      ensures 0 <= c.stack[i] < |g| && s0.num[c.stack[i]] == 0 && Reach(g, v, c.stack[i])
      ensures c.low[v] <= c.low[c.stack[i]]
    {
      SegmentStep(g, v, s0, s2, c, i);
    }
  }

  lemma {:induction false} SegmentStep(g: AdjList, v: int, s0: Snapshot, s2: Snapshot, c: Snapshot, i: int)
    requires AfterLoops(g, v, s0, s2, c) && OnStackMirror(g, c)
    requires |Visit(s0, v).stack| <= i < |c.stack|
    ensures 0 <= c.stack[i] < |g| && s0.num[c.stack[i]] == 0 && Reach(g, v, c.stack[i])
    ensures c.low[v] <= c.low[c.stack[i]]
  {
    var s1 := Visit(s0, v);
    assert c.stack == s2.stack && c.onStack == s2.onStack;
    var x := s2.stack[i];
    assert 0 <= x < |g| && s1.num[x] == 0 && Reach(g, v, x);
    var j :| |s1.stack| <= j <= i && Edge(g, v, s2.stack[j]) && s2.low[s2.stack[j]] <= s2.low[x];
    var y := s2.stack[j];
    assert s1.num[y] == 0;
    assert x != v && y != v;
    assert c.low[x] == s2.low[x] && c.low[y] == s2.low[y];
    assert y in c.stack;
    assert c.low[v] <= c.low[y];
  }

  /** Nodes pushed after s0 are not active in s0's search. */
  lemma {:induction false} SegmentNotActive(g: AdjList, active: set<int>, v: int, s0: Snapshot, c: Snapshot)
    requires Inv(g, s0, active) && Sized(g, c) && 0 <= v < |g| && s0.num[v] == 0
    requires |s0.stack| < |c.stack| && c.stack[|s0.stack|] == v
    requires forall i :: |s0.stack| <= i < |c.stack| ==> 0 <= c.stack[i] < |g| && s0.num[c.stack[i]] == 0
    requires forall i, j :: 0 <= i < j < |c.stack| ==> c.stack[i] != c.stack[j]
    ensures forall j :: |s0.stack| <= j < |c.stack| ==> c.stack[j] !in active
    ensures forall j :: |s0.stack| < j < |c.stack| ==> c.stack[j] !in active + {v}
  {
    ActiveVisited(g, s0, active);
  }

  /** Popping back to the stack s0 had is what DFS(v) promises. */
  lemma {:induction false} PopDfsPost(g: AdjList, v: int, s0: Snapshot, c: Snapshot)
    requires Sized(g, s0) && Sized(g, c) && Grows(g, s0, c) && 0 <= v < |g| && c.num[v] != 0
    requires |s0.stack| < |c.stack|
    ensures Sized(g, PopFrom(c, |s0.stack|)) && DfsPost(g, s0, PopFrom(c, |s0.stack|), v)
  {
    var t := PopFrom(c, |s0.stack|);
    assert t.stack == c.stack[..|s0.stack|];
  }

  /** v is the root of its component: popping the stack down to v keeps the invariant, and
      the call leaves the stack as it found it. */
  lemma {:induction false} RootPop(g: AdjList, active: set<int>, v: int, s0: Snapshot, s2: Snapshot, c: Snapshot)
    requires Inv(g, s0, active) && Inv(g, c, active + {v})
    requires AfterLoops(g, v, s0, s2, c) && c.low[v] == c.num[v]
    ensures |s0.stack| < |c.stack| && c.stack[|s0.stack|] == v
    ensures forall i, j :: 0 <= i < j < |c.stack| ==> c.stack[i] != c.stack[j]
    ensures Inv(g, PopFrom(c, |s0.stack|), active)
    ensures Sized(g, PopFrom(c, |s0.stack|)) && DfsPost(g, s0, PopFrom(c, |s0.stack|), v)
  {
    AfterLoopsSettled(g, v, s0, s2, c);
    AfterLoopsGrows(g, v, s0, s2, c);
    AfterLoopsSegment(g, v, s0, s2, c);
    StackDistinct(g, c);
    SegmentNotActive(g, active, v, s0, c);
    var k := |s0.stack|;
    forall j | k <= j < |c.stack|
      ensures Reach(g, c.stack[j], v)
    {
      StackReaches(g, c, active + {v}, k, j);
    }
    PopKeeps(g, c, active, v, k);
    PopDfsPost(g, v, s0, c);
  }

  /** v is not a root: it stays on the stack and the call's promise holds. */
  lemma {:induction false} NonRootFinish(g: AdjList, active: set<int>, v: int, s0: Snapshot, s2: Snapshot, c: Snapshot)
    requires Inv(g, s0, active) && Inv(g, c, active + {v})
    requires AfterLoops(g, v, s0, s2, c) && c.low[v] != c.num[v]
    ensures Inv(g, c, active) && DfsPost(g, s0, c, v)
  {
    AfterLoopsSettled(g, v, s0, s2, c);
    AfterLoopsGrows(g, v, s0, s2, c);
    AfterLoopsSegment(g, v, s0, s2, c);
    ActiveVisited(g, s0, active);
    FinishKeeps(g, c, active, v);
  }

  /** The state a search starts from: nothing visited, empty stack, counters at zero. */
  function Initial(n: nat): (s: Snapshot)
    ensures |s.num| == n && |s.onStack| == n && s.stack == []
  {
    Snapshot(seq(n, _ => 0), seq(n, _ => 0), seq(n, _ => 0), seq(n, _ => false), [], 0, 0)
  }

  lemma {:induction false} InitialInv(g: AdjList)
    ensures Inv(g, Initial(|g|), {})
  {
    assert VisitedSet(Initial(|g|).num) == {};
  }
}
