/** The whole search of TarjanSCC.strong in tarjan.ts as functions on snapshots: Dfs is one
    call of the recursive DFS, Descend its first loop over the successors, Lowering its second
    loop, PopUntil its pop loop and Sweep the loop of `strong` over all nodes. The class in
    tarjan.dfy is proved to compute exactly these functions; the lemmas here carry the
    invariant of SccState through them and conclude that the ids are the strongly connected
    components. */
module SccSearch {
  import opened Digraphs
  import opened SccState
  import opened SccSteps

  /** The little the search needs to be well defined and to terminate: arrays of the graph's
      size, `count` numbering the visited nodes, and nodes of the graph on the stack. */
  ghost predicate Shape(g: AdjList, s: Snapshot) {
    && Sized(g, s) && 0 <= s.count && s.count == |VisitedSet(s.num)|
    && forall i :: 0 <= i < |s.stack| ==> 0 <= s.stack[i] < |g|
  }

  lemma {:induction false} ShapeCount(g: AdjList, s: Snapshot)
    requires Shape(g, s)
    ensures s.count <= |g|
  {
    VisitedAtMost(s.num);
  }

  lemma {:induction false} VisitShape(g: AdjList, s: Snapshot, v: int)
    requires Shape(g, s) && 0 <= v < |g| && s.num[v] == 0
    ensures Shape(g, Visit(s, v)) && Visit(s, v).stack == s.stack + [v]
  {
    assert VisitedSet(Visit(s, v).num) == VisitedSet(s.num) + {v};
    VisitedAtMost(Visit(s, v).num);
  }

  /** `s.stack` is the bottom of `t.stack`. */
  ghost predicate Prefix(s: Snapshot, t: Snapshot) {
    |s.stack| <= |t.stack| && t.stack[..|s.stack|] == s.stack
  }

  /** Nodes on the stack index `onStack` and `answer`. */
  ghost predicate StackIndexes(s: Snapshot) {
    forall i :: 0 <= i < |s.stack| ==> 0 <= s.stack[i] < |s.onStack| && s.stack[i] < |s.answer|
  }

  /** One turn of the pop loop: `x = stack.pop(); onStack[x] = false; answer[x] = comp`. */
  ghost function PopTop(s: Snapshot): (r: Snapshot)
    requires StackIndexes(s) && |s.stack| > 0
    ensures StackIndexes(r)
  {
    var x := s.stack[|s.stack| - 1];
    s.(stack := s.stack[..|s.stack| - 1], onStack := s.onStack[x := false], answer := s.answer[x := s.comp])
  }

  /** The pop loop: pop until the node popped is v. (It is only entered with v on the stack;
      an empty stack ends it here.) */
  ghost function PopUntil(s: Snapshot, v: int): (r: Snapshot)
    requires StackIndexes(s)
    ensures r.num == s.num && r.low == s.low && r.count == s.count && r.comp == s.comp
    ensures |r.onStack| == |s.onStack| && |r.answer| == |s.answer|
    ensures |r.stack| <= |s.stack| && r.stack == s.stack[..|r.stack|]
    ensures forall p :: 0 <= p < |s.stack| && s.stack[p] == v ==> p <= |r.stack|
    decreases |s.stack|
  {
    if s.stack == [] then s
    else if s.stack[|s.stack| - 1] == v then PopTop(s)
    else PopUntil(PopTop(s), v)
  }

  /** The pop loop followed by `comp++`. */
  ghost function Pop(s: Snapshot, v: int): Snapshot
    requires StackIndexes(s)
  {
    PopUntil(s, v).(comp := s.comp + 1)
  }

  /** DFS(v) from state s. */
  ghost function Dfs(g: AdjList, s: Snapshot, v: int): (r: Snapshot)
    requires Shape(g, s)
    ensures Shape(g, r) && s.count <= r.count && Prefix(s, r)
    decreases |g| - s.count, 0, 0
  {
    if v < 0 || v >= |s.num| || s.num[v] != 0 then s
    else
      VisitShape(g, s, v);
      ShapeCount(g, s);
      var s1 := Visit(s, v);
      var s2 := Descend(g, s1, v, 0);
      var c := Lowering(g, s2, v, 0);
      assert c.stack[|s.stack|] == v;
      if c.num[v] == c.low[v] then Pop(c, v) else c
  }

  /** The first loop of DFS(v): DFS on each of the successors g[v][i..], in order. */
  ghost function Descend(g: AdjList, s: Snapshot, v: int, i: nat): (r: Snapshot)
    requires Shape(g, s) && 0 <= v < |g| && i <= |g[v]|
    ensures Shape(g, r) && s.count <= r.count && Prefix(s, r)
    decreases |g| - s.count, 1, |g[v]| - i
  {
    if i == |g[v]| then s
    else
      ShapeCount(g, s);
      Descend(g, Dfs(g, s, g[v][i]), v, i + 1)
  }

  /** One turn of the second loop of DFS(v), on the successor w = g[v][i]: when w is on the
      stack, low[v] drops to low[w] if that is less. An id outside the graph is not on the stack. */
  ghost function LowerStep(g: AdjList, s: Snapshot, v: int, i: nat): Snapshot
    requires Sized(g, s) && 0 <= v < |g| && i < |g[v]|
  {
    var w := g[v][i];
    if 0 <= w < |s.onStack| && s.onStack[w] then Lower(s, v, w) else s
  }

  /** The second loop of DFS(v), over the successors g[v][i..]. */
  ghost function Lowering(g: AdjList, s: Snapshot, v: int, i: nat): (r: Snapshot)
    requires Shape(g, s) && 0 <= v < |g| && i <= |g[v]|
    ensures Shape(g, r) && r == s.(low := s.low[v := r.low[v]]) && r.low[v] <= s.low[v]
    decreases |g[v]| - i
  {
    if i == |g[v]| then s else Lowering(g, LowerStep(g, s, v, i), v, i + 1)
  }

  /** The loop of `strong`: DFS from every node x.., in order. */
  ghost function Sweep(g: AdjList, s: Snapshot, x: nat): (r: Snapshot)
    requires Shape(g, s) && x <= |g|
    ensures Shape(g, r)
    decreases |g| - x
  {
    if x == |g| then s else Sweep(g, Dfs(g, s, x), x + 1)
  }

  /** The state `strong(g)` leaves behind. */
  ghost function Scc(g: AdjList): Snapshot
  {
    assert VisitedSet(Initial(|g|).num) == {};
    Sweep(g, Initial(|g|), 0)
  }

  /** One turn of each loop, unfolded. */
  lemma {:induction false} DescendTurn(g: AdjList, s: Snapshot, v: int, i: nat)
    requires Shape(g, s) && 0 <= v < |g| && i < |g[v]|
    ensures Descend(g, s, v, i) == Descend(g, Dfs(g, s, g[v][i]), v, i + 1)
  {
  }

  lemma {:induction false} LoweringTurn(g: AdjList, s: Snapshot, v: int, i: nat)
    requires Shape(g, s) && 0 <= v < |g| && i < |g[v]|
    ensures Lowering(g, s, v, i) == Lowering(g, LowerStep(g, s, v, i), v, i + 1)
  {
  }

  // ---- the invariant through the search

  /** Popping the top node is the first step of PopFrom(k), for any k below the top. */
  lemma {:induction false} PopTopFrom(s: Snapshot, k: int)
    requires StackIndexes(s) && 0 <= k < |s.stack|
    ensures PopFrom(PopTop(s), k) == PopFrom(s, k)
  {
    var n := |s.stack|;
    var x := s.stack[n - 1];
    var t := PopTop(s);
    assert s.stack[k..] == t.stack[k..] + [x] by {
      assert s.stack == t.stack + [x];
    }
    assert PopFrom(t, k).onStack == PopFrom(s, k).onStack;
    assert PopFrom(t, k).answer == PopFrom(s, k).answer;
  }

  /** With v on the stack exactly once, at position k, the pop loop is PopFrom(k). */
  lemma {:induction false} PopUntilFrom(s: Snapshot, v: int, k: int)
    requires StackIndexes(s) && 0 <= k < |s.stack| && s.stack[k] == v
    requires forall i, j :: 0 <= i < j < |s.stack| ==> s.stack[i] != s.stack[j]
    ensures Pop(s, v) == PopFrom(s, k)
    decreases |s.stack|
  {
    var n := |s.stack|;
    var t := PopTop(s);
    PopTopFrom(s, k);
    if s.stack[n - 1] == v {
      assert k == n - 1;
      assert t.stack[k..] == [];
      assert PopFrom(t, k).onStack == t.onStack;
      assert PopFrom(t, k).answer == t.answer;
    } else {
      assert forall i, j :: 0 <= i < j < |t.stack| ==> t.stack[i] != t.stack[j];
      PopUntilFrom(t, v, k);
    }
  }

  /** A successor visited before a call stays visited after it. */
  lemma {:induction false} VisitedStays(g: AdjList, v: int, s: Snapshot, t: Snapshot, i: nat)
    requires 0 <= v < |g| && i < |g[v]| && Sized(g, s) && Sized(g, t) && Grows(g, s, t)
    requires 0 <= g[v][i] < |g| ==> t.num[g[v][i]] != 0
    requires forall w :: w in g[v][..i] && 0 <= w < |g| ==> s.num[w] != 0
    ensures forall w :: w in g[v][..i + 1] && 0 <= w < |g| ==> t.num[w] != 0
  {
    assert g[v][..i + 1] == g[v][..i] + [g[v][i]];
  }

  /** One turn of the first loop: DFS on the successor g[v][i]. */
  lemma {:induction false} DescendStep(g: AdjList, A: set<int>, v: int, s1: Snapshot, s: Snapshot, i: nat)
    requires 0 <= v < |g| && i < |g[v]| && Sized(g, s1)
    requires Inv(g, s, A) && Descending(g, s1, s, v)
    requires forall w :: w in g[v][..i] && 0 <= w < |g| ==> s.num[w] != 0
    ensures Inv(g, Dfs(g, s, g[v][i]), A) && Descending(g, s1, Dfs(g, s, g[v][i]), v)
    ensures forall w :: w in g[v][..i + 1] && 0 <= w < |g| ==> Dfs(g, s, g[v][i]).num[w] != 0
    decreases |g| - s.count, 0, 2
  {
    var w := g[v][i];
    var t := Dfs(g, s, w);
    DfsKeeps(g, A, s, w);
    ChildCall(g, s1, s, t, v, w);
    VisitedStays(g, v, s, t, i);
  }

  /** The first loop keeps the invariant with v active, and leaves every successor visited. */
  lemma {:induction false} DescendKeeps(g: AdjList, A: set<int>, v: int, s1: Snapshot, s: Snapshot, i: nat)
    requires 0 <= v < |g| && i <= |g[v]| && Sized(g, s1)
    requires Inv(g, s, A) && Descending(g, s1, s, v)
    requires forall w :: w in g[v][..i] && 0 <= w < |g| ==> s.num[w] != 0
    ensures Inv(g, Descend(g, s, v, i), A) && Descending(g, s1, Descend(g, s, v, i), v)
    ensures forall w :: Edge(g, v, w) ==> Descend(g, s, v, i).num[w] != 0
    decreases |g| - s.count, 1, |g[v]| - i
  {
    if i == |g[v]| {
      assert g[v][..i] == g[v];
    } else {
      ShapeCount(g, s);
      DescendTurn(g, s, v, i);
      DescendStep(g, A, v, s1, s, i);
      DescendKeeps(g, A, v, s1, Dfs(g, s, g[v][i]), i + 1);
    }
  }

  /** The second loop leaves low[v] either as it was or equal to the low-link of a successor
      on the stack. */
  lemma {:induction false} LoweringSource(g: AdjList, v: int, s: Snapshot, i: nat)
    requires 0 <= v < |g| && i <= |g[v]| && Shape(g, s)
    ensures var r := Lowering(g, s, v, i);
            r.low[v] == s.low[v] || exists w :: Edge(g, v, w) && s.onStack[w] && r.low[v] == s.low[w]
    decreases |g[v]| - i
  {
    if i < |g[v]| {
      var t := LowerStep(g, s, v, i);
      LoweringTurn(g, s, v, i);
      LoweringSource(g, v, t, i + 1);
      var w := g[v][i];
      if 0 <= w < |s.onStack| && s.onStack[w] {
        assert Edge(g, v, w);
      }
    }
  }

  /** Setting low[v], for an active v, to the low-link of a successor on the stack that is
      smaller keeps the invariant: this is what the second loop does overall. */
  lemma {:induction false} LowerTo(g: AdjList, A: set<int>, v: int, s: Snapshot, t: Snapshot)
    requires 0 <= v < |g| && v in A && Inv(g, s, A) && Sized(g, t)
    requires t == s.(low := s.low[v := t.low[v]]) && t.low[v] <= s.low[v]
    requires t.low[v] == s.low[v] || exists w :: Edge(g, v, w) && s.onStack[w] && t.low[v] == s.low[w]
    ensures Inv(g, t, A)
  {
    if t.low[v] != s.low[v] {
      var w :| Edge(g, v, w) && s.onStack[w] && t.low[v] == s.low[w];
      assert t == Lower(s, v, w);
      LowerKeeps(g, s, A, v, w);
    } else {
      assert t.low == s.low;
    }
  }

  lemma {:induction false} LowerStepMin(g: AdjList, v: int, s: Snapshot, i: nat)
    requires 0 <= v < |g| && i < |g[v]| && Sized(g, s)
    requires forall w :: w in g[v][..i] && 0 <= w < |g| && s.onStack[w] ==> s.low[v] <= s.low[w]
    ensures var t := LowerStep(g, s, v, i);
            forall u :: u in g[v][..i + 1] && 0 <= u < |g| && t.onStack[u] ==> t.low[v] <= t.low[u]
  {
    assert g[v][..i + 1] == g[v][..i] + [g[v][i]];
  }

  /** The second loop leaves low[v] at most the low-link of every successor on the stack. */
  lemma {:induction false} LoweringMin(g: AdjList, v: int, s: Snapshot, i: nat)
    requires 0 <= v < |g| && i <= |g[v]| && Shape(g, s)
    requires forall w :: w in g[v][..i] && 0 <= w < |g| && s.onStack[w] ==> s.low[v] <= s.low[w]
    ensures forall w :: Edge(g, v, w) && Lowering(g, s, v, i).onStack[w] ==>
              Lowering(g, s, v, i).low[v] <= Lowering(g, s, v, i).low[w]
    decreases |g[v]| - i
  {
    if i == |g[v]| {
      assert g[v][..i] == g[v];
    } else {
      var t := LowerStep(g, s, v, i);
      LoweringTurn(g, s, v, i);
      LowerStepMin(g, v, s, i);
      LoweringMin(g, v, t, i + 1);
    }
  }

  /** What the two loops leave behind, put together as AfterLoops. */
  lemma {:induction false} LoopsDone(g: AdjList, s: Snapshot, v: int, s2: Snapshot, c: Snapshot)
    requires Shape(g, s) && 0 <= v < |g| && s.num[v] == 0 && Sized(g, s2) && Sized(g, c)
    requires Descending(g, Visit(s, v), s2, v) && forall w :: Edge(g, v, w) ==> s2.num[w] != 0
    requires c == s2.(low := s2.low[v := c.low[v]])
    requires forall w :: Edge(g, v, w) && c.onStack[w] ==> c.low[v] <= c.low[w]
    ensures AfterLoops(g, v, s, s2, c)
  {
  }

  /** Both loops of DFS(v) on an unvisited node v, s2 being the state after the first and c
      after the second: the invariant holds with v active, and AfterLoops describes c. */
  lemma {:induction false} BothLoops(g: AdjList, A: set<int>, s: Snapshot, v: int, s2: Snapshot, c: Snapshot)
    requires Inv(g, s, A) && 0 <= v < |g| && s.num[v] == 0
    requires Shape(g, Visit(s, v)) && s2 == Descend(g, Visit(s, v), v, 0) && c == Lowering(g, s2, v, 0)
    ensures Inv(g, c, A + {v}) && AfterLoops(g, v, s, s2, c)
    decreases |g| - s.count, 0, 0
  {
    var s1 := Visit(s, v);
    VisitKeeps(g, s, A, v);
    DescendingStart(g, s, v);
    ShapeCount(g, s);
    DescendKeeps(g, A + {v}, v, s1, s1, 0);
    LoweringSource(g, v, s2, 0);
    LowerTo(g, A + {v}, v, s2, c);
    LoweringMin(g, v, s2, 0);
    LoopsDone(g, s, v, s2, c);
  }

  /** One call DFS(v) keeps the invariant and keeps its promise DfsPost. */
  lemma {:induction false} DfsKeeps(g: AdjList, A: set<int>, s: Snapshot, v: int)
    requires Inv(g, s, A)
    ensures Inv(g, Dfs(g, s, v), A) && DfsPost(g, s, Dfs(g, s, v), v)
    decreases |g| - s.count, 0, 1
  {
    if v < 0 || v >= |s.num| || s.num[v] != 0 {
      DfsPostSkip(g, s, v);
    } else {
      ShapeCount(g, s);
      VisitShape(g, s, v);
      var s2 := Descend(g, Visit(s, v), v, 0);
      var c := Lowering(g, s2, v, 0);
      BothLoops(g, A, s, v, s2, c);
      if c.num[v] == c.low[v] {
        RootPop(g, A, v, s, s2, c);
        PopUntilFrom(c, v, |s.stack|);
      } else {
        NonRootFinish(g, A, v, s, s2, c);
      }
    }
  }

  /** Nodes visited before a call stay visited after it. */
  lemma {:induction false} VisitedUpTo(g: AdjList, s: Snapshot, t: Snapshot, x: nat)
    requires x < |g| && Sized(g, s) && Sized(g, t) && Grows(g, s, t) && t.num[x] != 0
    requires forall y :: 0 <= y < x ==> s.num[y] != 0
    ensures forall y :: 0 <= y <= x ==> t.num[y] != 0
  {
  }

  /** The loop of `strong` keeps the invariant with nothing active, and visits every node. */
  lemma {:induction false} SweepKeeps(g: AdjList, s: Snapshot, x: nat)
    requires Inv(g, s, {}) && x <= |g| && forall y :: 0 <= y < x ==> s.num[y] != 0
    ensures Inv(g, Sweep(g, s, x), {}) && forall y :: 0 <= y < |g| ==> Sweep(g, s, x).num[y] != 0
    decreases |g| - x
  {
    if x < |g| {
      var t := Dfs(g, s, x);
      DfsVisits(g, s, x);
      SweepKeeps(g, t, x + 1);
      assert Sweep(g, s, x) == Sweep(g, t, x + 1);
    }
  }

  /** One turn of the loop of `strong`: DFS(x) keeps the invariant with nothing active, and
      leaves x and every node before it visited. */
  lemma {:induction false} DfsVisits(g: AdjList, s: Snapshot, x: nat)
    requires Inv(g, s, {}) && x < |g| && forall y :: 0 <= y < x ==> s.num[y] != 0
    ensures Inv(g, Dfs(g, s, x), {}) && forall y :: 0 <= y <= x ==> Dfs(g, s, x).num[y] != 0
  {
    DfsKeeps(g, {}, s, x);
    VisitedUpTo(g, s, Dfs(g, s, x), x);
  }

  /** What `strong(g)` computes: every node visited and off the stack, ids 0..comp-1 all used,
      two nodes share an id exactly when each can reach the other, and the discovery numbers
      are 1..|g|, one per node. */
  lemma {:induction false} SccCorrect(g: AdjList)
    ensures Sized(g, Scc(g)) && Scc(g).stack == []
    ensures forall x :: 0 <= x < |g| ==> Scc(g).num[x] != 0 && !Scc(g).onStack[x]
    ensures forall x :: 0 <= x < |g| ==> 0 <= Scc(g).answer[x] < Scc(g).comp
    ensures forall x, y :: 0 <= x < |g| && 0 <= y < |g| ==>
              (Scc(g).answer[x] == Scc(g).answer[y] <==> Reach(g, x, y) && Reach(g, y, x))
    ensures forall c :: 0 <= c < Scc(g).comp ==> c in Scc(g).answer
    ensures Scc(g).count == |g| && forall x :: 0 <= x < |g| ==> 1 <= Scc(g).num[x] <= |g|
    ensures forall x, y :: 0 <= x < |g| && 0 <= y < |g| && x != y ==> Scc(g).num[x] != Scc(g).num[y]
  {
    InitialInv(g);
    SweepKeeps(g, Initial(|g|), 0);
    Components(g, Scc(g));
    Numbering(g, Scc(g));
  }
}
