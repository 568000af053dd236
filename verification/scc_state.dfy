/** The working state of the SCC routine of tarjan.ts (the fields `num`, `low`, `answer`,
    `onStack`, `stack`, `count` and `comp` of class TarjanSCC) as a plain value, the invariant
    that the depth-first search keeps over it, and one lemma per step of the search that
    changes it. The class in tarjan.dfy keeps its fields equal to such a value.

    Vocabulary, for a node x of the graph:
    - x is *visited* once it has a discovery number (num[x] != 0);
    - the *active* nodes are those whose DFS call is still running (a ghost set);
    - x is *finished* when it is visited and not active;
    - x is *done* when it is visited and no longer on the stack: it has its component id. */
module SccState {
  import opened Digraphs

  datatype Snapshot = Snapshot(
    num: seq<int>,
    low: seq<int>,
    answer: seq<int>,
    onStack: seq<bool>,
    stack: seq<int>,
    count: int,
    comp: int)

  ghost predicate Sized(g: AdjList, s: Snapshot) {
    |s.num| == |g| && |s.low| == |g| && |s.answer| == |g| && |s.onStack| == |g|
  }

  function VisitedSet(num: seq<int>): set<int> {
    set x | 0 <= x < |num| && num[x] != 0
  }

  ghost predicate Done(g: AdjList, s: Snapshot, x: int) {
    Sized(g, s) && 0 <= x < |g| && s.num[x] != 0 && !s.onStack[x]
  }

  // ---- numbering

  /** Discovery numbers lie in 0..count. */
  ghost predicate NumBounded(g: AdjList, s: Snapshot)
    requires Sized(g, s)
  {
    0 <= s.count && forall x :: 0 <= x < |g| ==> 0 <= s.num[x] <= s.count
  }

  /** No two visited nodes share a discovery number. */
  ghost predicate NumDistinct(g: AdjList, s: Snapshot)
    requires Sized(g, s)
  {
    forall x, y :: 0 <= x < |g| && 0 <= y < |g| && x != y && s.num[x] != 0 ==> s.num[x] != s.num[y]
  }

  /** `count` is the number of visited nodes. */
  ghost predicate CountsVisited(g: AdjList, s: Snapshot)
    requires Sized(g, s)
  {
    s.count == |VisitedSet(s.num)|
  }

  // ---- the stack

  ghost predicate StackVisited(g: AdjList, s: Snapshot)
    requires Sized(g, s)
  {
    forall i :: 0 <= i < |s.stack| ==> 0 <= s.stack[i] < |g| && s.num[s.stack[i]] != 0
  }

  /** The stack lists nodes in increasing discovery order (so without repetition). */
  ghost predicate StackOrdered(g: AdjList, s: Snapshot)
    requires Sized(g, s) && StackVisited(g, s)
  {
    forall i, j :: 0 <= i < j < |s.stack| ==> s.num[s.stack[i]] < s.num[s.stack[j]]
  }

  ghost predicate OnStackMirror(g: AdjList, s: Snapshot)
    requires Sized(g, s)
  {
    forall x :: 0 <= x < |g| ==> (s.onStack[x] <==> x in s.stack)
  }

  // ---- low-links

  ghost predicate ActiveOnStack(g: AdjList, s: Snapshot, active: set<int>)
    requires Sized(g, s)
  {
    forall a :: a in active ==> 0 <= a < |g| && s.onStack[a]
  }

  ghost predicate LowBounds(g: AdjList, s: Snapshot)
    requires Sized(g, s)
  {
    forall x :: 0 <= x < |g| && s.num[x] != 0 ==> 1 <= s.low[x] <= s.num[x]
  }

  /** low[x] is the discovery number of a node still on the stack that x reaches. */
  ghost predicate LowWitnessed(g: AdjList, s: Snapshot, x: int)
    requires Sized(g, s) && 0 <= x < |g|
  {
    exists j :: 0 <= j < |s.stack| && 0 <= s.stack[j] < |g| && s.num[s.stack[j]] == s.low[x]
                && Reach(g, x, s.stack[j])
  }

  ghost predicate LowWitnesses(g: AdjList, s: Snapshot)
    requires Sized(g, s)
  {
    forall x :: 0 <= x < |g| && s.onStack[x] ==> LowWitnessed(g, s, x)
  }

  /** A finished node left on the stack is not the root of its component. */
  ghost predicate NonRootsLow(g: AdjList, s: Snapshot, active: set<int>)
    requires Sized(g, s)
  {
    forall x :: 0 <= x < |g| && s.onStack[x] && x !in active ==> s.low[x] < s.num[x]
  }

  // ---- finished nodes

  /** What a node's two loops over its successors leave behind: every successor is visited,
      and low[x] is at most the number of every successor still on the stack. */
  ghost predicate SuccessorsSettled(g: AdjList, s: Snapshot, x: int)
    requires Sized(g, s) && 0 <= x < |g|
  {
    forall w :: Edge(g, x, w) ==> s.num[w] != 0 && (s.onStack[w] ==> s.low[x] <= s.num[w])
  }

  ghost predicate FinishedSettled(g: AdjList, s: Snapshot, active: set<int>)
    requires Sized(g, s)
  {
    forall x :: 0 <= x < |g| && s.num[x] != 0 && x !in active ==> SuccessorsSettled(g, s, x)
  }

  // ---- done nodes

  ghost predicate AnswerRange(g: AdjList, s: Snapshot) {
    0 <= s.comp && forall x :: Done(g, s, x) ==> 0 <= s.answer[x] < s.comp
  }

  /** No edge leaves the done nodes. */
  ghost predicate DoneClosed(g: AdjList, s: Snapshot) {
    forall x, w :: Done(g, s, x) && Edge(g, x, w) ==> Done(g, s, w)
  }

  ghost predicate SameIdReach(g: AdjList, s: Snapshot) {
    forall x, y :: Done(g, s, x) && Done(g, s, y) && s.answer[x] == s.answer[y] ==> Reach(g, x, y)
  }

  ghost predicate ReachSameId(g: AdjList, s: Snapshot) {
    forall x, y :: Done(g, s, x) && Done(g, s, y) && Reach(g, x, y) && Reach(g, y, x) ==>
      s.answer[x] == s.answer[y]
  }

  ghost predicate ComponentUsed(g: AdjList, s: Snapshot, c: int) {
    exists x :: Done(g, s, x) && s.answer[x] == c
  }

  ghost predicate IdsUsed(g: AdjList, s: Snapshot) {
    forall c :: 0 <= c < s.comp ==> ComponentUsed(g, s, c)
  }

  /** Among the done nodes the component ids are exactly the classes of mutual
      reachability, numbered densely from 0. */
  ghost predicate DoneInv(g: AdjList, s: Snapshot) {
    AnswerRange(g, s) && DoneClosed(g, s) && SameIdReach(g, s) && ReachSameId(g, s) && IdsUsed(g, s)
  }

  ghost predicate Inv(g: AdjList, s: Snapshot, active: set<int>) {
    && Sized(g, s)
    && NumBounded(g, s) && NumDistinct(g, s) && CountsVisited(g, s)
    && StackVisited(g, s) && StackOrdered(g, s) && OnStackMirror(g, s)
    && ActiveOnStack(g, s, active) && LowBounds(g, s) && LowWitnesses(g, s) && NonRootsLow(g, s, active)
    && FinishedSettled(g, s, active)
    && DoneInv(g, s)
  }

  /** The state right after `num[v] = low[v] = ++count; stack.push(v); onStack[v] = true`. */
  function Visit(s: Snapshot, v: int): Snapshot
    requires 0 <= v < |s.num| && |s.low| == |s.num| == |s.onStack|
  {
    s.(num := s.num[v := s.count + 1], low := s.low[v := s.count + 1], count := s.count + 1,
       stack := s.stack + [v], onStack := s.onStack[v := true])
  }

  /** The state after the pop loop of root stack[k]: every node from position k up is taken
      off the stack and given the fresh id comp, and comp is incremented. */
  function PopFrom(s: Snapshot, k: int): Snapshot
    requires 0 <= k <= |s.stack|
  {
    s.(stack := s.stack[..k],
       onStack := seq(|s.onStack|, x requires 0 <= x < |s.onStack| =>
                        if x in s.stack[k..] then false else s.onStack[x]),
       answer := seq(|s.answer|, x requires 0 <= x < |s.answer| =>
                        if x in s.stack[k..] then s.comp else s.answer[x]),
       comp := s.comp + 1)
  }

  /** The state after `low[v] = Math.min(low[v], low[w])`. */
  function Lower(s: Snapshot, v: int, w: int): Snapshot
    requires 0 <= v < |s.low| && 0 <= w < |s.low|
  {
    s.(low := s.low[v := if s.low[w] < s.low[v] then s.low[w] else s.low[v]])
  }

  // ---- small facts

  /** The nodes 0..n-1. */
  function Range(n: nat): (r: set<int>)
    ensures forall x :: x in r <==> 0 <= x < n
    ensures |r| == n
  {
    if n == 0 then {} else Range(n - 1) + {n - 1}
  }

  lemma {:induction false} VisitedAtMost(num: seq<int>)
    ensures |VisitedSet(num)| <= |num|
  {
    var r := Range(|num|);
    assert VisitedSet(num) <= r;
    assert r == VisitedSet(num) + (r - VisitedSet(num));
  }

  lemma {:induction false} IndexOf(st: seq<int>, x: int) returns (i: int)
    requires x in st
    ensures 0 <= i < |st| && st[i] == x
  {
    i :| 0 <= i < |st| && st[i] == x;
  }

  lemma {:induction false} StackDistinct(g: AdjList, s: Snapshot)
    requires Sized(g, s) && StackVisited(g, s) && StackOrdered(g, s)
    ensures forall i, j :: 0 <= i < j < |s.stack| ==> s.stack[i] != s.stack[j]
  {
  }

  /** In a list without repetition, x lies before position k exactly when it lies in the
      list but not from position k on. */
  lemma {:induction false} SplitAt(st: seq<int>, k: int, x: int)
    requires 0 <= k <= |st|
    requires forall i, j :: 0 <= i < j < |st| ==> st[i] != st[j]
    ensures x in st[..k] <==> x in st && x !in st[k..]
  {
    assert st == st[..k] + st[k..];
    if x in st[..k] {
      var i := IndexOf(st[..k], x);
      assert st[i] == x;
      forall j | 0 <= j < |st[k..]| ensures st[k..][j] != x {
        assert st[k..][j] == st[k + j];
      }
    }
  }

  /** Every active node is a visited node of the graph. */
  lemma {:induction false} ActiveVisited(g: AdjList, s: Snapshot, active: set<int>)
    requires Sized(g, s) && StackVisited(g, s) && OnStackMirror(g, s) && ActiveOnStack(g, s, active)
    ensures forall a :: a in active ==> 0 <= a < |g| && s.num[a] != 0
  {
    forall a | a in active ensures 0 <= a < |g| && s.num[a] != 0 {
      var i := IndexOf(s.stack, a);
    }
  }

  /** Steps that leave the done nodes and their ids alone keep DoneInv. */
  lemma {:induction false} DoneTransfer(g: AdjList, s: Snapshot, t: Snapshot)
    requires Sized(g, s) && Sized(g, t) && DoneInv(g, s)
    requires forall x :: Done(g, t, x) <==> Done(g, s, x)
    requires forall x :: Done(g, s, x) ==> t.answer[x] == s.answer[x]
    requires t.comp == s.comp
    ensures DoneInv(g, t)
  {
    forall c | 0 <= c < t.comp
      ensures ComponentUsed(g, t, c)
    {
      assert ComponentUsed(g, s, c);
      var x :| Done(g, s, x) && s.answer[x] == c;
      assert Done(g, t, x);
    }
  }

  // ---- visiting a node

  lemma {:induction false} VisitNumbering(g: AdjList, s: Snapshot, v: int)
    requires Sized(g, s) && NumBounded(g, s) && NumDistinct(g, s) && CountsVisited(g, s)
    requires 0 <= v < |g| && s.num[v] == 0
    ensures Sized(g, Visit(s, v))
    ensures NumBounded(g, Visit(s, v)) && NumDistinct(g, Visit(s, v)) && CountsVisited(g, Visit(s, v))
  {
    var t := Visit(s, v);
    assert VisitedSet(t.num) == VisitedSet(s.num) + {v};
  }

  lemma {:induction false} VisitStack(g: AdjList, s: Snapshot, v: int)
    requires Sized(g, s) && NumBounded(g, s) && StackVisited(g, s) && StackOrdered(g, s) && OnStackMirror(g, s)
    requires 0 <= v < |g| && s.num[v] == 0
    ensures Sized(g, Visit(s, v))
    ensures StackVisited(g, Visit(s, v)) && StackOrdered(g, Visit(s, v)) && OnStackMirror(g, Visit(s, v))
  {
    var t := Visit(s, v);
    forall i | 0 <= i < |s.stack|
      ensures t.stack[i] == s.stack[i] && s.stack[i] != v
    {
    }
  }

  lemma {:induction false} VisitWitnesses(g: AdjList, s: Snapshot, v: int)
    requires Sized(g, s) && NumBounded(g, s) && StackVisited(g, s) && OnStackMirror(g, s)
    requires LowWitnesses(g, s)
    requires 0 <= v < |g| && s.num[v] == 0
    ensures Sized(g, Visit(s, v)) && LowWitnesses(g, Visit(s, v))
  {
    var t := Visit(s, v);
    forall x | 0 <= x < |g| && t.onStack[x]
      ensures LowWitnessed(g, t, x)
    {
      if x == v {
        ReachRefl(g, v);
        assert t.stack[|s.stack|] == v;
      } else {
        assert LowWitnessed(g, s, x);
        var j :| 0 <= j < |s.stack| && 0 <= s.stack[j] < |g| && s.num[s.stack[j]] == s.low[x]
                 && Reach(g, x, s.stack[j]);
        assert t.stack[j] == s.stack[j];
      }
    }
  }

  lemma {:induction false} VisitSettled(g: AdjList, s: Snapshot, active: set<int>, v: int)
    requires Sized(g, s) && NumBounded(g, s)
    requires ActiveOnStack(g, s, active) && LowBounds(g, s)
    requires NonRootsLow(g, s, active) && FinishedSettled(g, s, active)
    requires 0 <= v < |g| && s.num[v] == 0
    ensures Sized(g, Visit(s, v))
    ensures ActiveOnStack(g, Visit(s, v), active + {v}) && LowBounds(g, Visit(s, v))
    ensures NonRootsLow(g, Visit(s, v), active + {v}) && FinishedSettled(g, Visit(s, v), active + {v})
  {
    var t := Visit(s, v);
    forall x | 0 <= x < |g| && t.num[x] != 0 && x !in active + {v}
      ensures SuccessorsSettled(g, t, x)
    {
      assert SuccessorsSettled(g, s, x);
    }
  }

  /** Discovering an unvisited node v keeps the invariant, with v now active. */
  lemma {:induction false} VisitKeeps(g: AdjList, s: Snapshot, active: set<int>, v: int)
    requires Inv(g, s, active) && 0 <= v < |g| && s.num[v] == 0
    ensures Inv(g, Visit(s, v), active + {v})
  {
    var t := Visit(s, v);
    VisitNumbering(g, s, v);
    VisitStack(g, s, v);
    VisitWitnesses(g, s, v);
    VisitSettled(g, s, active, v);
    forall x
      ensures Done(g, t, x) <==> Done(g, s, x)
    {
    }
    DoneTransfer(g, s, t);
  }

  // ---- lowering low[v] through an edge v -> w

  lemma {:induction false} LowerWitnesses(g: AdjList, s: Snapshot, active: set<int>, v: int, w: int)
    requires Sized(g, s) && StackVisited(g, s) && OnStackMirror(g, s) && ActiveOnStack(g, s, active)
    requires LowWitnesses(g, s)
    requires v in active && Edge(g, v, w) && s.onStack[w]
    ensures Sized(g, Lower(s, v, w)) && LowWitnesses(g, Lower(s, v, w))
  {
    var t := Lower(s, v, w);
    forall x | 0 <= x < |g| && t.onStack[x]
      ensures LowWitnessed(g, t, x)
    {
      if x == v && s.low[w] < s.low[v] {
        assert LowWitnessed(g, s, w);
        var j :| 0 <= j < |s.stack| && 0 <= s.stack[j] < |g| && s.num[s.stack[j]] == s.low[w]
                 && Reach(g, w, s.stack[j]);
        EdgeReach(g, v, w);
        ReachTrans(g, v, w, s.stack[j]);
      } else {
        assert LowWitnessed(g, s, x);
      }
    }
  }

  lemma {:induction false} LowerSettled(g: AdjList, s: Snapshot, active: set<int>, v: int, w: int)
    requires Sized(g, s) && StackVisited(g, s) && OnStackMirror(g, s) && ActiveOnStack(g, s, active)
    requires LowBounds(g, s) && NonRootsLow(g, s, active) && FinishedSettled(g, s, active)
    requires v in active && Edge(g, v, w) && s.onStack[w]
    ensures Sized(g, Lower(s, v, w)) && LowBounds(g, Lower(s, v, w))
    ensures NonRootsLow(g, Lower(s, v, w), active) && FinishedSettled(g, Lower(s, v, w), active)
  {
    var t := Lower(s, v, w);
    ActiveVisited(g, s, active);
    var iw := IndexOf(s.stack, w);
    forall x | 0 <= x < |g| && t.num[x] != 0 && x !in active
      ensures SuccessorsSettled(g, t, x)
    {
      assert SuccessorsSettled(g, s, x);
    }
  }

  /** One step of the second loop over v's successors keeps the invariant. */
  lemma {:induction false} LowerKeeps(g: AdjList, s: Snapshot, active: set<int>, v: int, w: int)
    requires Inv(g, s, active) && v in active && Edge(g, v, w) && s.onStack[w]
    ensures Inv(g, Lower(s, v, w), active)
  {
    var t := Lower(s, v, w);
    LowerWitnesses(g, s, active, v, w);
    LowerSettled(g, s, active, v, w);
    assert t.num == s.num && t.stack == s.stack && t.onStack == s.onStack;
    forall x
      ensures Done(g, t, x) <==> Done(g, s, x)
    {
    }
    DoneTransfer(g, s, t);
  }

  // ---- finishing a node that is not a root

  lemma {:induction false} FinishSettled(g: AdjList, s: Snapshot, active: set<int>, v: int)
    requires Sized(g, s) && ActiveOnStack(g, s, active + {v})
    requires NonRootsLow(g, s, active + {v}) && FinishedSettled(g, s, active + {v})
    requires v !in active && 0 <= v < |g| && s.low[v] < s.num[v] && SuccessorsSettled(g, s, v)
    ensures ActiveOnStack(g, s, active) && NonRootsLow(g, s, active) && FinishedSettled(g, s, active)
  {
    forall x | 0 <= x < |g| && s.num[x] != 0 && x !in active
      ensures SuccessorsSettled(g, s, x)
    {
      if x != v {
        assert x !in active + {v};
      }
    }
  }

  /** A node that finishes with low[v] < num[v] stays on the stack and stops being active. */
  lemma {:induction false} FinishKeeps(g: AdjList, s: Snapshot, active: set<int>, v: int)
    requires Inv(g, s, active + {v}) && v !in active && 0 <= v < |g|
    requires s.low[v] < s.num[v] && SuccessorsSettled(g, s, v)
    ensures Inv(g, s, active)
  {
    FinishSettled(g, s, active, v);
  }

  // ---- popping a component

  lemma {:induction false} PopStack(g: AdjList, s: Snapshot, k: int)
    requires Sized(g, s) && StackVisited(g, s) && StackOrdered(g, s) && OnStackMirror(g, s)
    requires 0 <= k <= |s.stack|
    ensures Sized(g, PopFrom(s, k))
    ensures StackVisited(g, PopFrom(s, k)) && StackOrdered(g, PopFrom(s, k)) && OnStackMirror(g, PopFrom(s, k))
  {
    var t := PopFrom(s, k);
    StackDistinct(g, s);
    forall x | 0 <= x < |g|
      ensures t.onStack[x] <==> x in s.stack[..k]
    {
      SplitAt(s.stack, k, x);
    }
  }

  lemma {:induction false} PopWitnesses(g: AdjList, s: Snapshot, active: set<int>, v: int, k: int)
    requires Sized(g, s) && StackVisited(g, s) && StackOrdered(g, s) && OnStackMirror(g, s)
    requires LowBounds(g, s) && LowWitnesses(g, s) && NonRootsLow(g, s, active + {v})
    requires 0 <= k < |s.stack| && s.stack[k] == v
    ensures Sized(g, PopFrom(s, k))
    ensures LowWitnesses(g, PopFrom(s, k)) && NonRootsLow(g, PopFrom(s, k), active)
  {
    var t := PopFrom(s, k);
    StackDistinct(g, s);
    forall x | 0 <= x < |g| && t.onStack[x]
      ensures LowWitnessed(g, t, x) && (x !in active ==> t.low[x] < t.num[x])
    {
      SplitAt(s.stack, k, x);
      var i := IndexOf(s.stack[..k], x);
      assert s.stack[i] == x;
      assert LowWitnessed(g, s, x);
      var j :| 0 <= j < |s.stack| && 0 <= s.stack[j] < |g| && s.num[s.stack[j]] == s.low[x]
               && Reach(g, x, s.stack[j]);
      assert j <= i;
      assert t.stack[j] == s.stack[j];
    }
  }

  lemma {:induction false} PopSettled(g: AdjList, s: Snapshot, active: set<int>, v: int, k: int)
    requires Sized(g, s) && StackVisited(g, s) && OnStackMirror(g, s)
    requires ActiveOnStack(g, s, active) && LowBounds(g, s) && FinishedSettled(g, s, active + {v})
    requires 0 <= k < |s.stack| && s.stack[k] == v && SuccessorsSettled(g, s, v)
    requires forall j :: k <= j < |s.stack| ==> s.stack[j] !in active
    ensures Sized(g, PopFrom(s, k))
    ensures ActiveOnStack(g, PopFrom(s, k), active) && LowBounds(g, PopFrom(s, k))
    ensures FinishedSettled(g, PopFrom(s, k), active)
  {
    var t := PopFrom(s, k);
    forall a | a in active
      ensures 0 <= a < |g| && t.onStack[a]
    {
      var i := IndexOf(s.stack, a);
      assert a !in s.stack[k..];
    }
    forall x | 0 <= x < |g| && t.num[x] != 0 && x !in active
      ensures SuccessorsSettled(g, t, x)
    {
      assert SuccessorsSettled(g, s, x);
    }
  }

  /** The done nodes after the pop are the old ones plus the popped segment. */
  lemma {:induction false} PopDoneShape(g: AdjList, s: Snapshot, k: int)
    requires Sized(g, s) && StackVisited(g, s) && OnStackMirror(g, s)
    requires 0 <= k <= |s.stack|
    ensures Sized(g, PopFrom(s, k))
    ensures forall x :: Done(g, PopFrom(s, k), x) <==> Done(g, s, x) || x in s.stack[k..]
    ensures forall x :: Done(g, s, x) ==> x !in s.stack[k..]
  {
    forall x | x in s.stack[k..]
      ensures 0 <= x < |g| && s.num[x] != 0 && s.onStack[x]
    {
      var i := IndexOf(s.stack[k..], x);
      assert s.stack[k + i] == x;
    }
  }

  lemma {:induction false} PopClosed(g: AdjList, s: Snapshot, active: set<int>, v: int, k: int)
    requires Sized(g, s) && StackVisited(g, s) && StackOrdered(g, s) && OnStackMirror(g, s)
    requires FinishedSettled(g, s, active + {v}) && DoneClosed(g, s)
    requires 0 <= k < |s.stack| && s.stack[k] == v && s.low[v] == s.num[v] && SuccessorsSettled(g, s, v)
    requires forall j :: k <= j < |s.stack| ==> s.stack[j] !in active && s.low[v] <= s.low[s.stack[j]]
    ensures Sized(g, PopFrom(s, k)) && DoneClosed(g, PopFrom(s, k))
  {
    var t := PopFrom(s, k);
    PopDoneShape(g, s, k);
    forall x, w | Done(g, t, x) && Edge(g, x, w)
      ensures Done(g, t, w)
    {
      if x in s.stack[k..] {
        var i := IndexOf(s.stack[k..], x);
        assert s.stack[k + i] == x;
        assert SuccessorsSettled(g, s, x);
        if s.onStack[w] {
          var iw := IndexOf(s.stack, w);
          assert s.num[v] <= s.num[w];
          assert k <= iw;
          assert s.stack[k..][iw - k] == w;
        }
      }
    }
  }

  lemma {:induction false} PopIds(g: AdjList, s: Snapshot, v: int, k: int)
    requires Sized(g, s) && StackVisited(g, s) && OnStackMirror(g, s) && DoneInv(g, s)
    requires 0 <= k < |s.stack| && s.stack[k] == v
    requires forall j :: k <= j < |s.stack| ==> Reach(g, v, s.stack[j]) && Reach(g, s.stack[j], v)
    ensures Sized(g, PopFrom(s, k))
    ensures AnswerRange(g, PopFrom(s, k)) && SameIdReach(g, PopFrom(s, k))
    ensures ReachSameId(g, PopFrom(s, k)) && IdsUsed(g, PopFrom(s, k))
  {
    var t := PopFrom(s, k);
    PopDoneShape(g, s, k);
    forall x, y | Done(g, t, x) && Done(g, t, y) && t.answer[x] == t.answer[y]
      ensures Reach(g, x, y)
    {
      if x in s.stack[k..] && y in s.stack[k..] {
        var i := IndexOf(s.stack[k..], x);
        var j := IndexOf(s.stack[k..], y);
        assert s.stack[k + i] == x && s.stack[k + j] == y;
        ReachTrans(g, x, v, y);
      }
    }
    var d := set z | 0 <= z < |g| && Done(g, s, z);
    forall a, b | a in d && Reach(g, a, b)
      ensures b in d
    {
      ClosedUnderReach(g, d, a, b);
    }
    forall c | 0 <= c < t.comp
      ensures ComponentUsed(g, t, c)
    {
      if c < s.comp {
        assert ComponentUsed(g, s, c);
        var x :| Done(g, s, x) && s.answer[x] == c;
        assert Done(g, t, x) && t.answer[x] == c;
      } else {
        assert s.stack[k..][0] == v;
        assert Done(g, t, v) && t.answer[v] == c;
      }
    }
  }

  /** Popping the segment above a root v, when every node of it reaches v and is reached
      from v, keeps the invariant: the segment becomes one new component. */
  lemma {:induction false} PopKeeps(g: AdjList, s: Snapshot, active: set<int>, v: int, k: int)
    requires Inv(g, s, active + {v})
    requires 0 <= k < |s.stack| && s.stack[k] == v && s.low[v] == s.num[v] && SuccessorsSettled(g, s, v)
    requires forall j :: k <= j < |s.stack| ==> s.stack[j] !in active && s.low[v] <= s.low[s.stack[j]]
    requires forall j :: k <= j < |s.stack| ==> Reach(g, v, s.stack[j]) && Reach(g, s.stack[j], v)
    ensures Inv(g, PopFrom(s, k), active)
  {
    assert ActiveOnStack(g, s, active);
    PopStack(g, s, k);
    PopWitnesses(g, s, active, v, k);
    PopSettled(g, s, active, v, k);
    PopClosed(g, s, active, v, k);
    PopIds(g, s, v, k);
  }

  // ---- the stack above a root

  /** Walking down low-link witnesses: every node on the stack from position k up whose
      low-link is at least num[stack[k]], and that is not active above k, reaches stack[k]. */
  lemma {:induction false} StackReaches(g: AdjList, s: Snapshot, active: set<int>, k: int, i: int)
    requires Sized(g, s) && StackVisited(g, s) && StackOrdered(g, s) && OnStackMirror(g, s)
    requires LowWitnesses(g, s) && NonRootsLow(g, s, active)
    requires 0 <= k <= i < |s.stack|
    requires forall j :: k < j < |s.stack| ==> s.stack[j] !in active
    requires forall j :: k <= j < |s.stack| ==> s.num[s.stack[k]] <= s.low[s.stack[j]]
    ensures Reach(g, s.stack[i], s.stack[k])
    decreases i
  {
    var x := s.stack[i];
    if i == k {
      ReachRefl(g, x);
    } else {
      assert LowWitnessed(g, s, x);
      var j :| 0 <= j < |s.stack| && 0 <= s.stack[j] < |g| && s.num[s.stack[j]] == s.low[x]
               && Reach(g, x, s.stack[j]);
      assert k <= j < i;
      StackReaches(g, s, active, k, j);
      ReachTrans(g, x, s.stack[j], s.stack[k]);
    }
  }

  /** The bottom of the stack is always an active node; so with nothing active the stack is empty. */
  lemma {:induction false} BottomActive(g: AdjList, s: Snapshot, active: set<int>)
    requires Sized(g, s) && StackVisited(g, s) && StackOrdered(g, s) && OnStackMirror(g, s)
    requires LowWitnesses(g, s) && NonRootsLow(g, s, active)
    ensures |s.stack| > 0 ==> s.stack[0] in active
  {
    if |s.stack| > 0 {
      assert LowWitnessed(g, s, s.stack[0]);
    }
  }

  /** Once every node is visited, the discovery numbers are 1..|g|, each used once. */
  lemma {:induction false} Numbering(g: AdjList, s: Snapshot)
    requires Sized(g, s) && NumBounded(g, s) && NumDistinct(g, s) && CountsVisited(g, s)
    requires forall x :: 0 <= x < |g| ==> s.num[x] != 0
    ensures s.count == |g|
    ensures forall x :: 0 <= x < |g| ==> 1 <= s.num[x] <= |g|
    ensures forall x, y :: 0 <= x < |g| && 0 <= y < |g| && x != y ==> s.num[x] != s.num[y]
  {
    assert VisitedSet(s.num) == Range(|g|);
  }

  /** Once every node is visited and no search is running, the ids are exactly the strongly
      connected components, numbered densely from 0. */
  lemma {:induction false} Components(g: AdjList, s: Snapshot)
    requires Inv(g, s, {}) && forall x :: 0 <= x < |g| ==> s.num[x] != 0
    ensures s.stack == [] && forall x :: 0 <= x < |g| ==> !s.onStack[x]
    ensures |s.answer| == |g| && forall x :: 0 <= x < |g| ==> 0 <= s.answer[x] < s.comp
    ensures forall x, y :: 0 <= x < |g| && 0 <= y < |g| ==>
              (s.answer[x] == s.answer[y] <==> Reach(g, x, y) && Reach(g, y, x))
    ensures forall c :: 0 <= c < s.comp ==> c in s.answer
  {
    BottomActive(g, s, {});
    assert forall x :: 0 <= x < |g| ==> Done(g, s, x);
    forall c | 0 <= c < s.comp
      ensures c in s.answer
    {
      assert ComponentUsed(g, s, c);
      var x :| Done(g, s, x) && s.answer[x] == c;
    }
  }
}
