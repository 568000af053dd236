/** What the grammar functions of CalcParser promise: the shape of the trees they build
    (associativity and precedence of the arithmetic operators, signs, postfixes), the errors
    they raise, and how far they read. */
module CalcParserFacts {
  import opened CalcText
  import opened CalcLexer
  import opened CalcParser

  function V(x: string): Token { Token(Variable, x) }
  function Op(o: string): Token { Token(Operator, o) }

  /** The operator/operand pairs `o1 x1 o2 x2 ...` as tokens. */
  function Pairs(ps: seq<(string, string)>): (ts: seq<Token>)
    ensures |ts| == 2 * |ps|
  {
    if ps == [] then [] else [Op(ps[0].0), V(ps[0].1)] + Pairs(ps[1..])
  }

  /** The tree of `node o1 x1 o2 x2 ...` grouped to the left. */
  function FoldLeft(node: Node, ps: seq<(string, string)>): Node
    decreases |ps|
  {
    if ps == [] then node else FoldLeft(BinaryOp(ps[0].0, node, Var(ps[0].1)), ps[1..])
  }

  predicate OpsIn(ps: seq<(string, string)>, ops: set<string>) {
    forall i :: 0 <= i < |ps| ==> ps[i].0 in ops
  }

  // ---- single factors

  /** A variable with no `(` or `[` after it is a factor on its own. */
  lemma {:induction false} VarFactor(ts: seq<Token>, st: PState)
    requires st.pos < |ts| && ts[st.pos].kind == Variable
    requires !NextIs(ts, Skip(st), LParen) && !NextIs(ts, Skip(st), LBracket)
    ensures FactorAt(ts, st) == Ok(Var(ts[st.pos].value), Skip(st))
  {
  }

  /** ... and a term on its own when no `*` or `/` follows. */
  lemma {:induction false} VarTerm(ts: seq<Token>, st: PState)
    requires st.pos < |ts| && ts[st.pos].kind == Variable
    requires !NextIs(ts, Skip(st), LParen) && !NextIs(ts, Skip(st), LBracket) && !NextIsOp(ts, Skip(st), MulOps)
    ensures TermAt(ts, st) == Ok(Var(ts[st.pos].value), Skip(st))
  {
    VarFactor(ts, st);
  }

  /** ... and an expression on its own when no operator follows. */
  lemma {:induction false} VarExpr(ts: seq<Token>, st: PState)
    requires st.pos < |ts| && ts[st.pos].kind == Variable
    requires !NextIs(ts, Skip(st), LParen) && !NextIs(ts, Skip(st), LBracket) && !NextIs(ts, Skip(st), Operator)
    ensures ExprAt(ts, st) == Ok(Var(ts[st.pos].value), Skip(st))
  {
    VarTerm(ts, st);
  }

  /** A list holding one variable, with a closing bracket of either kind right after it. */
  lemma {:induction false} VarList(ts: seq<Token>, st: PState, close: Kind)
    requires close in {RParen, RBracket}
    requires st.pos + 1 < |ts| && ts[st.pos].kind == Variable && ts[st.pos + 1].kind in {RParen, RBracket}
    ensures ListAt(ts, st, close) == Ok([Var(ts[st.pos].value)], Skip(st))
  {
    VarExpr(ts, st);
  }

  /** `a o b` for a comparison operator o, with nothing after it that continues a condition,
      is a condition on its own. */
  lemma {:induction false} CompareVars(ts: seq<Token>, st: PState)
    requires st.pos + 3 < |ts| && ts[st.pos].kind == Variable && ts[st.pos + 1].kind == Compare
    requires ts[st.pos + 2].kind == Variable
    requires ts[st.pos + 3].kind !in {LParen, LBracket, Operator, Compare, And, Or}
    ensures ConditionAt(ts, st) ==
      Ok(CompareOp(ts[st.pos + 1].value, Var(ts[st.pos].value), Var(ts[st.pos + 2].value)), PState(st.pos + 3, st.quotes))
  {
    CompareOperand(ts, st);
    ConditionAlone(ts, st, CompareOp(ts[st.pos + 1].value, Var(ts[st.pos].value), Var(ts[st.pos + 2].value)),
      PState(st.pos + 3, st.quotes));
  }

  // ---- associativity

  /** The first pair of a non-empty chain and the chain after it. */
  lemma {:induction false} PairsHead(ps: seq<(string, string)>)
    ensures ps != [] ==> Pairs(ps)[0] == Op(ps[0].0) && Pairs(ps)[1] == V(ps[0].1) && Pairs(ps)[2..] == Pairs(ps[1..])
  {
  }

  lemma {:induction false} PairsAt(ts: seq<Token>, p: nat, ps: seq<(string, string)>)
    requires p <= |ts| && ts[p..] == Pairs(ps) && ps != []
    ensures p + 2 <= |ts| && ts[p] == Op(ps[0].0) && ts[p + 1] == V(ps[0].1)
    ensures ts[p + 2..] == Pairs(ps[1..])
  {
    PairsHead(ps);
    assert ts[p..][0] == ts[p] && ts[p..][1] == ts[p + 1];
    assert ts[p + 2..] == ts[p..][2..];
  }

  /** The facts about the tokens that one round over `o1 x1 o2 x2 ...` needs. */
  lemma {:induction false} PairsNext(ts: seq<Token>, p: nat, ps: seq<(string, string)>)
    requires p <= |ts| && ts[p..] == Pairs(ps) && ps != []
    ensures p + 2 <= |ts| && ts[p] == Op(ps[0].0) && ts[p + 1] == V(ps[0].1) && ts[p + 2..] == Pairs(ps[1..])
    ensures p + 2 < |ts| ==> ps[1..] != [] && ts[p + 2] == Op(ps[1].0)
  {
    PairsAt(ts, p, ps);
    if ps[1..] != [] {
      PairsAt(ts, p + 2, ps[1..]);
      assert ps[1..][0] == ps[1];
    }
  }

  /** One round of the loop of parse_expression: `o x` with o additive and no `*` or `/`
      after x. */
  lemma {:induction false} SumStep(ts: seq<Token>, node: Node, p: nat, q: seq<string>, ps: seq<(string, string)>)
    requires p <= |ts| && ts[p..] == Pairs(ps) && ps != [] && ps[0].0 in AddOps
    requires ps[1..] != [] ==> ps[1].0 in AddOps
    ensures p + 2 <= |ts| && ts[p + 2..] == Pairs(ps[1..])
    ensures ExprTailAt(ts, node, PState(p, q)) == ExprTailAt(ts, BinaryOp(ps[0].0, node, Var(ps[0].1)), PState(p + 2, q))
  {
    PairsNext(ts, p, ps);
    VarTerm(ts, PState(p + 1, q));
    ExprTailOp(ts, node, p, q, ps[0].0, Var(ps[0].1), p + 2);
  }

  /** The loop of parse_expression over `o1 x1 o2 x2 ...` with additive operators folds the
      operands to the left. */
  lemma {:induction false} SumTail(ts: seq<Token>, node: Node, p: nat, q: seq<string>, ps: seq<(string, string)>)
    requires p <= |ts| && ts[p..] == Pairs(ps) && OpsIn(ps, AddOps)
    ensures ExprTailAt(ts, node, PState(p, q)) == Ok(FoldLeft(node, ps), PState(|ts|, q))
    decreases |ps|
  {
    if ps != [] {
      SumStep(ts, node, p, q, ps);
      SumTail(ts, BinaryOp(ps[0].0, node, Var(ps[0].1)), p + 2, q, ps[1..]);
    }
  }

  /** One round of the loop of parse_term: `o x` with o multiplicative. */
  lemma {:induction false} ProductStep(ts: seq<Token>, node: Node, p: nat, q: seq<string>, ps: seq<(string, string)>)
    requires p <= |ts| && ts[p..] == Pairs(ps) && ps != [] && ps[0].0 in MulOps
    ensures p + 2 <= |ts| && ts[p + 2..] == Pairs(ps[1..])
    ensures TermTailAt(ts, node, PState(p, q)) == TermTailAt(ts, BinaryOp(ps[0].0, node, Var(ps[0].1)), PState(p + 2, q))
  {
    PairsNext(ts, p, ps);
    TermTailVar(ts, node, p, q, ps[0].0, ps[0].1);
  }

  /** The loop of parse_term over `o1 x1 o2 x2 ...` with multiplicative operators folds the
      operands to the left. */
  lemma {:induction false} ProductTail(ts: seq<Token>, node: Node, p: nat, q: seq<string>, ps: seq<(string, string)>)
    requires p <= |ts| && ts[p..] == Pairs(ps) && OpsIn(ps, MulOps)
    ensures TermTailAt(ts, node, PState(p, q)) == Ok(FoldLeft(node, ps), PState(|ts|, q))
    decreases |ps|
  {
    if ps != [] {
      ProductStep(ts, node, p, q, ps);
      ProductTail(ts, BinaryOp(ps[0].0, node, Var(ps[0].1)), p + 2, q, ps[1..]);
    }
  }

  // ---- precedence

  /** The product that parse_term reads at the head of `node o1 x1 o2 x2 ...`: the leading
      multiplicative pairs folded to the left onto node, and the pairs after them, which start
      with an additive operator if any are left. */
  function MulRun(node: Node, ps: seq<(string, string)>): (r: (Node, seq<(string, string)>))
    ensures |r.1| <= |ps|
    ensures r.1 != [] ==> r.1[0].0 !in MulOps
    decreases |ps|
  {
    if ps != [] && ps[0].0 in MulOps then MulRun(BinaryOp(ps[0].0, node, Var(ps[0].1)), ps[1..])
    else (node, ps)
  }

  /** The sum that parse_expression builds from the pairs left after its first product: each
      additive operator joins what is built so far with the product that follows it. */
  function AddRest(acc: Node, ps: seq<(string, string)>): Node
    decreases |ps|
  {
    if ps == [] then acc
    else
      var r := MulRun(Var(ps[0].1), ps[1..]);
      AddRest(BinaryOp(ps[0].0, acc, r.0), r.1)
  }

  /** The tree of `x0 o1 x1 o2 x2 ...`: products bind tighter than sums, and both group to the
      left. */
  function SumOfProducts(x0: string, ps: seq<(string, string)>): Node
  {
    var r := MulRun(Var(x0), ps);
    AddRest(r.0, r.1)
  }

  /** What a product run leaves is a suffix of the chain. */
  lemma {:induction false} MulRunSuffix(node: Node, ps: seq<(string, string)>)
    ensures MulRun(node, ps).1 == ps[|ps| - |MulRun(node, ps).1|..]
    decreases |ps|
  {
    if ps != [] && ps[0].0 in MulOps {
      MulRunSuffix(BinaryOp(ps[0].0, node, Var(ps[0].1)), ps[1..]);
      var k := |MulRun(node, ps).1|;
      assert ps[1..][|ps| - 1 - k..] == ps[|ps| - k..];
    }
  }

  /** What is left after a product run is again a mixed chain, and starts with an additive
      operator. */
  lemma {:induction false} MulRunRest(node: Node, ps: seq<(string, string)>)
    requires OpsIn(ps, AddOps + MulOps)
    ensures var r := MulRun(node, ps); OpsIn(r.1, AddOps + MulOps) && (r.1 != [] ==> r.1[0].0 in AddOps)
  {
    var r := MulRun(node, ps);
    MulRunSuffix(node, ps);
    forall i | 0 <= i < |r.1|
      ensures r.1[i].0 in AddOps + MulOps
    {
      assert r.1[i] == ps[|ps| - |r.1| + i];
    }
  }

  /** From position p on, ts holds the pairs of ps and nothing more, stated token by token. */
  predicate PairsFrom(ts: seq<Token>, p: nat, ps: seq<(string, string)>)
    decreases |ps|
  {
    && p + 2 * |ps| == |ts|
    && (ps != [] ==> ts[p] == Op(ps[0].0) && ts[p + 1] == V(ps[0].1) && PairsFrom(ts, p + 2, ps[1..]))
  }

  lemma {:induction false} PairsFromOf(ts: seq<Token>, p: nat, ps: seq<(string, string)>)
    requires p <= |ts| && ts[p..] == Pairs(ps)
    ensures PairsFrom(ts, p, ps)
    decreases |ps|
  {
    if ps != [] {
      PairsAt(ts, p, ps);
      PairsFromOf(ts, p + 2, ps[1..]);
    }
  }

  lemma {:induction false} OpsTail(ps: seq<(string, string)>, ops: set<string>)
    requires OpsIn(ps, ops) && ps != []
    ensures OpsIn(ps[1..], ops)
  {
    forall i | 0 <= i < |ps[1..]| ensures ps[1..][i].0 in ops {
      assert ps[1..][i] == ps[i + 1];
    }
  }

  /** A mixed chain: the pairs of ps fill ts from p on, and each operator is one of the four. */
  predicate MixedAt(ts: seq<Token>, p: nat, ps: seq<(string, string)>) {
    PairsFrom(ts, p, ps) && OpsIn(ps, AddOps + MulOps)
  }

  /** The variable x at p, then a mixed chain. */
  predicate ChainAt(ts: seq<Token>, p: nat, x: string, ps: seq<(string, string)>) {
    p < |ts| && ts[p] == V(x) && MixedAt(ts, p + 1, ps)
  }

  /** A mixed chain whose first operator, if any, is additive: what parse_expression's loop
      meets after a product. */
  predicate SumChainAt(ts: seq<Token>, p: nat, ps: seq<(string, string)>) {
    MixedAt(ts, p, ps) && (ps != [] ==> ps[0].0 in AddOps)
  }

  /** The cursor after a product run that starts at p. */
  function RunEnd(p: nat, node: Node, ps: seq<(string, string)>): nat {
    p + 2 * (|ps| - |MulRun(node, ps).1|)
  }

  /** The pairs a product run leaves follow the run in the tokens. */
  lemma {:induction false} MulRunPairs(ts: seq<Token>, node: Node, p: nat, ps: seq<(string, string)>)
    requires PairsFrom(ts, p, ps)
    ensures PairsFrom(ts, RunEnd(p, node, ps), MulRun(node, ps).1)
    decreases |ps|
  {
    if ps != [] && ps[0].0 in MulOps {
      MulRunPairs(ts, BinaryOp(ps[0].0, node, Var(ps[0].1)), p + 2, ps[1..]);
    }
  }

  /** One round of the loop of parse_term, whatever factor follows the operator. */
  lemma {:induction false} TermTailStep(ts: seq<Token>, node: Node, st: PState, f: Node, s1: PState)
    requires st.pos <= |ts| && NextIsOp(ts, st, MulOps) && FactorAt(ts, Skip(st)) == Ok(f, s1)
    ensures TermTailAt(ts, node, st) == TermTailAt(ts, BinaryOp(ts[st.pos].value, node, f), s1)
  {
  }

  /** One round of the loop of parse_term over `o x` with o multiplicative and x a variable
      with no postfix after it. */
  lemma {:induction false} TermTailVar(ts: seq<Token>, node: Node, p: nat, q: seq<string>, o: string, x: string)
    requires p + 2 <= |ts| && ts[p] == Op(o) && o in MulOps && ts[p + 1] == V(x)
    requires !NextIs(ts, PState(p + 2, q), LParen) && !NextIs(ts, PState(p + 2, q), LBracket)
    ensures TermTailAt(ts, node, PState(p, q)) == TermTailAt(ts, BinaryOp(o, node, Var(x)), PState(p + 2, q))
  {
    VarFactor(ts, PState(p + 1, q));
    TermTailStep(ts, node, PState(p, q), Var(x), PState(p + 2, q));
  }

  /** The loop of parse_term stops at once when no `*` or `/` follows. */
  lemma {:induction false} TermTailStop(ts: seq<Token>, node: Node, st: PState)
    requires st.pos <= |ts| && !NextIsOp(ts, st, MulOps)
    ensures TermTailAt(ts, node, st) == Ok(node, st)
  {
  }

  /** The facts about the tokens that one round of ProductRun needs. */
  lemma {:induction false} ProductNext(ts: seq<Token>, node: Node, p: nat, q: seq<string>, ps: seq<(string, string)>)
    requires MixedAt(ts, p, ps)
    ensures ps != [] && ps[0].0 in MulOps ==>
      && MixedAt(ts, p + 2, ps[1..])
      && p + 2 <= |ts| && ts[p] == Op(ps[0].0) && ps[0].0 in MulOps && ts[p + 1] == V(ps[0].1)
      && !NextIs(ts, PState(p + 2, q), LParen) && !NextIs(ts, PState(p + 2, q), LBracket)
      && MulRun(node, ps) == MulRun(BinaryOp(ps[0].0, node, Var(ps[0].1)), ps[1..])
      && RunEnd(p, node, ps) == RunEnd(p + 2, BinaryOp(ps[0].0, node, Var(ps[0].1)), ps[1..])
    ensures !(ps != [] && ps[0].0 in MulOps) ==>
      p <= |ts| && !NextIsOp(ts, PState(p, q), MulOps) && MulRun(node, ps) == (node, ps) && RunEnd(p, node, ps) == p
  {
    if ps != [] && ps[0].0 in MulOps {
      OpsTail(ps, AddOps + MulOps);
    }
  }

  /** The loop of parse_term over a mixed chain reads exactly the product run at its head,
      and leaves the cursor before the rest of the chain. */
  lemma {:induction false} ProductRun(ts: seq<Token>, node: Node, p: nat, q: seq<string>, ps: seq<(string, string)>)
    requires MixedAt(ts, p, ps)
    ensures TermTailAt(ts, node, PState(p, q)) == Ok(MulRun(node, ps).0, PState(RunEnd(p, node, ps), q))
    decreases |ps|
  {
    ProductNext(ts, node, p, q, ps);
    if ps != [] && ps[0].0 in MulOps {
      ProductRun(ts, BinaryOp(ps[0].0, node, Var(ps[0].1)), p + 2, q, ps[1..]);
      TermTailVar(ts, node, p, q, ps[0].0, ps[0].1);
    } else {
      TermTailStop(ts, node, PState(p, q));
    }
  }

  /** parse_term at a variable with no postfix after it goes on from that variable. */
  lemma {:induction false} VarTermStart(ts: seq<Token>, p: nat, q: seq<string>, x: string)
    requires p < |ts| && ts[p] == V(x)
    requires !NextIs(ts, PState(p + 1, q), LParen) && !NextIs(ts, PState(p + 1, q), LBracket)
    ensures TermAt(ts, PState(p, q)) == TermTailAt(ts, Var(x), PState(p + 1, q))
  {
    VarFactor(ts, PState(p, q));
  }

  /** No postfix follows the variable at the head of a chain. */
  lemma {:induction false} ChainStart(ts: seq<Token>, p: nat, q: seq<string>, x: string, ps: seq<(string, string)>)
    requires ChainAt(ts, p, x, ps)
    ensures !NextIs(ts, PState(p + 1, q), LParen) && !NextIs(ts, PState(p + 1, q), LBracket)
  {
  }

  /** parse_term at a variable x followed by a mixed chain reads the product run at the head
      of the chain. */
  lemma {:induction false} TermRun(ts: seq<Token>, p: nat, q: seq<string>, x: string, ps: seq<(string, string)>)
    requires ChainAt(ts, p, x, ps)
    ensures TermAt(ts, PState(p, q)) == Ok(MulRun(Var(x), ps).0, PState(RunEnd(p + 1, Var(x), ps), q))
  {
    ChainStart(ts, p, q, x, ps);
    VarTermStart(ts, p, q, x);
    ProductRun(ts, Var(x), p + 1, q, ps);
  }

  /** One round of the loop of parse_expression: an additive operator o, then a term t. */
  lemma {:induction false} ExprTailOp(ts: seq<Token>, acc: Node, p: nat, q: seq<string>, o: string, t: Node, e: nat)
    requires p < |ts| && ts[p] == Op(o) && o in AddOps && TermAt(ts, PState(p + 1, q)) == Ok(t, PState(e, q))
    ensures ExprTailAt(ts, acc, PState(p, q)) == ExprTailAt(ts, BinaryOp(o, acc, t), PState(e, q))
  {
    assert NextIsOp(ts, PState(p, q), AddOps) && Skip(PState(p, q)) == PState(p + 1, q);
  }

  /** The loop of parse_expression stops at once at the end of the input. */
  lemma {:induction false} ExprTailStop(ts: seq<Token>, acc: Node, st: PState)
    requires st.pos == |ts|
    ensures ExprTailAt(ts, acc, st) == Ok(acc, st)
  {
  }

  /** The facts about the tokens that one round of AddRun needs. */
  lemma {:induction false} AddNext(ts: seq<Token>, acc: Node, p: nat, ps: seq<(string, string)>)
    requires SumChainAt(ts, p, ps) && ps != []
    ensures p < |ts| && ts[p] == Op(ps[0].0) && ps[0].0 in AddOps && ChainAt(ts, p + 1, ps[0].1, ps[1..])
    ensures SumChainAt(ts, RunEnd(p + 1 + 1, Var(ps[0].1), ps[1..]), MulRun(Var(ps[0].1), ps[1..]).1)
    ensures AddRest(acc, ps) ==
      AddRest(BinaryOp(ps[0].0, acc, MulRun(Var(ps[0].1), ps[1..]).0), MulRun(Var(ps[0].1), ps[1..]).1)
  {
    OpsTail(ps, AddOps + MulOps);
    MulRunPairs(ts, Var(ps[0].1), p + 2, ps[1..]);
    MulRunRest(Var(ps[0].1), ps[1..]);
  }

  /** The loop of parse_expression over a mixed chain that starts with an additive operator
      adds the products one by one, to the left, and reads the whole chain. */
  lemma {:induction false} AddRun(ts: seq<Token>, acc: Node, p: nat, q: seq<string>, ps: seq<(string, string)>)
    requires SumChainAt(ts, p, ps)
    ensures ExprTailAt(ts, acc, PState(p, q)) == Ok(AddRest(acc, ps), PState(|ts|, q))
    decreases |ps|
  {
    if ps != [] {
      AddNext(ts, acc, p, ps);
      var o, x, tail := ps[0].0, ps[0].1, ps[1..];
      var r := MulRun(Var(x), tail);
      var e := RunEnd(p + 1 + 1, Var(x), tail);
      AddRun(ts, BinaryOp(o, acc, r.0), e, q, r.1);
      TermRun(ts, p + 1, q, x, tail);
      ExprTailOp(ts, acc, p, q, o, r.0, e);
    } else {
      ExprTailStop(ts, acc, PState(p, q));
    }
  }

  /** parse_expression at the head of a chain `x0 o1 x1 o2 x2 ...` builds SumOfProducts and
      reads to the end. */
  lemma {:induction false} ExprChain(ts: seq<Token>, q: seq<string>, x0: string, ps: seq<(string, string)>)
    requires ChainAt(ts, 0, x0, ps) && SumChainAt(ts, RunEnd(0 + 1, Var(x0), ps), MulRun(Var(x0), ps).1)
    ensures ExprAt(ts, PState(0, q)) == Ok(SumOfProducts(x0, ps), PState(|ts|, q))
  {
    TermRun(ts, 0, q, x0, ps);
    AddRun(ts, MulRun(Var(x0), ps).0, RunEnd(0 + 1, Var(x0), ps), q, MulRun(Var(x0), ps).1);
  }

  /** The tokens of `x0 o1 x1 o2 x2 ...` form a chain, and so does what follows its first
      product. */
  lemma {:induction false} ChainOf(x0: string, ps: seq<(string, string)>)
    requires OpsIn(ps, AddOps + MulOps)
    ensures var ts := [V(x0)] + Pairs(ps);
      && |ts| == 1 + 2 * |ps|
      && ChainAt(ts, 0, x0, ps)
      && SumChainAt(ts, RunEnd(0 + 1, Var(x0), ps), MulRun(Var(x0), ps).1)
  {
    var ts := [V(x0)] + Pairs(ps);
    assert ts[1..] == Pairs(ps);
    PairsFromOf(ts, 1, ps);
    MulRunPairs(ts, Var(x0), 1, ps);
    MulRunRest(Var(x0), ps);
  }

  /** Precedence over any chain of variables joined by `+`, `-`, `*` and `/`: parse_expression
      builds SumOfProducts and reads the whole input. */
  lemma {:induction false} Precedence(x0: string, ps: seq<(string, string)>, q: seq<string>)
    requires OpsIn(ps, AddOps + MulOps)
    ensures ExprAt([V(x0)] + Pairs(ps), PState(0, q)) == Ok(SumOfProducts(x0, ps), PState(1 + 2 * |ps|, q))
  {
    ChainOf(x0, ps);
    ExprChain([V(x0)] + Pairs(ps), q, x0, ps);
  }

  /** With additive operators only, every product is a single variable and the sum is
      grouped to the left. */
  lemma {:induction false} SumsFoldLeft(acc: Node, ps: seq<(string, string)>)
    requires OpsIn(ps, AddOps)
    ensures AddRest(acc, ps) == FoldLeft(acc, ps)
    decreases |ps|
  {
    if ps != [] {
      assert OpsIn(ps[1..], AddOps) by {
        forall i | 0 <= i < |ps[1..]| ensures ps[1..][i].0 in AddOps {
          assert ps[1..][i] == ps[i + 1];
        }
      }
      assert MulRun(Var(ps[0].1), ps[1..]) == (Var(ps[0].1), ps[1..]);
      SumsFoldLeft(BinaryOp(ps[0].0, acc, Var(ps[0].1)), ps[1..]);
    }
  }

  /** With multiplicative operators only, the product run takes every pair. */
  lemma {:induction false} ProductsFoldLeft(node: Node, ps: seq<(string, string)>)
    requires OpsIn(ps, MulOps)
    ensures MulRun(node, ps) == (FoldLeft(node, ps), [])
    decreases |ps|
  {
    if ps != [] {
      assert OpsIn(ps[1..], MulOps) by {
        forall i | 0 <= i < |ps[1..]| ensures ps[1..][i].0 in MulOps {
          assert ps[1..][i] == ps[i + 1];
        }
      }
      ProductsFoldLeft(BinaryOp(ps[0].0, node, Var(ps[0].1)), ps[1..]);
    }
  }

  /** `x0 o1 x1 ... on xn` with `+` and `-` is grouped to the left:
      `((x0 o1 x1) o2 x2) ...`, and the whole input is read. */
  lemma {:induction false} SumIsLeftAssociative(x0: string, ps: seq<(string, string)>, q: seq<string>)
    requires OpsIn(ps, AddOps)
    ensures ExprAt([V(x0)] + Pairs(ps), PState(0, q)) == Ok(FoldLeft(Var(x0), ps), PState(1 + 2 * |ps|, q))
  {
    assert OpsIn(ps, AddOps + MulOps);
    assert ps != [] ==> ps[0].0 !in MulOps;
    SumsFoldLeft(Var(x0), ps);
    Precedence(x0, ps, q);
  }

  /** The same for `*` and `/`. */
  lemma {:induction false} ProductIsLeftAssociative(x0: string, ps: seq<(string, string)>, q: seq<string>)
    requires OpsIn(ps, MulOps)
    ensures ExprAt([V(x0)] + Pairs(ps), PState(0, q)) == Ok(FoldLeft(Var(x0), ps), PState(1 + 2 * |ps|, q))
  {
    assert OpsIn(ps, AddOps + MulOps);
    ProductsFoldLeft(Var(x0), ps);
    Precedence(x0, ps, q);
  }

  /** A sign applies to the factor right after it and to nothing more: the signed factor is the
      left operand of a `*` or `/` that follows (`-a*b` is `(-a)*b`), and an error in that
      factor is the error of the whole. */
  lemma {:induction false} SignBindsTighter(ts: seq<Token>, st: PState)
    requires st.pos < |ts| && ts[st.pos].kind == Operator && ts[st.pos].value in AddOps
    ensures match FactorAt(ts, Skip(st))
      case Ok(f, s1) =>
        && FactorAt(ts, st) == Ok(UnaryOp(ts[st.pos].value, f), s1)
        && TermAt(ts, st) == TermTailAt(ts, UnaryOp(ts[st.pos].value, f), s1)
      case Err(e) => FactorAt(ts, st) == Err(e) && TermAt(ts, st) == Err(e)
  {
    var f := FactorAt(ts, Skip(st));
    if f.Ok? {
      assert FactorAt(ts, st) == Ok(UnaryOp(ts[st.pos].value, f.value), f.next);
    } else {
      assert FactorAt(ts, st) == Err(f.error);
    }
  }

  // ---- errors

  /** The tokens a factor can start with. */
  predicate StartsFactor(t: Token) {
    || (t.kind == KeywordIf && t.value == "if ")
    || (t.kind == Operator && t.value in AddOps)
    || t.kind == LParen || t.kind == Number || t.kind == Quoted || t.kind == Variable
  }

  /** Any other token where a factor is due raises 'Unexpected token', and so does an
      expression starting with it. */
  lemma {:induction false} ExpressionRejects(ts: seq<Token>, st: PState)
    requires st.pos < |ts| && !StartsFactor(ts[st.pos])
    ensures FactorAt(ts, st) == Err(UnexpectedToken(ts[st.pos].kind, ts[st.pos].value))
    ensures ExprAt(ts, st) == Err(UnexpectedToken(ts[st.pos].kind, ts[st.pos].value))
  {
    assert FactorAt(ts, st) == Err(UnexpectedToken(ts[st.pos].kind, ts[st.pos].value));
  }

  /** An expression due after the last token raises 'Unexpected end of input'. */
  lemma {:induction false} ExpressionAtEnd(ts: seq<Token>, q: seq<string>)
    ensures FactorAt(ts, PState(|ts|, q)) == Err(EndOfInput)
    ensures ExprAt(ts, PState(|ts|, q)) == Err(EndOfInput)
  {
    assert FactorAt(ts, PState(|ts|, q)) == Err(EndOfInput);
  }

  /** int() takes only decimals: a number with an upper-case exponent and no `.` is refused,
      while the lower-case form is a float. */
  lemma {:induction false} UpperCaseExponent(q: seq<string>)
    ensures FactorAt([Token(Number, "2E5")], PState(0, q)) == Err(InvalidInt("2E5"))
    ensures FactorAt([Token(Number, "2e5")], PState(0, q)) == Ok(Num(FloatNum("2e5")), PState(1, q))
    ensures FactorAt([Token(Number, "42")], PState(0, q)) == Ok(Num(IntNum(42)), PState(1, q))
  {
    assert !IsDecimal("2E5") by { assert !IsDigit("2E5"[1]); }
    assert 'e' in "2e5" by { assert "2e5"[1] == 'e'; }
    assert '.' !in "42" && 'e' !in "42";
    assert DecimalValue("42") == 42 by { assert "42"[..1] == "4"; }
  }

  // ---- string literals

  /** A string literal is appended to quotesList when it is read. */
  lemma {:induction false} QuoteRecorded(ts: seq<Token>, st: PState)
    requires st.pos < |ts| && ts[st.pos].kind == Quoted
    ensures FactorAt(ts, st) == Ok(Quotes(ts[st.pos].value), PState(st.pos + 1, st.quotes + [ts[st.pos].value]))
  {
  }

  /** ... in the order the literals come: `"x" + "y"` records x, then y. */
  lemma {:induction false} QuotesInOrder(x: string, y: string)
    ensures ExprAt([Token(Quoted, x), Op("+"), Token(Quoted, y)], PState(0, [])) ==
      Ok(BinaryOp("+", Quotes(x), Quotes(y)), PState(3, [x, y]))
  {
    var ts := [Token(Quoted, x), Op("+"), Token(Quoted, y)];
    var n := BinaryOp("+", Quotes(x), Quotes(y));
    assert FactorAt(ts, PState(0, [])) == Ok(Quotes(x), PState(1, [x]));
    assert TermAt(ts, PState(0, [])) == Ok(Quotes(x), PState(1, [x]));
    assert FactorAt(ts, PState(2, [x])) == Ok(Quotes(y), PState(3, [x, y]));
    assert TermAt(ts, PState(2, [x])) == Ok(Quotes(y), PState(3, [x, y]));
    assert ExprTailAt(ts, n, PState(3, [x, y])) == Ok(n, PState(3, [x, y]));
    assert ExprTailAt(ts, Quotes(x), PState(1, [x])) == Ok(n, PState(3, [x, y]));
  }

  // ---- how far a parse reads

  /** parse() stops after the first complete expression and leaves the rest unread. */
  lemma {:induction false} ParseLeavesRest(a: string, b: string, q: seq<string>)
    ensures ExprAt([V(a), V(b)], PState(0, q)) == Ok(Var(a), PState(1, q))
  {
    VarTerm([V(a), V(b)], PState(0, q));
  }

  // ---- postfixes

  /** parse_factor at a variable hands the variable to handle_postfix. */
  lemma {:induction false} VarPostfix(ts: seq<Token>, st: PState)
    requires st.pos < |ts| && ts[st.pos].kind == Variable
    ensures FactorAt(ts, st) == PostfixAt(ts, Var(ts[st.pos].value), Skip(st))
  {
    var t := ts[st.pos];
    assert !(t.kind == Operator && t.value in AddOps) && t.kind != LParen && t.kind != Number && t.kind != Quoted;
  }

  /** A factor that ends at the last token is a term ... */
  lemma {:induction false} TermAtEnd(ts: seq<Token>, st: PState, f: Node, q: seq<string>)
    requires st.pos <= |ts| && FactorAt(ts, st) == Ok(f, PState(|ts|, q))
    ensures TermAt(ts, st) == Ok(f, PState(|ts|, q))
  {
    TermTailStop(ts, f, PState(|ts|, q));
  }

  /** ... and a term that ends at the last token is an expression. */
  lemma {:induction false} ExprAtEnd(ts: seq<Token>, st: PState, t: Node, q: seq<string>)
    requires st.pos <= |ts| && TermAt(ts, st) == Ok(t, PState(|ts|, q))
    ensures ExprAt(ts, st) == Ok(t, PState(|ts|, q))
  {
    ExprTailStop(ts, t, PState(|ts|, q));
  }

  /** A variable followed by the postfixes that end at the last token is an expression. */
  lemma {:induction false} PostfixExpr(ts: seq<Token>, node: Node, q: seq<string>)
    requires 0 < |ts| && ts[0].kind == Variable
    requires PostfixAt(ts, Var(ts[0].value), PState(1, q)) == Ok(node, PState(|ts|, q))
    ensures ExprAt(ts, PState(0, q)) == Ok(node, PState(|ts|, q))
  {
    VarPostfix(ts, PState(0, q));
    TermAtEnd(ts, PState(0, q), node, q);
    ExprAtEnd(ts, PState(0, q), node, q);
  }

  /** `f()` is a call with no arguments. */
  lemma {:induction false} EmptyCall(f: string, q: seq<string>)
    ensures ExprAt([V(f), Token(LParen, "("), Token(RParen, ")")], PState(0, q)) ==
      Ok(FuncCall(Var(f), []), PState(3, q))
  {
    var ts := [V(f), Token(LParen, "("), Token(RParen, ")")];
    assert ListAt(ts, PState(2, q), RParen) == Ok([], PState(2, q));
    assert PostfixAt(ts, FuncCall(Var(f), []), PState(3, q)) == Ok(FuncCall(Var(f), []), PState(3, q));
    assert PostfixAt(ts, Var(f), PState(1, q)) == Ok(FuncCall(Var(f), []), PState(3, q));
    PostfixExpr(ts, FuncCall(Var(f), []), q);
  }

  /** `.b[j]` at the end of the input is one member with one argument. */
  lemma {:induction false} OneMember(ts: seq<Token>, p: nat, q: seq<string>)
    requires p + 5 == |ts| && ts[p].kind == Point && ts[p + 2].kind == LBracket
    requires ts[p + 3].kind == Variable && ts[p + 4].kind == RBracket
    ensures MembersAt(ts, [], PState(p, q)) == Ok([Member(ts[p + 1].value, [Var(ts[p + 3].value)])], PState(p + 5, q))
  {
    var m := [Member(ts[p + 1].value, [Var(ts[p + 3].value)])];
    VarList(ts, PState(p + 3, q), RParen);
    assert MembersAt(ts, m, PState(p + 5, q)) == Ok(m, PState(p + 5, q));
    assert ConsumeAt(ts, PState(p + 1, q), None) == Ok(ts[p + 1], PState(p + 2, q));
    assert ConsumeAt(ts, PState(p + 4, q), Some(RBracket)) == Ok(ts[p + 4], PState(p + 5, q));
    assert [] + m == m;
  }

  /** `[i]` after a node, followed by members that end at the last token, makes one indexed node. */
  lemma {:induction false} IndexThenMembers(ts: seq<Token>, node: Node, ms: seq<Node>, q: seq<string>)
    requires 4 <= |ts| && ts[1].kind == LBracket && ts[2].kind == Variable && ts[3].kind == RBracket
    requires MembersAt(ts, [], PState(4, q)) == Ok(ms, PState(|ts|, q))
    ensures PostfixAt(ts, node, PState(1, q)) == Ok(Indexed(node, [Var(ts[2].value)], ms), PState(|ts|, q))
  {
    var n := Indexed(node, [Var(ts[2].value)], ms);
    VarList(ts, PState(2, q), RBracket);
    assert ConsumeAt(ts, PState(3, q), Some(RBracket)) == Ok(ts[3], PState(4, q));
    assert PostfixAt(ts, n, PState(|ts|, q)) == Ok(n, PState(|ts|, q));
  }

  /** A variable, `[i]`, `.`, a name and `[j]`, up to the end: one indexed node whose member
      carries its own arguments. */
  lemma {:induction false} IndexedMemberAt(ts: seq<Token>, q: seq<string>)
    requires |ts| == 9 && ts[0].kind == Variable && ts[1].kind == LBracket && ts[2].kind == Variable
    requires ts[3].kind == RBracket && ts[4].kind == Point && ts[6].kind == LBracket && ts[7].kind == Variable
    requires ts[8].kind == RBracket
    ensures ExprAt(ts, PState(0, q)) ==
      Ok(Indexed(Var(ts[0].value), [Var(ts[2].value)], [Member(ts[5].value, [Var(ts[7].value)])]), PState(9, q))
  {
    var ms := [Member(ts[5].value, [Var(ts[7].value)])];
    OneMember(ts, 4, q);
    IndexThenMembers(ts, Var(ts[0].value), ms, q);
    PostfixExpr(ts, Indexed(Var(ts[0].value), [Var(ts[2].value)], ms), q);
  }

  /** `a[i].b[j]` is an indexed variable with one member carrying its own arguments. */
  lemma {:induction false} IndexedMember(a: string, i: string, b: string, j: string, q: seq<string>)
    ensures var ts := [V(a), Token(LBracket, "["), V(i), Token(RBracket, "]"), Token(Point, "."), V(b),
                       Token(LBracket, "["), V(j), Token(RBracket, "]")];
      ExprAt(ts, PState(0, q)) == Ok(Indexed(Var(a), [Var(i)], [Member(b, [Var(j)])]), PState(9, q))
  {
    IndexedMemberAt([V(a), Token(LBracket, "["), V(i), Token(RBracket, "]"), Token(Point, "."), V(b),
                     Token(LBracket, "["), V(j), Token(RBracket, "]")], q);
  }

  /** `a[i].b`: a member name with no `[` after it is read and then dropped from the tree. */
  lemma {:induction false} MemberWithoutIndexDropped(a: string, i: string, b: string, q: seq<string>)
    ensures var ts := [V(a), Token(LBracket, "["), V(i), Token(RBracket, "]"), Token(Point, "."), V(b)];
      ExprAt(ts, PState(0, q)) == Ok(Indexed(Var(a), [Var(i)], []), PState(6, q))
  {
    var ts := [V(a), Token(LBracket, "["), V(i), Token(RBracket, "]"), Token(Point, "."), V(b)];
    assert MembersAt(ts, [], PState(6, q)) == Ok([], PState(6, q));
    assert MembersAt(ts, [], PState(4, q)) == Ok([], PState(6, q));
    IndexThenMembers(ts, Var(a), [], q);
    PostfixExpr(ts, Indexed(Var(a), [Var(i)], []), q);
  }

  // ---- comparisons and conditions

  /** parse_comparison builds a comparison exactly when a comparison operator follows the first
      expression: then the operator's text joins that expression and the one after the
      operator; otherwise the result is the first expression, with the cursor after it. */
  lemma {:induction false} ComparisonShape(ts: seq<Token>, st: PState)
    requires st.pos <= |ts| && ComparisonAt(ts, st).Ok?
    ensures var r := ComparisonAt(ts, st); var e := ExprAt(ts, st);
      && e.Ok?
      && (r.value.CompareOp? <==> NextIs(ts, e.next, Compare))
      && (r.value.CompareOp? ==>
            && r.value.op == ts[e.next.pos].value && r.value.left == e.value
            && ExprAt(ts, Skip(e.next)) == Ok(r.value.right, r.next))
      && (!r.value.CompareOp? ==> r == e)
  {
  }

  /** One link `c a o b` of a chain of conditions: the connective c (`and` or `or`) and the
      comparison `a o b` of two variables. */
  datatype Link = Link(conn: Token, left: string, cmp: string, right: string)

  function LinkTokens(l: Link): seq<Token> {
    [l.conn, V(l.left), Token(Compare, l.cmp), V(l.right)]
  }

  function Comparison(l: Link): Node {
    CompareOp(l.cmp, Var(l.left), Var(l.right))
  }

  /** The tokens of a chain of links. */
  function Links(ls: seq<Link>): (ts: seq<Token>)
    ensures |ts| == 4 * |ls|
  {
    if ls == [] then [] else LinkTokens(ls[0]) + Links(ls[1..])
  }

  predicate Connectives(ls: seq<Link>) {
    forall i :: 0 <= i < |ls| ==> ls[i].conn.kind in {And, Or}
  }

  /** The tree of `left c1 a1 o1 b1 c2 ...` grouped to the left. */
  function FoldLinks(left: Node, ls: seq<Link>): Node
    decreases |ls|
  {
    if ls == [] then left else FoldLinks(LogicalOp(ls[0].conn.value, left, Comparison(ls[0])), ls[1..])
  }

  lemma {:induction false} LinksAt(ts: seq<Token>, p: nat, ls: seq<Link>)
    requires p <= |ts| && ts[p..] == Links(ls) && ls != []
    ensures p + 4 <= |ts| && ts[p] == ls[0].conn && ts[p + 1] == V(ls[0].left)
    ensures ts[p + 2] == Token(Compare, ls[0].cmp) && ts[p + 3] == V(ls[0].right)
    ensures ts[p + 4..] == Links(ls[1..])
  {
    assert ts[p..][..4] == LinkTokens(ls[0]);
    assert ts[p + 4..] == ts[p..][4..];
  }

  /** `a o b` with nothing after it but the end or a connective is an operand of a condition. */
  lemma {:induction false} CompareOperand(ts: seq<Token>, st: PState)
    requires st.pos + 2 < |ts| && ts[st.pos].kind == Variable && ts[st.pos + 1].kind == Compare
    requires ts[st.pos + 2].kind == Variable
    requires st.pos + 3 == |ts| || ts[st.pos + 3].kind !in {LParen, LBracket, Operator}
    ensures OperandAt(ts, st) ==
      Ok(CompareOp(ts[st.pos + 1].value, Var(ts[st.pos].value), Var(ts[st.pos + 2].value)), PState(st.pos + 3, st.quotes))
  {
    var s1 := Skip(st);
    VarExpr(ts, st);
    VarExpr(ts, Skip(s1));
    ComparisonBoth(ts, st, Var(ts[st.pos].value), s1, Var(ts[st.pos + 2].value), Skip(Skip(s1)));
    OperandComparison(ts, st);
  }

  /** parse_comparison with a comparison operator after the first expression joins it to the
      expression after the operator. */
  lemma {:induction false} ComparisonBoth(ts: seq<Token>, st: PState, l: Node, s1: PState, r: Node, s2: PState)
    requires st.pos <= |ts| && ExprAt(ts, st) == Ok(l, s1) && s1.pos < |ts| && ts[s1.pos].kind == Compare
    requires ExprAt(ts, Skip(s1)) == Ok(r, s2)
    ensures ComparisonAt(ts, st) == Ok(CompareOp(ts[s1.pos].value, l, r), s2)
  {
  }

  /** One round of the loop of parse_condition, whatever operand follows the connective. */
  lemma {:induction false} CondTailStep(ts: seq<Token>, left: Node, st: PState, c: Node, s1: PState)
    requires st.pos < |ts| && ts[st.pos].kind in {And, Or} && OperandAt(ts, Skip(st)) == Ok(c, s1)
    ensures CondTailAt(ts, left, st) == CondTailAt(ts, LogicalOp(ts[st.pos].value, left, c), s1)
  {
  }

  /** The facts about the tokens that one round over a chain of links needs. */
  lemma {:induction false} LinkNext(ts: seq<Token>, p: nat, ls: seq<Link>)
    requires p <= |ts| && ts[p..] == Links(ls) && Connectives(ls) && ls != []
    ensures p + 4 <= |ts| && ts[p + 4..] == Links(ls[1..]) && Connectives(ls[1..])
    ensures ts[p].kind in {And, Or} && ts[p].value == ls[0].conn.value
    ensures ts[p + 1] == V(ls[0].left) && ts[p + 2] == Token(Compare, ls[0].cmp) && ts[p + 3] == V(ls[0].right)
    ensures p + 4 == |ts| || ts[p + 4].kind !in {LParen, LBracket, Operator}
  {
    LinksAt(ts, p, ls);
    if ls[1..] != [] {
      LinksAt(ts, p + 4, ls[1..]);
      assert ls[1..][0] == ls[1];
    }
    assert Connectives(ls[1..]) by {
      forall i | 0 <= i < |ls[1..]| ensures ls[1..][i].conn.kind in {And, Or} {
        assert ls[1..][i] == ls[i + 1];
      }
    }
  }

  /** One round over a chain of links: its first link joins left, the rest of the chain
      follows. */
  lemma {:induction false} LinkStep(ts: seq<Token>, left: Node, p: nat, q: seq<string>, ls: seq<Link>)
    requires p <= |ts| && ts[p..] == Links(ls) && Connectives(ls) && ls != []
    ensures p + 4 <= |ts| && ts[p + 4..] == Links(ls[1..]) && Connectives(ls[1..])
    ensures CondTailAt(ts, left, PState(p, q)) ==
      CondTailAt(ts, LogicalOp(ls[0].conn.value, left, Comparison(ls[0])), PState(p + 4, q))
  {
    LinkNext(ts, p, ls);
    CompareOperand(ts, PState(p + 1, q));
    CondTailStep(ts, left, PState(p, q), Comparison(ls[0]), PState(p + 4, q));
  }

  /** The loop of parse_condition over a chain of links folds the comparisons to the left. */
  lemma {:induction false} CondTailFolds(ts: seq<Token>, left: Node, p: nat, q: seq<string>, ls: seq<Link>)
    requires p <= |ts| && ts[p..] == Links(ls) && Connectives(ls)
    ensures CondTailAt(ts, left, PState(p, q)) == Ok(FoldLinks(left, ls), PState(|ts|, q))
    decreases |ls|
  {
    if ls != [] {
      LinkStep(ts, left, p, q, ls);
      CondTailFolds(ts, LogicalOp(ls[0].conn.value, left, Comparison(ls[0])), p + 4, q, ls[1..]);
    }
  }

  /** parse_condition hands its first operand to its loop. */
  lemma {:induction false} ConditionStep(ts: seq<Token>, st: PState, c: Node, s1: PState)
    requires st.pos <= |ts| && OperandAt(ts, st) == Ok(c, s1)
    ensures ConditionAt(ts, st) == CondTailAt(ts, c, s1)
  {
  }

  /** A comparison of two variables, then a chain of links up to the end: the comparisons are
      folded to the left. */
  lemma {:induction false} ConditionChain(ts: seq<Token>, q: seq<string>, ls: seq<Link>)
    requires 3 <= |ts| && ts[0].kind == Variable && ts[1].kind == Compare && ts[2].kind == Variable
    requires ts[3..] == Links(ls) && Connectives(ls) && (|ts| == 3 || ts[3].kind in {And, Or})
    ensures ConditionAt(ts, PState(0, q)) ==
      Ok(FoldLinks(CompareOp(ts[1].value, Var(ts[0].value), Var(ts[2].value)), ls), PState(|ts|, q))
  {
    var c := CompareOp(ts[1].value, Var(ts[0].value), Var(ts[2].value));
    CompareOperand(ts, PState(0, q));
    ConditionStep(ts, PState(0, q), c, PState(3, q));
    CondTailFolds(ts, c, 3, q, ls);
  }

  /** The tokens of `a o b` followed by a chain of links. */
  lemma {:induction false} ConditionTokens(a: string, c: string, b: string, ls: seq<Link>)
    requires Connectives(ls)
    ensures var ts := [V(a), Token(Compare, c), V(b)] + Links(ls);
      && |ts| == 3 + 4 * |ls| && ts[0] == V(a) && ts[1] == Token(Compare, c) && ts[2] == V(b)
      && ts[3..] == Links(ls) && (|ts| == 3 || ts[3].kind in {And, Or})
  {
    var ts := [V(a), Token(Compare, c), V(b)] + Links(ls);
    assert ts[3..] == Links(ls);
    if ls != [] {
      LinksAt(ts, 3, ls);
    }
  }

  /** `a o b c1 a1 o1 b1 c2 ...`: `and` and `or` have the same precedence and are grouped to
      the left, `((a o b) c1 (a1 o1 b1)) c2 ...`, and the whole input is read. */
  lemma {:induction false} ConditionIsLeftAssociative(a: string, c: string, b: string, ls: seq<Link>, q: seq<string>)
    requires Connectives(ls)
    ensures ConditionAt([V(a), Token(Compare, c), V(b)] + Links(ls), PState(0, q)) ==
      Ok(FoldLinks(CompareOp(c, Var(a), Var(b)), ls), PState(3 + 4 * |ls|, q))
  {
    ConditionTokens(a, c, b, ls);
    ConditionChain([V(a), Token(Compare, c), V(b)] + Links(ls), q, ls);
  }

  // ---- if-expressions

  /** A parsed if-expression: after `if ` come a condition, ` then ` and an expression; the
      result is IfElse of the condition, that expression and the expression after it exactly
      when an ` else ` token follows, and Missing, with the cursor after the then-branch,
      otherwise. */
  lemma {:induction false} IfElseShape(ts: seq<Token>, st: PState)
    requires st.pos <= |ts| && IfElseAt(ts, st).Ok?
    ensures NextIs(ts, st, KeywordIf)
    ensures var r := IfElseAt(ts, st); var c := ConditionAt(ts, Skip(st));
      && c.Ok? && NextIs(ts, c.next, KeywordThen)
      && var th := ExprAt(ts, Skip(c.next));
      && th.Ok?
      && (r.value.IfElse? <==> NextIs(ts, th.next, KeywordElse) && ts[th.next.pos].value == " else ")
      && (r.value.IfElse? ==>
            && r.value.condition == c.value && r.value.thenExpr == th.value
            && ExprAt(ts, Skip(th.next)) == Ok(r.value.elseExpr, r.next))
      && (!r.value.IfElse? ==> r == Ok(Missing, th.next))
  {
    var c := ConditionAt(ts, Skip(st));
    assert c.Ok?;
    var th := ExprAt(ts, Skip(c.next));
    assert IfElseAt(ts, st) == ThenElseAt(ts, c.value, c.next);
  }

  /** parse_factor at `if ` reads an if-expression. */
  lemma {:induction false} IfFactor(ts: seq<Token>, st: PState)
    requires st.pos < |ts| && ts[st.pos] == Token(KeywordIf, "if ")
    ensures FactorAt(ts, st) == IfElseAt(ts, st)
  {
  }

  /** An if-expression that ends at the last token is an expression. */
  lemma {:induction false} IfExpr(ts: seq<Token>, node: Node, q: seq<string>)
    requires 0 < |ts| && ts[0] == Token(KeywordIf, "if ")
    requires IfElseAt(ts, PState(0, q)) == Ok(node, PState(|ts|, q))
    ensures ExprAt(ts, PState(0, q)) == Ok(node, PState(|ts|, q))
  {
    IfFactor(ts, PState(0, q));
    TermAtEnd(ts, PState(0, q), node, q);
    ExprAtEnd(ts, PState(0, q), node, q);
  }

  /** A failing factor makes its term and its expression fail the same way. */
  lemma {:induction false} FactorFails(ts: seq<Token>, st: PState, e: ParseError)
    requires st.pos <= |ts| && FactorAt(ts, st) == Err(e)
    ensures TermAt(ts, st) == Err(e) && ExprAt(ts, st) == Err(e)
  {
    assert TermAt(ts, st) == Err(e);
  }

  /** parse_if_else goes on to ` then ` once `if ` and a condition are read. */
  lemma {:induction false} IfElseStep(ts: seq<Token>, st: PState, c: Node, s2: PState)
    requires st.pos < |ts| && ts[st.pos].kind == KeywordIf && ConditionAt(ts, Skip(st)) == Ok(c, s2)
    ensures IfElseAt(ts, st) == ThenElseAt(ts, c, s2)
  {
  }

  /** ` then ` and an expression with no ` else ` after it give Missing. */
  lemma {:induction false} ThenWithoutElse(ts: seq<Token>, c: Node, st: PState, th: Node, s4: PState)
    requires st.pos < |ts| && ts[st.pos].kind == KeywordThen && ExprAt(ts, Skip(st)) == Ok(th, s4)
    requires !NextIs(ts, s4, KeywordElse)
    ensures ThenElseAt(ts, c, st) == Ok(Missing, s4)
  {
  }

  /** Any token other than ` then ` after the condition is an error. */
  lemma {:induction false} ThenMissing(ts: seq<Token>, c: Node, st: PState)
    requires st.pos < |ts| && ts[st.pos].kind != KeywordThen
    ensures ThenElseAt(ts, c, st) == Err(Expected(KeywordThen, ts[st.pos].kind))
  {
  }

  /** `if ` a comparison of two variables, ` then ` and a variable at the end: there is no
      ` else `, so the result is Missing. */
  lemma {:induction false} IfThenAtEnd(ts: seq<Token>, q: seq<string>)
    requires |ts| == 6 && ts[0] == Token(KeywordIf, "if ") && ts[1].kind == Variable && ts[2].kind == Compare
    requires ts[3].kind == Variable && ts[4].kind == KeywordThen && ts[5].kind == Variable
    ensures ExprAt(ts, PState(0, q)) == Ok(Missing, PState(6, q))
  {
    var c := CompareOp(ts[2].value, Var(ts[1].value), Var(ts[3].value));
    CompareVars(ts, PState(1, q));
    IfElseStep(ts, PState(0, q), c, PState(4, q));
    VarExpr(ts, PState(5, q));
    ThenWithoutElse(ts, c, PState(4, q), Var(ts[5].value), PState(6, q));
    IfExpr(ts, Missing, q);
  }

  /** `if a > b then c` without an else branch is None. */
  lemma {:induction false} IfWithoutElse(a: string, b: string, c: string, q: seq<string>)
    ensures var ts := [Token(KeywordIf, "if "), V(a), Token(Compare, ">"), V(b), Token(KeywordThen, " then "), V(c)];
      ExprAt(ts, PState(0, q)) == Ok(Missing, PState(6, q))
  {
    IfThenAtEnd([Token(KeywordIf, "if "), V(a), Token(Compare, ">"), V(b), Token(KeywordThen, " then "), V(c)], q);
  }

  /** `if ` followed by `(a)` and a comparison operator: the parenthesised variable is the
      whole condition, and the comparison operator comes where ` then ` is expected. */
  lemma {:induction false} ParenthesisedIfRejected(ts: seq<Token>, q: seq<string>)
    requires 5 <= |ts| && ts[0] == Token(KeywordIf, "if ") && ts[1].kind == LParen && ts[2].kind == Variable
    requires ts[3].kind == RParen && ts[4].kind == Compare
    ensures ExprAt(ts, PState(0, q)) == Err(Expected(KeywordThen, Compare))
  {
    ParenthesisedVar(ts, PState(1, q));
    IfElseStep(ts, PState(0, q), Var(ts[2].value), PState(4, q));
    ThenMissing(ts, Var(ts[2].value), PState(4, q));
    IfFactor(ts, PState(0, q));
    FactorFails(ts, PState(0, q), Expected(KeywordThen, Compare));
  }

  /** A condition that starts with `(` is read as a parenthesised condition, so
      `if (a) > b then c` stops at `>` and fails where ` then ` is expected. */
  lemma {:induction false} ParenthesisedOperandRejected(a: string, b: string, c: string, q: seq<string>)
    ensures var ts := [Token(KeywordIf, "if "), Token(LParen, "("), V(a), Token(RParen, ")"), Token(Compare, ">"), V(b),
                       Token(KeywordThen, " then "), V(c)];
      ExprAt(ts, PState(0, q)) == Err(Expected(KeywordThen, Compare))
  {
    ParenthesisedIfRejected([Token(KeywordIf, "if "), Token(LParen, "("), V(a), Token(RParen, ")"), Token(Compare, ">"),
      V(b), Token(KeywordThen, " then "), V(c)], q);
  }

  /** parse_comparison with no comparison operator after the expression is that expression. */
  lemma {:induction false} ComparisonAlone(ts: seq<Token>, st: PState, e: Node, s1: PState)
    requires st.pos <= |ts| && ExprAt(ts, st) == Ok(e, s1) && !NextIs(ts, s1, Compare)
    ensures ComparisonAt(ts, st) == Ok(e, s1)
  {
  }

  /** An operand that does not start with `(` is a comparison. */
  lemma {:induction false} OperandComparison(ts: seq<Token>, st: PState)
    requires st.pos <= |ts| && !NextIs(ts, st, LParen)
    ensures OperandAt(ts, st) == ComparisonAt(ts, st)
  {
  }

  /** An operand with no `and` or `or` after it is the whole condition. */
  lemma {:induction false} ConditionAlone(ts: seq<Token>, st: PState, c: Node, s1: PState)
    requires st.pos <= |ts| && OperandAt(ts, st) == Ok(c, s1) && !NextIs(ts, s1, And) && !NextIs(ts, s1, Or)
    ensures ConditionAt(ts, st) == Ok(c, s1)
  {
  }

  /** An operand that starts with `(` is the condition inside, up to its `)`. */
  lemma {:induction false} OperandParenthesised(ts: seq<Token>, st: PState, c: Node, s1: PState)
    requires st.pos < |ts| && ts[st.pos].kind == LParen && ConditionAt(ts, Skip(st)) == Ok(c, s1)
    requires NextIs(ts, s1, RParen)
    ensures OperandAt(ts, st) == Ok(c, Skip(s1))
  {
  }

  /** `(a)` followed by anything but `and` or `or` is the condition a. */
  lemma {:induction false} ParenthesisedVar(ts: seq<Token>, st: PState)
    requires st.pos + 3 < |ts| && ts[st.pos].kind == LParen && ts[st.pos + 1].kind == Variable
    requires ts[st.pos + 2].kind == RParen && ts[st.pos + 3].kind !in {And, Or}
    ensures ConditionAt(ts, st) == Ok(Var(ts[st.pos + 1].value), PState(st.pos + 3, st.quotes))
  {
    var x := Var(ts[st.pos + 1].value);
    var s1 := Skip(st);
    VarExpr(ts, s1);
    ComparisonAlone(ts, s1, x, Skip(s1));
    OperandComparison(ts, s1);
    ConditionAlone(ts, s1, x, Skip(s1));
    OperandParenthesised(ts, st, x, Skip(s1));
    ConditionAlone(ts, st, x, Skip(Skip(s1)));
  }
}
