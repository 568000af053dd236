/** The class Parser of example/calParser.py: a cursor over a token list and the list of
    string literals read so far, with one method per parse_ method. Every method is proved to
    return what the matching function of CalcParser returns from the state it starts in, and
    on success to leave the fields in the state that function reports. */
module CalcParsing {
  import opened CalcText
  import opened CalcLexer
  import opened CalcParser

  class Parser {
    const tokens: seq<Token>
    var pos: nat
    var quotesList: seq<string>

    /** The cursor never passes the end of the tokens. */
    ghost predicate Valid()
      reads this
    {
      pos <= |tokens|
    }

    /** The fields that change, as a value. */
    function St(): PState
      reads this
    {
      PState(pos, quotesList)
    }

    constructor (tokens: seq<Token>)
      ensures this.tokens == tokens && St() == PState(0, []) && Valid()
    {
      this.tokens := tokens;
      pos := 0;
      quotesList := [];
    }

    /** parse: the whole parse is one expression; tokens after it are left unread. */
    method Parse() returns (r: Result<Node>)
      requires Valid()
      modifies this
      ensures r == ExprAt(tokens, old(St())) && (r.Ok? ==> St() == r.next)
    {
      r := ParseExpression();
    }

    /** peek: the token at the cursor, None past the end. */
    function Peek(): (t: Option<Token>)
      reads this
      ensures t.Some? <==> pos < |tokens|
      ensures t.Some? ==> t.value == tokens[pos]
    {
      if pos < |tokens| then Some(tokens[pos]) else None
    }

    /** consume: nothing changes when it fails. */
    method Consume(expected: Option<Kind>) returns (r: Result<Token>)
      requires Valid()
      modifies this
      ensures r == ConsumeAt(tokens, old(St()), expected)
      ensures r.Ok? ==> St() == r.next
      ensures r.Err? ==> St() == old(St())
    {
      if pos >= |tokens| {
        return Err(EndOfInput);
      }
      var token := tokens[pos];
      if expected.Some? && token.kind != expected.value {
        return Err(Expected(expected.value, token.kind));
      }
      pos := pos + 1;
      return Ok(token, St());
    }

    method ParseExpression() returns (r: Result<Node>)
      requires Valid()
      modifies this
      ensures r == ExprAt(tokens, old(St())) && (r.Ok? ==> St() == r.next)
      decreases |tokens| - pos, 4
    {
      var first := ParseTerm();
      if first.Err? {
        return Err(first.error);
      }
      var node := first.value;
      while Peek().Some? && Peek().value.kind == Operator && Peek().value.value in AddOps
        invariant Valid() && old(pos) < pos
        invariant ExprTailAt(tokens, node, St()) == ExprAt(tokens, old(St()))
        decreases |tokens| - pos
      {
        var op := Consume(None);
        var right := ParseTerm();
        if right.Err? {
          return Err(right.error);
        }
        node := BinaryOp(op.value.value, node, right.value);
      }
      return Ok(node, St());
    }

    method ParseTerm() returns (r: Result<Node>)
      requires Valid()
      modifies this
      ensures r == TermAt(tokens, old(St())) && (r.Ok? ==> St() == r.next)
      decreases |tokens| - pos, 3
    {
      var first := ParseFactor();
      if first.Err? {
        return Err(first.error);
      }
      var node := first.value;
      while Peek().Some? && Peek().value.kind == Operator && Peek().value.value in MulOps
        invariant Valid() && old(pos) < pos
        invariant TermTailAt(tokens, node, St()) == TermAt(tokens, old(St()))
        decreases |tokens| - pos
      {
        var op := Consume(None);
        var right := ParseFactor();
        if right.Err? {
          return Err(right.error);
        }
        node := BinaryOp(op.value.value, node, right.value);
      }
      return Ok(node, St());
    }

    method ParseIfElse() returns (r: Result<Node>)
      requires Valid()
      modifies this
      ensures r == IfElseAt(tokens, old(St())) && (r.Ok? ==> St() == r.next)
      decreases |tokens| - pos, 1
    {
      var kw := Consume(Some(KeywordIf));
      if kw.Err? {
        return Err(kw.error);
      }
      var condition := ParseCondition();
      if condition.Err? {
        return Err(condition.error);
      }
      r := ParseThenElse(condition.value);
    }

    /** The rest of parse_if_else once the condition has been read: ` then `, the expression,
        and an else branch when ` else ` follows. */
    method ParseThenElse(condition: Node) returns (r: Result<Node>)
      requires Valid()
      modifies this
      ensures r == ThenElseAt(tokens, condition, old(St())) && (r.Ok? ==> St() == r.next)
      decreases |tokens| - pos, 5
    {
      ghost var s0 := St();
      var th := Consume(Some(KeywordThen));
      if th.Err? {
        return Err(th.error);
      }
      ghost var s3 := St();
      var thenExpr := ParseExpression();
      if thenExpr.Err? {
        return Err(thenExpr.error);
      }
      ghost var s4 := St();
      assert ThenElseAt(tokens, condition, s0) ==
        if NextIs(tokens, s4, KeywordElse) && tokens[s4.pos].value == " else " then
          match ExprAt(tokens, Skip(s4))
          case Err(e) => Err(e)
          case Ok(el, s5) => Ok(IfElse(condition, thenExpr.value, el), s5)
        else Ok(Missing, s4);
      if Peek().Some? && Peek().value.kind == KeywordElse && Peek().value.value == " else " {
        var el := Consume(Some(KeywordElse));
        var elseExpr := ParseExpression();
        if elseExpr.Err? {
          return Err(elseExpr.error);
        }
        return Ok(IfElse(condition, thenExpr.value, elseExpr.value), St());
      }
      return Ok(Missing, St());
    }

    method ParseCondition() returns (r: Result<Node>)
      requires Valid()
      modifies this
      ensures r == ConditionAt(tokens, old(St())) && (r.Ok? ==> St() == r.next)
      decreases |tokens| - pos, 7
    {
      var first := ParseOperand();
      if first.Err? {
        return Err(first.error);
      }
      var left := first.value;
      while Peek().Some? && (Peek().value.kind == And || Peek().value.kind == Or)
        invariant Valid() && old(pos) < pos
        invariant CondTailAt(tokens, left, St()) == ConditionAt(tokens, old(St()))
        decreases |tokens| - pos
      {
        var op := Consume(None);
        var right := ParseOperand();
        if right.Err? {
          return Err(right.error);
        }
        left := LogicalOp(op.value.value, left, right.value);
      }
      return Ok(left, St());
    }

    /** The operand code that parse_condition repeats for its first and for every later
        operand: a condition in parentheses, or a comparison. */
    method ParseOperand() returns (r: Result<Node>)
      requires Valid()
      modifies this
      ensures r == OperandAt(tokens, old(St())) && (r.Ok? ==> St() == r.next)
      decreases |tokens| - pos, 6
    {
      if Peek().Some? && Peek().value.kind == LParen {
        var lp := Consume(Some(LParen));
        var inner := ParseCondition();
        if inner.Err? {
          return Err(inner.error);
        }
        var rp := Consume(Some(RParen));
        if rp.Err? {
          return Err(rp.error);
        }
        return Ok(inner.value, St());
      }
      r := ParseComparison();
    }

    method ParseComparison() returns (r: Result<Node>)
      requires Valid()
      modifies this
      ensures r == ComparisonAt(tokens, old(St())) && (r.Ok? ==> St() == r.next)
      decreases |tokens| - pos, 5
    {
      var left := ParseExpression();
      if left.Err? {
        return Err(left.error);
      }
      if Peek().Some? && Peek().value.kind == Compare {
        var op := Consume(None);
        var right := ParseExpression();
        if right.Err? {
          return Err(right.error);
        }
        return Ok(CompareOp(op.value.value, left.value, right.value), St());
      }
      return Ok(left.value, St());
    }

    method ParseFactor() returns (r: Result<Node>)
      requires Valid()
      modifies this
      ensures r == FactorAt(tokens, old(St())) && (r.Ok? ==> St() == r.next)
      decreases |tokens| - pos, 2
    {
      if Peek().Some? && Peek().value.kind == KeywordIf && Peek().value.value == "if " {
        r := ParseIfElse();
        return;
      }
      var token := Peek();
      if token.None? {
        return Err(EndOfInput);
      }
      var t := token.value;
      if t.kind == Operator && t.value in AddOps {
        var op := Consume(None);
        var arg := ParseFactor();
        if arg.Err? {
          return Err(arg.error);
        }
        return Ok(UnaryOp(op.value.value, arg.value), St());
      }
      if t.kind == LParen {
        var lp := Consume(Some(LParen));
        var inner := ParseExpression();
        if inner.Err? {
          return Err(inner.error);
        }
        var rp := Consume(Some(RParen));
        if rp.Err? {
          return Err(rp.error);
        }
        r := HandlePostfix(inner.value);
        return;
      }
      if t.kind == Number {
        var num := NumberValue(t.value);
        if num.None? {
          return Err(InvalidInt(t.value));
        }
        var n := Consume(None);
        return Ok(Num(num.value), St());
      }
      if t.kind == Quoted {
        var q := Consume(None);
        quotesList := quotesList + [q.value.value];
        return Ok(Quotes(q.value.value), St());
      }
      if t.kind == Variable {
        var v := Consume(None);
        r := HandlePostfix(Var(v.value.value));
        return;
      }
      return Err(UnexpectedToken(t.kind, t.value));
    }

    method HandlePostfix(node0: Node) returns (r: Result<Node>)
      requires Valid()
      modifies this
      ensures r == PostfixAt(tokens, node0, old(St())) && (r.Ok? ==> St() == r.next)
      decreases |tokens| - pos, 0
    {
      var node := node0;
      while true
        invariant Valid() && old(pos) <= pos
        invariant PostfixAt(tokens, node, St()) == PostfixAt(tokens, node0, old(St()))
        decreases |tokens| - pos
      {
        if Peek().Some? && Peek().value.kind == LParen {
          var lp := Consume(Some(LParen));
          var args := ParseExpressionRparenList();
          if args.Err? {
            return Err(args.error);
          }
          var rp := Consume(Some(RParen));
          if rp.Err? {
            return Err(rp.error);
          }
          node := FuncCall(node, args.value);
        } else if Peek().Some? && Peek().value.kind == LBracket {
          var lb := Consume(Some(LBracket));
          var indices := ParseExpressionList();
          if indices.Err? {
            return Err(indices.error);
          }
          var rb := Consume(Some(RBracket));
          if rb.Err? {
            return Err(rb.error);
          }
          var members := ReadMembers();
          if members.Err? {
            return Err(members.error);
          }
          node := Indexed(node, indices.value, members.value);
        } else {
          break;
        }
      }
      return Ok(node, St());
    }

    /** The inner while loop of handle_postfix, reading `.name` and `.name[args]` after an
        index. */
    method ReadMembers() returns (r: Result<seq<Node>>)
      requires Valid()
      modifies this
      ensures r == MembersAt(tokens, [], old(St())) && (r.Ok? ==> St() == r.next)
      decreases |tokens| - pos, 0
    {
      var subnodes: seq<Node> := [];
      while Peek().Some? && Peek().value.kind == Point
        invariant Valid() && old(pos) <= pos
        invariant MembersAt(tokens, subnodes, St()) == MembersAt(tokens, [], old(St()))
        decreases |tokens| - pos
      {
        var pt := Consume(Some(Point));
        var name := Consume(None);
        if name.Err? {
          return Err(name.error);
        }
        if Peek().Some? && Peek().value.kind == LBracket {
          var lb := Consume(Some(LBracket));
          var args := ParseExpressionRparenList();
          if args.Err? {
            return Err(args.error);
          }
          var rb := Consume(Some(RBracket));
          if rb.Err? {
            return Err(rb.error);
          }
          subnodes := subnodes + [Member(name.value.value, args.value)];
        }
      }
      return Ok(subnodes, St());
    }

    method ParseExpressionList() returns (r: Result<seq<Node>>)
      requires Valid()
      modifies this
      ensures r == ListAt(tokens, old(St()), RBracket) && (r.Ok? ==> St() == r.next)
      decreases |tokens| - pos, 6
    {
      r := ParseList(RBracket);
    }

    method ParseExpressionRparenList() returns (r: Result<seq<Node>>)
      requires Valid()
      modifies this
      ensures r == ListAt(tokens, old(St()), RParen) && (r.Ok? ==> St() == r.next)
      decreases |tokens| - pos, 6
    {
      r := ParseList(RParen);
    }

    /** The body the two list methods share, up to the kind that closes the list. */
    method ParseList(close: Kind) returns (r: Result<seq<Node>>)
      requires Valid()
      modifies this
      ensures r == ListAt(tokens, old(St()), close) && (r.Ok? ==> St() == r.next)
      decreases |tokens| - pos, 5
    {
      var exprs: seq<Node> := [];
      if Peek().Some? && Peek().value.kind != close {
        var first := ParseExpression();
        if first.Err? {
          return Err(first.error);
        }
        exprs := [first.value];
        while Peek().Some? && Peek().value.kind == Comma
          invariant Valid() && old(pos) < pos
          invariant ListTailAt(tokens, exprs, St()) == ListAt(tokens, old(St()), close)
          decreases |tokens| - pos
        {
          var comma := Consume(Some(Comma));
          var e := ParseExpression();
          if e.Err? {
            return Err(e.error);
          }
          exprs := exprs + [e.value];
        }
      }
      return Ok(exprs, St());
    }
  }
}
