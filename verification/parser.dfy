/** The recursive-descent parser of example/calParser.py, as functions of the token list and
    the parser state (the cursor and the list of string literals met so far). Each function
    returns the node it builds and the state after it, or the error the Python code raises;
    an error ends the whole parse, so no state is kept with it. The class Parser in
    parser_class.dfy runs the same steps on its fields and is proved to agree with these. */
module CalcParser {
  import opened CalcText
  import opened CalcLexer

  /** A `num` value: int() of a lexeme without `.` and `e`, float() of any other. */
  datatype Number = IntNum(n: nat) | FloatNum(text: string)

  /** The dictionaries the parser builds, one constructor per shape; Missing is the None that
      parse_if_else returns when there is no else branch. */
  datatype Node =
    | Num(number: Number)
    | Quotes(text: string)
    | Var(name: string)
    | Indexed(object: Node, indices: seq<Node>, subnodes: seq<Node>)
    | Member(name: string, args: seq<Node>)
    | FuncCall(func: Node, args: seq<Node>)
    | UnaryOp(op: string, arg: Node)
    | BinaryOp(op: string, left: Node, right: Node)
    | CompareOp(op: string, left: Node, right: Node)
    | LogicalOp(op: string, left: Node, right: Node)
    | IfElse(condition: Node, thenExpr: Node, elseExpr: Node)
    | Missing

  /** The ValueErrors the parser raises. */
  datatype ParseError =
    | EndOfInput                            // 'Unexpected end of input'
    | Expected(want: Kind, got: Kind)       // 'Expected <want>, got <got>'
    | UnexpectedToken(kind: Kind, value: string)
    | InvalidInt(lexeme: string)            // int() of a lexeme that is not a decimal

  /** The parser's fields other than the tokens: the cursor and quotesList. */
  datatype PState = PState(pos: nat, quotes: seq<string>)

  datatype Result<T> = Ok(value: T, next: PState) | Err(error: ParseError)

  const AddOps: set<string> := {"+", "-"}
  const MulOps: set<string> := {"*", "/"}

  // ---- looking at the next token

  /** peek() is not None and has kind k. */
  predicate NextIs(ts: seq<Token>, st: PState, k: Kind) {
    st.pos < |ts| && ts[st.pos].kind == k
  }

  /** peek() is an operator whose text is in ops. */
  predicate NextIsOp(ts: seq<Token>, st: PState, ops: set<string>) {
    NextIs(ts, st, Operator) && ts[st.pos].value in ops
  }

  /** The state after the token at the cursor has been taken. */
  function Skip(st: PState): PState {
    PState(st.pos + 1, st.quotes)
  }

  /** next is a state the parser can reach from st: the cursor has not gone back nor past the
      end, and quotesList has only grown at its end. */
  predicate Keeps(ts: seq<Token>, st: PState, next: PState) {
    st.pos <= next.pos <= |ts| && st.quotes <= next.quotes
  }

  /** The same, with at least one token read. */
  predicate Advances(ts: seq<Token>, st: PState, next: PState) {
    Keeps(ts, st, next) && st.pos < next.pos
  }

  /** consume(expected): fails at the end of the tokens and when expected is given and the
      token's kind differs; otherwise returns the token and moves the cursor by one. */
  function ConsumeAt(ts: seq<Token>, st: PState, expected: Option<Kind>): (r: Result<Token>)
    ensures r.Ok? <==> st.pos < |ts| && (expected.None? || ts[st.pos].kind == expected.value)
    ensures r.Ok? ==> r.value == ts[st.pos] && r.next == Skip(st)
    ensures r.Err? && st.pos >= |ts| ==> r.error == EndOfInput
    ensures r.Err? && st.pos < |ts| ==> r.error == Expected(expected.value, ts[st.pos].kind)
  {
    if st.pos >= |ts| then Err(EndOfInput)
    else if expected.Some? && ts[st.pos].kind != expected.value then Err(Expected(expected.value, ts[st.pos].kind))
    else Ok(ts[st.pos], Skip(st))
  }

  // ---- numbers

  predicate IsDecimal(v: string) {
    |v| > 0 && forall i :: 0 <= i < |v| ==> IsDigit(v[i])
  }

  function DecimalValue(v: string): nat
    requires forall i :: 0 <= i < |v| ==> IsDigit(v[i])
  {
    if v == [] then 0
    else
      assert IsDigit(v[|v| - 1]);
      10 * DecimalValue(v[..|v| - 1]) + (v[|v| - 1] as int - '0' as int)
  }

  /** The value of a num lexeme: a float when it holds `.` or `e`, else int(), which only takes
      a decimal. */
  function NumberValue(v: string): Option<Number> {
    if '.' in v || 'e' in v then Some(FloatNum(v))
    else if IsDecimal(v) then Some(IntNum(DecimalValue(v)))
    else None
  }

  // ---- the shapes of the trees

  /** n is node under zero or more layers of calls and indexing: what handle_postfix makes of
      node. */
  predicate Wraps(n: Node, node: Node)
    decreases n
  {
    || n == node
    || match n
       case FuncCall(f, _) => Wraps(f, node)
       case Indexed(o, _, _) => Wraps(o, node)
       case _ => false
  }

  lemma {:induction false} WrapsTrans(n: Node, m: Node, node: Node)
    requires Wraps(n, m) && Wraps(m, node)
    ensures Wraps(n, node)
    decreases n
  {
    if n != m {
      match n
      case FuncCall(f, _) => WrapsTrans(f, m, node);
      case Indexed(o, _, _) => WrapsTrans(o, m, node);
    }
  }

  /** A tree parse_expression can return: comparisons and `and`/`or` appear only inside the
      condition of an if-expression, never at the top. */
  predicate Arithmetic(n: Node) {
    !n.CompareOp? && !n.LogicalOp?
  }

  // ---- the grammar, one function per parse_ method and per while loop

  /** parse_condition: an operand, then any number of `and`/`or` operands, grouped to the
      left. */
  function ConditionAt(ts: seq<Token>, st: PState): (r: Result<Node>)
    requires st.pos <= |ts|
    ensures r.Ok? ==> Advances(ts, st, r.next) && !NextIs(ts, r.next, And) && !NextIs(ts, r.next, Or)
    decreases |ts| - st.pos, 7
  {
    match OperandAt(ts, st)
    case Err(e) => Err(e)
    case Ok(left, s1) => CondTailAt(ts, left, s1)
  }

  /** An operand of parse_condition: a condition in parentheses or a comparison. */
  function OperandAt(ts: seq<Token>, st: PState): (r: Result<Node>)
    requires st.pos <= |ts|
    ensures r.Ok? ==> Advances(ts, st, r.next)
    decreases |ts| - st.pos, 6
  {
    if NextIs(ts, st, LParen) then
      match ConditionAt(ts, Skip(st))
      case Err(e) => Err(e)
      case Ok(c, s1) =>
        match ConsumeAt(ts, s1, Some(RParen))
        case Err(e) => Err(e)
        case Ok(_, s2) => Ok(c, s2)
    else ComparisonAt(ts, st)
  }

  /** The while loop of parse_condition. */
  function CondTailAt(ts: seq<Token>, left: Node, st: PState): (r: Result<Node>)
    requires st.pos <= |ts|
    ensures r.Ok? ==> Keeps(ts, st, r.next) && !NextIs(ts, r.next, And) && !NextIs(ts, r.next, Or)
    decreases |ts| - st.pos, 0
  {
    if NextIs(ts, st, And) || NextIs(ts, st, Or) then
      match OperandAt(ts, Skip(st))
      case Err(e) => Err(e)
      case Ok(right, s1) => CondTailAt(ts, LogicalOp(ts[st.pos].value, left, right), s1)
    else Ok(left, st)
  }

  /** parse_comparison: an expression, and a second one when a comparison operator follows. */
  function ComparisonAt(ts: seq<Token>, st: PState): (r: Result<Node>)
    requires st.pos <= |ts|
    ensures r.Ok? ==> Advances(ts, st, r.next)
    decreases |ts| - st.pos, 5
  {
    match ExprAt(ts, st)
    case Err(e) => Err(e)
    case Ok(left, s1) =>
      if NextIs(ts, s1, Compare) then
        match ExprAt(ts, Skip(s1))
        case Err(e) => Err(e)
        case Ok(right, s2) => Ok(CompareOp(ts[s1.pos].value, left, right), s2)
      else Ok(left, s1)
  }

  /** parse_expression: terms joined by `+` and `-`. It stops only where neither an additive
      nor a multiplicative operator follows. */
  function ExprAt(ts: seq<Token>, st: PState): (r: Result<Node>)
    requires st.pos <= |ts|
    ensures r.Ok? ==> Advances(ts, st, r.next)
    ensures r.Ok? ==> !NextIsOp(ts, r.next, AddOps) && !NextIsOp(ts, r.next, MulOps)
    ensures r.Ok? ==> Arithmetic(r.value)
    decreases |ts| - st.pos, 4
  {
    match TermAt(ts, st)
    case Err(e) => Err(e)
    case Ok(t, s1) => ExprTailAt(ts, t, s1)
  }

  /** The while loop of parse_expression: node is the tree built so far. */
  function ExprTailAt(ts: seq<Token>, node: Node, st: PState): (r: Result<Node>)
    requires st.pos <= |ts|
    ensures r.Ok? ==> Keeps(ts, st, r.next) && !NextIsOp(ts, r.next, AddOps)
    ensures r.Ok? && !NextIsOp(ts, st, MulOps) ==> !NextIsOp(ts, r.next, MulOps)
    ensures r.Ok? ==> r.value == node || r.value.BinaryOp?
    decreases |ts| - st.pos, 0
  {
    if NextIsOp(ts, st, AddOps) then
      match TermAt(ts, Skip(st))
      case Err(e) => Err(e)
      case Ok(t, s1) => ExprTailAt(ts, BinaryOp(ts[st.pos].value, node, t), s1)
    else Ok(node, st)
  }

  /** parse_term: factors joined by `*` and `/`. */
  function TermAt(ts: seq<Token>, st: PState): (r: Result<Node>)
    requires st.pos <= |ts|
    ensures r.Ok? ==> Advances(ts, st, r.next) && !NextIsOp(ts, r.next, MulOps)
    ensures r.Ok? ==> Arithmetic(r.value)
    decreases |ts| - st.pos, 3
  {
    match FactorAt(ts, st)
    case Err(e) => Err(e)
    case Ok(f, s1) => TermTailAt(ts, f, s1)
  }

  /** The while loop of parse_term. */
  function TermTailAt(ts: seq<Token>, node: Node, st: PState): (r: Result<Node>)
    requires st.pos <= |ts|
    ensures r.Ok? ==> Keeps(ts, st, r.next) && !NextIsOp(ts, r.next, MulOps)
    ensures r.Ok? ==> r.value == node || r.value.BinaryOp?
    decreases |ts| - st.pos, 0
  {
    if NextIsOp(ts, st, MulOps) then
      match FactorAt(ts, Skip(st))
      case Err(e) => Err(e)
      case Ok(f, s1) => TermTailAt(ts, BinaryOp(ts[st.pos].value, node, f), s1)
    else Ok(node, st)
  }

  /** parse_factor: an if-expression, a signed factor, a parenthesised expression, a number, a
      string literal (recorded in quotesList) or a variable; the last two kinds of factor take
      postfix calls and indexing. */
  function FactorAt(ts: seq<Token>, st: PState): (r: Result<Node>)
    requires st.pos <= |ts|
    ensures r.Ok? ==> Advances(ts, st, r.next) && Arithmetic(r.value)
    decreases |ts| - st.pos, 2
  {
    if st.pos < |ts| && ts[st.pos].kind == KeywordIf && ts[st.pos].value == "if " then IfElseAt(ts, st)
    else if st.pos == |ts| then Err(EndOfInput)
    else
      var t := ts[st.pos];
      if t.kind == Operator && t.value in AddOps then
        match FactorAt(ts, Skip(st))
        case Err(e) => Err(e)
        case Ok(arg, s1) => Ok(UnaryOp(t.value, arg), s1)
      else if t.kind == LParen then
        match ExprAt(ts, Skip(st))
        case Err(e) => Err(e)
        case Ok(inner, s1) =>
          match ConsumeAt(ts, s1, Some(RParen))
          case Err(e) => Err(e)
          case Ok(_, s2) => PostfixAt(ts, inner, s2)
      else if t.kind == Number then
        match NumberValue(t.value)
        case None => Err(InvalidInt(t.value))
        case Some(n) => Ok(Num(n), Skip(st))
      else if t.kind == Quoted then
        Ok(Quotes(t.value), PState(st.pos + 1, st.quotes + [t.value]))
      else if t.kind == Variable then
        PostfixAt(ts, Var(t.value), Skip(st))
      else Err(UnexpectedToken(t.kind, t.value))
  }

  /** parse_if_else: `if ` condition ` then ` expression, and ` else ` expression when one
      follows; without it the result is Missing. */
  function IfElseAt(ts: seq<Token>, st: PState): (r: Result<Node>)
    requires st.pos <= |ts|
    ensures r.Ok? ==> Advances(ts, st, r.next) && (r.value.IfElse? || r.value.Missing?)
    decreases |ts| - st.pos, 1
  {
    match ConsumeAt(ts, st, Some(KeywordIf))
    case Err(e) => Err(e)
    case Ok(_, s1) =>
      match ConditionAt(ts, s1)
      case Err(e) => Err(e)
      case Ok(c, s2) => ThenElseAt(ts, c, s2)
  }

  /** The rest of parse_if_else once the condition c has been read. */
  function ThenElseAt(ts: seq<Token>, c: Node, st: PState): (r: Result<Node>)
    requires st.pos <= |ts|
    ensures r.Ok? ==> Advances(ts, st, r.next) && (r.value.IfElse? || r.value.Missing?)
    decreases |ts| - st.pos, 0
  {
    match ConsumeAt(ts, st, Some(KeywordThen))
    case Err(e) => Err(e)
    case Ok(_, s3) =>
      match ExprAt(ts, s3)
      case Err(e) => Err(e)
      case Ok(th, s4) =>
        if NextIs(ts, s4, KeywordElse) && ts[s4.pos].value == " else " then
          match ExprAt(ts, Skip(s4))
          case Err(e) => Err(e)
          case Ok(el, s5) => Ok(IfElse(c, th, el), s5)
        else Ok(Missing, s4)
  }

  /** handle_postfix: wraps node in a call for every `(`...`)` and in an indexed variable for
      every `[`...`]` that follows, and stops only where neither follows. The result is node
      itself exactly when no postfix was read. */
  function PostfixAt(ts: seq<Token>, node: Node, st: PState): (r: Result<Node>)
    requires st.pos <= |ts|
    ensures r.Ok? ==> Keeps(ts, st, r.next) && !NextIs(ts, r.next, LParen) && !NextIs(ts, r.next, LBracket)
    ensures r.Ok? ==> Wraps(r.value, node)
    ensures r.Ok? ==> (r.next == st <==> !NextIs(ts, st, LParen) && !NextIs(ts, st, LBracket))
    ensures r.Ok? && r.next == st ==> r.value == node
    decreases |ts| - st.pos, 0
  {
    if NextIs(ts, st, LParen) then
      match ListAt(ts, Skip(st), RParen)
      case Err(e) => Err(e)
      case Ok(args, s1) =>
        match ConsumeAt(ts, s1, Some(RParen))
        case Err(e) => Err(e)
        case Ok(_, s2) =>
          var r := PostfixAt(ts, FuncCall(node, args), s2);
          if r.Ok? then WrapsTrans(r.value, FuncCall(node, args), node); r else r
    else if NextIs(ts, st, LBracket) then
      match ListAt(ts, Skip(st), RBracket)
      case Err(e) => Err(e)
      case Ok(indices, s1) =>
        match ConsumeAt(ts, s1, Some(RBracket))
        case Err(e) => Err(e)
        case Ok(_, s2) =>
          match MembersAt(ts, [], s2)
          case Err(e) => Err(e)
          case Ok(subnodes, s3) =>
            var r := PostfixAt(ts, Indexed(node, indices, subnodes), s3);
            if r.Ok? then WrapsTrans(r.value, Indexed(node, indices, subnodes), node); r else r
    else Ok(node, st)
  }

  /** The inner while loop of handle_postfix: each `.` is followed by a name (any token);
      a name with `[`...`]` after it becomes a member with those arguments, a name without
      is read and dropped. */
  function MembersAt(ts: seq<Token>, subnodes: seq<Node>, st: PState): (r: Result<seq<Node>>)
    requires st.pos <= |ts|
    ensures r.Ok? ==> Keeps(ts, st, r.next) && subnodes <= r.value && !NextIs(ts, r.next, Point)
    decreases |ts| - st.pos, 0
  {
    if NextIs(ts, st, Point) then
      match ConsumeAt(ts, Skip(st), None)
      case Err(e) => Err(e)
      case Ok(name, s1) =>
        if NextIs(ts, s1, LBracket) then
          match ListAt(ts, Skip(s1), RParen)
          case Err(e) => Err(e)
          case Ok(args, s2) =>
            match ConsumeAt(ts, s2, Some(RBracket))
            case Err(e) => Err(e)
            case Ok(_, s3) => MembersAt(ts, subnodes + [Member(name.value, args)], s3)
        else MembersAt(ts, subnodes, s1)
    else Ok(subnodes, st)
  }

  /** parse_expression_list (close = RBracket) and parse_expression_rparen_list (close =
      RParen): comma-separated expressions, none when the input ends or the closing kind
      comes next. The closing token itself is left for the caller. */
  function ListAt(ts: seq<Token>, st: PState, close: Kind): (r: Result<seq<Node>>)
    requires st.pos <= |ts|
    ensures r.Ok? ==> Keeps(ts, st, r.next)
    ensures r.Ok? ==> (r.value == [] <==> st.pos == |ts| || ts[st.pos].kind == close)
    ensures r.Ok? && r.value == [] ==> r.next == st
    ensures r.Ok? && r.value != [] ==> !NextIs(ts, r.next, Comma)
    decreases |ts| - st.pos, 5
  {
    if st.pos < |ts| && ts[st.pos].kind != close then
      match ExprAt(ts, st)
      case Err(e) => Err(e)
      case Ok(first, s1) => ListTailAt(ts, [first], s1)
    else Ok([], st)
  }

  /** The while loop of the two list functions: items are the expressions read so far. */
  function ListTailAt(ts: seq<Token>, items: seq<Node>, st: PState): (r: Result<seq<Node>>)
    requires st.pos <= |ts|
    ensures r.Ok? ==> Keeps(ts, st, r.next) && items <= r.value && !NextIs(ts, r.next, Comma)
    decreases |ts| - st.pos, 0
  {
    if NextIs(ts, st, Comma) then
      match ExprAt(ts, Skip(st))
      case Err(e) => Err(e)
      case Ok(e, s1) => ListTailAt(ts, items + [e], s1)
    else Ok(items, st)
  }
}
