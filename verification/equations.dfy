/** The two entry points of the calculator front end: parse_equation, which reads
    `output = expression`, and get_ast, which reads an expression alone. */
module CalcEquations {
  import opened CalcText
  import opened CalcLexer
  import opened CalcParser
  import opened CalcParsing

  /** The dictionary {'output': ..., 'expression': ...} that parse_equation returns. */
  datatype Equation = Equation(output: string, expression: Node)

  /** Why an equation is refused: no `=` to split at (the unpacking of split('=', 1)
      fails), or a syntax error in the expression. */
  datatype EquationError = MissingEquals | Syntax(error: ParseError)

  datatype Outcome<T> = Success(value: T) | Failure(error: EquationError)

  // ---- the two entry points

  /** get_ast: tokenize the text and parse one expression from it. The specification of the
      executable GetAst below. */
  function AstOf(text: string): (r: Outcome<Node>)
    ensures r.Failure? ==> r.error.Syntax?
  {
    match ExprAt(Lex(text, 0), PState(0, []))
    case Err(e) => Failure(Syntax(e))
    case Ok(n, _) => Success(n)
  }

  /** parse_equation: split at the first `=`, strip both sides, and parse the right side
      as get_ast does. The specification of the executable ParseEquation below. */
  function EquationAt(eq: string): Outcome<Equation> {
    match Find(eq, '=')
    case None => Failure(MissingEquals)
    case Some(i) =>
      match AstOf(Strip(eq[i + 1..]))
      case Failure(e) => Failure(e)
      case Success(n) => Success(Equation(Strip(eq[..i]), n))
  }

  /** An equation is refused for want of `=` exactly when it has none. */
  lemma {:induction false} MissingEqualsIffNoEquals(eq: string)
    ensures EquationAt(eq) == Failure(MissingEquals) <==> '=' !in eq
  {
    if Find(eq, '=').Some? {
      assert EquationAt(eq).Failure? ==> EquationAt(eq).error.Syntax?;
    }
  }

  /** The output of a parsed equation holds no `=` and no whitespace at either end. */
  lemma {:induction false} OutputIsNameBeforeEquals(eq: string)
    requires EquationAt(eq).Success?
    ensures var o := EquationAt(eq).value.output;
      '=' !in o && (o == [] || (!IsSpace(o[0]) && !IsSpace(o[|o| - 1])))
  {
    var i := Find(eq, '=').value;
    StripOmits(eq[..i], '=');
  }

  /** `out = rhs` with no `=` in out: the output is out stripped, and the expression and
      its errors are those of get_ast on rhs stripped, whatever `=` signs rhs holds. */
  lemma {:induction false} EquationSplitsAtFirstEquals(out: string, rhs: string)
    requires '=' !in out
    ensures EquationAt(out + "=" + rhs) ==
      match AstOf(Strip(rhs))
      case Success(n) => Success(Equation(Strip(out), n))
      case Failure(e) => Failure(e)
  {
    var eq := out + "=" + rhs;
    FindAfter(out, '=', rhs);
    assert eq[..|out|] == out;
    assert eq[|out| + 1..] == rhs;
  }

  /** parse_equation on the text, the executable form of EquationAt. */
  method ParseEquation(equation: string) returns (r: Outcome<Equation>)
    ensures r == EquationAt(equation)
  {
    var found := Find(equation, '=');
    if found.None? {
      r := Failure(MissingEquals);
    } else {
      var left, right := equation[..found.value], equation[found.value + 1..];
      var ast := GetAst(Strip(right));
      if ast.Failure? {
        r := Failure(ast.error);
      } else {
        r := Success(Equation(Strip(left), ast.value));
      }
    }
  }

  /** get_ast on the text, the executable form of AstOf: it runs Tokenize and the
      Parser class rather than the grammar functions. */
  method GetAst(equation: string) returns (r: Outcome<Node>)
    ensures r == AstOf(equation)
  {
    var tokens := Tokenize(equation);
    var parser := new Parser(tokens);
    var ast := parser.Parse();
    match ast
    case Err(e) => r := Failure(Syntax(e));
    case Ok(n, _) => r := Success(n);
  }
}
