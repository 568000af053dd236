/** The scanner `tokenize` of example/calParser.py. At each position it tries the token
    classes in a fixed order and takes the first one whose pattern matches there (each pattern
    itself matches as far as it can); whitespace is skipped. Every pattern is written out as a
    function giving the length of its match, 0 meaning no match. Character classes are ASCII:
    a digit is 0-9, a word character a letter, a digit or `_`. */
module CalcLexer {
  import opened CalcText

  datatype Kind =
    | Number | Operator | LParen | RParen | LBracket | RBracket | Comma
    | KeywordIf | KeywordThen | KeywordElse | Whitespace | Compare
    | And | Or | Not | Variable | Quoted | Point

  datatype Token = Token(kind: Kind, value: string)

  /** A match of one token class: its kind and its length. */
  datatype Lexeme = Lexeme(kind: Kind, len: nat)

  /** The token classes in the order the scanner tries them. */
  const Classes: seq<Kind> := [Number, Operator, LParen, RParen, LBracket, RBracket, Comma,
                               KeywordIf, KeywordThen, KeywordElse, Whitespace, Compare,
                               And, Or, Not, Variable, Quoted, Point]

  // ---- character classes

  predicate IsDigit(c: char) { '0' <= c <= '9' }

  predicate IsLetter(c: char) { 'a' <= c <= 'z' || 'A' <= c <= 'Z' }

  /** `[\w.]`: a letter, a digit, `_` or `.`. */
  predicate IsNameChar(c: char) { IsLetter(c) || IsDigit(c) || c == '_' || c == '.' }

  predicate NotQuote(c: char) { c != '"' }

  // ---- the patterns

  /** The length of the longest run of characters satisfying p from position i. */
  function Run(s: string, i: nat, p: char -> bool): (n: nat)
    requires i <= |s|
    ensures i + n <= |s|
    decreases |s| - i
  {
    if i < |s| && p(s[i]) then 1 + Run(s, i + 1, p) else 0
  }

  /** |lit| when s continues with lit at i, else 0. */
  function Literal(s: string, i: nat, lit: string): (n: nat)
    requires i <= |s|
    ensures i + n <= |s| && (n == 0 || n == |lit|)
  {
    if i + |lit| <= |s| && s[i..i + |lit|] == lit then |lit| else 0
  }

  /** The end of an optional exponent `[eE][+-]?\d+` starting at j (j itself when there is
      none: an `e` without digits after it is not part of the number). */
  function ExponentEnd(s: string, j: nat): (e: nat)
    requires j <= |s|
    ensures j <= e <= |s|
  {
    if j < |s| && (s[j] == 'e' || s[j] == 'E') then
      var k := if j + 1 < |s| && (s[j + 1] == '+' || s[j + 1] == '-') then j + 2 else j + 1;
      var d := Run(s, k, IsDigit);
      if d > 0 then k + d else j
    else j
  }

  /** `\d+\.?\d*([eE][+-]?\d+)?` */
  function NumberLength(s: string, i: nat): (n: nat)
    requires i <= |s|
    ensures i + n <= |s|
  {
    var a := Run(s, i, IsDigit);
    if a == 0 then 0
    else
      var j := i + a;
      var j' := if j < |s| && s[j] == '.' then j + 1 else j;
      ExponentEnd(s, j' + Run(s, j', IsDigit)) - i
  }

  /** `>=|<=|==|!=|>|<`: the two-character operators are tried first. */
  function CompareLength(s: string, i: nat): (n: nat)
    requires i <= |s|
    ensures i + n <= |s|
  {
    if Literal(s, i, ">=") > 0 || Literal(s, i, "<=") > 0 || Literal(s, i, "==") > 0 || Literal(s, i, "!=") > 0 then 2
    else if i < |s| && (s[i] == '>' || s[i] == '<') then 1
    else 0
  }

  /** `[a-zA-Z_][\w.]*` */
  function VariableLength(s: string, i: nat): (n: nat)
    requires i <= |s|
    ensures i + n <= |s|
  {
    if i < |s| && (IsLetter(s[i]) || s[i] == '_') then 1 + Run(s, i + 1, IsNameChar) else 0
  }

  /** `"[^"]*"`: a double quote up to the next one; nothing when it is not closed. */
  function QuotedLength(s: string, i: nat): (n: nat)
    requires i <= |s|
    ensures i + n <= |s|
  {
    if i < |s| && s[i] == '"' then
      var n := Run(s, i + 1, NotQuote);
      if i + 1 + n < |s| then n + 2 else 0
    else 0
  }

  /** The length of the match of the pattern of class k at position i of s. */
  function MatchLength(k: Kind, s: string, i: nat): (n: nat)
    requires i <= |s|
    ensures i + n <= |s|
  {
    match k
    case Number => NumberLength(s, i)
    case Operator => if i < |s| && s[i] in "+-*/" then 1 else 0
    case LParen => Literal(s, i, "(")
    case RParen => Literal(s, i, ")")
    case LBracket => Literal(s, i, "[")
    case RBracket => Literal(s, i, "]")
    case Comma => Literal(s, i, ",")
    case KeywordIf => Literal(s, i, "if ")
    case KeywordThen => Literal(s, i, " then ")
    case KeywordElse => Literal(s, i, " else ")
    case Whitespace => Run(s, i, IsSpace)
    case Compare => CompareLength(s, i)
    case And => Literal(s, i, "and")
    case Or => Literal(s, i, "or")
    case Not => Literal(s, i, "not")
    case Variable => VariableLength(s, i)
    case Quoted => QuotedLength(s, i)
    case Point => if i < |s| && s[i] != '\n' then 1 else 0  // `.` matches anything but a line feed
  }

  // ---- the scanner

  /** The first of Classes[c..] whose pattern matches at i. */
  function FirstMatch(s: string, i: nat, c: nat): (r: Option<Lexeme>)
    requires i <= |s| && c <= |Classes|
    ensures r.Some? ==> 0 < r.value.len && i + r.value.len <= |s|
    decreases |Classes| - c
  {
    if c == |Classes| then None
    else if MatchLength(Classes[c], s, i) > 0 then Some(Lexeme(Classes[c], MatchLength(Classes[c], s, i)))
    else FirstMatch(s, i, c + 1)
  }

  /** Some class always matches before the end: whitespace takes a line feed, `.` any other
      character. So the scanner never stalls. */
  lemma {:induction false} AlwaysMatches(s: string, i: nat, c: nat)
    requires i < |s| && c <= 10
    ensures FirstMatch(s, i, c).Some?
    decreases |Classes| - c
  {
    if MatchLength(Classes[c], s, i) == 0 {
      if c == 10 {
        assert MatchLength(Whitespace, s, i) == 0;
        assert s[i] != '\n';
        assert MatchLength(Classes[17], s, i) == 1;
        TailMatches(s, i, 11, 17);
      } else {
        AlwaysMatches(s, i, c + 1);
      }
    }
  }

  lemma {:induction false} TailMatches(s: string, i: nat, c: nat, d: nat)
    requires i <= |s| && c <= d < |Classes| && MatchLength(Classes[d], s, i) > 0
    ensures FirstMatch(s, i, c).Some?
    decreases d - c
  {
    if c < d && MatchLength(Classes[c], s, i) == 0 {
      TailMatches(s, i, c + 1, d);
    }
  }

  /** The class and length of the token at i. */
  function Scan(s: string, i: nat): (m: Lexeme)
    requires i < |s|
    ensures 0 < m.len && i + m.len <= |s|
  {
    AlwaysMatches(s, i, 0);
    FirstMatch(s, i, 0).value
  }

  /** m.end(): the position right after the token at i. */
  function End(s: string, i: nat): (e: nat)
    requires i < |s|
    ensures i < e <= |s|
  {
    i + Scan(s, i).len
  }

  /** The tokens of s from position i on, whitespace left out. */
  function Lex(s: string, i: nat): seq<Token>
    requires i <= |s|
    decreases |s| - i
  {
    if i == |s| then []
    else
      var m := Scan(s, i);
      var rest := Lex(s, End(s, i));
      if m.kind == Whitespace then rest else [Token(m.kind, s[i..End(s, i)])] + rest
  }

  /** One pass of the class loop of tokenize at position pos: the classes are tried in order
      and the first one that matches gives the kind of the token and its end, m.end(). */
  method ScanAt(expr: string, pos: nat) returns (m: Lexeme, end: nat)
    requires pos < |expr|
    ensures m == Scan(expr, pos) && end == End(expr, pos)
  {
    AlwaysMatches(expr, pos, 0);
    var c := 0;
    while c < |Classes|
      invariant c <= |Classes| && FirstMatch(expr, pos, c) == FirstMatch(expr, pos, 0)
      decreases |Classes| - c
    {
      var k := Classes[c];
      var n := MatchLength(k, expr, pos);
      if n > 0 {
        return Lexeme(k, n), pos + n;
      }
      c := c + 1;
    }
  }

  /** One step of Lex: the token at i, unless it is whitespace, and then the rest. */
  lemma {:induction false} LexUnfold(s: string, i: nat)
    requires i < |s|
    ensures var m := Scan(s, i);
      Lex(s, i) == (if m.kind == Whitespace then [] else [Token(m.kind, s[i..End(s, i)])]) + Lex(s, End(s, i))
  {
  }

  lemma {:induction false} SplitAppend(ts: seq<Token>, tok: seq<Token>, rest: seq<Token>)
    ensures (ts + tok) + rest == ts + (tok + rest)
  {
  }

  /** Reading a whitespace lexeme at i leaves "the tokens so far, then Lex of the rest" as
      it was. */
  lemma {:induction false} BlankStep(s: string, i: nat, ts: seq<Token>)
    requires i < |s| && Scan(s, i).kind == Whitespace
    ensures ts + Lex(s, i) == ts + Lex(s, End(s, i))
  {
    LexUnfold(s, i);
  }

  /** So does appending the token read at i when it is not whitespace. */
  lemma {:induction false} TokenStep(s: string, i: nat, ts: seq<Token>)
    requires i < |s| && Scan(s, i).kind != Whitespace
    ensures ts + Lex(s, i) == (ts + [Token(Scan(s, i).kind, s[i..End(s, i)])]) + Lex(s, End(s, i))
  {
    LexUnfold(s, i);
    SplitAppend(ts, [Token(Scan(s, i).kind, s[i..End(s, i)])], Lex(s, End(s, i)));
  }

  /** tokenize: scan expr from the start, trying the classes in order at each position. */
  method Tokenize(expr: string) returns (tokens: seq<Token>)
    ensures tokens == Lex(expr, 0)
  {
    tokens := [];
    var pos := 0;
    while pos < |expr|
      invariant pos <= |expr| && tokens + Lex(expr, pos) == Lex(expr, 0)
      decreases |expr| - pos
    {
      var m, end := ScanAt(expr, pos);
      if m.kind != Whitespace {
        TokenStep(expr, pos, tokens);
        tokens := tokens + [Token(m.kind, expr[pos..end])];
      } else {
        BlankStep(expr, pos, tokens);
      }
      pos := end;
    }
  }

  // ---- what the scanner promises

  /** The token at i comes from the first class, in list order, whose pattern matches there;
      none of the classes before it matches. */
  lemma {:induction false} FirstClassWins(s: string, i: nat)
    requires i < |s|
    ensures exists c :: 0 <= c < |Classes| && Classes[c] == Scan(s, i).kind
              && MatchLength(Classes[c], s, i) == Scan(s, i).len
              && forall d :: 0 <= d < c ==> MatchLength(Classes[d], s, i) == 0
  {
    AlwaysMatches(s, i, 0);
    var c := FirstIndex(s, i, 0);
  }

  lemma {:induction false} FirstIndex(s: string, i: nat, c0: nat) returns (c: nat)
    requires i <= |s| && c0 <= |Classes| && FirstMatch(s, i, c0).Some?
    requires forall d :: 0 <= d < c0 ==> MatchLength(Classes[d], s, i) == 0
    ensures c0 <= c < |Classes| && Classes[c] == FirstMatch(s, i, c0).value.kind
    ensures MatchLength(Classes[c], s, i) == FirstMatch(s, i, c0).value.len
    ensures forall d :: 0 <= d < c ==> MatchLength(Classes[d], s, i) == 0
    decreases |Classes| - c0
  {
    if MatchLength(Classes[c0], s, i) > 0 {
      c := c0;
    } else {
      c := FirstIndex(s, i, c0 + 1);
    }
  }

  /** No whitespace token is kept, and every token is a non-empty piece of the input. */
  lemma {:induction false} LexTokens(s: string, i: nat)
    requires i <= |s|
    ensures forall t :: t in Lex(s, i) ==> t.kind != Whitespace && |t.value| > 0
    decreases |s| - i
  {
    if i < |s| {
      LexTokens(s, End(s, i));
    }
  }

  /** Every token of s, whitespace included: the scan before whitespace is dropped. */
  function Scanned(s: string, i: nat): seq<Token>
    requires i <= |s|
    decreases |s| - i
  {
    if i == |s| then [] else
      [Token(Scan(s, i).kind, s[i..End(s, i)])] + Scanned(s, End(s, i))
  }

  function Concat(ts: seq<Token>): string {
    if ts == [] then [] else ts[0].value + Concat(ts[1..])
  }

  function NonBlank(ts: seq<Token>): seq<Token> {
    if ts == [] then [] else (if ts[0].kind == Whitespace then [] else [ts[0]]) + NonBlank(ts[1..])
  }

  /** The scan covers the input exactly, in order: gluing the values of all tokens,
      whitespace included, gives back the text; the result of tokenize is that scan with the
      whitespace tokens left out. */
  lemma {:induction false} ScanCovers(s: string, i: nat)
    requires i <= |s|
    ensures Concat(Scanned(s, i)) == s[i..]
    ensures Lex(s, i) == NonBlank(Scanned(s, i))
    decreases |s| - i
  {
    if i < |s| {
      var e := End(s, i);
      ScanCovers(s, e);
      assert s[i..] == s[i..e] + s[e..];
      var sc := Scanned(s, i);
      assert sc[1..] == Scanned(s, e);
    }
  }

  // ---- priorities among the classes

  /** `if ` is a keyword, not the start of a variable. */
  lemma {:induction false} KeywordIfFirst(s: string, i: nat)
    requires i + 3 <= |s| && s[i..i + 3] == "if "
    ensures Scan(s, i) == Lexeme(KeywordIf, 3)
  {
    assert s[i] == 'i';
    assert FirstMatch(s, i, 7) == Some(Lexeme(KeywordIf, 3));
    assert forall c :: 0 <= c < 7 ==> MatchLength(Classes[c], s, i) == 0;
    SkipTo(s, i, 0, 7);
  }

  /** ` then ` and ` else ` are taken before the whitespace class sees their leading space. */
  lemma {:induction false} ThenElseBeforeWhitespace(s: string, i: nat, word: string)
    requires word == " then " || word == " else "
    requires i + 6 <= |s| && s[i..i + 6] == word
    ensures Scan(s, i) == Lexeme(if word == " then " then KeywordThen else KeywordElse, 6)
  {
    assert s[i] == ' ';
    assert forall c :: 0 <= c < 8 ==> MatchLength(Classes[c], s, i) == 0;
    if word == " then " {
      assert FirstMatch(s, i, 8) == Some(Lexeme(KeywordThen, 6));
      SkipTo(s, i, 0, 8);
    } else {
      assert s[i + 1] == 'e';
      assert MatchLength(KeywordThen, s, i) == 0;
      assert FirstMatch(s, i, 9) == Some(Lexeme(KeywordElse, 6));
      SkipTo(s, i, 0, 9);
    }
  }

  /** `and`, `or` and `not` are taken before the variable class, even inside a longer word
      such as `android`. */
  lemma {:induction false} WordOperatorsBeforeVariables(s: string, i: nat, word: string)
    requires word == "and" || word == "or" || word == "not"
    requires i + |word| <= |s| && s[i..i + |word|] == word
    ensures Scan(s, i) == Lexeme(if word == "and" then And else if word == "or" then Or else Not, |word|)
  {
    assert s[i] == word[0];
    LetterStart(s, i);
    if word == "and" {
      assert MatchLength(Classes[12], s, i) == 3;
      ScanIs(s, i, 12);
    } else if word == "or" {
      LiteralHead(s, i, "and");
      assert MatchLength(Classes[13], s, i) == 2;
      ScanIs(s, i, 13);
    } else {
      LiteralHead(s, i, "and");
      LiteralHead(s, i, "or");
      assert MatchLength(Classes[14], s, i) == 3;
      ScanIs(s, i, 14);
    }
  }

  /** The token at i is of class c when c matches there and no earlier class does. */
  lemma {:induction false} ScanIs(s: string, i: nat, c: nat)
    requires i < |s| && c < |Classes| && MatchLength(Classes[c], s, i) > 0
    requires forall d :: 0 <= d < c ==> MatchLength(Classes[d], s, i) == 0
    ensures Scan(s, i) == Lexeme(Classes[c], MatchLength(Classes[c], s, i))
  {
    SkipTo(s, i, 0, c);
  }

  /** A literal match begins with the literal's first character. */
  lemma {:induction false} LiteralHead(s: string, i: nat, lit: string)
    requires i < |s| && |lit| > 0
    ensures Literal(s, i, lit) > 0 ==> s[i] == lit[0]
  {
    if Literal(s, i, lit) > 0 {
      assert s[i..i + |lit|][0] == s[i];
    }
  }

  /** At a letter other than `i` none of the first twelve classes matches: they all begin
      with a digit, a sign, a bracket, a comma, a space or a comparison character. */
  lemma {:induction false} LetterStart(s: string, i: nat)
    requires i < |s| && IsLetter(s[i]) && s[i] != 'i'
    ensures forall c :: 0 <= c < 12 ==> MatchLength(Classes[c], s, i) == 0
  {
    LiteralHead(s, i, "(");
    LiteralHead(s, i, ")");
    LiteralHead(s, i, "[");
    LiteralHead(s, i, "]");
    LiteralHead(s, i, ",");
    LiteralHead(s, i, "if ");
    LiteralHead(s, i, " then ");
    LiteralHead(s, i, " else ");
    LiteralHead(s, i, ">=");
    LiteralHead(s, i, "<=");
    LiteralHead(s, i, "==");
    LiteralHead(s, i, "!=");
  }

  lemma {:induction false} SkipTo(s: string, i: nat, c: nat, d: nat)
    requires i <= |s| && c <= d <= |Classes|
    requires forall e :: c <= e < d ==> MatchLength(Classes[e], s, i) == 0
    ensures FirstMatch(s, i, c) == FirstMatch(s, i, d)
    decreases d - c
  {
    if c < d {
      SkipTo(s, i, c + 1, d);
    }
  }
}
