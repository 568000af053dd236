# Structural analysis graph code and the calculator front end, in Dafny

The project models two pieces of the repository.

**`tarjan.ts`: class `TarjanSCC`.**

- `strong` runs the repository's variant of Tarjan's algorithm over an adjacency list. The recursive `DFS` first searches from every successor. A second loop then lowers the node's low-link from the successors still on the stack. Finally the root test pops a component. `strong` labels every node with a component id.
- `createMaximumPerfectMatching` copies a 0/1 incidence matrix and matches right nodes (columns) to left nodes (rows) with Kuhn's augmenting-path search (the nested `dfs`). It turns the matrix and the matching into a directed graph on `rows + columns` nodes:
  - an unmatched edge `u - v` becomes `u -> rows + v`;
  - a matched one becomes `rows + v -> u`.

**`example/calParser.py`: the calculator front end.**

- `tokenize` is a first-match scanner over a fixed list of token classes.
- The class `Parser` is a cursor-based recursive-descent parser. It handles arithmetic, signs, parentheses, calls, indexing with `.member[...]` suffixes, `if ... then ... else ...` and `and`/`or` conditions over comparisons.
- `parse_equation` and `get_ast` are the two entry points.

## Layout

| file | module | what it holds |
|---|---|---|
| `digraphs.dfy` | `Digraphs` | adjacency lists, edges, reachability |
| `scc_state.dfy` | `SccState` | the fields of the SCC search as a value (`Snapshot`), the invariant the search keeps, one preservation lemma per step |
| `scc_steps.dfy` | `SccSteps` | what one call `DFS(v)` promises (`DfsPost`), carried across the two loops and the root test |
| `scc_search.dfy` | `SccSearch` | the whole search as functions on snapshots (`Dfs`, `Descend`, `Lowering`, `PopUntil`, `Sweep`, `Scc`) and the correctness theorem `SccCorrect` |
| `matching.dfy` | `Matching` | matchings as sequences (`m[v]` is the row matched to column `v`, or -1), the step lemmas of the augmenting search, the graph `Adjacency(g, m)` and its edges |
| `tarjan.dfy` | `Tarjan` | class `TarjanSCC` with the source's fields, and methods proved to compute the functions above |
| `text.dfy` | `CalcText` | `str.strip()` and the search for the first `=` behind `split('=', 1)` |
| `lexer.dfy` | `CalcLexer` | the token classes as prefix matchers, `Lex` (the specification) and the imperative `Tokenize` |
| `parser.dfy` | `CalcParser` | the grammar as functions from the tokens and the parser state (cursor, `quotesList`) to a node and the next state, or a `ValueError` |
| `parser_class.dfy` | `CalcParsing` | class `Parser`, with its fields and one method per source method, each proved equal to its grammar function |
| `parser_facts.dfy` | `CalcParserFacts` | properties of the grammar: associativity, precedence, signs, postfixes, errors, how far a parse reads |
| `equations.dfy` | `CalcEquations` | `parse_equation` and `get_ast` |

## How the source was read

**Edge ids outside the graph.** JavaScript reads `undefined` for an id outside the graph:
- `num[w] !== 0` then holds, so `DFS` returns at once;
- `onStack[w]` is falsy, so the low-link is not lowered.

The model therefore treats such ids as no edge at all (`Edge` requires both ends to be nodes) and keeps no precondition on them.

**Short rows.** Rows of the incidence matrix shorter than `g[0]` read `undefined` past their end, which is never `=== 1`. `Cell` reads a missing entry as 0. Longer rows are cut to `g[0].length` columns, as the copy does.

**What the code checks.**
- The SCC search is the two-loop variant of `DFS` described above. Its correctness is proved for that variant.
- `createMaximumPerfectMatching` does not check that the matrix is square or that its rows have one length.

**Python exceptions.** Every `ValueError` the parser raises is an `Err(ParseError)` value, and it ends the parse. `int()` of a lexeme that is not a decimal raises `InvalidInt`. A `split('=', 1)` with no `=` fails to unpack, which gives `MissingEquals`. `parse_if_else` without an else branch returns `None`, which is modelled as `Missing`.

## Model

| member | source | states |
|---|---|---|
| `Tarjan.TarjanSCC.constructor` | tarjan.ts:3-11 | every field starts at zero or empty |
| `Tarjan.TarjanSCC.Strong` | tarjan.ts:18-35 | the fields end as `Scc(g)`, which depends on `g` alone. The result has one id per node, in `0..comp-1`, every id used. Two nodes share an id iff each reaches the other. The stack is empty and `onStack` all false. The discovery numbers are `1..|g|`, a distinct one per node. |
| `Tarjan.TarjanSCC.DFS` | tarjan.ts:41-72 | changes the fields exactly as `Dfs(graph, old state, v)`. A visited node, or an id outside the graph, changes nothing. |
| `Tarjan.TarjanSCC.SearchSuccessors` | tarjan.ts:50-53 | the first loop of `DFS`: the state becomes `Descend(graph, old state, v, 0)`, a search from each successor in order |
| `Tarjan.TarjanSCC.LowerLink` | tarjan.ts:55-60 | the second loop of `DFS`: only `low[v]` changes, as `Lowering` says |
| `Tarjan.TarjanSCC.PopComponent` | tarjan.ts:63-71 | the pop loop and `comp++`, as `Pop(old state, v)` |
| `Tarjan.TarjanSCC.CreateMaximumPerfectMatching` | tarjan.ts:79-144 | the matching it builds is valid (every pair on an edge), injective and maximal. The returned graph is `Adjacency(g, m)`: `u -> |g|+v` iff `g[u][v] == 1` and `m[v] != u`, and `|g|+v -> u` iff `m[v] == u`. Read on its own, the returned graph has `|g| + |g[0]|` nodes; it holds every edge of `g` in exactly one direction; no left node has two incoming and no right node two outgoing edges; and every edge of `g` has an end touched by a right-to-left edge. |
| `Tarjan.TarjanSCC.MatchAll` | tarjan.ts:97-106 | after one search per row: every left node is a partner at most once, every edge has a matched end, and `matchingSize` is the number of matched columns |
| `Tarjan.TarjanSCC.Augment` | tarjan.ts:151-169 | on success, u was unmarked and the partners gain exactly one `u`; on failure nothing changes, and an unmarked u has every neighbour matched. Marks are never cleared, a matched column stays matched, and entries whose partner is u or is marked are kept. |
| `Tarjan.TarjanSCC.Fill` | tarjan.ts:101 | `visited.fill(false)`: every element becomes the value |
| `Tarjan.TarjanSCC.CopyMatrix` | tarjan.ts:83-89 | a fresh `|g| x |g[0]|` copy of `g`, so `g` itself is not changed |
| `Tarjan.TarjanSCC.BuildAdjacency` | tarjan.ts:127-144 | the adjacency list is `Adjacency(g, match)` |
| `SccSearch.SccCorrect` | tarjan.ts:13-35 | after `strong(g)`: every node is visited and off the stack, ids lie in `0..comp-1` and all are used, the same id iff mutually reachable, and the discovery numbers are `1..|g|`, one per node |
| `SccSearch.Dfs` | tarjan.ts:41-72 | a call keeps the state's shape, does not lower `count`, and keeps the old stack as the bottom of the new one |
| `SccSearch.Descend` | tarjan.ts:51-53 | the first loop keeps the shape, does not lower `count`, and keeps the old stack at the bottom |
| `SccSearch.Lowering` | tarjan.ts:56-60 | the second loop changes only `low[v]`, and never raises it |
| `SccSearch.PopUntil` | tarjan.ts:64-69 | the pop loop only shortens the stack, and stops at the position of v |
| `SccSearch.PopTop` | tarjan.ts:65-67 | one pop keeps the stack's nodes inside the arrays |
| `SccSearch.PopUntilFrom` | tarjan.ts:63-71 | with v on the stack at position k, the pop loop and `comp++` are `PopFrom(k)`: exactly the segment from v up gets the fresh id |
| `SccSearch.DfsKeeps` | tarjan.ts:41-72 | one call keeps the search invariant and its promise `DfsPost` |
| `SccSearch.BothLoops` | tarjan.ts:50-60 | the two loops of a fresh node keep the invariant with that node active |
| `SccSearch.DescendKeeps` | tarjan.ts:51-53 | the first loop keeps the invariant and leaves every successor visited |
| `SccSearch.DescendStep` | tarjan.ts:52 | one recursive call in the first loop keeps the invariant |
| `SccSearch.LoweringSource` | tarjan.ts:56-60 | after the second loop, `low[v]` is its old value or the low-link of a successor on the stack |
| `SccSearch.LoweringMin` | tarjan.ts:56-60 | after the second loop, `low[v]` is at most the low-link of every successor on the stack |
| `SccSearch.LowerTo` | tarjan.ts:57-59 | lowering `low[v]` to such a low-link keeps the invariant |
| `SccSearch.DfsVisits` | tarjan.ts:30-32 | one call `DFS(x)` in the loop keeps the invariant and leaves every node up to x visited |
| `SccSearch.SweepKeeps` | tarjan.ts:30-32 | the loop of `strong` keeps the invariant and visits every node |
| `SccSearch.VisitShape` | tarjan.ts:46-48 | discovering a node pushes exactly that node |
| `SccState.Components` | tarjan.ts:63-71 | with every node visited and no call running, the stack is empty and the ids are exactly the mutual-reachability classes, numbered densely from 0 |
| `SccState.Numbering` | tarjan.ts:43-46 | with every node visited, `count == |g|` and the discovery numbers are `1..|g|`, pairwise distinct |
| `SccState.VisitNumbering` | tarjan.ts:43-46 | `num[v] = ++count` on an unvisited node keeps the numbers distinct, bounded by `count`, and `count` the number of visited nodes |
| `SccState.VisitKeeps` | tarjan.ts:46-48 | discovering a node keeps the invariant with it active |
| `SccState.LowerKeeps` | tarjan.ts:57-59 | `low[v] = min(low[v], low[w])` for an on-stack successor w keeps the invariant |
| `SccState.FinishKeeps` | tarjan.ts:63 | a node that is not a root stays on the stack and keeps the invariant |
| `SccState.PopKeeps` | tarjan.ts:63-71 | popping the segment above a root, all mutually reachable with it, keeps the invariant: the segment is one new component |
| `SccState.PopDoneShape` | tarjan.ts:64-69 | the nodes with an id after the pop are the old ones plus the popped segment |
| `SccState.PopIds` | tarjan.ts:64-70 | the popped segment gets the fresh id, and ids still mean mutual reachability |
| `SccState.PopClosed` | tarjan.ts:63-71 | no edge leaves the nodes that have an id |
| `SccState.StackReaches` | tarjan.ts:56-63 | a stack node above a root, with low-link at least the root's number, reaches the root |
| `SccState.BottomActive` | tarjan.ts:47-71 | the bottom of the stack is a node whose call is running, so between calls of `strong`'s loop the stack is empty |
| `SccSteps.InitialInv` | tarjan.ts:19-27 | the reset state satisfies the invariant |
| `SccSteps.Initial` | tarjan.ts:21-25 | the reset state has arrays of the graph's size and an empty stack |
| `SccSteps.ChildCall` | tarjan.ts:51-53 | a recursive call on a successor keeps the first loop's invariant |
| `SccSteps.RootPop` | tarjan.ts:63-71 | at a root, v sits at the position where its call found the stack, the stack holds no repeats, and the pop restores the stack the call found |
| `SccSteps.NonRootFinish` | tarjan.ts:63 | a non-root keeps the invariant, and the call's promise holds |
| `SccSteps.DfsPostSkip` | tarjan.ts:43 | a call on a visited node keeps its promise by changing nothing |
| `SccSteps.AfterLoopsSegment` | tarjan.ts:50-60 | after the loops, the stack from v up holds v and nodes pushed by its calls, reachable from v, with low-links no smaller |
| `Matching.PartnersCount` | tarjan.ts:98-106 | there are as many partners as matched columns |
| `Matching.PartnersInjective` | tarjan.ts:92 | when no partner repeats, no two columns share a row |
| `Matching.PartnersMembers` | tarjan.ts:92 | a row is a partner iff some column is matched to it |
| `Matching.PartnersUpdate` | tarjan.ts:162 | reassigning `match[v]` swaps the old partner for the new one in the partners |
| `Matching.FreeStep` | tarjan.ts:158-163 | matching a free column along an edge keeps validity and adds the row once to the partners |
| `Matching.FlipStep` | tarjan.ts:158-163 | taking a column over from a row whose search succeeded keeps validity and adds the new row once to the partners |
| `Matching.FlipPartners` | tarjan.ts:160-162 | the partner count after taking a column over |
| `Matching.KeptAfterFlip` | tarjan.ts:152-163 | a reassignment along an augmenting path leaves alone the columns of u and of rows marked earlier |
| `Matching.ProgressStart` | tarjan.ts:91-98 | the main loop starts from the matching with every right node unmatched and size 0, which is injective and has no unsettled row |
| `Matching.RoundStep` | tarjan.ts:99-106 | one round of the main loop keeps every row a partner at most once, leaves every edge from the rows so far with a matched end, and keeps the size equal to the number of matched right nodes: it adds one iff the search succeeded |
| `Matching.RoundFound` | tarjan.ts:102-104 | a successful search makes row u a partner exactly once and leaves every edge from rows up to u with a matched end |
| `Matching.RoundsDone` | tarjan.ts:99-106 | after all rounds, the matching is injective and maximal |
| `Matching.Adjacency` | tarjan.ts:127 | the graph has `|g| + |g[0]|` nodes |
| `Matching.LeftRowMembers` | tarjan.ts:128-135 | the successors of row u are the columns `|g| + v` with `g[u][v] == 1` and `match[v] != u` |
| `Matching.AdjacencyEdges` | tarjan.ts:127-143 | the edges: `u -> |g|+v` iff an unmatched edge; `|g|+v -> u` iff matched. Rows point only to columns, columns only to rows, and each column has at most one successor. |
| `Matching.AdjacencyIsMatching` | tarjan.ts:99-143 | for a valid, injective and maximal matching, the returned graph holds each edge of `g` in exactly one direction, its right-to-left edges form a matching, and every edge of `g` has an end touched by one of them |
| `CalcText.TrimStart` | example/calParser.py:9-10 | a suffix of the text that does not start with whitespace, with only whitespace cut off |
| `CalcText.TrimEnd` | example/calParser.py:9-10 | a prefix of the text that does not end with whitespace, with only whitespace cut off |
| `CalcText.Strip` | example/calParser.py:9-10 | `strip()` leaves no whitespace at either end |
| `CalcText.StripSlice` | example/calParser.py:9-10 | `strip()` is a slice of the text with only whitespace cut off at both ends |
| `CalcText.StripIdempotent` | example/calParser.py:9-10 | stripping twice is stripping once |
| `CalcText.Find` | example/calParser.py:8 | the index of the first `=`, and None iff there is none |
| `CalcText.FindAfter` | example/calParser.py:8 | with no `=` in `left`, the first `=` of `left + "=" + right` is the one after `left` |
| `CalcText.StripOmits` | example/calParser.py:8-9 | stripping adds no character |
| `CalcLexer.FirstMatch` | example/calParser.py:51-61 | a class that matches takes at least one character and stays inside the text |
| `CalcLexer.AlwaysMatches` | example/calParser.py:38-46 | some class always matches before the end (whitespace or `.`), so the scanner never stalls |
| `CalcLexer.Scan` | example/calParser.py:51-61 | every token is non-empty and inside the text |
| `CalcLexer.ScanAt` | example/calParser.py:51-61 | the class loop at `pos` yields the token `Scan` gives, and `m.end()` as `End(expr, pos)` |
| `CalcLexer.End` | example/calParser.py:60 | `m.end()` lies after the match start and inside the text, so the cursor always moves |
| `CalcLexer.Tokenize` | example/calParser.py:23-64 | `tokenize` returns `Lex(expr, 0)` |
| `CalcLexer.LexUnfold` | example/calParser.py:50-61 | one round of the outer loop: the token at `i`, dropped when it is whitespace, then the tokens from `m.end()` on |
| `CalcLexer.TokenStep` | example/calParser.py:55-60 | appending a non-whitespace token keeps the loop invariant |
| `CalcLexer.BlankStep` | example/calParser.py:55-60 | skipping whitespace keeps the loop invariant |
| `CalcLexer.FirstClassWins` | example/calParser.py:51-61 | the token's class is the first, in list order, that matches, and its length is that class's match |
| `CalcLexer.LexTokens` | example/calParser.py:55-60 | no whitespace token is kept and every token value is non-empty |
| `CalcLexer.ScanCovers` | example/calParser.py:48-64 | the tokens, whitespace included, glue back to the input, in order; `tokenize` is that scan without whitespace |
| `CalcLexer.KeywordIfFirst` | example/calParser.py:35 | `if ` is the keyword, not a variable |
| `CalcLexer.ThenElseBeforeWhitespace` | example/calParser.py:36-38 | ` then ` and ` else ` win over whitespace |
| `CalcLexer.WordOperatorsBeforeVariables` | example/calParser.py:41-44 | `and`, `or` and `not` win over a variable, even inside a longer word |
| `CalcLexer.ScanIs` | example/calParser.py:51-61 | the first matching class gives the token |
| `CalcParser.ConsumeAt` | example/calParser.py:79-86 | fails at the end and on a kind other than the expected one, with the source's two errors; otherwise returns the token and moves the cursor by one |
| `CalcParser.ExprAt` | example/calParser.py:88-99 | on success the cursor moves forward, stays within the tokens, `quotesList` only grows, and neither an additive nor a multiplicative operator follows |
| `CalcParser.ExprTailAt` | example/calParser.py:90-98 | the loop stops only where no `+`/`-` follows |
| `CalcParser.TermAt` | example/calParser.py:116-127 | reads at least one token and stops where no `*`/`/` follows |
| `CalcParser.TermTailAt` | example/calParser.py:118-126 | the loop stops only where no `*`/`/` follows |
| `CalcParser.FactorAt` | example/calParser.py:181-245 | a factor reads at least one token |
| `CalcParser.IfElseAt` | example/calParser.py:100-114 | reads at least one token |
| `CalcParser.ThenElseAt` | example/calParser.py:103-114 | reads at least one token |
| `CalcParser.ConditionAt` | example/calParser.py:130-152 | reads at least one token and stops where no `and`/`or` follows |
| `CalcParser.OperandAt` | example/calParser.py:132-137 | reads at least one token |
| `CalcParser.CondTailAt` | example/calParser.py:138-151 | the loop stops only where no `and`/`or` follows |
| `CalcParser.ComparisonAt` | example/calParser.py:166-178 | reads at least one token |
| `CalcParser.PostfixAt` | example/calParser.py:247-289 | stops only where neither `(` nor `[` follows; the result is the node under zero or more call and indexing layers (`Wraps`); it reads nothing and returns the node unchanged iff neither `(` nor `[` is next |
| `CalcParser.MembersAt` | example/calParser.py:266-278 | keeps the members read so far and stops only where no `.` follows |
| `CalcParser.ListAt` | example/calParser.py:291-309 | empty, reading nothing, iff the input ends or the closing kind is next; otherwise it stops where no comma follows |
| `CalcParser.ListTailAt` | example/calParser.py:296-298 | keeps the items read so far and stops where no comma follows |
| `CalcParsing.Parser.constructor` | example/calParser.py:68-71 | the cursor at 0 and `quotesList` empty |
| `CalcParsing.Parser.Parse` | example/calParser.py:73-74 | `parse()` is one expression from the current state |
| `CalcParsing.Parser.Peek` | example/calParser.py:76-77 | the token at the cursor, None past the end; changes nothing |
| `CalcParsing.Parser.Consume` | example/calParser.py:79-86 | returns what `ConsumeAt` gives, and leaves the fields as it reports |
| `CalcParsing.Parser.ParseExpression` | example/calParser.py:88-99 | returns `ExprAt` of the starting state and leaves the fields in its next state |
| `CalcParsing.Parser.ParseTerm` | example/calParser.py:116-127 | the same for `TermAt` |
| `CalcParsing.Parser.ParseIfElse` | example/calParser.py:100-114 | the same for `IfElseAt` |
| `CalcParsing.Parser.ParseThenElse` | example/calParser.py:103-114 | the same for `ThenElseAt` |
| `CalcParsing.Parser.ParseCondition` | example/calParser.py:130-152 | the same for `ConditionAt` |
| `CalcParsing.Parser.ParseOperand` | example/calParser.py:132-145 | the same for `OperandAt` |
| `CalcParsing.Parser.ParseComparison` | example/calParser.py:166-178 | the same for `ComparisonAt` |
| `CalcParsing.Parser.ParseFactor` | example/calParser.py:181-245 | the same for `FactorAt` |
| `CalcParsing.Parser.HandlePostfix` | example/calParser.py:247-289 | the same for `PostfixAt` |
| `CalcParsing.Parser.ReadMembers` | example/calParser.py:265-279 | the same for `MembersAt` |
| `CalcParsing.Parser.ParseExpressionList` | example/calParser.py:291-299 | the same for `ListAt` closed by `]` |
| `CalcParsing.Parser.ParseExpressionRparenList` | example/calParser.py:301-309 | the same for `ListAt` closed by `)` |
| `CalcParsing.Parser.ParseList` | example/calParser.py:291-309 | the same for `ListAt` with any closing kind |
| `CalcParserFacts.VarFactor` | example/calParser.py:239-243 | a variable with no postfix is a factor on its own |
| `CalcParserFacts.VarTerm` | example/calParser.py:116-127 | and then a term |
| `CalcParserFacts.VarExpr` | example/calParser.py:88-99 | and then an expression |
| `CalcParserFacts.VarList` | example/calParser.py:291-309 | a list of one variable before a closing bracket |
| `CalcParserFacts.CompareVars` | example/calParser.py:166-178 | `a o b` with a comparison o is a comparison node |
| `CalcParserFacts.SumTail` | example/calParser.py:90-98 | the loop of `parse_expression` over additive operators folds to the left |
| `CalcParserFacts.ProductTail` | example/calParser.py:118-126 | the loop of `parse_term` over multiplicative operators folds to the left |
| `CalcParserFacts.SumStep` | example/calParser.py:90-98 | one round of that loop |
| `CalcParserFacts.ProductStep` | example/calParser.py:118-126 | one round of that loop |
| `CalcParserFacts.SumIsLeftAssociative` | example/calParser.py:88-99 | `x0 o1 x1 ... on xn` with `+`/`-` is `((x0 o1 x1) o2 x2) ...` and reads all tokens |
| `CalcParserFacts.ProductIsLeftAssociative` | example/calParser.py:116-127 | the same for `*`/`/` |
| `CalcParserFacts.Precedence` | example/calParser.py:88-127 | any chain `x0 o1 x1 ... on xn` of variables and the four operators reads all tokens and is `SumOfProducts`: each maximal run of `*`/`/` is folded to the left into one term first, and the terms are then folded to the left by `+`/`-` |
| `CalcParserFacts.ExprChain` | example/calParser.py:88-99 | a chain whose products are followed only by additive steps to the end parses to `SumOfProducts` |
| `CalcParserFacts.AddRun` | example/calParser.py:90-98 | the loop of `parse_expression` over a run of `+`/`-` terms folds them onto the node so far and reads to the end |
| `CalcParserFacts.ProductRun` | example/calParser.py:118-126 | the loop of `parse_term` takes the longest run of `*`/`/` factors, folds them to the left, and stops at the first `+`/`-` |
| `CalcParserFacts.TermRun` | example/calParser.py:116-127 | a term starting at a variable is that variable times the following multiplicative run |
| `CalcParserFacts.SumsFoldLeft` | example/calParser.py:90-98 | with only `+`/`-`, the additive fold is the plain left fold |
| `CalcParserFacts.ProductsFoldLeft` | example/calParser.py:118-126 | with only `*`/`/`, the multiplicative run takes every pair and is the plain left fold |
| `CalcParserFacts.SignBindsTighter` | example/calParser.py:189-195 | a sign in front of any factor f makes the factor `UnaryOp(sign, f)`, and the term continues from there, so `-a o b` is `(-a) o b` for every operator; a failing operand fails the factor and the term with the same error |
| `CalcParserFacts.FactorFails` | example/calParser.py:88-127 | an error in the first factor is the error of the term and of the expression |
| `CalcParserFacts.ExpressionRejects` | example/calParser.py:245 | a token that cannot start a factor raises 'Unexpected token' |
| `CalcParserFacts.ExpressionAtEnd` | example/calParser.py:184-186 | an expression due past the last token raises 'Unexpected end of input' |
| `CalcParserFacts.UpperCaseExponent` | example/calParser.py:207-214 | `2E5` is refused by `int()`, `2e5` is a float, `42` the integer 42 |
| `CalcParserFacts.QuoteRecorded` | example/calParser.py:217-220 | a string literal is appended to `quotesList` |
| `CalcParserFacts.QuotesInOrder` | example/calParser.py:217-220 | string literals are recorded in the order they come |
| `CalcParserFacts.ParseLeavesRest` | example/calParser.py:73-74 | `parse()` stops after one expression and leaves the rest unread |
| `CalcParserFacts.PostfixExpr` | example/calParser.py:239-243 | a variable with postfixes up to the end is an expression |
| `CalcParserFacts.EmptyCall` | example/calParser.py:251-259 | `f()` is a call with no arguments |
| `CalcParserFacts.OneMember` | example/calParser.py:266-278 | `.b[j]` is one member with its argument |
| `CalcParserFacts.IndexThenMembers` | example/calParser.py:261-286 | `[i]` after a node, followed by members that reach the end, gives one `var` node with those indices and subnodes |
| `CalcParserFacts.IndexedMemberAt` | example/calParser.py:261-286 | any tokens of the form `a[i].b[j]` are an indexed variable with one member, read to the end |
| `CalcParserFacts.IndexedMember` | example/calParser.py:261-286 | `a[i].b[j]` is an indexed variable with one member |
| `CalcParserFacts.MemberWithoutIndexDropped` | example/calParser.py:266-278 | in `a[i].b` the name `b` is read and dropped from the tree |
| `CalcParserFacts.IfExpr` | example/calParser.py:182-183 | an if-expression up to the end is an expression |
| `CalcParserFacts.IfElseShape` | example/calParser.py:100-114 | a successful if-else starts with `if `, then a condition, ` then ` and an expression; it is an `if_else` node with those parts and the else expression iff ` else ` comes next, and otherwise None after the then expression |
| `CalcParserFacts.IfElseStep` | example/calParser.py:101-102 | after `if ` and a condition, the rest is `ThenElseAt` |
| `CalcParserFacts.ThenWithoutElse` | example/calParser.py:103-114 | ` then ` and an expression with no else after them give None |
| `CalcParserFacts.ThenMissing` | example/calParser.py:103 | any other token where ` then ` is due raises the `consume` error naming it |
| `CalcParserFacts.IfThenAtEnd` | example/calParser.py:100-114 | any tokens `if a o b then c` with no else give None and read all six tokens |
| `CalcParserFacts.IfWithoutElse` | example/calParser.py:100-114 | `if a > b then c` with no else gives None |
| `CalcParserFacts.ParenthesisedIfRejected` | example/calParser.py:130-137 | any `if (a) o ...` reads `(a)` as a whole condition and fails, finding the comparison where ` then ` is due |
| `CalcParserFacts.ParenthesisedOperandRejected` | example/calParser.py:130-137 | `if (a) > b then c` reads `(a)` as a whole condition and then fails, expecting ` then ` |
| `CalcParserFacts.ParenthesisedVar` | example/calParser.py:132-135 | at any position, `(a)` not followed by `and`/`or` is the condition `a` and ends after `)` |
| `CalcParserFacts.ComparisonShape` | example/calParser.py:166-178 | a successful comparison is an expression; it is a comparison node iff a comparison operator follows that expression, with the expression on the left and the next expression on the right; otherwise it is the expression itself |
| `CalcParserFacts.ComparisonBoth` | example/calParser.py:166-178 | an expression, a comparison operator and another expression make a comparison node |
| `CalcParserFacts.CompareOperand` | example/calParser.py:132-137 | `a o b` with a comparison o is an operand of a condition |
| `CalcParserFacts.CondTailFolds` | example/calParser.py:138-151 | the loop of `parse_condition` over `and`/`or` links folds them to the left and reads to the end |
| `CalcParserFacts.ConditionChain` | example/calParser.py:130-152 | any comparison followed by `and`/`or` comparisons is the left fold of the links over the first comparison |
| `CalcParserFacts.ConditionIsLeftAssociative` | example/calParser.py:130-152 | `a o b l1 c1 ... ln cn` with connectives `and`/`or` is `((a o b) l1 c1) ...` and reads all tokens |
| `CalcEquations.AstOf` | example/calParser.py:15-20 | `get_ast` fails only with a syntax error |
| `CalcEquations.GetAst` | example/calParser.py:15-20 | the method computes `AstOf` |
| `CalcEquations.ParseEquation` | example/calParser.py:6-13 | the method computes `EquationAt` |
| `CalcEquations.MissingEqualsIffNoEquals` | example/calParser.py:8 | an equation is refused for want of `=` iff it has none |
| `CalcEquations.OutputIsNameBeforeEquals` | example/calParser.py:8-9 | the output has no `=` and no whitespace at either end |
| `CalcEquations.EquationSplitsAtFirstEquals` | example/calParser.py:6-13 | `out = rhs`, with no `=` in out, gives `strip(out)` and the result of `get_ast(strip(rhs))`, whatever `=` signs rhs holds |

## Left out

- Tarjan.TarjanSCC.CreateMaximumPerfectMatching: proves the matching maximal (no edge joins two unmatched nodes), not maximum as the source's doc comment says. A maximum matching needs Berge's theorem about augmenting paths, which is not modelled.
- `isPerfectMatching` and the `console.warn` that reports it (tarjan.ts:109-112) are left out, because they are only printing. The count they compare is proved, in `Tarjan.TarjanSCC.MatchAll`.
- `flippedResult` (tarjan.ts:116-124) is left out: it is built and never used.
- The demo graphs and console output after the class in tarjan.ts are left out, and `src/tree-sitter-test.ts` is not part of this model. They are sample data, printing, and a native binding with file output.
- The SCC search, the matching search and the parser are recursive in the source and stay recursive here. Stack depth is not modelled: Python raises `RecursionError` on deeply nested signs (example/calParser.py:189-195) and parentheses (example/calParser.py:197-205), which the model parses at any depth.
- Tarjan.TarjanSCC.CreateMaximumPerfectMatching: requires `|g| >= 1`. On an empty matrix the source reads `g[0].length` and fails with a `TypeError` (tarjan.ts:81); that failure is not modelled.
- `DFS` is split into `DFS`, `SearchSuccessors`, `LowerLink` and `PopComponent`, one method per loop. Kuhn's main loop is `MatchAll`, the nested `dfs` is `Augment`, the copy is `CopyMatrix`, and the graph construction is `BuildAdjacency`.
- In the parser, `ScanAt` is the class loop of `tokenize`. `ParseOperand` is the operand code that `parse_condition` repeats, `ParseThenElse` is the rest of `parse_if_else`, `ReadMembers` is the inner loop of `handle_postfix`, and `ParseList` is the body shared by the two list methods. The order of the steps is unchanged.
- `\d` and `\w` are modelled for ASCII only. `\s` and `str.strip()` take the ASCII whitespace that Python's `str.isspace()` accepts (space, tab through carriage return, 0x1C-0x1F), and no non-ASCII whitespace.
- CalcParser.FactorAt: keeps a float lexeme as its text rather than converting it with `float()`. Every such lexeme is a valid float. `int()` is modelled for decimal lexemes, and its error on any other lexeme is modelled too.
- The parser's fields after a `ValueError` are not modelled: an error ends the parse. The methods state the fields only on success.
- `parse()` does not check that every token was read, and neither does the model (see `CalcParserFacts.ParseLeavesRest`).
- `split('=', 1)` and `strip()` are modelled as functions on strings (`CalcText.Find`, `CalcText.Strip`), not as Python's library code.
- The `__main__` block of calParser.py (its sample equations, `json.dump` to a file and `pprint`) is left out, because it is I/O.
