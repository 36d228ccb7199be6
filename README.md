# Three-valued logic playgrounds, modelled in Dafny

The repository holds two small logic tools.

* `ll_z3.js` and `llsat_z3.js` read a batch of prefix formulas, one per
  line, such as `(implies (and p q) r)`. Each line is tokenised, parsed into
  an AST of variables and operator applications, and its variables are
  collected. The line is then decided:
  - `ll_z3.js` falls back to a native depth-first satisfiability search.
    The search walks the sorted variables and prunes with a Kleene
    three-valued evaluator (`true` / `false` / `unknown`). It reports
    `Result: sat` with a model line, `Result: unsat`, or `Error: ...`.
  - `llsat_z3.js` translates the AST into a solver term. It memoises one
    Boolean constant per variable name, hands the term to a solver, and
    reports the solver's verdict and model.
* `main.py` evaluates expressions of the "triuth" logic. The values are
  `r`, `g` and `e`. The prefix operators are `-`, `/`, `robust`, `not`,
  `||`, `[=`, `==`, `oplus`, `meet`, `join`, `lpop`, `and`, `or`,
  `implies` and `equiv`, and the constants are `top`, `bot` and `phi`.
  `generate_triuth_table` evaluates an expression under all `3 ** n`
  bindings of its names.

Module by module:

* **Text**: the JavaScript and Python string primitives the tools rely on.
  These are whitespace, `trim`, ASCII `toLowerCase`, `join` and the default
  string order with its sort.
* **Syntax**: the shared tokenizer, the recursive-descent parser (as a
  cursor-advancing method and as its specification function), the parse
  errors, and variable collection. The front end of `llsat_z3.js` behaves
  like that of `ll_z3.js`, with two exceptions: its extra-tokens message is
  `LlSat.SyntaxMessage`, and it iterates by code units (see Left out).
  Its other differences are in how it is written, not in what it does.
  It tests `cur.trim().length` rather than `cur.trim()`, and the two agree
  on truth. Its explicit end-of-tokens test before `)` (`llsat_z3.js:79`)
  raises the same "Missing ')'" that `tokens[i] !== ")"` raises past the
  end in `ll_z3.js:39`.
* **Kleene**: `triEval` in Kleene logic, with its errors, its monotonicity
  in the partial assignment, and its agreement with two-valued truth.
* **NativeSat**: the DFS of `satSolve` as a class whose `env` field is
  updated in place, proved sound and complete.
* **LlZ3**: the per-line report of `process_all` in native mode.
* **LlSat**: the `astToZ3` translation as a class holding the memo
  `env`, proved to preserve meaning. The solver is an oracle parameter
  (`Engine`), and the report format is modelled over whatever it answers.
* **Triuth**: `parse_expression` over a token list with a cursor, and the
  algebra of its operators. It also covers the identities the module-level
  examples check.
* **TriuthTable**: `split`/`strip`, the base-3 enumeration of
  `generate_triuth_table`, and `process`.

## Model

| member | source | states |
|---|---|---|
| Text.RemoveSpaces | ll_z3.js:10-24 | dropping whitespace leaves no whitespace and never lengthens the text |
| Text.LessIrreflexive | ll_z3.js:106 | the default string order never puts a name before itself |
| Text.LessTransitive | ll_z3.js:106 | the default string order is transitive |
| Text.LessTotal | ll_z3.js:106 | any two distinct names are ordered one way or the other |
| Text.SortMultiset | ll_z3.js:106 | sorting the variable list is a permutation of it |
| Text.SortSpec | ll_z3.js:106 | sorting distinct names gives them strictly ascending, with the same length and the same elements |
| Text.SortedUnique | ll_z3.js:106 | two strictly ascending lists with the same elements are equal, so the sorted variables do not depend on the sort algorithm or the collection order |
| Syntax.AtomLen | ll_z3.js:19-21 | the atom run at a position is the longest prefix of non-space, non-paren characters |
| Syntax.PushPending | ll_z3.js:15-16 | the pending atom is appended exactly when it is non-empty |
| Syntax.Tokenize | ll_z3.js:10-24 | the character loop produces exactly the token list `Lex(s)` |
| Syntax.LexWellFormed | ll_z3.js:10-24 | every token is `(`, `)` or a non-empty atom with no whitespace or parenthesis |
| Syntax.LexConcat | ll_z3.js:10-24 | the tokens, concatenated, are the input with all whitespace removed |
| Syntax.LexJoin | ll_z3.js:10-24 | tokenising well-formed tokens joined by single spaces gives those tokens back |
| Syntax.ParseAt | ll_z3.js:27-47 | a successful parse consumes at least one token and ends within the list |
| Syntax.ParseArgs | ll_z3.js:36-38 | the argument loop only moves the cursor forward and stays within the list |
| Syntax.ParseExpr | ll_z3.js:27-47 | the cursor-advancing parser returns exactly the AST and end position of `ParseAt`, or its error (unexpected end, expected operator, missing `)`, unexpected `)`) |
| Syntax.ParseLine | ll_z3.js:49-55 | parsing a line is `Parsed(s)`: one expression, or the error, or `ExtraTokens` carrying the leftover tokens |
| Syntax.ParseTokensSerialize | ll_z3.js:27-55 | every well-formed AST, including operators with zero arguments, parses back from its own token list |
| Syntax.ParseTokensExact | ll_z3.js:27-55 | a token list parses only if it is exactly the canonical tokens of the result, which is well-formed and has a lower-case operator |
| Syntax.ParsedUnparse | ll_z3.js:10-55 | printing a well-formed AST and parsing the text gives the AST back |
| Syntax.UnexpectedEndIffEmpty | ll_z3.js:28 | "Unexpected end of input" is raised at top level if and only if the line has no tokens |
| Syntax.CollectVars | ll_z3.js:57-60 | the recursive walk over the AST leaves the name list equal to `Collect(ast, acc)` |
| Syntax.CollectSpec | ll_z3.js:57-60 | collection keeps names unique, keeps the earlier names as a prefix, and adds exactly the AST's variables |
| Syntax.SortedVarsSpec | ll_z3.js:106 | the sorted variable list is strictly ascending, duplicate-free and holds exactly the AST's variables |
| Kleene.ImpliesTri | ll_z3.js:89-100 | the case analysis of `implies` is Kleene `or(not a, b)` |
| Kleene.Sequence | ll_z3.js:68 | mapping evaluation over the arguments fails with the first argument error, and otherwise returns every argument's value |
| Kleene.FirstSome | ll_z3.js:68 | validation of the arguments reports the first argument that has an error |
| Kleene.CombineCheck | ll_z3.js:70-102 | an operator step fails exactly when its name or arity is rejected, and with that error |
| Kleene.TriEvalErrors | ll_z3.js:64-103 | evaluation throws if and only if the formula has an arity or unknown-operator error, the same error under every environment |
| Kleene.TriEvalOk | ll_z3.js:64-103 | a formula that validates always evaluates |
| Kleene.CombineMono | ll_z3.js:70-100 | every connective is monotone in the information order (unknown below true and false) |
| Kleene.TriEvalMono | ll_z3.js:64-103 | extending the partial assignment never makes evaluation fail and never turns a definite value into another value |
| Kleene.DefiniteStays | ll_z3.js:111-112 | a definite `true` or `false` result is unchanged under every extension of the assignment, which justifies both the pruning and the early success |
| Kleene.TriEvalTotal | ll_z3.js:64-103 | under a total assignment the evaluator returns the classical truth value, never unknown |
| Kleene.KleeneSound | ll_z3.js:111-117 | a true (false) result under a partial assignment means the formula holds (fails) under every total extension |
| Kleene.ValidHasVar | ll_z3.js:251-252 | every valid formula has a variable, so the "(no vars)" model line is never printed |
| NativeSat.FillSpec | ll_z3.js:114 | the fill loop adds exactly the remaining variables, each bound to `false`, and keeps every other binding |
| NativeSat.FillExtends | ll_z3.js:114 | when the remaining variables are unbound, the filled assignment extends the partial one and differs from it only on them |
| NativeSat.DfsErrors | ll_z3.js:109-131 | the search throws if and only if the formula fails validation, with that error |
| NativeSat.DfsSound | ll_z3.js:109-131 | a model found by the search binds exactly the variables, makes the formula true and extends the starting assignment |
| NativeSat.DfsComplete | ll_z3.js:117-131 | when the search fails, no total completion of the starting assignment makes the formula true |
| NativeSat.Search.constructor | ll_z3.js:106-107 | the search starts with the sorted variables and an empty assignment |
| NativeSat.Search.Dfs | ll_z3.js:109-131 | the in-place search returns `DfsSpec`; after a failure the assignment is restored, and after a success it is the model |
| NativeSat.SatSolveCorrect | ll_z3.js:105-135 | errors exactly on invalid formulas; sat if and only if some total assignment satisfies the formula; the model binds exactly the variables and satisfies it |
| NativeSat.SatSolve | ll_z3.js:105-135 | the solver method returns `SatSolveSpec(ast)` |
| LlZ3.ProcessLine | ll_z3.js:203-257 | one input line yields the block `Block(k, line)`: its header, then the error, unsat or sat-and-model lines |
| LlZ3.ProcessAll | ll_z3.js:193-261 | the report is the mode header followed by every line's block, joined by newlines |
| LlZ3.BlocksPrefix | ll_z3.js:202-258 | the blocks of a batch start with the blocks of every prefix batch, so each line's output is independent of later lines |
| LlZ3.OutcomeSpec | ll_z3.js:203-257 | syntax and evaluation errors are reported with their messages; unsat if and only if no assignment satisfies the formula; otherwise the model line shows a satisfying assignment over the sorted variables |
| LlSat.TrAll | llsat_z3.js:113 | translating the arguments produces one term per argument |
| LlSat.Translator.constructor | llsat_z3.js:154 | each line starts with an empty memo |
| LlSat.Translator.Translate | llsat_z3.js:106-133 | the recursive translation updates the memo field and returns the term as `Tr` says |
| LlSat.BuildCheck | llsat_z3.js:115-132 | building a node fails exactly when the operator or arity is rejected, and with the evaluator's error |
| LlSat.TrErrors | llsat_z3.js:106-133 | translation throws if and only if the formula fails validation, with the same error as `triEval` |
| LlSat.TrAllErrors | llsat_z3.js:113 | translating an argument list fails with the first argument's error |
| LlSat.FreshConst | llsat_z3.js:107-109 | a name that is not yet in the memo gets a fresh constant of its own name |
| LlSat.TrMemo | llsat_z3.js:107-109 | translation keeps every memo entry a constant of its own name and never changes an existing entry |
| LlSat.TrAllMemo | llsat_z3.js:113 | the same memo invariant holds across an argument list |
| LlSat.TrKeys | llsat_z3.js:107-109 | the memo grows only by the formula's variables, and by all of them when translation succeeds |
| LlSat.TrAllKeys | llsat_z3.js:113 | the same key bound holds across an argument list |
| LlSat.TrSemantics | llsat_z3.js:106-133 | the term is true under a valuation of the constants exactly when the formula holds under the assignment those constants induce |
| LlSat.TrAllSemantics | llsat_z3.js:113 | each argument's term means what its formula means |
| LlSat.AssignsOk | llsat_z3.js:176-180 | the pairs are the sorted names in order, each with its own printed value, exactly when no evaluation throws |
| LlSat.AssignsFirstErr | llsat_z3.js:176-180 | when an evaluation throws, the message is that of the first name whose evaluation throws |
| LlSat.VerdictAnswered | llsat_z3.js:160-187 | after translation, a satisfiable answer prints `Result: sat` and then the `Model:` line or the first exception of the model step; any other answer prints only its result text |
| LlSat.FormatModel | llsat_z3.js:170-183 | after `Result: sat`, the model step prints the `Model:` line over the sorted names, or "(no variables)", or the `Error:` line of the first exception from `solver.model()` or `model.eval` |
| LlSat.ProcessLine | llsat_z3.js:143-187 | one input line yields `Block(engine, k, line)` |
| LlSat.ProcessAll | llsat_z3.js:137-191 | the report is the "Received" line followed by every line's block, joined by newlines |
| LlSat.BlocksPrefix | llsat_z3.js:143-188 | each line's output is independent of later lines |
| LlSat.OutcomeErrors | llsat_z3.js:145-155 | syntax and translation errors are reported as a single `Error:` line with the message |
| LlSat.TranslationSpec | llsat_z3.js:151-155 | for a valid formula, translation from an empty memo succeeds, binds exactly the sorted variables, and preserves meaning under every valuation |
| LlSat.OutcomeAnswered | llsat_z3.js:160-187 | a sat answer prints `Result: sat` and then either the model of each sorted name's own constant or the `Error:` line of the first exception from the model; any other answer prints only the result text |
| LlSat.OutcomeThrew | llsat_z3.js:185-187 | a solver exception is reported as `Error:` with its message |
| LlSat.SatTextWithoutModel | llsat_z3.js:161-170 | a check result that only prints as "sat" reports `Result: sat` with no model line |
| LlSat.UnawaitedNeverDecides | llsat_z3.js:160-170 | with `solver.check()` not awaited, a valid formula prints `Result: [object Promise]` and no line ever reports sat, unsat or a model |
| Triuth.NameIffNotKeyword | main.py:3-73 | a token reaches the mapping lookup if and only if it is none of the operator or constant keywords |
| Triuth.Parse | main.py:1-73 | a successful parse ends after the start and within the token list |
| Triuth.ParsePrefix | main.py:1-73 | parsing the tokens of a term at any position returns the term's value and the position just after it |
| Triuth.ParseWhole | main.py:1-73 | an expression's tokens parse to its value from position 0 |
| Triuth.NoKeyErrorWith | main.py:72-73 | if every name token of the window is bound, the parse raises no KeyError |
| Triuth.NoKeyError | main.py:72-73 | if every non-keyword token is bound, `parse_expression` raises no KeyError |
| Triuth.NegInvolution | main.py:6-9 | `-` swaps `r` and `e`, fixes `g`, stays within `r`/`g`/`e` and is an involution |
| Triuth.SlashCycle | main.py:10-13 | `/` cycles `g` to `e` to `r` to `g`: three applications are the identity, and one or two never are |
| Triuth.RobustAndConstants | main.py:14-15 | `robust x` is the Boolean `x != 'r'`; the constants `top`, `bot` and `phi` denote `e`, `r` and `g` |
| Triuth.GeOrder | main.py:28-29 | `[=` never raises on the three values; it is reflexive, antisymmetric, transitive and total, with `e` below `g` below `r` |
| Triuth.EqualityTokens | main.py:30-31 | `==` and `equiv` are both read as two-operand operators that test value equality |
| Triuth.Commutative | main.py:23-46 | `||`, `oplus`, `meet` and `join` are commutative on `r`, `g` and `e`, and these operators and `lpop` stay within the three values |
| Triuth.LpopDefinition | main.py:47-51 | `lpop` is `||` of the negated left operand and the right operand |
| Triuth.VerificationTheorem | main.py:104-106 | `[= a b` has exactly the value of `robust (|| (- a) b)` on every pair of values |
| Triuth.LollipopRows | main.py:118-119 | the lollipop identity evaluates to True on every row |
| Triuth.VerificationRows | main.py:105-106 | the verification identity evaluates to True on every row |
| Triuth.MixRows | main.py:126-127 | the mixed identity evaluates to True on every row |
| Triuth.RuleShape | main.py:122 | the rule example's tokens parse as `lpop (oplus A (|| X B)) (|| (oplus A X) B)` |
| Triuth.RuleValue | main.py:122 | the rule example's value is `lpop` of its two operands |
| Triuth.RuleRows | main.py:122-123 | the rule example parses whole on every row, and its value is `e` or `g`, never `r` |
| TriuthTable.SplitSpec | main.py:88 | `split()` yields non-empty, whitespace-free words whose concatenation is the non-space text; no words if and only if the text is blank |
| TriuthTable.StripBlank | main.py:131-132 | `strip()` is empty if and only if the text is blank |
| TriuthTable.StripSlice | main.py:131 | the stripped text is a contiguous slice of the input |
| TriuthTable.StripEdges | main.py:131 | the stripped text neither starts nor ends with whitespace |
| TriuthTable.ZipSpec | main.py:96 | `dict(zip(variables, values))` binds each name to its own value |
| TriuthTable.EncodeValues | main.py:93-95 | the base-3 digits of a row index encode back to that index |
| TriuthTable.ValuesEncode | main.py:93-95 | every list of `r`/`g`/`e` values is the digit list of some row index |
| TriuthTable.MappingDigits | main.py:93-96 | each name in row `i` gets the value of its digit of `i` |
| TriuthTable.MappingInjective | main.py:92-96 | distinct rows have distinct bindings |
| TriuthTable.EveryBindingOnce | main.py:92-96 | every binding of the names to `r`/`g`/`e` appears at exactly one row index |
| TriuthTable.RowsUpToSpec | main.py:92-99 | the rows so far are row 0 onwards in order; the loop raises the first raising row's exception, and completes if and only if no row raises |
| TriuthTable.TableRows | main.py:83-99 | the table has `3 ** n` rows; row `i` binds exactly the expression's names by the digits of `i` and holds the parse value under that binding |
| TriuthTable.TableError | main.py:92-99 | a raising table raises the exception of its first raising binding |
| TriuthTable.TableCoversOnce | main.py:83-99 | every binding of the names appears in exactly one row |
| TriuthTable.TableNoKeyError | main.py:88-98 | the table never raises KeyError, because every name is bound |
| TriuthTable.RowValues | main.py:93-95 | the digit loop computes `Values(i, n)` |
| TriuthTable.ComputeRow | main.py:93-98 | one loop iteration computes row `i` or its exception |
| TriuthTable.GenerateRows | main.py:92-99 | the row loop computes all `3 ** n` rows or stops at the first exception |
| TriuthTable.GenerateTable | main.py:83-101 | the method returns `Table(expression, order)` |
| TriuthTable.ProcessSpec | main.py:130-135 | blank input gives the prompt; other input is stripped to non-empty text without edge whitespace, and the table's result or exception is passed on |

Proof helpers that model no source line of their own have no row. These
include `Text.TrimNoSpace`, used by `Syntax.Tokenize`;
`Text.LowerIdempotent`, used by `Syntax.ParseTokensExact`;
`Text.LessAsymmetric`, used by the sort lemmas;
`Triuth.ExampleTokens`, used by the example lemmas;
`LlSat.SemanticsCons`, used by `LlSat.TrAllSemantics`; and
`LlSat.VerdictPending`, used by `LlSat.UnawaitedNeverDecides`.

## Left out

- The solver itself is not modelled. In `llsat_z3.js` the solver is the
  `Engine` parameter. It maps a term either to a check result together
  with the outcome of `solver.model()`, or to a thrown message. That
  outcome is a model evaluation that may itself throw, or a thrown
  message.
- `ll_z3.js` runs the solver branch (lines 210-246) only in `z3` mode, and
  `LlZ3.ProcessAll` requires the native mode. That branch needs a real
  solver.
- `tryInitZ3`/`getZ3` and the warm-up are not modelled. Their assignments at
  `ll_z3.js:182` and `ll_z3.js:185` have no target, so the mode is taken as
  a parameter.
- Promises and `async` are not modelled. Each awaited step is modelled as
  one synchronous call. The one call that is not awaited, `solver.check()`
  at `llsat_z3.js:160`, is under Findings.
- `ll_z3.py`, `app.js` and `app_llsat.js` are not part of this model.
  These are the web front ends and a second driver.
- `main.py`'s printing of the header line and the row dictionaries through
  `print`/`StringIO` is not modelled. The table is returned as a list of
  `Row` values, in order.
- The module-level example calls in `main.py` are not modelled as calls.
  Their identities are proved instead, as the `Triuth.*Rows` lemmas.
- Python set iteration order is unspecified. The order of the names is a
  parameter `order`, and `IterationOrder` requires it to list each name
  exactly once.
- Text.Lower: `toLowerCase` is modelled on ASCII letters only, because
  Dafny has no Unicode case tables.
- `ll_z3.js` iterates a line by code points and `llsat_z3.js` by UTF-16
  code units. Both are modelled over Dafny `char`.
- The default JavaScript sort compares UTF-16 code units. `Text.Less`
  compares `char` values, and the two agree outside surrogate pairs.
- The parser's cursor object is modelled as an index that is passed in and
  returned.
- Stack overflow on deeply nested input is not modelled, in JavaScript or
  in Python.
- Python truthiness of values other than `r`, `g`, `e` and booleans is not
  modelled. The logic operators are modelled on the `Val` datatype.
- Triuth.Parse: the parser is stated over a generic `Reading` of the token
  kinds and operators. `Triuth.PythonReading` ties that reading to
  `main.py`'s tables.
- The `catch` blocks print `e?.message || String(e)` (`ll_z3.js:256`) or
  `e && e.message ? e.message : String(e)` (`llsat_z3.js:186`). The model
  carries that printed text. For the errors the tools raise themselves it
  is the message, which is never empty. For the solver's exceptions
  (`LlSat.Answer`) it is whatever the solver's exception prints as.
- `llsat_z3.js`'s fallback `env[nm] || Z3.Bool.const(nm)` in the model loop
  is modelled by the memo lookup. `LlSat.TranslationSpec` shows that the
  memo binds every name.
- The "(no vars)" and "(no variables)" model lines are modelled, but
  `Kleene.ValidHasVar` shows that they are never reached.

## Findings

| source | as written | input that shows it | evidently intended | confidence | as-written member | corrected member |
|---|---|---|---|---|---|---|
| llsat_z3.js:160 | `const r = solver.check();` is not awaited. The solver's `check` returns a promise, so `String(r)` is `[object Promise]` and `r` equals none of the status constants. | any valid line, e.g. `p` | await the check, so that the verdict is printed and a satisfiable formula is followed by its model | medium: read from the text of the solver bindings, not executed | LlSat.UnawaitedNeverDecides | LlSat.OutcomeAnswered |
