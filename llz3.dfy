/** The batch entry point `process_all` of ll_z3.js, on its pure-JavaScript
    branch: one report block per input line, each line parsed and handed to
    `satSolve`, any exception turned into an `Error:` line for that line. */
module LlZ3 {
  import opened Results
  import opened Text
  import opened Syntax
  import opened Kleene
  import opened NativeSat

  /** The `message` of the exceptions thrown by `parseExpr` and `parseLine`. */
  function SyntaxMessage(e: SyntaxError): string {
    match e
    case UnexpectedEnd => "Unexpected end of input"
    case ExpectedOperator => "Expected operator after '('"
    case MissingClose => "Missing ')'"
    case UnexpectedClose => "Unexpected ')'"
    case ExtraTokens(rest) => "Extra tokens: " + Join(rest, " ")
  }

  /** `${v}=${model[v] ? "true" : "false"}`. */
  function Assignment(v: string, model: Env): string {
    v + "=" + (if v in model && model[v] then "true" else "false")
  }

  /** The `Model:` line: the assignments in `vars` order. */
  function ModelLine(vars: seq<string>, model: Env): string {
    "Model: " + if vars == [] then "(no vars)"
    else Join(seq(|vars|, k requires 0 <= k < |vars| => Assignment(vars[k], model)), ", ")
  }

  /** What the `try` block pushes for one line, or the `catch` for it. */
  function Outcome(line: string): seq<string> {
    match Parsed(line)
    case Err(e) => ["Error: " + SyntaxMessage(e)]
    case Ok(ast) =>
      match SatSolveSpec(ast)
      case Err(e) => ["Error: " + Message(e)]
      case Ok(s) =>
        if s.sat then ["Result: sat", ModelLine(s.vars, s.model.value)]
        else ["Result: unsat"]
  }

  /** The block for the line at 0-based position `k`. */
  function Block(k: nat, line: string): seq<string> {
    ["", "Line " + NatToString(k + 1) + ": " + line] + Outcome(line)
  }

  /** The blocks of the first `n` lines, in order. */
  function Blocks(lines: seq<string>, n: nat): seq<string>
    requires n <= |lines|
  {
    if n == 0 then [] else Blocks(lines, n - 1) + Block(n - 1, lines[n - 1])
  }

  function Header(mode: string, lines: seq<string>): seq<string> {
    ["Mode: " + mode, "Received " + NatToString(|lines|) + " line(s)."]
  }

  /** All lines of the report, before they are joined with newlines. */
  function Report(mode: string, lines: seq<string>): seq<string> {
    Header(mode, lines) + Blocks(lines, |lines|)
  }

  /** One iteration of the line loop: what it pushes for `line`. */
  method ProcessLine(k: nat, line: string) returns (block: seq<string>)
    ensures block == Block(k, line)
  {
    block := ["", "Line " + NatToString(k + 1) + ": " + line];
    var parsed := ParseLine(line);
    match parsed
    case Err(e) =>
      block := block + ["Error: " + SyntaxMessage(e)];
    case Ok(ast) =>
      var solved := SatSolve(ast);
      match solved
      case Err(e) =>
        block := block + ["Error: " + Message(e)];
      case Ok(s) =>
        assert "Result: " + "sat" == "Result: sat" && "Result: " + "unsat" == "Result: unsat";
        block := block + ["Result: " + (if s.sat then "sat" else "unsat")];
        if s.sat {
          block := block + [ModelLine(s.vars, s.model.value)];
        }
  }

  /** `process_all(lines)` with `z3Mode` given (the Z3 branch is not part of
      this model). */
  method ProcessAll(mode: string, lines: seq<string>) returns (report: string)
    requires mode != "z3"
    ensures report == Join(Report(mode, lines), "\n")
  {
    var out := ["Mode: " + mode];
    out := out + ["Received " + NatToString(|lines|) + " line(s)."];
    for i := 0 to |lines|
      invariant out == Header(mode, lines) + Blocks(lines, i)
    {
      var block := ProcessLine(i, lines[i]);
      assert Blocks(lines, i + 1) == Blocks(lines, i) + block;
      AppendAssoc(Header(mode, lines), Blocks(lines, i), block);
      out := out + block;
    }
    report := Join(out, "\n");
  }

  // ---------- Properties of the report ----------

  /** Blocks come in input order and each depends on its own line only: the
      report of a longer batch starts with the report of any prefix, and an
      error on one line leaves all the other blocks as they are. */
  lemma {:induction false} BlocksPrefix(lines: seq<string>, more: seq<string>, n: nat)
    requires n <= |lines|
    ensures Blocks(lines + more, n) == Blocks(lines, n)
  {
    if n > 0 {
      BlocksPrefix(lines, more, n - 1);
      assert (lines + more)[n - 1] == lines[n - 1];
    }
  }

  /** The outcome of one line: a syntax error or a malformed formula gives a
      single `Error:` line with the thrown message; otherwise the result is
      `sat` exactly when some assignment makes the formula true, and a `sat`
      result prints a model that does, in sorted-name order, and is never
      the empty `(no vars)` model. */
  lemma OutcomeSpec(line: string)
    ensures Parsed(line).Err? ==> Outcome(line) == ["Error: " + SyntaxMessage(Parsed(line).error)]
    ensures Parsed(line).Ok? && Validate(Parsed(line).value).Some? ==>
      Outcome(line) == ["Error: " + Message(Validate(Parsed(line).value).value)]
    ensures Parsed(line).Ok? && Validate(Parsed(line).value).None? ==>
      var ast := Parsed(line).value;
      (Outcome(line) == ["Result: unsat"] <==> forall a: Env :: a.Keys == VarsOf(ast) ==> !Holds(ast, a))
      && (Outcome(line) != ["Result: unsat"] ==>
            SortedVars(ast) != []
            && exists m: Env :: m.Keys == VarsOf(ast) && Holds(ast, m)
                 && Outcome(line) == ["Result: sat", ModelLine(SortedVars(ast), m)])
  {
    if Parsed(line).Ok? {
      var ast := Parsed(line).value;
      SatSolveCorrect(ast);
      if Validate(ast).None? {
        ValidHasVar(ast);
        SortedVarsSpec(ast);
        var s := SatSolveSpec(ast).value;
        if s.sat {
          var m := s.model.value;
          assert Outcome(line) == ["Result: sat", ModelLine(SortedVars(ast), m)];
        }
      }
    }
  }
}
