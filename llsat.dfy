/** llsat_z3.js: the same front end as ll_z3.js, the translation `astToZ3`
    of a formula into solver terms (with a memo table giving one constant per
    variable name) and the batch entry point `process_all`. The solver's terms
    are the `Formula` datatype below; the solver itself is an `Engine`
    parameter that answers a check for a term. */
module LlSat {
  import opened Results
  import opened Text
  import opened Syntax
  import K = Kleene

  /** Solver terms. A constant is identified by `id`: two constants are the
      same term only if they were created by the same call. */
  datatype Formula =
    | Const(id: nat, name: string)
    | Not(arg: Formula)
    | And(args: seq<Formula>)
    | Or(args: seq<Formula>)
    | Implies(lhs: Formula, rhs: Formula)

  /** The `env` table from variable names to their constants. */
  type Memo = map<string, Formula>

  /** The `message` of the exceptions thrown by `parseExpr` and `parseLine`. */
  function SyntaxMessage(e: SyntaxError): string {
    match e
    case UnexpectedEnd => "Unexpected end of input"
    case ExpectedOperator => "Expected operator after '('"
    case MissingClose => "Missing ')'"
    case UnexpectedClose => "Unexpected ')'"
    case ExtraTokens(rest) => "Extra tokens after end: " + Join(rest, " ")
  }

  // ---------- astToZ3 ----------

  /** The operator step of `astToZ3`, once the arguments' terms are built. */
  function Build(op: string, fs: seq<Formula>): Result<Formula, K.EvalError> {
    if op == "not" then
      if |fs| != 1 then Err(K.NotArity) else Ok(Not(fs[0]))
    else if op == "and" then
      if |fs| < 2 then Err(K.AndArity) else Ok(And(fs))
    else if op == "or" then
      if |fs| < 2 then Err(K.OrArity) else Ok(Or(fs))
    else if op == "implies" then
      if |fs| != 2 then Err(K.ImpliesArity) else Ok(Implies(fs[0], fs[1]))
    else Err(K.UnknownOperator(op))
  }

  /** Put the terms `fs` already built in front of the rest's result. */
  function Prepend(fs: seq<Formula>, p: (Result<seq<Formula>, K.EvalError>, Memo)): (Result<seq<Formula>, K.EvalError>, Memo) {
    (if p.0.Err? then Err(p.0.error) else Ok(fs + p.0.value), p.1)
  }

  /** `astToZ3(ast, Z3, env)` entered with table `env`: the term or the
      exception, and the table afterwards. A name not yet in the table gets a
      new constant, numbered by the size of the table. */
  function Tr(ast: Ast, env: Memo): (Result<Formula, K.EvalError>, Memo)
    decreases ast
  {
    match ast
    case Var(n) =>
      var env' := if n in env then env else env[n := Const(|env|, n)];
      (Ok(env'[n]), env')
    case App(op, args) =>
      var p := TrAll(args, env);
      (if p.0.Err? then Err(p.0.error) else Build(op, p.0.value), p.1)
  }

  /** `ast.args.map(a => astToZ3(a, Z3, env))`: left to right, stopping at
      the first exception. */
  function TrAll(args: seq<Ast>, env: Memo): (r: (Result<seq<Formula>, K.EvalError>, Memo))
    ensures r.0.Ok? ==> |r.0.value| == |args|
    decreases args
  {
    if args == [] then (Ok([]), env)
    else
      var p := Tr(args[0], env);
      if p.0.Err? then (Err(p.0.error), p.1)
      else Prepend([p.0.value], TrAll(args[1..], p.1))
  }

  lemma PrependNil(p: (Result<seq<Formula>, K.EvalError>, Memo))
    ensures Prepend([], p) == p
  {
    if p.0.Ok? {
      assert [] + p.0.value == p.0.value;
    }
  }

  lemma PrependTwice(fs: seq<Formula>, gs: seq<Formula>, p: (Result<seq<Formula>, K.EvalError>, Memo))
    ensures Prepend(fs, Prepend(gs, p)) == Prepend(fs + gs, p)
  {
    if p.0.Ok? {
      assert fs + (gs + p.0.value) == (fs + gs) + p.0.value;
    }
  }

  class Translator {
    var env: Memo

    constructor()
      ensures env == map[]
    {
      env := map[];
    }

    /** `astToZ3`, writing new constants into the table as it goes. */
    method Translate(ast: Ast) returns (r: Result<Formula, K.EvalError>)
      modifies this
      ensures (r, env) == Tr(ast, old(env))
      decreases ast
    {
      match ast
      case Var(n) =>
        if n !in env {
          env := env[n := Const(|env|, n)];
        }
        r := Ok(env[n]);
      case App(op, args) =>
        var fs: seq<Formula> := [];
        assert args[0..] == args;
        PrependNil(TrAll(args, env));
        for k := 0 to |args|
          invariant TrAll(args, old(env)) == Prepend(fs, TrAll(args[k..], env))
        {
          ghost var before := env;
          assert args[k..][0] == args[k] && args[k..][1..] == args[k + 1..];
          var f := Translate(args[k]);
          assert (f, env) == Tr(args[k], before);
          if f.Err? {
            r := Err(f.error);
            return;
          }
          PrependTwice(fs, [f.value], TrAll(args[k + 1..], env));
          fs := fs + [f.value];
        }
        assert args[|args|..] == [] && fs + [] == fs;
        r := Build(op, fs);
    }
  }

  // ---------- Properties of the translation ----------

  lemma BuildCheck(op: string, fs: seq<Formula>)
    ensures Build(op, fs).Err? <==> K.CheckOp(op, |fs|).Some?
    ensures Build(op, fs).Err? ==> Build(op, fs).error == K.CheckOp(op, |fs|).value
  {
  }

  /** Validation of a list of arguments: the first error, left to right. */
  function ValidateAll(args: seq<Ast>): Option<K.EvalError> {
    K.FirstSome(seq(|args|, k requires 0 <= k < |args| => K.Validate(args[k])))
  }

  lemma ValidateAllCons(args: seq<Ast>)
    requires args != []
    ensures ValidateAll(args) == if K.Validate(args[0]).Some? then K.Validate(args[0]) else ValidateAll(args[1..])
  {
    var vs := seq(|args|, k requires 0 <= k < |args| => K.Validate(args[k]));
    assert vs[1..] == seq(|args[1..]|, k requires 0 <= k < |args[1..]| => K.Validate(args[1..][k]));
  }

  /** `astToZ3` throws exactly when validation finds a malformed application,
      and it reports the first one in left-to-right post-order, the same error
      as `triEval` of ll_z3.js. */
  lemma {:induction false} TrErrors(ast: Ast, env: Memo)
    ensures Tr(ast, env).0.Err? <==> K.Validate(ast).Some?
    ensures Tr(ast, env).0.Err? ==> Tr(ast, env).0.error == K.Validate(ast).value
    decreases ast
  {
    match ast
    case Var(n) =>
    case App(op, args) =>
      TrAllErrors(args, env);
      var p := TrAll(args, env);
      if p.0.Ok? {
        BuildCheck(op, p.0.value);
      }
  }

  lemma {:induction false} TrAllErrors(args: seq<Ast>, env: Memo)
    ensures TrAll(args, env).0.Err? <==> ValidateAll(args).Some?
    ensures TrAll(args, env).0.Err? ==> TrAll(args, env).0.error == ValidateAll(args).value
    decreases args
  {
    if args != [] {
      ValidateAllCons(args);
      TrErrors(args[0], env);
      var p := Tr(args[0], env);
      if p.0.Ok? {
        TrAllErrors(args[1..], p.1);
      }
    }
  }

  /** A well-kept table: each name maps to a constant of that name, numbered
      below the size of the table, and no two names share a constant. */
  predicate WellMemo(env: Memo) {
    (forall n :: n in env ==> env[n].Const? && env[n].name == n && env[n].id < |env|)
    && (forall n, m :: n in env && m in env && n != m ==> env[n].id != env[m].id)
  }

  /** `env'` keeps every entry of `env`. */
  predicate Keeps(env: Memo, env': Memo) {
    forall n :: n in env ==> n in env' && env'[n] == env[n]
  }

  lemma FreshConst(env: Memo, n: string)
    requires WellMemo(env) && n !in env
    ensures WellMemo(env[n := Const(|env|, n)])
  {
    var env' := env[n := Const(|env|, n)];
    assert env'.Keys == env.Keys + {n};
    assert |env'| == |env| + 1 by {
      assert |env'.Keys| == |env.Keys| + 1;
    }
  }

  /** Memoisation: the translation keeps the table well kept and never
      changes an entry, so each distinct name has exactly one constant,
      reused at every later occurrence. */
  lemma {:induction false} TrMemo(ast: Ast, env: Memo)
    requires WellMemo(env)
    ensures WellMemo(Tr(ast, env).1) && Keeps(env, Tr(ast, env).1)
    decreases ast
  {
    match ast
    case Var(n) =>
      if n !in env {
        FreshConst(env, n);
      }
    case App(op, args) =>
      TrAllMemo(args, env);
  }

  lemma KeepsTrans(a: Memo, b: Memo, c: Memo)
    requires Keeps(a, b) && Keeps(b, c)
    ensures Keeps(a, c)
  {
  }

  lemma {:induction false} TrAllMemo(args: seq<Ast>, env: Memo)
    requires WellMemo(env)
    ensures WellMemo(TrAll(args, env).1) && Keeps(env, TrAll(args, env).1)
    decreases args
  {
    if args != [] {
      var p := Tr(args[0], env);
      TrMemo(args[0], env);
      if p.0.Ok? {
        var q := TrAll(args[1..], p.1);
        assert TrAll(args, env) == Prepend([p.0.value], q);
        TrAllMemo(args[1..], p.1);
        KeepsTrans(env, p.1, q.1);
      }
    }
  }

  /** The table afterwards holds only names of the formula besides those it
      had, and on success all of them: its keys are then the names that
      `collectVars` gathers. */
  lemma {:induction false} TrKeys(ast: Ast, env: Memo)
    ensures Tr(ast, env).1.Keys <= env.Keys + VarsOf(ast)
    ensures Tr(ast, env).0.Ok? ==> Tr(ast, env).1.Keys == env.Keys + VarsOf(ast)
    decreases ast
  {
    match ast
    case Var(n) =>
    case App(op, args) =>
      TrAllKeys(args, env);
  }

  lemma {:induction false} TrAllKeys(args: seq<Ast>, env: Memo)
    ensures TrAll(args, env).1.Keys <= env.Keys + VarsOfAll(args)
    ensures TrAll(args, env).0.Ok? ==> TrAll(args, env).1.Keys == env.Keys + VarsOfAll(args)
    decreases args
  {
    if args != [] {
      var p := Tr(args[0], env);
      TrKeys(args[0], env);
      if p.0.Ok? {
        var q := TrAll(args[1..], p.1);
        assert TrAll(args, env) == Prepend([p.0.value], q);
        TrAllKeys(args[1..], p.1);
      }
    }
  }

  // ---------- The translation preserves meaning ----------

  /** The meaning of a term under a valuation of the constants. */
  predicate FHolds(f: Formula, val: nat -> bool)
    decreases f
  {
    match f
    case Const(id, _) => val(id)
    case Not(g) => !FHolds(g, val)
    case And(gs) => forall k :: 0 <= k < |gs| ==> FHolds(gs[k], val)
    case Or(gs) => exists k :: 0 <= k < |gs| && FHolds(gs[k], val)
    case Implies(g, h) => !FHolds(g, val) || FHolds(h, val)
  }

  /** The assignment of names that a valuation of the table's constants gives. */
  function Pull(env: Memo, val: nat -> bool): K.Env {
    map n | n in env :: env[n].Const? && val(env[n].id)
  }

  /** Two assignments that agree on the formula's names give it the same
      classical meaning. */
  lemma {:induction false} HoldsAgree(ast: Ast, a: K.Env, b: K.Env)
    requires forall n :: n in VarsOf(ast) ==> (n in a <==> n in b) && (n in a ==> a[n] == b[n])
    ensures K.Holds(ast, a) == K.Holds(ast, b)
    decreases ast
  {
    match ast
    case Var(n) =>
    case App(op, args) =>
      forall k | 0 <= k < |args| ensures K.Holds(args[k], a) == K.Holds(args[k], b) {
        K.VarsOfArg(args, k);
        HoldsAgree(args[k], a, b);
      }
  }

  /** The term built for a formula means what the formula means, under the
      assignment read back through the table. */
  lemma {:induction false} TrSemantics(ast: Ast, env: Memo, val: nat -> bool)
    requires WellMemo(env) && Tr(ast, env).0.Ok?
    ensures FHolds(Tr(ast, env).0.value, val) == K.Holds(ast, Pull(Tr(ast, env).1, val))
    decreases ast
  {
    match ast
    case Var(n) =>
    case App(op, args) =>
      TrAllSemantics(args, env, val);
      var fs := TrAll(args, env).0.value;
      var a := Pull(TrAll(args, env).1, val);
      if op == "and" {
        assert (forall k :: 0 <= k < |fs| ==> FHolds(fs[k], val)) == (forall k :: 0 <= k < |args| ==> K.Holds(args[k], a));
      } else if op == "or" {
        assert (exists k :: 0 <= k < |fs| && FHolds(fs[k], val)) == (exists k :: 0 <= k < |args| && K.Holds(args[k], a));
      }
  }

  /** Entries the table gains later do not change the meaning of a formula
      whose names were already in it. */
  lemma PullAgree(ast: Ast, e1: Memo, e2: Memo, val: nat -> bool)
    requires Keeps(e1, e2) && VarsOf(ast) <= e1.Keys
    ensures K.Holds(ast, Pull(e1, val)) == K.Holds(ast, Pull(e2, val))
  {
    HoldsAgree(ast, Pull(e1, val), Pull(e2, val));
  }

  lemma {:induction false} TrAllSemantics(args: seq<Ast>, env: Memo, val: nat -> bool)
    requires WellMemo(env) && TrAll(args, env).0.Ok?
    ensures forall k :: 0 <= k < |args| ==>
      FHolds(TrAll(args, env).0.value[k], val) == K.Holds(args[k], Pull(TrAll(args, env).1, val))
    decreases args
  {
    if args != [] {
      var p := Tr(args[0], env);
      var q := TrAll(args[1..], p.1);
      assert TrAll(args, env) == Prepend([p.0.value], q);
      TrMemo(args[0], env);
      TrKeys(args[0], env);
      TrSemantics(args[0], env, val);
      TrAllMemo(args[1..], p.1);
      TrAllSemantics(args[1..], p.1, val);
      PullAgree(args[0], p.1, q.1, val);
      assert TrAll(args, env).0.value == [p.0.value] + q.0.value;
      assert args == [args[0]] + args[1..];
      SemanticsCons(args[0], args[1..], p.0.value, q.0.value, q.1, val);
    }
  }

  /** The meaning of each term carries over to a list with one more term in
      front. */
  lemma SemanticsCons(a: Ast, tail: seq<Ast>, f: Formula, fs: seq<Formula>, m: Memo, val: nat -> bool)
    requires |fs| == |tail| && FHolds(f, val) == K.Holds(a, Pull(m, val))
    requires forall k :: 0 <= k < |tail| ==> FHolds(fs[k], val) == K.Holds(tail[k], Pull(m, val))
    ensures forall k :: 0 <= k < |tail| + 1 ==> FHolds(([f] + fs)[k], val) == K.Holds(([a] + tail)[k], Pull(m, val))
  {
    forall k | 1 <= k < |tail| + 1
      ensures FHolds(([f] + fs)[k], val) == K.Holds(([a] + tail)[k], Pull(m, val))
    {
      assert ([f] + fs)[k] == fs[k - 1] && ([a] + tail)[k] == tail[k - 1];
    }
  }

  // ---------- process_all ----------

  /** What `solver.check()` returns: one of the three status constants, or
      something else, which is printed with `String(r)`. */
  datatype CheckResult = CheckSat | CheckUnsat | CheckUnknown | CheckOther(text: string)

  /** The normalised result text. */
  function ResultText(r: CheckResult): string {
    match r
    case CheckSat => "sat"
    case CheckUnsat => "unsat"
    case CheckUnknown => "unknown"
    case CheckOther(text) => text
  }

  /** `model.eval(v).toString()` for a term `v`: the printed value, or the
      printed text of the exception it throws. */
  type Evaluator = Formula -> Result<string, string>

  /** The solver's answer for one term: the check result together with what
      `solver.model()` gives (the model, or the printed text of the
      exception it throws), or the printed text of an exception thrown while
      building, adding or checking the term. A printed text is what the
      `catch` shows: the exception's message, or `String(e)` without one. */
  datatype Answer = Answered(result: CheckResult, model: Result<Evaluator, string>) | Threw(message: string)

  type Engine = Formula -> Answer

  /** `env[nm] || Z3.Bool.const(nm)`. */
  function SymbolFor(env: Memo, nm: string): Formula {
    if nm in env then env[nm] else Const(|env|, nm)
  }

  /** The `name=value` pairs of the first `n` names, or the first exception
      an evaluation throws. */
  function Assigns(names: seq<string>, env: Memo, eval: Evaluator, n: nat): Result<seq<string>, string>
    requires n <= |names|
  {
    if n == 0 then Ok([])
    else
      match Assigns(names, env, eval, n - 1)
      case Err(m) => Err(m)
      case Ok(prefix) =>
        match eval(SymbolFor(env, names[n - 1]))
        case Err(m) => Err(m)
        case Ok(v) => Ok(prefix + [names[n - 1] + "=" + v])
  }

  /** What follows `Result: sat`: the `Model:` line for the sorted names, or
      the `Error:` line of an exception from `solver.model()` or `model.eval`. */
  function ModelLines(names: seq<string>, env: Memo, model: Result<Evaluator, string>): seq<string> {
    match model
    case Err(m) => ["Error: " + m]
    case Ok(eval) =>
      if names == [] then ["Model: (no variables)"]
      else
        match Assigns(names, env, eval, |names|)
        case Err(m) => ["Error: " + m]
        case Ok(assigns) => ["Model: " + Join(assigns, ", ")]
  }

  /** What the `try` block pushes for one line, or the `catch` for it. */
  function Outcome(engine: Engine, line: string): seq<string> {
    match Parsed(line)
    case Err(e) => ["Error: " + SyntaxMessage(e)]
    case Ok(ast) =>
      var p := Tr(ast, map[]);
      match p.0
      case Err(e) => ["Error: " + K.Message(e)]
      case Ok(f) =>
        Verdict(engine(f), SortedVars(ast), p.1)
  }

  /** What follows a successful translation: the result line and, for the
      satisfiable constant, the model lines; or the `Error:` line of an
      exception from the solver. */
  function Verdict(answer: Answer, names: seq<string>, env: Memo): seq<string> {
    match answer
    case Threw(message) => ["Error: " + message]
    case Answered(result, model) =>
      ["Result: " + ResultText(result)]
      + if result == CheckSat then ModelLines(names, env, model) else []
  }

  function Block(engine: Engine, k: nat, line: string): seq<string> {
    ["", "Line " + NatToString(k + 1) + ": " + line] + Outcome(engine, line)
  }

  function Blocks(engine: Engine, lines: seq<string>, n: nat): seq<string>
    requires n <= |lines|
  {
    if n == 0 then [] else Blocks(engine, lines, n - 1) + Block(engine, n - 1, lines[n - 1])
  }

  /** The header line. */
  function Received(n: nat): string {
    "Received " + NatToString(n) + " line(s)."
  }

  function Report(engine: Engine, lines: seq<string>): seq<string> {
    [Received(|lines|)] + Blocks(engine, lines, |lines|)
  }

  /** Once an evaluation has thrown, the later names change nothing. */
  lemma {:induction false} AssignsErr(names: seq<string>, env: Memo, eval: Evaluator, k: nat, n: nat)
    requires k <= n <= |names| && Assigns(names, env, eval, k).Err?
    ensures Assigns(names, env, eval, n) == Assigns(names, env, eval, k)
    decreases n
  {
    if n > k {
      AssignsErr(names, env, eval, k, n - 1);
    }
  }

  /** The pairs are the names in order, each with its own printed value,
      exactly when no evaluation throws. */
  lemma {:induction false} AssignsOk(names: seq<string>, env: Memo, eval: Evaluator, n: nat)
    requires n <= |names|
    ensures Assigns(names, env, eval, n).Ok? <==> forall j :: 0 <= j < n ==> eval(SymbolFor(env, names[j])).Ok?
    ensures Assigns(names, env, eval, n).Ok? ==>
      var pairs := Assigns(names, env, eval, n).value;
      |pairs| == n
      && forall j :: 0 <= j < n ==> pairs[j] == names[j] + "=" + eval(SymbolFor(env, names[j])).value
    decreases n
  {
    if n > 0 {
      AssignsOk(names, env, eval, n - 1);
    }
  }

  /** When an evaluation throws, the message is that of the first name
      whose evaluation throws. */
  lemma {:induction false} AssignsFirstErr(names: seq<string>, env: Memo, eval: Evaluator, n: nat)
    requires n <= |names| && Assigns(names, env, eval, n).Err?
    ensures exists j :: 0 <= j < n && eval(SymbolFor(env, names[j])) == Err(Assigns(names, env, eval, n).error)
                        && forall i :: 0 <= i < j ==> eval(SymbolFor(env, names[i])).Ok?
    decreases n
  {
    var e := Assigns(names, env, eval, n).error;
    if Assigns(names, env, eval, n - 1).Err? {
      assert Assigns(names, env, eval, n - 1).error == e;
      AssignsFirstErr(names, env, eval, n - 1);
    } else {
      AssignsOk(names, env, eval, n - 1);
      assert eval(SymbolFor(env, names[n - 1])) == Err(e);
      assert forall i :: 0 <= i < n - 1 ==> eval(SymbolFor(env, names[i])).Ok?;
    }
  }

  /** The model lines: `solver.model()`, then `name=value` for each sorted
      name, stopping at the first exception. */
  method FormatModel(names: seq<string>, env: Memo, model: Result<Evaluator, string>) returns (lines: seq<string>)
    ensures lines == ModelLines(names, env, model)
  {
    match model
    case Err(m) =>
      return ["Error: " + m];
    case Ok(eval) =>
      if |names| == 0 {
        return ["Model: (no variables)"];
      }
      var assigns: seq<string> := [];
      for i := 0 to |names|
        invariant Assigns(names, env, eval, i) == Ok(assigns)
      {
        var v := SymbolFor(env, names[i]);
        match eval(v)
        case Err(m) =>
          AssignsErr(names, env, eval, i + 1, |names|);
          return ["Error: " + m];
        case Ok(value) =>
          assigns := assigns + [names[i] + "=" + value];
      }
      lines := ["Model: " + Join(assigns, ", ")];
  }

  /** One iteration of the line loop. */
  method ProcessLine(engine: Engine, k: nat, line: string) returns (block: seq<string>)
    ensures block == Block(engine, k, line)
  {
    block := ["", "Line " + NatToString(k + 1) + ": " + line];
    var parsed := ParseLine(line);
    match parsed
    case Err(e) =>
      block := block + ["Error: " + SyntaxMessage(e)];
    case Ok(ast) =>
      var vars := CollectVars(ast, []);
      var translator := new Translator();
      var formula := translator.Translate(ast);
      match formula
      case Err(e) =>
        block := block + ["Error: " + K.Message(e)];
      case Ok(f) =>
        match engine(f)
        case Threw(message) =>
          block := block + ["Error: " + message];
        case Answered(result, model) =>
          block := block + ["Result: " + ResultText(result)];
          if result == CheckSat {
            var names := Sort(vars);
            var modelLines := FormatModel(names, translator.env, model);
            block := block + modelLines;
          }
  }

  /** `process_all(lines)`, given the solver. */
  method ProcessAll(engine: Engine, lines: seq<string>) returns (report: string)
    ensures report == Join(Report(engine, lines), "\n")
  {
    var results := [Received(|lines|)];
    for k := 0 to |lines|
      invariant results == [Received(|lines|)] + Blocks(engine, lines, k)
    {
      var block := ProcessLine(engine, k, lines[k]);
      assert Blocks(engine, lines, k + 1) == Blocks(engine, lines, k) + block;
      AppendAssoc([Received(|lines|)], Blocks(engine, lines, k), block);
      results := results + block;
    }
    report := Join(results, "\n");
  }

  // ---------- Properties of the report ----------

  /** Each line's block depends on that line only: a later line, failing or
      not, leaves the earlier blocks as they are. */
  lemma {:induction false} BlocksPrefix(engine: Engine, lines: seq<string>, more: seq<string>, n: nat)
    requires n <= |lines|
    ensures Blocks(engine, lines + more, n) == Blocks(engine, lines, n)
  {
    if n > 0 {
      BlocksPrefix(engine, lines, more, n - 1);
      assert (lines + more)[n - 1] == lines[n - 1];
    }
  }

  /** Syntax and validation errors become one `Error:` line each, with the
      thrown message, before the solver is consulted. */
  lemma OutcomeErrors(engine: Engine, line: string)
    ensures Parsed(line).Err? ==> Outcome(engine, line) == ["Error: " + SyntaxMessage(Parsed(line).error)]
    ensures Parsed(line).Ok? && K.Validate(Parsed(line).value).Some? ==>
      Outcome(engine, line) == ["Error: " + K.Message(K.Validate(Parsed(line).value).value)]
  {
    if Parsed(line).Ok? {
      TrErrors(Parsed(line).value, map[]);
    }
  }

  /** A valid formula is translated, and its lines are the solver's verdict
      on the term. */
  lemma OutcomeValid(engine: Engine, line: string)
    requires Parsed(line).Ok? && K.Validate(Parsed(line).value).None?
    ensures Tr(Parsed(line).value, map[]).0.Ok?
    ensures Outcome(engine, line)
         == Verdict(engine(Tr(Parsed(line).value, map[]).0.value), SortedVars(Parsed(line).value), Tr(Parsed(line).value, map[]).1)
  {
    TrErrors(Parsed(line).value, map[]);
  }

  /** Translating a valid formula from an empty table succeeds; the solver
      receives a term equivalent to the formula, and the table then holds
      exactly the formula's names, which are the sorted names of the model
      line (never empty), each bound to a constant of its own name. */
  lemma TranslationSpec(ast: Ast)
    requires K.Validate(ast).None?
    ensures Tr(ast, map[]).0.Ok?
    ensures Tr(ast, map[]).1.Keys == VarsOf(ast) == Elems(SortedVars(ast))
    ensures SortedVars(ast) != []
    ensures WellMemo(Tr(ast, map[]).1)
    ensures forall val: nat -> bool ::
      FHolds(Tr(ast, map[]).0.value, val) == K.Holds(ast, Pull(Tr(ast, map[]).1, val))
  {
    TrErrors(ast, map[]);
    assert WellMemo(map[]);
    TrMemo(ast, map[]);
    TrKeys(ast, map[]);
    K.ValidHasVar(ast);
    SortedVarsSpec(ast);
    forall val: nat -> bool ensures FHolds(Tr(ast, map[]).0.value, val) == K.Holds(ast, Pull(Tr(ast, map[]).1, val)) {
      TrSemantics(ast, map[], val);
    }
  }

  /** For a valid formula, model lines follow exactly when the check
      returns the satisfiable constant, and they come after `Result: sat`.
      Every sorted name has its own constant (the fallback constant is never
      needed). If `solver.model()` and every evaluation succeed, the `Model:`
      line lists the names with their printed values; otherwise the first
      exception is reported after the result. Any other result prints its
      text and nothing more. */
  lemma OutcomeAnswered(engine: Engine, line: string)
    requires Parsed(line).Ok? && K.Validate(Parsed(line).value).None?
    requires Tr(Parsed(line).value, map[]).0.Ok? && engine(Tr(Parsed(line).value, map[]).0.value).Answered?
    ensures
      var ast := Parsed(line).value;
      var p := Tr(ast, map[]);
      var answer := engine(p.0.value);
      var names := SortedVars(ast);
      (answer.result == CheckSat ==>
         (forall nm :: nm in names ==>
            nm in p.1 && SymbolFor(p.1, nm) == p.1[nm] && p.1[nm].Const? && p.1[nm].name == nm)
         && (answer.model.Err? ==>
               Outcome(engine, line) == ["Result: sat", "Error: " + answer.model.error])
         && (answer.model.Ok? && Assigns(names, p.1, answer.model.value, |names|).Ok? ==>
               Outcome(engine, line)
               == ["Result: sat", "Model: " + Join(Assigns(names, p.1, answer.model.value, |names|).value, ", ")])
         && (answer.model.Ok? && Assigns(names, p.1, answer.model.value, |names|).Err? ==>
               Outcome(engine, line)
               == ["Result: sat", "Error: " + Assigns(names, p.1, answer.model.value, |names|).error]))
      && (answer.result != CheckSat ==>
            Outcome(engine, line) == ["Result: " + ResultText(answer.result)])
  {
    var ast := Parsed(line).value;
    var p := Tr(ast, map[]);
    TranslationSpec(ast);
    OutcomeValid(engine, line);
    VerdictAnswered(engine(p.0.value), SortedVars(ast), p.1);
    forall nm | nm in SortedVars(ast) ensures nm in p.1 {
      assert nm in Elems(SortedVars(ast));
    }
  }

  /** The lines after the result, for each way the model step can go. */
  lemma VerdictAnswered(answer: Answer, names: seq<string>, env: Memo)
    requires answer.Answered? && names != []
    ensures answer.result == CheckSat && answer.model.Err? ==>
      Verdict(answer, names, env) == ["Result: sat", "Error: " + answer.model.error]
    ensures answer.result == CheckSat && answer.model.Ok? && Assigns(names, env, answer.model.value, |names|).Ok? ==>
      Verdict(answer, names, env) == ["Result: sat", "Model: " + Join(Assigns(names, env, answer.model.value, |names|).value, ", ")]
    ensures answer.result == CheckSat && answer.model.Ok? && Assigns(names, env, answer.model.value, |names|).Err? ==>
      Verdict(answer, names, env) == ["Result: sat", "Error: " + Assigns(names, env, answer.model.value, |names|).error]
    ensures answer.result != CheckSat ==> Verdict(answer, names, env) == ["Result: " + ResultText(answer.result)]
  {
    assert "Result: " + ResultText(CheckSat) == "Result: sat";
  }

  /** A solver exception becomes an `Error:` line with its message. */
  lemma OutcomeThrew(engine: Engine, line: string)
    requires Parsed(line).Ok? && K.Validate(Parsed(line).value).None?
    requires Tr(Parsed(line).value, map[]).0.Ok? && engine(Tr(Parsed(line).value, map[]).0.value).Threw?
    ensures Outcome(engine, line) == ["Error: " + engine(Tr(Parsed(line).value, map[]).0.value).message]
  {
    OutcomeValid(engine, line);
  }

  /** A result printed as `sat` does not by itself mean a model follows: a
      check result that is not the satisfiable constant but prints as "sat"
      gives a `Result: sat` line and no `Model:` line. */
  lemma SatTextWithoutModel(line: string, model: Result<Evaluator, string>)
    requires Parsed(line).Ok? && K.Validate(Parsed(line).value).None?
    ensures Outcome((f: Formula) => Answered(CheckOther("sat"), model), line) == ["Result: sat"]
  {
    var engine := (f: Formula) => Answered(CheckOther("sat"), model);
    OutcomeValid(engine, line);
    assert engine(Tr(Parsed(line).value, map[]).0.value) == Answered(CheckOther("sat"), model);
    assert "Result: " + ResultText(CheckOther("sat")) == "Result: sat";
  }

  // ---------- The check result as written ----------

  /** `String(r)` when `r` is the pending promise that `solver.check()`
      returns: the call is not awaited, so `r` equals none of the status
      constants. */
  const PendingCheck: CheckResult := CheckOther("[object Promise]")

  /** The solver as `process_all` consults it: whatever the term, the check
      result is a pending promise. */
  function Unawaited(model: Result<Evaluator, string>): Engine {
    (f: Formula) => Answered(PendingCheck, model)
  }

  /** With the check not awaited, no line ever reports a verdict or a model:
      a valid formula prints `Result: [object Promise]` and nothing more. */
  lemma UnawaitedNeverDecides(line: string, model: Result<Evaluator, string>)
    ensures Parsed(line).Ok? && K.Validate(Parsed(line).value).None? ==>
      Outcome(Unawaited(model), line) == ["Result: [object Promise]"]
    ensures "Result: sat" !in Outcome(Unawaited(model), line)
    ensures "Result: unsat" !in Outcome(Unawaited(model), line)
    ensures forall l :: l in Outcome(Unawaited(model), line) ==> !(|l| >= 6 && l[..6] == "Model:")
  {
    var out := Outcome(Unawaited(model), line);
    OutcomeErrors(Unawaited(model), line);
    var only: string;
    if Parsed(line).Err? {
      only := "Error: " + SyntaxMessage(Parsed(line).error);
      ErrorDecidesNothing(SyntaxMessage(Parsed(line).error));
    } else if K.Validate(Parsed(line).value).Some? {
      only := "Error: " + K.Message(K.Validate(Parsed(line).value).value);
      ErrorDecidesNothing(K.Message(K.Validate(Parsed(line).value).value));
    } else {
      UnawaitedValid(line, model);
      only := "Result: [object Promise]";
      assert only[..6][0] == 'R';
    }
    assert out == [only];
  }

  /** A valid formula, with the check not awaited, prints the promise. */
  lemma UnawaitedValid(line: string, model: Result<Evaluator, string>)
    requires Parsed(line).Ok? && K.Validate(Parsed(line).value).None?
    ensures Outcome(Unawaited(model), line) == ["Result: [object Promise]"]
  {
    OutcomeValid(Unawaited(model), line);
    var p := Tr(Parsed(line).value, map[]);
    assert Unawaited(model)(p.0.value) == Answered(PendingCheck, model);
    VerdictPending(model, SortedVars(Parsed(line).value), p.1);
  }

  /** A pending check is printed as such, with no model after it. */
  lemma VerdictPending(model: Result<Evaluator, string>, names: seq<string>, env: Memo)
    ensures Verdict(Answered(PendingCheck, model), names, env) == ["Result: [object Promise]"]
  {
    assert "Result: " + ResultText(PendingCheck) == "Result: [object Promise]";
  }

  /** An `Error:` line is neither a verdict nor a model. */
  lemma ErrorDecidesNothing(message: string)
    ensures "Error: " + message != "Result: sat" && "Error: " + message != "Result: unsat"
    ensures ("Error: " + message)[..6] != "Model:"
  {
    assert ("Error: " + message)[0] == 'E';
    assert ("Error: " + message)[..6][0] == 'E';
  }
}
