/** `triEval` of ll_z3.js: evaluation of a formula under a partial assignment
    in Kleene's three-valued logic (JavaScript `true`, `false`, `null`), with
    the arity and operator checks it performs. The same checks, in the same
    order, are made by llsat_z3.js's translation (see LlSat). */
module Kleene {
  import opened Results
  import opened Syntax

  datatype Tri = True | False | Unknown

  /** The exceptions thrown for a malformed application. */
  datatype EvalError =
    | NotArity            // "not expects 1 arg"
    | AndArity            // "and expects >=2 args"
    | OrArity             // "or expects >=2 args"
    | ImpliesArity        // "implies expects 2 args"
    | UnknownOperator(op: string)

  /** The exception's `message`. */
  function Message(e: EvalError): string {
    match e
    case NotArity => "not expects 1 arg"
    case AndArity => "and expects >=2 args"
    case OrArity => "or expects >=2 args"
    case ImpliesArity => "implies expects 2 args"
    case UnknownOperator(op) => "Unknown operator: " + op
  }

  /** A (partial) assignment: JavaScript's `env` object from names to booleans. */
  type Env = map<string, bool>

  function FromBool(b: bool): Tri {
    if b then True else False
  }

  function NotTri(x: Tri): Tri {
    if x == Unknown then Unknown else if x == True then False else True
  }

  function AndTri(xs: seq<Tri>): Tri {
    if False in xs then False
    else if forall k :: 0 <= k < |xs| ==> xs[k] == True then True
    else Unknown
  }

  function OrTri(xs: seq<Tri>): Tri {
    if True in xs then True
    else if forall k :: 0 <= k < |xs| ==> xs[k] == False then False
    else Unknown
  }

  /** The source's case analysis for `implies`; it is Kleene's `or(not A, B)`. */
  function ImpliesTri(a: Tri, b: Tri): (r: Tri)
    ensures r == OrTri([NotTri(a), b])
  {
    var notA := NotTri(a);
    assert [notA, b][0] == notA && [notA, b][1] == b;
    if notA == True || b == True then True
    else if notA == False && b == False then False
    else Unknown
  }

  /** The operator step of `triEval`, once the arguments' values `xs` are known. */
  function Combine(op: string, xs: seq<Tri>): Result<Tri, EvalError> {
    if op == "not" then
      if |xs| != 1 then Err(NotArity) else Ok(NotTri(xs[0]))
    else if op == "and" then
      if |xs| < 2 then Err(AndArity) else Ok(AndTri(xs))
    else if op == "or" then
      if |xs| < 2 then Err(OrArity) else Ok(OrTri(xs))
    else if op == "implies" then
      if |xs| != 2 then Err(ImpliesArity) else Ok(ImpliesTri(xs[0], xs[1]))
    else Err(UnknownOperator(op))
  }

  /** The first error among `rs`, or all of their values: what
      `args.map(...)` produces when each call may throw. */
  function Sequence<T>(rs: seq<Result<T, EvalError>>): (r: Result<seq<T>, EvalError>)
    ensures r.Ok? <==> forall k :: 0 <= k < |rs| ==> rs[k].Ok?
    ensures r.Ok? ==> |r.value| == |rs| && forall k :: 0 <= k < |rs| ==> r.value[k] == rs[k].value
    ensures r.Err? ==> exists k :: 0 <= k < |rs| && rs[k] == Err(r.error) && forall m :: 0 <= m < k ==> rs[m].Ok?
  {
    if rs == [] then Ok([])
    else if rs[0].Err? then Err(rs[0].error)
    else match Sequence(rs[1..])
      case Err(e) =>
        var k :| 0 <= k < |rs[1..]| && rs[1..][k] == Err(e) && forall m :: 0 <= m < k ==> rs[1..][m].Ok?;
        assert rs[k + 1] == Err(e);
        Err(e)
      case Ok(vs) => Ok([rs[0].value] + vs)
  }

  /** `triEval(ast, env)`: all arguments are evaluated first, left to right;
      then the operator and its arity are checked. */
  function TriEval(ast: Ast, env: Env): Result<Tri, EvalError>
    decreases ast
  {
    match ast
    case Var(n) => Ok(if n in env then FromBool(env[n]) else Unknown)
    case App(op, args) =>
      match Sequence(seq(|args|, k requires 0 <= k < |args| => TriEval(args[k], env)))
      case Err(e) => Err(e)
      case Ok(xs) => Combine(op, xs)
  }

  // ---------- Validation, shared with the translation of llsat_z3.js ----------

  /** The arity and operator check of one application with `n` arguments. */
  function CheckOp(op: string, n: nat): Option<EvalError> {
    if op == "not" then (if n != 1 then Some(NotArity) else None)
    else if op == "and" then (if n < 2 then Some(AndArity) else None)
    else if op == "or" then (if n < 2 then Some(OrArity) else None)
    else if op == "implies" then (if n != 2 then Some(ImpliesArity) else None)
    else Some(UnknownOperator(op))
  }

  function FirstSome(os: seq<Option<EvalError>>): (r: Option<EvalError>)
    ensures r.None? <==> forall k :: 0 <= k < |os| ==> os[k].None?
    ensures r.Some? ==> exists k :: 0 <= k < |os| && os[k] == r && forall m :: 0 <= m < k ==> os[m].None?
  {
    if os == [] then None
    else if os[0].Some? then os[0]
    else
      var r := FirstSome(os[1..]);
      if r.Some? then
        var k :| 0 <= k < |os[1..]| && os[1..][k] == r && forall m :: 0 <= m < k ==> os[1..][m].None?;
        assert os[k + 1] == r;
        r
      else r
  }

  /** The first malformed application in left-to-right post-order, if any. */
  function Validate(ast: Ast): Option<EvalError>
    decreases ast
  {
    match ast
    case Var(_) => None
    case App(op, args) =>
      var first := FirstSome(seq(|args|, k requires 0 <= k < |args| => Validate(args[k])));
      if first.Some? then first else CheckOp(op, |args|)
  }

  lemma CombineCheck(op: string, xs: seq<Tri>)
    ensures Combine(op, xs).Err? <==> CheckOp(op, |xs|).Some?
    ensures Combine(op, xs).Err? ==> Combine(op, xs).error == CheckOp(op, |xs|).value
  {
  }

  /** Whether `triEval` throws, and what, is decided by the formula alone:
      exactly when validation finds a malformed application, and then with
      that application's error. */
  lemma {:induction false} TriEvalErrors(ast: Ast, env: Env)
    ensures TriEval(ast, env).Err? <==> Validate(ast).Some?
    ensures TriEval(ast, env).Err? ==> TriEval(ast, env).error == Validate(ast).value
    decreases ast
  {
    match ast
    case Var(n) =>
    case App(op, args) =>
      var rs := seq(|args|, k requires 0 <= k < |args| => TriEval(args[k], env));
      var vs := seq(|args|, k requires 0 <= k < |args| => Validate(args[k]));
      forall k | 0 <= k < |args| ensures rs[k].Err? <==> vs[k].Some? && (rs[k].Err? ==> rs[k].error == vs[k].value) {
        TriEvalErrors(args[k], env);
      }
      FirstErrorAgrees(rs, vs);
      if Sequence(rs).Ok? {
        CombineCheck(op, Sequence(rs).value);
      }
  }

  /** When the arguments fail exactly where validation does, the first
      argument error is the first validation error. */
  lemma FirstErrorAgrees(rs: seq<Result<Tri, EvalError>>, vs: seq<Option<EvalError>>)
    requires |rs| == |vs|
    requires forall k :: 0 <= k < |rs| ==> (rs[k].Err? <==> vs[k].Some?) && (rs[k].Err? ==> rs[k].error == vs[k].value)
    ensures Sequence(rs).Err? <==> FirstSome(vs).Some?
    ensures Sequence(rs).Err? ==> Sequence(rs).error == FirstSome(vs).value
  {
    var s := Sequence(rs);
    var f := FirstSome(vs);
    if s.Err? {
      var k :| 0 <= k < |rs| && rs[k] == Err(s.error) && forall m :: 0 <= m < k ==> rs[m].Ok?;
      if f.Some? {
        var j :| 0 <= j < |vs| && vs[j] == f && forall m :: 0 <= m < j ==> vs[m].None?;
        assert !(j < k) && !(k < j);
      }
    }
  }

  /** `triEval` does not throw on a formula that passes validation. */
  lemma TriEvalOk(ast: Ast, env: Env)
    requires Validate(ast).None?
    ensures TriEval(ast, env).Ok?
  {
    TriEvalErrors(ast, env);
  }

  // ---------- Monotonicity: what justifies the search's pruning ----------

  /** `env2` keeps every binding of `env` (and may add more). */
  predicate Extends(env: Env, env2: Env) {
    forall n :: n in env ==> n in env2 && env2[n] == env[n]
  }

  /** Information order: `Unknown` may become anything, a known value stays. */
  predicate LeInfo(a: Tri, b: Tri) {
    a == Unknown || a == b
  }

  predicate LeInfoAll(xs: seq<Tri>, ys: seq<Tri>) {
    |xs| == |ys| && forall k :: 0 <= k < |xs| ==> LeInfo(xs[k], ys[k])
  }

  lemma CombineMono(op: string, xs: seq<Tri>, ys: seq<Tri>)
    requires LeInfoAll(xs, ys) && Combine(op, xs).Ok?
    ensures Combine(op, ys).Ok? && LeInfo(Combine(op, xs).value, Combine(op, ys).value)
  {
    if op == "and" && AndTri(xs) != Unknown {
      if False in xs {
        var k :| 0 <= k < |xs| && xs[k] == False;
        assert ys[k] == False;
      }
    } else if op == "or" && OrTri(xs) != Unknown {
      if True in xs {
        var k :| 0 <= k < |xs| && xs[k] == True;
        assert ys[k] == True;
      }
    }
  }

  /** Binding more variables only resolves unknowns: a `true` or `false`
      result stays what it is. */
  lemma {:induction false} TriEvalMono(ast: Ast, env: Env, env2: Env)
    requires Extends(env, env2) && TriEval(ast, env).Ok?
    ensures TriEval(ast, env2).Ok? && LeInfo(TriEval(ast, env).value, TriEval(ast, env2).value)
    decreases ast
  {
    match ast
    case Var(n) =>
    case App(op, args) =>
      var rs := seq(|args|, k requires 0 <= k < |args| => TriEval(args[k], env));
      var rs2 := seq(|args|, k requires 0 <= k < |args| => TriEval(args[k], env2));
      assert Sequence(rs).Ok?;
      forall k | 0 <= k < |args| ensures rs2[k].Ok? && LeInfo(rs[k].value, rs2[k].value) {
        assert rs[k].Ok?;
        TriEvalMono(args[k], env, env2);
      }
      CombineMono(op, Sequence(rs).value, Sequence(rs2).value);
  }

  /** The form the search uses: a definite value survives any extension. */
  lemma DefiniteStays(ast: Ast, env: Env, env2: Env)
    requires Extends(env, env2)
    requires TriEval(ast, env) == Ok(True) || TriEval(ast, env) == Ok(False)
    ensures TriEval(ast, env2) == TriEval(ast, env)
  {
    TriEvalMono(ast, env, env2);
  }

  // ---------- Two-valued reference semantics ----------

  /** The classical meaning of a formula under a total assignment. */
  predicate Holds(ast: Ast, a: Env)
    decreases ast
  {
    match ast
    case Var(n) => n in a && a[n]
    case App(op, args) =>
      if op == "not" then |args| == 1 && !Holds(args[0], a)
      else if op == "and" then forall k :: 0 <= k < |args| ==> Holds(args[k], a)
      else if op == "or" then exists k :: 0 <= k < |args| && Holds(args[k], a)
      else if op == "implies" then |args| == 2 && (!Holds(args[0], a) || Holds(args[1], a))
      else false
  }

  lemma VarsOfArg(args: seq<Ast>, k: nat)
    requires k < |args|
    ensures VarsOf(args[k]) <= VarsOfAll(args)
  {
    if k > 0 {
      VarsOfArg(args[1..], k - 1);
    }
  }

  lemma ValidateArg(op: string, args: seq<Ast>, k: nat)
    requires k < |args| && Validate(App(op, args)).None?
    ensures Validate(args[k]).None?
  {
    var vs := seq(|args|, j requires 0 <= j < |args| => Validate(args[j]));
    assert vs[k] == Validate(args[k]);
  }

  /** Under an assignment that binds every variable, a valid formula is never
      `unknown`: `triEval` computes its classical truth value. */
  lemma {:induction false} TriEvalTotal(ast: Ast, a: Env)
    requires Validate(ast).None? && VarsOf(ast) <= a.Keys
    ensures TriEval(ast, a) == Ok(FromBool(Holds(ast, a)))
    decreases ast
  {
    match ast
    case Var(n) =>
    case App(op, args) =>
      var rs := seq(|args|, k requires 0 <= k < |args| => TriEval(args[k], a));
      forall k | 0 <= k < |args| ensures rs[k] == Ok(FromBool(Holds(args[k], a))) {
        VarsOfArg(args, k);
        ValidateArg(op, args, k);
        TriEvalTotal(args[k], a);
      }
      CombineTotal(op, args, a, Sequence(rs).value);
  }

  /** The operator step on classical argument values is the classical
      operator. */
  lemma CombineTotal(op: string, args: seq<Ast>, a: Env, xs: seq<Tri>)
    requires CheckOp(op, |args|).None?
    requires |xs| == |args| && forall k :: 0 <= k < |args| ==> xs[k] == FromBool(Holds(args[k], a))
    ensures Combine(op, xs) == Ok(FromBool(Holds(App(op, args), a)))
  {
    if op == "and" {
      if !Holds(App(op, args), a) {
        var k :| 0 <= k < |args| && !Holds(args[k], a);
        assert xs[k] == False;
      }
    } else if op == "or" {
      if Holds(App(op, args), a) {
        var k :| 0 <= k < |args| && Holds(args[k], a);
        assert xs[k] == True;
      }
    }
  }

  /** Kleene soundness: a `true` (`false`) under a partial assignment means
      the formula holds (fails) under every total assignment extending it. */
  lemma KleeneSound(ast: Ast, env: Env, a: Env)
    requires Validate(ast).None? && VarsOf(ast) <= a.Keys && Extends(env, a)
    ensures TriEval(ast, env) == Ok(True) ==> Holds(ast, a)
    ensures TriEval(ast, env) == Ok(False) ==> !Holds(ast, a)
  {
    TriEvalOk(ast, env);
    TriEvalMono(ast, env, a);
    TriEvalTotal(ast, a);
  }

  /** Every formula that passes validation mentions at least one variable
      (every known operator needs at least one argument). */
  lemma {:induction false} ValidHasVar(ast: Ast)
    requires Validate(ast).None?
    ensures VarsOf(ast) != {}
    decreases ast
  {
    match ast
    case Var(n) =>
    case App(op, args) =>
      ValidateArg(op, args, 0);
      ValidHasVar(args[0]);
      VarsOfArg(args, 0);
  }
}
