/** `satSolve` of ll_z3.js: depth-first search over the sorted variables,
    `false` before `true`, pruning on a definite `false` from the three-valued
    evaluator and completing a model with `false` once it gives `true`. The
    assignment `env` is one object updated in place, with `delete` on
    backtrack; here it is the field of a `Search` object. */
module NativeSat {
  import opened Results
  import opened Text
  import opened Syntax
  import opened Kleene

  // ---------- The search as a function of its entry state ----------

  /** The fill loop: bind `vars[i..]` to `false`, in order. */
  function Fill(env: Env, vars: seq<string>, i: nat): Env
    decreases |vars| - i
  {
    if i >= |vars| then env else Fill(env[vars[i] := false], vars, i + 1)
  }

  /** What `dfs(i)` returns when entered with assignment `env`: an exception,
      `null` (`None`) or a copy of the completed assignment. */
  function DfsSpec(ast: Ast, vars: seq<string>, i: nat, env: Env): Result<Option<Env>, EvalError>
    decreases |vars| - i
  {
    match TriEval(ast, env)
    case Err(e) => Err(e)
    case Ok(v) =>
      if v == False then Ok(None)
      else if v == True then Ok(Some(Fill(env, vars, i)))
      else if i >= |vars| then Ok(None)
      else
        match DfsSpec(ast, vars, i + 1, env[vars[i] := false])
        case Err(e) => Err(e)
        case Ok(Some(m)) => Ok(Some(m))
        case Ok(None) => DfsSpec(ast, vars, i + 1, env[vars[i] := true])
  }

  /** None of the variables still to be decided is bound yet. */
  predicate FreshFrom(env: Env, vars: seq<string>, i: nat) {
    forall j :: i <= j < |vars| ==> vars[j] !in env
  }

  /** `a` is a total assignment over what `env` binds and `vars[i..]`,
      agreeing with `env`. */
  predicate Completion(env: Env, vars: seq<string>, i: nat, a: Env)
    requires i <= |vars|
  {
    Extends(env, a) && a.Keys == env.Keys + Elems(vars[i..])
  }

  /** The model `m` was found at depth `d`: the variables before `d` already
      made the formula `true`, and the rest were filled with `false`. */
  predicate SuccessDepth(ast: Ast, vars: seq<string>, i: nat, m: Env, d: nat) {
    i <= d <= |vars|
    && (forall j :: d <= j < |vars| ==> vars[j] in m && !m[vars[j]])
    && TriEval(ast, m - Elems(vars[d..])) == Ok(True)
  }

  lemma {:induction false} FillSpec(env: Env, vars: seq<string>, i: nat)
    requires i <= |vars|
    ensures Fill(env, vars, i).Keys == env.Keys + Elems(vars[i..])
    ensures forall j :: i <= j < |vars| ==> !Fill(env, vars, i)[vars[j]]
    ensures forall n :: n in env && n !in Elems(vars[i..]) ==> Fill(env, vars, i)[n] == env[n]
    decreases |vars| - i
  {
    if i < |vars| {
      FillSpec(env[vars[i] := false], vars, i + 1);
      assert vars[i..] == [vars[i]] + vars[i + 1..];
    }
  }

  /** Filling fresh variables keeps every earlier binding. */
  lemma FillExtends(env: Env, vars: seq<string>, i: nat)
    requires i <= |vars| && FreshFrom(env, vars, i)
    ensures Extends(env, Fill(env, vars, i))
    ensures Fill(env, vars, i) - Elems(vars[i..]) == env
  {
    FillSpec(env, vars, i);
    forall n | n in Elems(vars[i..]) ensures n !in env {
      var j :| 0 <= j < |vars[i..]| && vars[i..][j] == n;
      assert vars[i + j] == n;
    }
  }

  /** `satSolve` throws exactly when the formula is malformed, with
      `triEval`'s error. */
  lemma {:induction false} DfsErrors(ast: Ast, vars: seq<string>, i: nat, env: Env)
    ensures DfsSpec(ast, vars, i, env).Err? <==> Validate(ast).Some?
    ensures DfsSpec(ast, vars, i, env).Err? ==> DfsSpec(ast, vars, i, env).error == Validate(ast).value
    decreases |vars| - i
  {
    TriEvalErrors(ast, env);
    if TriEval(ast, env) == Ok(Unknown) && i < |vars| {
      DfsErrors(ast, vars, i + 1, env[vars[i] := false]);
      DfsErrors(ast, vars, i + 1, env[vars[i] := true]);
    }
  }

  /** Soundness: a returned model binds exactly the entry bindings and
      `vars[i..]`, keeps the entry bindings, makes the formula `true`, and
      binds every variable from its success depth on to `false`. */
  lemma {:induction false} DfsSound(ast: Ast, vars: seq<string>, i: nat, env: Env, m: Env)
    requires i <= |vars| && NoDup(vars) && FreshFrom(env, vars, i)
    requires DfsSpec(ast, vars, i, env) == Ok(Some(m))
    ensures TriEval(ast, m) == Ok(True)
    ensures Completion(env, vars, i, m)
    ensures exists d :: SuccessDepth(ast, vars, i, m, d)
    decreases |vars| - i
  {
    var v := TriEval(ast, env).value;
    if v == True {
      FillSpec(env, vars, i);
      FillExtends(env, vars, i);
      DefiniteStays(ast, env, m);
      assert SuccessDepth(ast, vars, i, m, i);
    } else {
      var b := DfsSpec(ast, vars, i + 1, env[vars[i] := false]) != Ok(Some(m));
      var env' := env[vars[i] := b];
      assert DfsSpec(ast, vars, i + 1, env') == Ok(Some(m));
      BindFresh(env, vars, i, b);
      DfsSound(ast, vars, i + 1, env', m);
      var d :| SuccessDepth(ast, vars, i + 1, m, d);
      SoundStep(ast, vars, i, env, b, m, d);
    }
  }

  /** Binding the next variable leaves the later ones unbound. */
  lemma BindFresh(env: Env, vars: seq<string>, i: nat, b: bool)
    requires i < |vars| && NoDup(vars) && FreshFrom(env, vars, i)
    ensures FreshFrom(env[vars[i] := b], vars, i + 1)
  {
    forall j | i + 1 <= j < |vars| ensures vars[j] !in env[vars[i] := b] {
      assert vars[j] != vars[i];
    }
  }

  /** A model found one level deeper is a model found here. */
  lemma SoundStep(ast: Ast, vars: seq<string>, i: nat, env: Env, b: bool, m: Env, d: nat)
    requires i < |vars| && FreshFrom(env, vars, i)
    requires Completion(env[vars[i] := b], vars, i + 1, m)
    requires SuccessDepth(ast, vars, i + 1, m, d)
    ensures Completion(env, vars, i, m)
    ensures SuccessDepth(ast, vars, i, m, d)
  {
    assert vars[i..] == [vars[i]] + vars[i + 1..];
    assert vars[i] !in env;
  }

  /** Completeness: when the search from `env` fails, no completion of `env`
      over `vars[i..]` makes the formula `true`. */
  lemma {:induction false} DfsComplete(ast: Ast, vars: seq<string>, i: nat, env: Env, a: Env)
    requires i <= |vars| && Completion(env, vars, i, a)
    requires DfsSpec(ast, vars, i, env) == Ok(None)
    ensures TriEval(ast, a) != Ok(True)
    decreases |vars| - i
  {
    var v := TriEval(ast, env).value;
    if v == False {
      DefiniteStays(ast, env, a);
    } else if i >= |vars| {
      assert a == env;
    } else {
      assert vars[i..] == [vars[i]] + vars[i + 1..];
      var name := vars[i];
      assert name in a.Keys;
      var env' := env[name := a[name]];
      assert Completion(env', vars, i + 1, a);
      DfsComplete(ast, vars, i + 1, env', a);
    }
  }

  // ---------- The search as the source runs it ----------

  class Search {
    const ast: Ast
    const vars: seq<string>
    var env: Env

    constructor(ast: Ast, vars: seq<string>)
      ensures this.ast == ast && this.vars == vars && env == map[]
    {
      this.ast := ast;
      this.vars := vars;
      env := map[];
    }

    /** `dfs(i)`: on failure `env` is exactly as on entry; on success it is
        the returned model. */
    method Dfs(i: nat) returns (r: Result<Option<Env>, EvalError>)
      requires i <= |vars| && NoDup(vars) && FreshFrom(env, vars, i)
      modifies this
      ensures r == DfsSpec(ast, vars, i, old(env))
      ensures r == Ok(None) ==> env == old(env)
      ensures r.Ok? && r.value.Some? ==> env == r.value.value
      decreases |vars| - i
    {
      var v := TriEval(ast, env);
      if v.Err? {
        return Err(v.error);
      }
      if v.value == False {
        return Ok(None);
      }
      if v.value == True {
        for j := i to |vars|
          invariant Fill(env, vars, j) == Fill(old(env), vars, i)
        {
          env := env[vars[j] := false];
        }
        return Ok(Some(env));
      }
      if i >= |vars| {
        return Ok(None);
      }
      var name := vars[i];
      assert FreshFrom(env[name := false], vars, i + 1) by {
        forall j | i + 1 <= j < |vars| ensures vars[j] != name {}
      }
      env := env[name := false];
      r := Dfs(i + 1);
      if r != Ok(None) {
        return;
      }
      env := env[name := true];
      assert env == old(env)[name := true];
      r := Dfs(i + 1);
      if r != Ok(None) {
        return;
      }
      env := env - {name};
      assert name !in old(env);
      return Ok(None);
    }
  }

  /** The `{ sat, model, vars }` record. */
  datatype Solution = Solution(sat: bool, model: Option<Env>, vars: seq<string>)

  /** What `satSolve(ast)` returns: `dfs(0)` from the empty assignment over
      the sorted variable names. */
  function SatSolveSpec(ast: Ast): Result<Solution, EvalError> {
    var vars := SortedVars(ast);
    match DfsSpec(ast, vars, 0, map[])
    case Err(e) => Err(e)
    case Ok(model) => Ok(Solution(model.Some?, model, vars))
  }

  /** `satSolve` is a decision procedure: it throws exactly for a malformed
      formula; otherwise `vars` is the sorted, duplicate-free set of names,
      a model binds exactly them, makes `triEval` (and the formula) true and
      binds the names from its success depth on to `false`, and there is no
      model exactly when no total assignment makes the formula true. */
  lemma SatSolveCorrect(ast: Ast)
    ensures SatSolveSpec(ast).Err? <==> Validate(ast).Some?
    ensures SatSolveSpec(ast).Err? ==> SatSolveSpec(ast).error == Validate(ast).value
    ensures SatSolveSpec(ast).Ok? ==>
      var s := SatSolveSpec(ast).value;
      s.vars == SortedVars(ast) && StrictlySorted(s.vars) && Elems(s.vars) == VarsOf(ast)
      && (s.sat <==> s.model.Some?)
    ensures SatSolveSpec(ast).Ok? && SatSolveSpec(ast).value.model.Some? ==>
      var m := SatSolveSpec(ast).value.model.value;
      m.Keys == VarsOf(ast) && TriEval(ast, m) == Ok(True) && Holds(ast, m)
      && exists d :: SuccessDepth(ast, SortedVars(ast), 0, m, d)
    ensures SatSolveSpec(ast).Ok? ==>
      (SatSolveSpec(ast).value.sat <==> exists a: Env :: a.Keys == VarsOf(ast) && Holds(ast, a))
    ensures SatSolveSpec(ast).Ok? && !SatSolveSpec(ast).value.sat ==>
      forall a: Env :: a.Keys == VarsOf(ast) ==> TriEval(ast, a) != Ok(True)
  {
    var vars := SortedVars(ast);
    SortedVarsSpec(ast);
    DfsErrors(ast, vars, 0, map[]);
    if Validate(ast).None? {
      TriEvalErrors(ast, map[]);
      assert vars[0..] == vars;
      match DfsSpec(ast, vars, 0, map[]).value
      case Some(m) =>
        DfsSound(ast, vars, 0, map[], m);
        TriEvalTotal(ast, m);
      case None =>
        forall a: Env | a.Keys == VarsOf(ast) ensures TriEval(ast, a) != Ok(True) && !Holds(ast, a) {
          DfsComplete(ast, vars, 0, map[], a);
          TriEvalTotal(ast, a);
        }
    }
  }

  /** `satSolve(ast)`: collect the names into an insertion-ordered set, sort
      them, and run the search on a fresh, empty assignment. */
  method SatSolve(ast: Ast) returns (r: Result<Solution, EvalError>)
    ensures r == SatSolveSpec(ast)
  {
    var collected := CollectVars(ast, []);
    var vars := Sort(collected);
    SortedVarsSpec(ast);
    var search := new Search(ast, vars);
    var found := search.Dfs(0);
    match found
    case Err(e) =>
      r := Err(e);
    case Ok(model) =>
      r := Ok(Solution(model != None, model, vars));
  }
}
