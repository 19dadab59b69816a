/**
 * Properties of the interpreter of examples/interpreter.ts that relate several
 * evaluations or executions: native arithmetic, dependence on variables only,
 * statement semantics, sequencing, early return and the fuel bound.
 */
module InterpreterProperties {
  import opened Wrappers
  import opened Interpreter

  /**
   * `add` and `sub` are native addition and subtraction on naturals, with `never` below
   * zero; an operand that is not a number makes either the depth error.
   */
  lemma EvalArithmetic(l: Expr, r: Expr, env: Env)
    ensures Eval(Add(l, r), env) ==
      if Eval(l, env).Number? && Eval(r, env).Number? then Number(Eval(l, env).n + Eval(r, env).n)
      else TooDeep
    ensures Eval(Sub(l, r), env) ==
      if !(Eval(l, env).Number? && Eval(r, env).Number?) then TooDeep
      else if Eval(r, env).n <= Eval(l, env).n then Number(Eval(l, env).n - Eval(r, env).n)
      else Never
  {
  }

  predicate SubFree(e: Expr)
  {
    match e
    case Literal(_) => true
    case Var(_) => true
    case Add(l, r) => SubFree(l) && SubFree(r)
    case Sub(_, _) => false
  }

  /** Without `sub`, evaluation fails only on an unbound variable. */
  lemma {:induction false} EvalDefined(e: Expr, env: Env)
    requires SubFree(e)
    ensures Eval(e, env).Number? <==> Vars(e) <= Names(env)
  {
    match e
    case Literal(_) =>
    case Var(name) =>
    case Add(l, r) =>
      EvalDefined(l, env);
      EvalDefined(r, env);
    case Sub(_, _) =>
  }

  /** An expression's value depends only on how its own variables look up. */
  lemma {:induction false} EvalFrame(e: Expr, env: Env, env': Env)
    requires forall n :: n in Vars(e) ==> Lookup(n, env) == Lookup(n, env')
    ensures Eval(e, env) == Eval(e, env')
  {
    match e
    case Literal(_) =>
    case Var(_) =>
    case Add(l, r) =>
      EvalFrame(l, env, env');
      EvalFrame(r, env, env');
    case Sub(l, r) =>
      EvalFrame(l, env, env');
      EvalFrame(r, env, env');
  }

  /**
   * `assign` binds the evaluated value (the map view changes at exactly that name) and
   * yields no value; it fails when the right-hand side is `never` or the depth error.
   */
  lemma AssignSemantics(lhs: string, rhs: Expr, env: Env, fuel: nat)
    ensures Eval(rhs, env) == Never <==> ExecuteStmt(Assign(lhs, rhs), env, fuel) == Err(EvalFailed)
    ensures Eval(rhs, env) == TooDeep <==> ExecuteStmt(Assign(lhs, rhs), env, fuel) == Err(DepthExceeded)
    ensures Eval(rhs, env).Number? ==>
      var r := ExecuteStmt(Assign(lhs, rhs), env, fuel);
      r.Ok? && r.value.ret.None? &&
      AsMap(r.value.env) == AsMap(env)[lhs := Eval(rhs, env).n]
  {
    if Eval(rhs, env).Number? {
      UpdateEnvAsMap(lhs, Eval(rhs, env).n, env);
    }
  }

  /**
   * `return` leaves the environment alone and yields the evaluated value; a value that
   * is `never` or the depth error is a failure.
   */
  lemma ReturnSemantics(value: Expr, env: Env, fuel: nat)
    ensures ExecuteStmt(Return(value), env, fuel) ==
      match Eval(value, env)
      case Number(v) => Ok(State(env, Some(v)))
      case Never => Err(EvalFailed)
      case TooDeep => Err(DepthExceeded)
  {
  }

  /**
   * A `while` whose condition is the depth error fails; one whose condition extends 0
   * (is 0 or `never`) does nothing; otherwise a value returned by the body ends the
   * loop at once, and a body that falls through re-executes the loop on the new
   * environment.
   */
  lemma WhileSemantics(cond: Expr, body: seq<Stmt>, env: Env, fuel: nat)
    ensures Eval(cond, env) == TooDeep ==>
      ExecuteStmt(While(cond, body), env, fuel) == Err(DepthExceeded)
    ensures ExtendsZero(Eval(cond, env)) ==>
      ExecuteStmt(While(cond, body), env, fuel) == Ok(State(env, None))
    ensures Continues(Eval(cond, env)) ==>
      var b := ExecuteStmts(body, env, fuel);
      && (b.Ok? && b.value.ret.Some? ==> ExecuteStmt(While(cond, body), env, fuel) == b)
      && (b.Ok? && b.value.ret.None? && fuel > 0 ==>
          ExecuteStmt(While(cond, body), env, fuel) == ExecuteStmt(While(cond, body), b.value.env, fuel - 1))
  {
  }

  /**
   * A loop that finishes: the body, run from each of env = envs[0], ..., envs[k-1] under
   * a non-zero condition, falls through to the next environment, and the condition
   * extends 0 at envs[k]; then the loop ends in envs[k] with no value.
   */
  lemma {:induction false} WhileTerminates(cond: Expr, body: seq<Stmt>, envs: seq<Env>, fuel: nat)
    requires |envs| >= 1 && |envs| - 1 <= fuel
    requires forall i :: 0 <= i < |envs| - 1 ==> Continues(Eval(cond, envs[i]))
    requires forall i :: 0 <= i < |envs| - 1 ==>
      ExecuteStmts(body, envs[i], fuel - (|envs| - 1)) == Ok(State(envs[i + 1], None))
    requires ExtendsZero(Eval(cond, envs[|envs| - 1]))
    ensures ExecuteStmt(While(cond, body), envs[0], fuel) == Ok(State(envs[|envs| - 1], None))
    decreases |envs|
  {
    var w, k := While(cond, body), |envs| - 1;
    if k > 0 {
      assert ExecuteStmts(body, envs[0], fuel - k) == Ok(State(envs[1], None));
      FuelMonotoneStmts(body, envs[0], fuel - k, fuel);
      assert Continues(Eval(cond, envs[0]));
      WhileSemantics(cond, body, envs[0], fuel);
      assert ExecuteStmt(w, envs[0], fuel) == ExecuteStmt(w, envs[1], fuel - 1);
      var rest := envs[1..];
      forall i | 0 <= i < |rest| - 1
        ensures Continues(Eval(cond, rest[i]))
        ensures ExecuteStmts(body, rest[i], fuel - 1 - (|rest| - 1)) == Ok(State(rest[i + 1], None))
      {
        assert rest[i] == envs[i + 1] && rest[i + 1] == envs[i + 2];
      }
      WhileTerminates(cond, body, rest, fuel - 1);
    } else {
      WhileSemantics(cond, body, envs[0], fuel);
    }
  }

  /** Running `a + b` is running `a`, then `b` from where `a` left off unless `a` returned. */
  lemma {:induction false} ExecuteStmtsAppend(a: seq<Stmt>, b: seq<Stmt>, env: Env, fuel: nat)
    ensures ExecuteStmts(a + b, env, fuel) ==
      match ExecuteStmts(a, env, fuel)
      case Ok(State(env', None)) => ExecuteStmts(b, env', fuel)
      case other => other
  {
    if a == [] {
      assert a + b == b;
    } else {
      assert (a + b)[0] == a[0];
      assert (a + b)[1..] == a[1..] + b;
      var r := ExecuteStmt(a[0], env, fuel);
      if r.Ok? && r.value.ret.None? {
        ExecuteStmtsAppend(a[1..], b, r.value.env, fuel);
      }
    }
  }

  /**
   * If the statements before index i fall through and statement i returns a value, the
   * whole list yields that value and that environment; the rest is never run.
   */
  lemma StopsAtFirstReturn(ss: seq<Stmt>, i: nat, env: Env, fuel: nat, env': Env)
    requires i < |ss|
    requires ExecuteStmts(ss[..i], env, fuel) == Ok(State(env', None))
    requires ExecuteStmt(ss[i], env', fuel).Ok? && ExecuteStmt(ss[i], env', fuel).value.ret.Some?
    ensures ExecuteStmts(ss, env, fuel) == ExecuteStmt(ss[i], env', fuel)
  {
    assert ss == ss[..i] + ss[i..];
    ExecuteStmtsAppend(ss[..i], ss[i..], env, fuel);
    assert ss[i..][0] == ss[i];
  }

  /** Giving a run more fuel than it needed changes nothing. */
  lemma {:induction false} FuelMonotoneStmt(s: Stmt, env: Env, fuel: nat, more: nat)
    requires ExecuteStmt(s, env, fuel) != Err(OutOfFuel)
    requires fuel <= more
    ensures ExecuteStmt(s, env, more) == ExecuteStmt(s, env, fuel)
    decreases fuel, s
  {
    match s
    case Assign(_, _) =>
    case Return(_) =>
    case While(cond, body) =>
      if Continues(Eval(cond, env)) {
        FuelMonotoneStmts(body, env, fuel, more);
        var b := ExecuteStmts(body, env, fuel);
        if b.Ok? && b.value.ret.None? {
          FuelMonotoneStmt(s, b.value.env, fuel - 1, more - 1);
        }
      }
  }

  lemma {:induction false} FuelMonotoneStmts(ss: seq<Stmt>, env: Env, fuel: nat, more: nat)
    requires ExecuteStmts(ss, env, fuel) != Err(OutOfFuel)
    requires fuel <= more
    ensures ExecuteStmts(ss, env, more) == ExecuteStmts(ss, env, fuel)
    decreases fuel, ss
  {
    if ss != [] {
      FuelMonotoneStmt(ss[0], env, fuel, more);
      var r := ExecuteStmt(ss[0], env, fuel);
      if r.Ok? && r.value.ret.None? {
        FuelMonotoneStmts(ss[1..], r.value.env, fuel, more);
      }
    }
  }

  lemma RunProgramFuelMonotone(program: Program, fuel: nat, more: nat)
    requires RunProgram(program, fuel) != Err(OutOfFuel)
    requires fuel <= more
    ensures RunProgram(program, more) == RunProgram(program, fuel)
  {
    FuelMonotoneStmts(program, [], fuel, more);
  }

  /**
   * With a non-zero condition and enough fuel, a `while` is its body followed by the
   * same `while`.
   */
  lemma WhileUnrolls(cond: Expr, body: seq<Stmt>, env: Env, fuel: nat)
    requires Continues(Eval(cond, env))
    requires ExecuteStmt(While(cond, body), env, fuel) != Err(OutOfFuel)
    ensures ExecuteStmt(While(cond, body), env, fuel) == ExecuteStmts(body + [While(cond, body)], env, fuel)
  {
    var w := While(cond, body);
    ExecuteStmtsAppend(body, [w], env, fuel);
    var b := ExecuteStmts(body, env, fuel);
    if b.Ok? && b.value.ret.None? {
      FuelMonotoneStmt(w, b.value.env, fuel - 1, fuel);
      assert [w][1..] == [];
    }
  }

  /** `RunProgram([])` yields no value. */
  lemma RunEmptyProgram(fuel: nat)
    ensures RunProgram([], fuel) == Ok(None)
  {
  }
}
