/**
 * The tree-walking interpreter of examples/interpreter.ts: expressions over natural
 * numbers and variables, and statements `assign`, `return` and `while`, executed
 * against an environment that is an ordered list of bindings.
 */
module Interpreter {
  import opened Wrappers
  import NaturalNumbers

  datatype Expr =
    | Literal(value: nat)
    | Var(name: string)
    | Add(lhs: Expr, rhs: Expr)
    | Sub(lhs: Expr, rhs: Expr)

  datatype Stmt =
    | Assign(lhs: string, rhs: Expr)
    | Return(value: Expr)
    | While(cond: Expr, body: seq<Stmt>)

  type Program = seq<Stmt>

  datatype Binding = Binding(varname: string, value: nat)

  /** Bindings in the order they were first made. */
  type Env = seq<Binding>

  /**
   * The `[env, value]` pair a statement produces: `ret` is `None` for the source's
   * `null` (carry on) and holds the returned number once a `return` has fired.
   */
  datatype State = State(env: Env, ret: Option<nat>)

  /**
   * What `Eval<expr, env>` comes out as: a number; `never` (an unbound variable or a
   * subtraction below zero); or the compiler's instantiation-depth error, which an
   * `add` or `sub` with an operand that is not a number runs into, because
   * `DefaultTo` passes `never` on and `CreateArrOfLen<never>` never stops.
   */
  datatype Outcome = Number(n: nat) | Never | TooDeep

  /**
   * Why a run has no result: an assigned or returned expression evaluated to `never`,
   * the compiler gave up on an expression with its depth error, or a `while` loop used
   * up the iterations it was given.
   */
  datatype Fault = EvalFailed | DepthExceeded | OutOfFuel

  datatype Result<+T> = Ok(value: T) | Err(fault: Fault)

  function Names(env: Env): set<string>
  {
    set b | b in env :: b.varname
  }

  /** At most one binding per name. */
  ghost predicate Unique(env: Env)
  {
    forall i, j :: 0 <= i < j < |env| ==> env[i].varname != env[j].varname
  }

  /** Index i holds the first binding of `name`. */
  ghost predicate FirstBindingAt(env: Env, name: string, i: int)
  {
    0 <= i < |env| && env[i].varname == name &&
    forall j :: 0 <= j < i ==> env[j].varname != name
  }

  /** The variables an expression reads. */
  function Vars(e: Expr): set<string>
  {
    match e
    case Literal(_) => {}
    case Var(name) => {name}
    case Add(l, r) => Vars(l) + Vars(r)
    case Sub(l, r) => Vars(l) + Vars(r)
  }

  /** The value of the first binding of `name`, scanning from the front; `never` if absent. */
  function Lookup(name: string, env: Env): (r: Option<nat>)
    ensures r.Some? <==> name in Names(env)
    ensures r.Some? ==> exists i :: FirstBindingAt(env, name, i) && env[i].value == r.value
  {
    if env == [] then None
    else if env[0].varname == name then
      assert FirstBindingAt(env, name, 0);
      Some(env[0].value)
    else
      var r := Lookup(name, env[1..]);
      assert Names(env) == {env[0].varname} + Names(env[1..]) by {
        assert env == [env[0]] + env[1..];
      }
      assert r.Some? ==> exists i :: FirstBindingAt(env, name, i) && env[i].value == r.value by {
        if r.Some? {
          var i :| FirstBindingAt(env[1..], name, i) && env[1..][i].value == r.value;
          assert FirstBindingAt(env, name, i + 1);
        }
      }
      r
  }

  /**
   * Replaces the value of the first binding of `name`, keeping its position, or appends
   * a binding at the end when there is none.
   */
  function UpdateEnv(name: string, value: nat, env: Env): (r: Env)
    ensures name in Names(env) ==>
      exists i :: FirstBindingAt(env, name, i) && r == env[i := Binding(name, value)]
    ensures name !in Names(env) ==> r == env + [Binding(name, value)]
  {
    if env == [] then [Binding(name, value)]
    else if env[0].varname == name then
      assert FirstBindingAt(env, name, 0);
      [Binding(name, value)] + env[1..]
    else
      var rest := UpdateEnv(name, value, env[1..]);
      assert Names(env) == {env[0].varname} + Names(env[1..]) by {
        assert env == [env[0]] + env[1..];
      }
      assert name in Names(env) ==>
        exists i :: FirstBindingAt(env, name, i) && [env[0]] + rest == env[i := Binding(name, value)]
      by {
        if name in Names(env) {
          var i :| FirstBindingAt(env[1..], name, i) && rest == env[1..][i := Binding(name, value)];
          assert FirstBindingAt(env, name, i + 1);
          assert [env[0]] + rest == env[i + 1 := Binding(name, value)];
        }
      }
      [env[0]] + rest
  }

  /**
   * Expression evaluation. A failed lookup or a subtraction below zero is `never`; an
   * `add` or `sub` whose operand is not a number is the depth error.
   */
  function Eval(e: Expr, env: Env): (r: Outcome)
    ensures r.Number? ==> Vars(e) <= Names(env)
    ensures r.TooDeep? ==> e.Add? || e.Sub?
  {
    match e
    case Literal(v) => Number(v)
    case Var(name) =>
      (match Lookup(name, env)
       case Some(v) => Number(v)
       case None => Never)
    case Add(l, r) =>
      (match (Eval(l, env), Eval(r, env))
       case (Number(a), Number(b)) => Number(NaturalNumbers.Add(a, b))
       case _ => TooDeep)
    case Sub(l, r) =>
      (match (Eval(l, env), Eval(r, env))
       case (Number(a), Number(b)) =>
         (match NaturalNumbers.Sub(a, b)
          case Some(d) => Number(d)
          case None => Never)
       case _ => TooDeep)
  }

  /**
   * The test `Eval<cond, env> extends 0` of a `while`: true for 0, and also for `never`,
   * which extends every type (the test is not distributive, so `never` is not
   * propagated here).
   */
  predicate ExtendsZero(c: Outcome)
  {
    c == Never || c == Number(0)
  }

  /** A condition on which the loop runs its body: a number other than 0. */
  predicate Continues(c: Outcome)
  {
    c.Number? && c.n != 0
  }

  /** The statement contains no `return`, at any depth. */
  predicate NoReturn(s: Stmt)
  {
    match s
    case Assign(_, _) => true
    case Return(_) => false
    case While(_, body) => NoReturns(body)
  }

  predicate NoReturns(ss: seq<Stmt>)
  {
    forall i :: 0 <= i < |ss| ==> NoReturn(ss[i])
  }

  /**
   * One statement. `fuel` bounds how many times a `while` may re-execute itself after
   * its body fell through (the source recurses without a bound).
   */
  function ExecuteStmt(s: Stmt, env: Env, fuel: nat): (r: Result<State>)
    ensures r.Ok? ==> Names(env) <= Names(r.value.env)
    ensures r.Ok? && Unique(env) ==> Unique(r.value.env)
    ensures r.Ok? && NoReturn(s) ==> r.value.ret.None?
    ensures r.Ok? && s.While? && r.value.ret.None? ==> ExtendsZero(Eval(s.cond, r.value.env))
    decreases fuel, s
  {
    match s
    case Assign(lhs, rhs) =>
      (match Eval(rhs, env)
       case Never => Err(EvalFailed)
       case TooDeep => Err(DepthExceeded)
       case Number(v) =>
         var env' := UpdateEnv(lhs, v, env);
         assert Names(env') == Names(env) + {lhs} && (Unique(env) ==> Unique(env')) by {
           UpdateEnvNames(lhs, v, env);
         }
         Ok(State(env', None)))
    case Return(value) =>
      (match Eval(value, env)
       case Never => Err(EvalFailed)
       case TooDeep => Err(DepthExceeded)
       case Number(v) => Ok(State(env, Some(v))))
    case While(cond, body) =>
      if Eval(cond, env) == TooDeep then Err(DepthExceeded)
      else if ExtendsZero(Eval(cond, env)) then Ok(State(env, None))
      else
        match ExecuteStmts(body, env, fuel)
        case Err(f) => Err(f)
        case Ok(State(env', None)) =>
          if fuel == 0 then Err(OutOfFuel) else ExecuteStmt(s, env', fuel - 1)
        case Ok(State(env', Some(v))) => Ok(State(env', Some(v)))
  }

  /** Runs statements left to right and stops at the first one that returns a value. */
  function ExecuteStmts(ss: seq<Stmt>, env: Env, fuel: nat): (r: Result<State>)
    ensures r.Ok? ==> Names(env) <= Names(r.value.env)
    ensures r.Ok? && Unique(env) ==> Unique(r.value.env)
    ensures r.Ok? && NoReturns(ss) ==> r.value.ret.None?
    decreases fuel, ss
  {
    if ss == [] then Ok(State(env, None))
    else
      match ExecuteStmt(ss[0], env, fuel)
      case Err(f) => Err(f)
      case Ok(State(env', None)) => ExecuteStmts(ss[1..], env', fuel)
      case Ok(State(env', Some(v))) => Ok(State(env', Some(v)))
  }

  /** `RunProgram`: executes from the empty environment and yields the returned value. */
  function RunProgram(program: Program, fuel: nat): (r: Result<Option<nat>>)
    ensures r.Ok? && NoReturns(program) ==> r.value.None?
  {
    match ExecuteStmts(program, [], fuel)
    case Err(f) => Err(f)
    case Ok(st) => Ok(st.ret)
  }

  /** What an update does to the set of names and to uniqueness. */
  lemma UpdateEnvNames(name: string, value: nat, env: Env)
    ensures Names(UpdateEnv(name, value, env)) == Names(env) + {name}
    ensures Unique(env) ==> Unique(UpdateEnv(name, value, env))
  {
    var r := UpdateEnv(name, value, env);
    if name in Names(env) {
      var i :| FirstBindingAt(env, name, i) && r == env[i := Binding(name, value)];
      forall n | n in Names(r) ensures n in Names(env) {
        var b :| b in r && b.varname == n;
        var k :| 0 <= k < |r| && r[k] == b;
        assert env[k] in env;
      }
      forall n | n in Names(env) ensures n in Names(r) {
        var b :| b in env && b.varname == n;
        var k :| 0 <= k < |env| && env[k] == b;
        assert r[k] in r;
      }
    } else {
      assert r == env + [Binding(name, value)];
      forall n | n in Names(r) ensures n in Names(env) + {name} {
        var b :| b in r && b.varname == n;
        var k :| 0 <= k < |r| && r[k] == b;
        if k < |env| { assert env[k] in env; }
      }
      forall n | n in Names(env) + {name} ensures n in Names(r) {
        if n == name {
          assert r[|env|] in r;
        } else {
          var b :| b in env && b.varname == n;
          var k :| 0 <= k < |env| && env[k] == b;
          assert r[k] in r;
        }
      }
      if Unique(env) {
        forall k | 0 <= k < |env| ensures env[k].varname != name {
          assert env[k] in env;
        }
      }
    }
  }

  /** After an update, `name` looks up to the new value and every other name as before. */
  lemma {:induction false} LookupAfterUpdate(name: string, value: nat, env: Env, other: string)
    ensures Lookup(name, UpdateEnv(name, value, env)) == Some(value)
    ensures other != name ==> Lookup(other, UpdateEnv(name, value, env)) == Lookup(other, env)
  {
    if env != [] && env[0].varname != name {
      LookupAfterUpdate(name, value, env[1..], other);
      assert UpdateEnv(name, value, env)[1..] == UpdateEnv(name, value, env[1..]);
    }
  }

  /** With at most one binding per name, any binding of `name` is the one found. */
  lemma {:induction false} LookupUnique(env: Env, i: nat)
    requires Unique(env) && i < |env|
    ensures Lookup(env[i].varname, env) == Some(env[i].value)
  {
    if i > 0 {
      LookupUnique(env[1..], i - 1);
    }
  }

  /** The environment read as a map from names to values. */
  function AsMap(env: Env): (m: map<string, nat>)
    ensures m.Keys == Names(env)
    ensures forall n :: n in m ==> Lookup(n, env) == Some(m[n])
  {
    map n | n in Names(env) :: Lookup(n, env).value
  }

  /** Updating the list is updating the map it stands for. */
  lemma UpdateEnvAsMap(name: string, value: nat, env: Env)
    ensures AsMap(UpdateEnv(name, value, env)) == AsMap(env)[name := value]
  {
    var m, m' := AsMap(UpdateEnv(name, value, env)), AsMap(env)[name := value];
    UpdateEnvNames(name, value, env);
    assert m.Keys == m'.Keys;
    forall n | n in m ensures m[n] == m'[n] {
      AsMapAfterUpdate(name, value, env, n);
    }
  }

  lemma AsMapAfterUpdate(name: string, value: nat, env: Env, n: string)
    requires n in Names(UpdateEnv(name, value, env))
    ensures n == name ==> AsMap(UpdateEnv(name, value, env))[n] == value
    ensures n != name ==> n in Names(env) && AsMap(UpdateEnv(name, value, env))[n] == AsMap(env)[n]
  {
    LookupAfterUpdate(name, value, env, n);
    UpdateEnvNames(name, value, env);
  }
}
