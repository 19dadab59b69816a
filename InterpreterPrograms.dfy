/** The sample expressions and programs of examples/interpreter.ts and what they yield. */
module InterpreterPrograms {
  import opened Wrappers
  import opened Interpreter

  /** Evaluations `a` and `b`: a literal, and a variable bound second in the list. */
  lemma SampleEvaluations()
    ensures Eval(Literal(42), []) == Number(42)
    ensures Eval(Var("y"), [Binding("x", 42), Binding("y", 43)]) == Number(43)
    ensures Eval(Var("y"), [Binding("x", 42)]) == Never
  {
  }

  /** `x = 42; y = x; z = x + y; return z` */
  function SimpleProgram(): Program
  {
    [ Assign("x", Literal(42)),
      Assign("y", Var("x")),
      Assign("z", Add(Var("x"), Var("y"))),
      Return(Var("z")) ]
  }

  lemma SimpleProgramReturns84(fuel: nat)
    ensures RunProgram(SimpleProgram(), fuel) == Ok(Some(84))
  {
    var p := SimpleProgram();
    var e1 := [Binding("x", 42)];
    var e2 := [Binding("x", 42), Binding("y", 42)];
    SimpleAssignments(fuel);
    FallThrough(p, [], fuel, e1);
    FallThrough(p[1..], e1, fuel, e2);
    SimpleSum(fuel);
  }

  /** `x = 42` and then `y = x`. */
  lemma SimpleAssignments(fuel: nat)
    ensures ExecuteStmt(SimpleProgram()[0], [], fuel) == Ok(State([Binding("x", 42)], None))
    ensures ExecuteStmt(SimpleProgram()[1], [Binding("x", 42)], fuel)
         == Ok(State([Binding("x", 42), Binding("y", 42)], None))
  {
    assert UpdateEnv("y", 42, [Binding("x", 42)]) == [Binding("x", 42), Binding("y", 42)];
  }

  /** `z = x + y` and then `return z`. */
  lemma SimpleSum(fuel: nat)
    ensures ExecuteStmts(SimpleProgram()[1..][1..], [Binding("x", 42), Binding("y", 42)], fuel)
         == Ok(State([Binding("x", 42), Binding("y", 42), Binding("z", 84)], Some(84)))
  {
    var p := SimpleProgram()[1..][1..];
    var e2 := [Binding("x", 42), Binding("y", 42)];
    var e3 := [Binding("x", 42), Binding("y", 42), Binding("z", 84)];
    SimpleAddition(fuel);
    FallThrough(p, e2, fuel, e3);
    assert p[1..] == [Return(Var("z"))];
    SimpleReturn(fuel);
  }

  lemma SimpleReturn(fuel: nat)
    ensures ExecuteStmts([Return(Var("z"))], [Binding("x", 42), Binding("y", 42), Binding("z", 84)], fuel)
         == Ok(State([Binding("x", 42), Binding("y", 42), Binding("z", 84)], Some(84)))
  {
    var e3 := [Binding("x", 42), Binding("y", 42), Binding("z", 84)];
    assert Lookup("z", e3) == Some(84) by {
      assert e3[1..][1..] == [Binding("z", 84)];
    }
  }

  lemma SimpleAddition(fuel: nat)
    ensures ExecuteStmt(Assign("z", Add(Var("x"), Var("y"))), [Binding("x", 42), Binding("y", 42)], fuel)
         == Ok(State([Binding("x", 42), Binding("y", 42), Binding("z", 84)], None))
  {
    var e2 := [Binding("x", 42), Binding("y", 42)];
    assert Lookup("y", e2) == Some(42) by {
      assert e2[1..] == [Binding("y", 42)];
    }
    assert Eval(Add(Var("x"), Var("y")), e2) == Number(84);
    assert UpdateEnv("z", 84, [Binding("y", 42)]) == [Binding("y", 42), Binding("z", 84)] by {
      assert [Binding("y", 42)][1..] == [];
    }
    assert UpdateEnv("z", 84, e2) == [e2[0]] + UpdateEnv("z", 84, e2[1..]);
    assert [e2[0]] + [Binding("y", 42), Binding("z", 84)] == [Binding("x", 42), Binding("y", 42), Binding("z", 84)];
  }

  /** The loop of `sumOfNumbersFrom1To10`: `while n { sum = sum + n; n = n - 1 }`. */
  function SumLoop(): Stmt
  {
    While(Var("n"), [
      Assign("sum", Add(Var("sum"), Var("n"))),
      Assign("n", Sub(Var("n"), Literal(1)))
    ])
  }

  /** `sumOfNumbersFrom1To10` with the starting value of `n` as a parameter. */
  function SumOfNumbersFrom1To(n: nat): Program
  {
    [ Assign("n", Literal(n)),
      Assign("sum", Literal(0)),
      SumLoop(),
      Return(Var("sum")) ]
  }

  /** One pass of the loop body: sum = sum + n, then n = n - 1. */
  lemma SumLoopBody(k: nat, s: nat, fuel: nat)
    requires k > 0
    ensures ExecuteStmts(SumLoop().body, [Binding("n", k), Binding("sum", s)], fuel)
         == Ok(State([Binding("n", k - 1), Binding("sum", s + k)], None))
  {
    var env := [Binding("n", k), Binding("sum", s)];
    var mid := [Binding("n", k), Binding("sum", s + k)];
    var env' := [Binding("n", k - 1), Binding("sum", s + k)];
    var body := SumLoop().body;
    assert ExecuteStmt(body[0], env, fuel) == Ok(State(mid, None)) by {
      assert env[1..] == [Binding("sum", s)];
      assert Lookup("sum", env) == Some(s);
      assert Eval(body[0].rhs, env) == Number(s + k);
      assert UpdateEnv("sum", s + k, env) == mid;
    }
    assert ExecuteStmt(body[1], mid, fuel) == Ok(State(env', None)) by {
      assert mid[1..] == [Binding("sum", s + k)];
      assert Eval(body[1].rhs, mid) == Number(k - 1);
      assert UpdateEnv("n", k - 1, mid) == env';
    }
    assert ExecuteStmts(body[1..], mid, fuel) == Ok(State(env', None));
  }

  /** From n = k and sum = s, the loop adds 1 + 2 + ... + k to sum and stops at n = 0. */
  lemma {:induction false} SumLoopAdds(k: nat, s: nat, fuel: nat)
    requires k <= fuel
    ensures ExecuteStmt(SumLoop(), [Binding("n", k), Binding("sum", s)], fuel)
         == Ok(State([Binding("n", 0), Binding("sum", s + k * (k + 1) / 2)], None))
  {
    if k > 0 {
      SumLoopBody(k, s, fuel);
      SumLoopAdds(k - 1, s + k, fuel - 1);
      assert s + k + (k - 1) * k / 2 == s + k * (k + 1) / 2;
    }
  }

  /** A first statement that falls through hands its environment to the rest. */
  lemma FallThrough(ss: seq<Stmt>, env: Env, fuel: nat, env': Env)
    requires ss != [] && ExecuteStmt(ss[0], env, fuel) == Ok(State(env', None))
    ensures ExecuteStmts(ss, env, fuel) == ExecuteStmts(ss[1..], env', fuel)
  {
  }

  /** The two assignments before the loop bind n and then sum. */
  lemma SumPrelude(n: nat, fuel: nat)
    ensures ExecuteStmts(SumOfNumbersFrom1To(n), [], fuel)
         == ExecuteStmts([SumLoop(), Return(Var("sum"))], [Binding("n", n), Binding("sum", 0)], fuel)
  {
    var p := SumOfNumbersFrom1To(n);
    var e1 := [Binding("n", n)];
    FallThrough(p, [], fuel, e1);
    assert UpdateEnv("sum", 0, e1) == [Binding("n", n), Binding("sum", 0)];
    FallThrough(p[1..], e1, fuel, [Binding("n", n), Binding("sum", 0)]);
    assert p[1..][1..] == [SumLoop(), Return(Var("sum"))];
  }

  /** The loop, then `return sum`. */
  lemma SumTail(n: nat, fuel: nat)
    requires n <= fuel
    ensures ExecuteStmts([SumLoop(), Return(Var("sum"))], [Binding("n", n), Binding("sum", 0)], fuel)
         == Ok(State([Binding("n", 0), Binding("sum", n * (n + 1) / 2)], Some(n * (n + 1) / 2)))
  {
    var total := n * (n + 1) / 2;
    var env' := [Binding("n", 0), Binding("sum", total)];
    SumLoopAdds(n, 0, fuel);
    FallThrough([SumLoop(), Return(Var("sum"))], [Binding("n", n), Binding("sum", 0)], fuel, env');
    assert Lookup("sum", env') == Some(total) by {
      assert env'[1..] == [Binding("sum", total)];
    }
    assert [SumLoop(), Return(Var("sum"))][1..] == [Return(Var("sum"))];
  }

  /** The program returns 1 + 2 + ... + n = n(n+1)/2 when each loop may iterate n times. */
  lemma SumOfNumbersFrom1ToReturns(n: nat, fuel: nat)
    requires n <= fuel
    ensures RunProgram(SumOfNumbersFrom1To(n), fuel) == Ok(Some(n * (n + 1) / 2))
  {
    SumPrelude(n, fuel);
    SumTail(n, fuel);
  }

  /** `sumOfNumbersFrom1To10` returns 55, given fuel for its ten iterations. */
  lemma SumOfNumbersFrom1To10Returns55(fuel: nat)
    requires fuel >= 10
    ensures RunProgram(SumOfNumbersFrom1To(10), fuel) == Ok(Some(55))
  {
    SumOfNumbersFrom1ToReturns(10, fuel);
  }
}
