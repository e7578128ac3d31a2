/** The laws of the operations on values, which expressions and terms share, and
    of the forms whose two meanings are written alike. */
module ValueLaws {
  import opened Values
  import opened Terms
  import opened SpecLang
  import opened Statements

  /** Quotient and remainder together: the remainder is never negative and below
      the divisor's magnitude. */
  lemma DivisionLaw(x: int, y: int)
    ensures var q, r := Apply(Div, IntV(x), IntV(y)), Apply(Mod, IntV(x), IntV(y));
            && q.IntV? && r.IntV? && x == y * q.i + r.i
            && (y != 0 ==> 0 <= r.i < (if y < 0 then -y else y)) && (y == 0 ==> q.i == 0)
  {
  }

  /** Addition counts up, subtraction undoes it, multiplication repeats it. */
  lemma ArithmeticLaws(x: int, y: int)
    ensures Apply(Add, IntV(x), IntV(0)) == IntV(x)
    ensures Apply(Add, IntV(x), IntV(y + 1)) == Apply(Add, Apply(Add, IntV(x), IntV(y)), IntV(1))
    ensures Apply(Add, IntV(0), IntV(y)) == IntV(y)
    ensures Apply(Add, Apply(Sub, IntV(x), IntV(y)), IntV(y)) == IntV(x)
    ensures Apply(Mul, IntV(x), IntV(0)) == IntV(0)
    ensures Apply(Mul, IntV(x), IntV(y + 1)) == Apply(Add, Apply(Mul, IntV(x), IntV(y)), IntV(x))
  {
    assert x * (y + 1) == x * y + x;
  }

  /** Equality compares values of any sort; the comparisons order the integers. */
  lemma OrderLaws(a: Value, b: Value, x: int, y: int)
    ensures AsBool(Apply(Eq, a, b)) <==> a == b
    ensures AsBool(Apply(Ne, a, b)) <==> a != b
    ensures AsBool(Apply(Lt, IntV(x), IntV(y))) <==> x < y
    ensures AsBool(Apply(Gt, IntV(x), IntV(y))) <==> AsBool(Apply(Lt, IntV(y), IntV(x)))
    ensures AsBool(Apply(Le, IntV(x), IntV(y))) <==> !AsBool(Apply(Gt, IntV(x), IntV(y)))
    ensures AsBool(Apply(Ge, IntV(x), IntV(y))) <==> !AsBool(Apply(Lt, IntV(x), IntV(y)))
  {
  }

  lemma ConnectiveLaws(p: bool, q: bool)
    ensures Apply(And, BoolV(p), BoolV(q)) == BoolV(p && q)
    ensures Apply(Or, BoolV(p), BoolV(q)) == BoolV(p || q)
  {
  }

  /** Reading what was written, and past it. */
  lemma ArrayLaws(a: Value, i: Value, j: Value, v: Value)
    ensures Select(Store(a, i, v), j) == if AsInt(i) == AsInt(j) then v else Select(a, j)
    ensures Select(ConstArray(v), j) == v
  {
  }

  /** The indices of `lo..hi` and `lo..=hi`. */
  lemma RangeLaw(k: int, lo: int, hi: int)
    ensures InRange(k, IntV(lo), IntV(hi), false) <==> lo <= k && k < hi
    ensures InRange(k, IntV(lo), IntV(hi), true) <==> InRange(k, IntV(lo), IntV(hi + 1), false)
  {
  }

  // ----- expressions and terms -----

  /** Negation, the opposite, and the choice, in the source and in terms alike. */
  lemma {:induction false} UnaryLaws(p: Program, exp: set<string>, e: Expr, env: Env, t: Term, rho: Valuation)
    ensures AsBool(Eval(p, exp, Not(e), env)) <==> !AsBool(Eval(p, exp, e, env))
    ensures True(TNot(t), rho) <==> !True(t, rho)
    ensures Apply(Add, Eval(p, exp, Neg(e), env), Eval(p, exp, e, env)) == IntV(0)
    ensures Apply(Add, EvalT(TNeg(t), rho), EvalT(t, rho)) == IntV(0)
  {
  }

  lemma {:induction false} ChoiceLaws(p: Program, exp: set<string>, c: Expr, a: Expr, b: Expr, env: Env, rho: Valuation,
                                      tc: Term, ta: Term, tb: Term)
    ensures Eval(p, exp, Ternary(c, a, b), env) == Eval(p, exp, if AsBool(Eval(p, exp, c, env)) then a else b, env)
    ensures EvalT(TIte(tc, ta, tb), rho) == EvalT(if True(tc, rho) then ta else tb, rho)
  {
  }

  /** A `forall` over literals holds exactly if its body does at every index, an
      `exists` exactly if it does at some. */
  lemma {:induction false} QuantifierLaws(p: Program, exp: set<string>, x: string, lo: int, hi: int, body: Expr,
                                          env: Env)
    ensures AsBool(Eval(p, exp, Quant(true, x, IntLit(lo), IntLit(hi), false, body), env))
       <==> forall k: int :: lo <= k < hi ==> AsBool(Eval(p, exp, body, env[x := IntV(k)]))
    ensures AsBool(Eval(p, exp, Quant(false, x, IntLit(lo), IntLit(hi), false, body), env))
       <==> exists k: int :: lo <= k < hi && AsBool(Eval(p, exp, body, env[x := IntV(k)]))
  {
  }

  // ----- statements -----

  /** Stepping a name up and down again leaves its integer as it was; a loop is its
      body once and then itself. */
  lemma {:induction false} StepLaws(p: Program, x: string, n: int, env: Env, fuel: nat)
    requires x in env && env[x] == IntV(n)
    ensures Run(p, IncDec(x, true), env, fuel) == Normal(env[x := IntV(n + 1)])
    ensures Run(p, IncDec(x, false), env, fuel) == Normal(env[x := IntV(n - 1)])
  {
  }

  lemma {:induction false} LoopLaw(p: Program, s: Stmt, env: Env, fuel: nat)
    requires s.While? && AsBool(Eval(p, {}, s.cond, env)) && fuel > 0 && RunScope(p, s.body, env, fuel).Normal?
    ensures Run(p, s, env, fuel) == Run(p, s, RunScope(p, s.body, env, fuel).s, fuel - 1)
  {
  }

  /** A returned value is the state's `result`. */
  lemma {:induction false} ReturnLaw(p: Program, e: Expr, env: Env, fuel: nat)
    ensures var o := Run(p, Return(e), env, fuel);
            o.Returned? && o.s == env["result" := Eval(p, {}, e, env)]
  {
  }
}
