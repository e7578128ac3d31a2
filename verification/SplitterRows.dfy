/** Report rows of the split goals, and inputs on which splitting is not sound. */
module SplitterRows {
  import opened Values
  import opened SpecLang
  import opened GoalSplitter

  // ----- every leaf has a row of its own -----

  lemma {:induction false} DecimalInjective(m: nat, n: nat)
    requires Decimal(m) == Decimal(n)
    ensures m == n
  {
    var s := Decimal(m);
    if m < 10 && n < 10 {
      assert s[0] == Digit(m) == Digit(n);
    } else if m >= 10 && n >= 10 {
      assert s[|s| - 1] == Digit(m % 10) == Digit(n % 10);
      assert s[..|s| - 1] == Decimal(m / 10) == Decimal(n / 10);
      DecimalInjective(m / 10, n / 10);
    }
  }

  lemma PrefixedDiffer(row: string, mark: string, m: nat, n: nat)
    requires row + mark + Decimal(m) == row + mark + Decimal(n)
    ensures m == n
  {
    var s := row + mark + Decimal(m);
    assert s[|row + mark|..] == Decimal(m) == Decimal(n);
    DecimalInjective(m, n);
  }

  ghost predicate RowsUnder(gs: seq<Goal>, prefix: string) {
    forall i :: 0 <= i < |gs| ==> prefix <= gs[i].row
  }

  ghost predicate RowsDistinct(gs: seq<Goal>) {
    forall i, j :: 0 <= i < j < |gs| ==> gs[i].row != gs[j].row
  }

  /** The leaves of one goal appear under pairwise different rows, each extending
      the goal's own. */
  lemma {:induction false} LeavesHaveTheirOwnRows(g: Goal)
    ensures RowsUnder(Split(g), g.row) && RowsDistinct(Split(g))
    decreases g.term
  {
    var e, gs := g.term, Split(g);
    if e.Bin? && e.op.And? {
      var L, R := Goal(SubLabel(g.row, 0), e.l, g.premises), Goal(SubLabel(g.row, 1), e.r, g.premises);
      LeavesHaveTheirOwnRows(L);
      LeavesHaveTheirOwnRows(R);
      SidesDiffer(g.row, Split(L), Split(R));
    } else if e.Quant? && IsGuardedConjunction(e.body) {
      TwoRows(g.row);
    } else if HasLiteralRange(e) && RangeEnd(e) < e.lo.v {
    } else if HasLiteralRange(e) && RangeEnd(e) - e.lo.v <= MAX_UNROLL {
      forall i | 0 <= i < |gs| ensures gs[i].row == SubLabel(g.row, i) { InstanceAt(g, e.lo.v, 0, i); }
      forall i, j | 0 <= i < j < |gs| ensures gs[i].row != gs[j].row {
        if gs[i].row == gs[j].row { PrefixedDiffer(g.row, "#s", i, j); }
      }
    } else if e.Ternary? {
      TwoRows(g.row);
    } else if |g.premises| >= 2 {
      IsolatedRows(g);
    }
  }

  lemma TwoRows(row: string)
    ensures row <= SubLabel(row, 0) && row <= SubLabel(row, 1) && SubLabel(row, 0) != SubLabel(row, 1)
  {
    if SubLabel(row, 0) == SubLabel(row, 1) { PrefixedDiffer(row, "#s", 0, 1); }
  }

  lemma SidesDiffer(row: string, a: seq<Goal>, b: seq<Goal>)
    requires RowsUnder(a, SubLabel(row, 0)) && RowsUnder(b, SubLabel(row, 1))
    requires RowsDistinct(a) && RowsDistinct(b)
    ensures RowsUnder(a + b, row) && RowsDistinct(a + b)
  {
    var n := |row| + 2;
    forall i | 0 <= i < |a| ensures row <= a[i].row && n < |a[i].row| && a[i].row[n] == '0' {
      assert SubLabel(row, 0)[n] == '0' && SubLabel(row, 0)[..|row|] == row;
      assert SubLabel(row, 0) <= a[i].row;
    }
    forall i | 0 <= i < |b| ensures row <= b[i].row && n < |b[i].row| && b[i].row[n] == '1' {
      assert SubLabel(row, 1)[n] == '1' && SubLabel(row, 1)[..|row|] == row;
      assert SubLabel(row, 1) <= b[i].row;
    }
  }

  lemma IsolatedRows(g: Goal)
    ensures var gs := Isolated(g, 0) + [Goal(g.row + "#pfull", g.term, g.premises)];
            RowsUnder(gs, g.row) && RowsDistinct(gs)
  {
    var isolated := Isolated(g, 0);
    forall i | 0 <= i < |isolated|
      ensures isolated[i].row == g.row + "#p" + Decimal(i) && g.row <= isolated[i].row
      ensures isolated[i].row != g.row + "#pfull"
    {
      IsolatedAt(g, 0, i);
      NotFull(g.row, i);
    }
    forall i, j | 0 <= i < j < |isolated| ensures isolated[i].row != isolated[j].row {
      if isolated[i].row == isolated[j].row { PrefixedDiffer(g.row, "#p", i, j); }
    }
  }

  lemma NotFull(row: string, i: nat)
    ensures row + "#p" + Decimal(i) != row + "#pfull"
  {
    StartsWithDigit(i);
    assert (row + "#pfull")[|row| + 2] == 'f';
    assert (row + "#p" + Decimal(i))[|row| + 2] == Decimal(i)[0];
  }

  lemma {:induction false} StartsWithDigit(n: nat)
    ensures exists d :: 0 <= d < 10 && Decimal(n)[0] == Digit(d)
  {
    if n >= 10 {
      StartsWithDigit(n / 10);
      assert Decimal(n)[0] == Decimal(n / 10)[0];
    } else {
      assert Decimal(n)[0] == Digit(n);
    }
  }

  // ----- where splitting is not sound -----

  /** The implication split turns an `exists` into two `forall`s. When both are
      valid, the `exists` is valid exactly if its range is nonempty wherever the
      premises hold. */
  lemma {:induction false} ExistsSplitExact(p: Program, types: Types, g: Goal)
    requires g.term.Quant? && !g.term.isForall && IsGuardedConjunction(g.term.body)
    requires AllValid(p, types, Split(g))
    ensures Valid(p, types, g)
           <==> forall env: Env :: WellTyped(env, types) && AllHold(p, g.premises, env) ==>
              RangeInhabited(p, g.term, env)
  {
    var q := g.term;
    assert Valid(p, types, Split(g)[0]) && Valid(p, types, Split(g)[1]);
    forall env: Env | WellTyped(env, types) && AllHold(p, g.premises, env)
      ensures Holds(p, q, env) <==> RangeInhabited(p, q, env)
    {
      HalfMeaning(p, q.(isForall := true), env);
      ForallMakesExists(p, q, env);
    }
  }

  lemma {:induction false} ForallMakesExists(p: Program, q: Expr, env: Env)
    requires q.Quant? && !q.isForall && Holds(p, q.(isForall := true), env)
    ensures Holds(p, q, env) <==> RangeInhabited(p, q, env)
  {
    var vlo, vhi := Eval(p, {}, q.lo, env), Eval(p, {}, q.hi, env);
    assert forall k: int :: InRange(k, vlo, vhi, q.inclusive) ==> AsBool(Eval(p, {}, q.body, env[q.binder := IntV(k)]));
    if RangeInhabited(p, q, env) {
      var k: int :| InRange(k, vlo, vhi, q.inclusive);
      assert AsBool(Eval(p, {}, q.body, env[q.binder := IntV(k)]));
    }
  }

  ghost predicate RangeInhabited(p: Program, q: Expr, env: Env)
    requires q.Quant?
  {
    exists k: int :: InRange(k, Eval(p, {}, q.lo, env), Eval(p, {}, q.hi, env), q.inclusive)
  }

  /** `exists k in 0..0. !true || (true && true)`: both halves are valid, the
      goal is not. */
  lemma {:induction false} ExistsSplitUnsound()
    ensures var body := Bin(Or, Not(BoolLit(true)), Bin(And, BoolLit(true), BoolLit(true)));
            var g := Goal("g", Quant(false, "k", IntLit(0), IntLit(0), false, body), []);
            var p := Program(map[], map[]);
            AllValid(p, map[], Split(g)) && !Valid(p, map[], g)
  {
    var p := Program(map[], map[]);
    var body := Bin(Or, Not(BoolLit(true)), Bin(And, BoolLit(true), BoolLit(true)));
    var q := Quant(false, "k", IntLit(0), IntLit(0), false, body);
    var g := Goal("g", q, []);
    forall i | 0 <= i < |Split(g)| ensures Valid(p, map[], Split(g)[i]) {
      var half := Bin(Or, Not(BoolLit(true)), BoolLit(true));
      assert Split(g)[i].term == Quant(true, "k", IntLit(0), IntLit(0), false, half);
      forall env: Env ensures Holds(p, Split(g)[i].term, env) { LiteralForall(p, Split(g)[i].term, env); }
    }
    assert !RangeInhabited(p, q, map[]);
    assert AllHold(p, g.premises, map[]);
    ExistsSplitExact(p, map[], g);
  }

  const IS_ZERO := Program(map["isZero" := SpecFn(["x"], Bin(Eq, Var("x"), IntLit(0)))], map[])

  const K_INT: Types := map["k" := IntSort]
  const CALL := Call("isZero", [Var("k")])
  const K_IS_ZERO := Bin(Eq, Var("k"), IntLit(0))
  const CAPTURED := Goal("g", Quant(true, "k", IntLit(0), IntLit(2), false, CALL), [K_IS_ZERO])

  /** `k == 0` implies `forall k in 0..2. isZero(k)` is not valid, but it is
      split into two goals that are: the call keeps its `k`, which the premise
      then captures. The guard UnrollSafe fails. */
  lemma {:induction false} CapturedBinderUnsound()
    ensures AllValid(IS_ZERO, K_INT, Split(CAPTURED)) && !Valid(IS_ZERO, K_INT, CAPTURED)
    ensures !UnrollSafe(K_INT, CAPTURED.term, CAPTURED.premises)
  {
    var g := CAPTURED;
    forall i | 0 <= i < |Split(g)| ensures Valid(IS_ZERO, K_INT, Split(g)[i]) {
      InstanceAt(g, 0, 0, i);
      CapturedLeaf(Split(g)[i]);
    }
    CapturedNotValid();
    CapturedNotSafe();
  }

  lemma {:induction false} CapturedLeaf(leaf: Goal)
    requires leaf.term == CALL && leaf.premises == [K_IS_ZERO]
    ensures Valid(IS_ZERO, K_INT, leaf)
  {
    forall env: Env | WellTyped(env, K_INT) && AllHold(IS_ZERO, leaf.premises, env) ensures Holds(IS_ZERO, CALL, env) {
      assert Holds(IS_ZERO, leaf.premises[0], env);
      IsZeroMeaning(env);
    }
  }

  lemma {:induction false} CapturedNotSafe()
    ensures !UnrollSafe(K_INT, CAPTURED.term, CAPTURED.premises)
  {
    assert FreeVarsSeq([Var("k")]) == {"k"} by { assert [Var("k")][1..] == []; assert FreeVars(Var("k")) == {"k"}; }
    assert "k" in FreeVars(CALL) && "k" in FreeVars(CAPTURED.premises[0]);
  }

  lemma {:induction false} CapturedNotValid()
    ensures !Valid(IS_ZERO, K_INT, CAPTURED)
  {
    var env: Env := map["k" := IntV(0)];
    IsZeroMeaning(env);
    assert AllHold(IS_ZERO, CAPTURED.premises, env);
    IsZeroMeaning(env["k" := IntV(1)]);
    LiteralForall(IS_ZERO, CAPTURED.term, env);
    assert !Holds(IS_ZERO, CAPTURED.term.body, env["k" := IntV(1)]);
  }

  lemma {:induction false} IsZeroMeaning(env: Env)
    ensures Holds(IS_ZERO, Call("isZero", [Var("k")]), env) <==> Lookup(IS_ZERO, env, "k") == IntV(0)
    ensures Holds(IS_ZERO, Bin(Eq, Var("k"), IntLit(0)), env) <==> Lookup(IS_ZERO, env, "k") == IntV(0)
  {
    var v := Lookup(IS_ZERO, env, "k");
    assert EvalSeq(IS_ZERO, {}, [Var("k")], env) == [v] by { assert [Var("k")][1..] == []; assert [v] + [] == [v]; }
    var callee: Env := map["x" := v];
    assert Bind(map[], ["x"], [v]) == callee by { assert ["x"][1..] == [] && [v][1..] == []; }
    assert Eval(IS_ZERO, {} + {"isZero"}, Bin(Eq, Var("x"), IntLit(0)), callee) == BoolV(v == IntV(0));
  }

  // ----- which ranges are unrolled -----

  /** A quantifier over literals that no earlier strategy takes: up to 1024
      instances, one for each index in order; a single true goal if the range is
      backward; otherwise it is not unrolled. */
  lemma {:induction false} UnrollLimit(g: Goal, lo: int, hi: int)
    requires g.term.Quant? && g.term.isForall && g.term.lo == IntLit(lo) && g.term.hi == IntLit(hi)
    requires !IsGuardedConjunction(g.term.body)
    ensures var n := if g.term.inclusive then hi - lo + 1 else hi - lo;
            && (0 <= n <= 1024 ==> |Split(g)| == n && forall j :: 0 <= j < n ==>
                  Split(g)[j] == Goal(SubLabel(g.row, j), Subst(g.term.body, g.term.binder, lo + j), g.premises))
            && (n < 0 ==> Split(g) == [Goal(SubLabel(g.row, 0), BoolLit(true), g.premises)])
            && (n > 1024 ==> Split(g) == if |g.premises| < 2 then [g]
                                         else Isolated(g, 0) + [Goal(g.row + "#pfull", g.term, g.premises)])
  {
    var n := if g.term.inclusive then hi - lo + 1 else hi - lo;
    if 0 <= n <= 1024 {
      forall j | 0 <= j < n
        ensures Split(g)[j] == Goal(SubLabel(g.row, j), Subst(g.term.body, g.term.binder, lo + j), g.premises)
      {
        InstanceAt(g, lo, 0, j);
      }
    }
  }

  // ----- the numbers in labels -----

  /** The number a string of digits stands for. */
  function Number(s: string): int {
    if |s| == 0 then 0 else 10 * Number(s[..|s| - 1]) + (s[|s| - 1] as int - '0' as int)
  }

  lemma {:induction false} DecimalIsNumber(n: nat)
    ensures Number(Decimal(n)) == n && forall i :: 0 <= i < |Decimal(n)| ==> '0' <= Decimal(n)[i] <= '9'
    decreases n
  {
    var last := [Digit(n % 10)];
    if n < 10 {
      assert Decimal(n) == last && last[..0] == [] && Number([]) == 0;
      assert Number(last) == 10 * Number(last[..0]) + (last[0] as int - '0' as int);
    } else {
      var init := Decimal(n / 10);
      DecimalIsNumber(n / 10);
      assert (init + last)[..|init|] == init;
    }
  }

  /** An `old` of the unrolled binder becomes an `old` of a literal, which has no
      snapshot. */
  lemma {:induction false} OldOfBinder(x: string, v: int, y: string)
    ensures Subst(Old(Var(x)), x, v) == Old(IntLit(v))
    ensures y != x ==> Subst(Old(Var(y)), x, v) == Old(Var(y))
  {
  }
}
