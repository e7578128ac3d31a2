/** Splitting one proof goal into goals that are discharged separately. */
module GoalSplitter {
  import opened Values
  import opened SpecLang

  /** A goal to prove under premises. Premises are kept as the expressions they
      were lowered from. */
  datatype Goal = Goal(row: string, term: Expr, premises: seq<Expr>)

  const MAX_UNROLL := 1024

  // ----- labels -----

  function Digit(d: nat): char
    requires d < 10
  {
    ['0', '1', '2', '3', '4', '5', '6', '7', '8', '9'][d]
  }

  function Decimal(n: nat): (s: string)
    ensures |s| > 0
  {
    if n < 10 then [Digit(n)] else Decimal(n / 10) + [Digit(n % 10)]
  }

  function SubLabel(row: string, i: nat): string {
    row + "#s" + Decimal(i)
  }

  // ----- the strategies -----

  /** `substBinder`: calls and nested quantifiers are copied unchanged. */
  function Subst(e: Expr, x: string, v: int): Expr {
    match e
    case Var(y) => if y == x then IntLit(v) else e
    case Old(sub) => Old(Subst(sub, x, v))
    case Not(a) => Not(Subst(a, x, v))
    case Neg(a) => Neg(Subst(a, x, v))
    case Bin(op, l, r) => Bin(op, Subst(l, x, v), Subst(r, x, v))
    case Ternary(c, a, b) => Ternary(Subst(c, x, v), Subst(a, x, v), Subst(b, x, v))
    case Index(a, i) => Index(Subst(a, x, v), Subst(i, x, v))
    case IntLit(_) => e
    case BoolLit(_) => e
    case Quant(_, _, _, _, _, _) => e
    case Call(_, _) => e
  }

  /** `matchDesugaredImplies` on a quantifier's body, with a conjunction as the
      consequent: `!A || (C && D)`. */
  predicate IsGuardedConjunction(e: Expr) {
    e.Bin? && e.op.Or? && e.l.Not? && e.r.Bin? && e.r.op.And?
  }

  /** `quantLiteralRange` */
  predicate HasLiteralRange(e: Expr) {
    e.Quant? && e.isForall && e.lo.IntLit? && e.hi.IntLit?
  }

  function RangeEnd(e: Expr): int
    requires HasLiteralRange(e)
  {
    if e.inclusive then e.hi.v + 1 else e.hi.v
  }

  function Half(q: Expr, conjunct: Expr): Expr
    requires q.Quant? && IsGuardedConjunction(q.body)
  {
    Quant(true, q.binder, q.lo, q.hi, q.inclusive, Bin(Or, Not(q.body.l.e), conjunct))
  }

  /** The instances `k, k + 1, ..` of an unrolled quantifier, labelled from `i`. */
  function Instances(g: Goal, k: int, i: nat): (r: seq<Goal>)
    requires HasLiteralRange(g.term)
    ensures |r| == if k < RangeEnd(g.term) then RangeEnd(g.term) - k else 0
    decreases RangeEnd(g.term) - k
  {
    if k >= RangeEnd(g.term) then []
    else [Goal(SubLabel(g.row, i), Subst(g.term.body, g.term.binder, k), g.premises)] + Instances(g, k + 1, i + 1)
  }

  function Isolated(g: Goal, i: nat): (r: seq<Goal>)
    requires i <= |g.premises|
    ensures |r| == |g.premises| - i
    decreases |g.premises| - i
  {
    if i == |g.premises| then []
    else [Goal(g.row + "#p" + Decimal(i), g.term, [g.premises[i]])] + Isolated(g, i + 1)
  }

  /** `splitGoalImpl`: the first strategy that applies wins; only the conjunct
      split recurses. */
  function Split(g: Goal): seq<Goal>
    decreases g.term
  {
    var e := g.term;
    if e.Bin? && e.op.And? then
      Split(Goal(SubLabel(g.row, 0), e.l, g.premises)) + Split(Goal(SubLabel(g.row, 1), e.r, g.premises))
    else if e.Quant? && IsGuardedConjunction(e.body) then
      [Goal(SubLabel(g.row, 0), Half(e, e.body.r.l), g.premises),
       Goal(SubLabel(g.row, 1), Half(e, e.body.r.r), g.premises)]
    else if HasLiteralRange(e) && RangeEnd(e) < e.lo.v then
      [Goal(SubLabel(g.row, 0), BoolLit(true), g.premises)]
    else if HasLiteralRange(e) && RangeEnd(e) - e.lo.v <= MAX_UNROLL then
      Instances(g, e.lo.v, 0)
    else if e.Ternary? then
      [Goal(SubLabel(g.row, 0), e.t, g.premises + [e.c]), Goal(SubLabel(g.row, 1), e.f, g.premises + [Not(e.c)])]
    else if |g.premises| >= 2 then
      Isolated(g, 0) + [Goal(g.row + "#pfull", e, g.premises)]
    else [g]
  }

  /** The loops of the splitter append instances and isolated premises one by
      one. */
  method UnrollGoal(g: Goal) returns (goals: seq<Goal>)
    requires HasLiteralRange(g.term) && g.term.lo.v <= RangeEnd(g.term)
    ensures goals == Instances(g, g.term.lo.v, 0)
  {
    var e := g.term;
    goals := [];
    var k, idx := e.lo.v, 0;
    while k < RangeEnd(e)
      invariant e.lo.v <= k <= RangeEnd(e) && idx == k - e.lo.v
      invariant goals + Instances(g, k, idx) == Instances(g, e.lo.v, 0)
    {
      var inst := Goal(SubLabel(g.row, idx), Subst(e.body, e.binder, k), g.premises);
      assert goals + Instances(g, k, idx) == (goals + [inst]) + Instances(g, k + 1, idx + 1);
      goals, idx, k := goals + [inst], idx + 1, k + 1;
    }
    assert goals + [] == goals;
  }

  method IsolatePremises(g: Goal) returns (goals: seq<Goal>)
    ensures goals == Isolated(g, 0)
  {
    goals := [];
    for i := 0 to |g.premises|
      invariant goals + Isolated(g, i) == Isolated(g, 0)
    {
      var one := Goal(g.row + "#p" + Decimal(i), g.term, [g.premises[i]]);
      assert goals + Isolated(g, i) == (goals + [one]) + Isolated(g, i + 1);
      goals := goals + [one];
    }
    assert goals + [] == goals;
  }

  method SplitGoal(g: Goal) returns (goals: seq<Goal>)
    ensures goals == Split(g)
    decreases g.term
  {
    var e := g.term;
    if e.Bin? && e.op.And? {
      var rl := SplitGoal(Goal(SubLabel(g.row, 0), e.l, g.premises));
      var rr := SplitGoal(Goal(SubLabel(g.row, 1), e.r, g.premises));
      goals := rl + rr;
    } else if e.Quant? && IsGuardedConjunction(e.body) {
      goals := [Goal(SubLabel(g.row, 0), Half(e, e.body.r.l), g.premises),
                Goal(SubLabel(g.row, 1), Half(e, e.body.r.r), g.premises)];
    } else if HasLiteralRange(e) && RangeEnd(e) < e.lo.v {
      goals := [Goal(SubLabel(g.row, 0), BoolLit(true), g.premises)];
    } else if HasLiteralRange(e) && RangeEnd(e) - e.lo.v <= MAX_UNROLL {
      goals := UnrollGoal(g);
    } else if e.Ternary? {
      goals := [Goal(SubLabel(g.row, 0), e.t, g.premises + [e.c]),
                Goal(SubLabel(g.row, 1), e.f, g.premises + [Not(e.c)])];
    } else if |g.premises| >= 2 {
      goals := IsolatePremises(g);
      goals := goals + [Goal(g.row + "#pfull", e, g.premises)];
    } else {
      goals := [g];
    }
  }

  // ----- validity -----

  ghost predicate Holds(p: Program, e: Expr, env: Env) {
    AsBool(Eval(p, {}, e, env))
  }

  ghost predicate AllHold(p: Program, es: seq<Expr>, env: Env) {
    forall i :: 0 <= i < |es| ==> Holds(p, es[i], env)
  }

  /** The sorts of the names in scope. */
  type Types = map<string, Sort>

  ghost predicate WellTyped(env: Env, types: Types) {
    forall x :: x in types ==> x in env && HasSort(env[x], types[x])
  }

  /** The goal holds in every environment with values of the declared sorts; a
      name the encoder cannot resolve is unconstrained. */
  ghost predicate Valid(p: Program, types: Types, g: Goal) {
    forall env: Env :: WellTyped(env, types) && AllHold(p, g.premises, env) ==> Holds(p, g.term, env)
  }

  ghost predicate AllValid(p: Program, types: Types, gs: seq<Goal>) {
    forall i :: 0 <= i < |gs| ==> Valid(p, types, gs[i])
  }

  // ----- substitution -----

  /** The binder occurs only where substBinder looks. */
  predicate Handled(e: Expr, x: string) {
    match e
    case Old(sub) => sub != Var(x)
    case Not(a) => Handled(a, x)
    case Neg(a) => Handled(a, x)
    case Bin(_, l, r) => Handled(l, x) && Handled(r, x)
    case Ternary(c, a, b) => Handled(c, x) && Handled(a, x) && Handled(b, x)
    case Index(a, i) => Handled(a, x) && Handled(i, x)
    case Quant(_, _, _, _, _, _) => x !in FreeVars(e)
    case Call(_, _) => x !in FreeVars(e)
    case _ => true
  }

  /** The binder is never wrapped in `old`, outside calls and quantifiers. */
  predicate NoOldOf(e: Expr, x: string) {
    match e
    case Old(sub) => sub != Var(x)
    case Not(a) => NoOldOf(a, x)
    case Neg(a) => NoOldOf(a, x)
    case Bin(_, l, r) => NoOldOf(l, x) && NoOldOf(r, x)
    case Ternary(c, a, b) => NoOldOf(c, x) && NoOldOf(a, x) && NoOldOf(b, x)
    case Index(a, i) => NoOldOf(a, x) && NoOldOf(i, x)
    case _ => true
  }

  /** On handled forms, evaluating the substituted expression is evaluating the
      original with the binder bound to the value. */
  lemma {:induction false} SubstIsBinding(p: Program, e: Expr, x: string, v: int, env: Env)
    requires Handled(e, x) && !IsOldName(x)
    ensures Eval(p, {}, Subst(e, x, v), env) == Eval(p, {}, e, env[x := IntV(v)])
  {
    match e
    case IntLit(_) =>
    case BoolLit(_) =>
    case Var(_) =>
    case Old(sub) =>
      if sub.Var? { assert OldName(sub.name) != x; }
    case Not(a) => SubstIsBinding(p, a, x, v, env);
    case Neg(a) => SubstIsBinding(p, a, x, v, env);
    case Bin(_, l, r) => SubstIsBinding(p, l, x, v, env); SubstIsBinding(p, r, x, v, env);
    case Ternary(c, a, b) =>
      SubstIsBinding(p, c, x, v, env); SubstIsBinding(p, a, x, v, env); SubstIsBinding(p, b, x, v, env);
    case Index(a, i) => SubstIsBinding(p, a, x, v, env); SubstIsBinding(p, i, x, v, env);
    case Quant(_, _, _, _, _, _) => EvalFree(p, {}, e, env, env[x := IntV(v)]);
    case Call(_, _) => EvalFree(p, {}, e, env, env[x := IntV(v)]);
  }

  /** Where the binder already has the value, substitution changes nothing, even
      with occurrences it does not reach. */
  lemma {:induction false} SubstUnderBinding(p: Program, e: Expr, x: string, v: int, env: Env)
    requires x in env && env[x] == IntV(v) && NoOldOf(e, x)
    ensures Eval(p, {}, Subst(e, x, v), env) == Eval(p, {}, e, env)
  {
    match e
    case Not(a) => SubstUnderBinding(p, a, x, v, env);
    case Neg(a) => SubstUnderBinding(p, a, x, v, env);
    case Bin(_, l, r) => SubstUnderBinding(p, l, x, v, env); SubstUnderBinding(p, r, x, v, env);
    case Ternary(c, a, b) =>
      SubstUnderBinding(p, c, x, v, env); SubstUnderBinding(p, a, x, v, env); SubstUnderBinding(p, b, x, v, env);
    case Index(a, i) => SubstUnderBinding(p, a, x, v, env); SubstUnderBinding(p, i, x, v, env);
    case _ =>
  }

  // ----- soundness -----

  /** What unrolling `q` under these premises needs: the binder is not free in
      the premises and no name of another sort is spelled like it, or it occurs
      only in handled forms. */
  predicate UnrollSafe(types: Types, q: Expr, premises: seq<Expr>)
    requires q.Quant?
  {
    && !IsOldName(q.binder)
    && (Handled(q.body, q.binder)
        || (NoOldOf(q.body, q.binder) && (q.binder in types ==> types[q.binder] == IntSort)
           && forall i :: 0 <= i < |premises| ==> q.binder !in FreeVars(premises[i])))
  }

  /** Every quantifier the splitter reaches is a `forall`, and safe if it is
      unrolled. */
  predicate SplitSafe(types: Types, e: Expr, premises: seq<Expr>) {
    if e.Bin? && e.op.And? then SplitSafe(types, e.l, premises) && SplitSafe(types, e.r, premises)
    else if e.Quant? && IsGuardedConjunction(e.body) then e.isForall
    else HasLiteralRange(e) ==> UnrollSafe(types, e, premises)
  }

  lemma AllValidAppend(p: Program, types: Types, a: seq<Goal>, b: seq<Goal>)
    ensures AllValid(p, types, a + b) <==> AllValid(p, types, a) && AllValid(p, types, b)
  {
    if AllValid(p, types, a + b) {
      forall i | 0 <= i < |a| ensures Valid(p, types, a[i]) { assert (a + b)[i] == a[i]; }
      forall i | 0 <= i < |b| ensures Valid(p, types, b[i]) { assert (a + b)[|a| + i] == b[i]; }
    }
  }

  /** Goal splitting is sound: if every leaf is valid under its own premises,
      the goal is valid. */
  lemma {:induction false} SplitSound(p: Program, types: Types, g: Goal)
    requires SplitSafe(types, g.term, g.premises) && AllValid(p, types, Split(g))
    ensures Valid(p, types, g)
    decreases g.term
  {
    var e := g.term;
    if e.Bin? && e.op.And? {
      var L, R := Goal(SubLabel(g.row, 0), e.l, g.premises), Goal(SubLabel(g.row, 1), e.r, g.premises);
      AllValidAppend(p, types, Split(L), Split(R));
      SplitSound(p, types, L);
      SplitSound(p, types, R);
      ConjunctSplit(p, types, g, L, R);
    } else if e.Quant? && IsGuardedConjunction(e.body) {
      ImplicationSplit(p, types, g, Split(g)[0], Split(g)[1]);
    } else if HasLiteralRange(e) && RangeEnd(e) < e.lo.v {
      forall env: Env ensures Holds(p, e, env) { LiteralForall(p, e, env); }
    } else if HasLiteralRange(e) && RangeEnd(e) - e.lo.v <= MAX_UNROLL {
      UnrollSound(p, types, g);
    } else if e.Ternary? {
      BranchSplit(p, types, g, Split(g)[0], Split(g)[1]);
    } else if |g.premises| >= 2 {
      var full := Goal(g.row + "#pfull", e, g.premises);
      AllValidAppend(p, types, Isolated(g, 0), [full]);
      assert Valid(p, types, [full][0]);
      forall env: Env | WellTyped(env, types) && AllHold(p, g.premises, env)
        ensures Holds(p, e, env)
      {
        assert AllHold(p, full.premises, env);
      }
    } else {
      assert Valid(p, types, Split(g)[0]);
    }
  }

  lemma {:induction false} ConjunctSplit(p: Program, types: Types, g: Goal, L: Goal, R: Goal)
    requires g.term.Bin? && g.term.op.And?
    requires L.term == g.term.l && R.term == g.term.r && L.premises == R.premises == g.premises
    ensures Valid(p, types, g) <==> Valid(p, types, L) && Valid(p, types, R)
  {
    assert forall env: Env :: Holds(p, g.term, env) <==> Holds(p, L.term, env) && Holds(p, R.term, env);
    if Valid(p, types, g) {
      forall env: Env | WellTyped(env, types) && AllHold(p, g.premises, env)
        ensures Holds(p, L.term, env) && Holds(p, R.term, env)
      {
        assert Holds(p, g.term, env);
      }
    }
    if Valid(p, types, L) && Valid(p, types, R) {
      forall env: Env | WellTyped(env, types) && AllHold(p, g.premises, env) ensures Holds(p, g.term, env) {
        assert AllHold(p, L.premises, env) && AllHold(p, R.premises, env);
      }
    }
  }

  lemma {:induction false} HalfMeaning(p: Program, q: Expr, env: Env)
    requires q.Quant? && q.isForall && IsGuardedConjunction(q.body)
    ensures Holds(p, q, env) <==> Holds(p, Half(q, q.body.r.l), env) && Holds(p, Half(q, q.body.r.r), env)
  {
    var vlo, vhi := Eval(p, {}, q.lo, env), Eval(p, {}, q.hi, env);
    var h0, h1 := Half(q, q.body.r.l), Half(q, q.body.r.r);
    forall k: int
      ensures Holds(p, q.body, env[q.binder := IntV(k)])
         <==> Holds(p, h0.body, env[q.binder := IntV(k)]) && Holds(p, h1.body, env[q.binder := IntV(k)])
    {
      GuardMeaning(p, q.body.l.e, q.body.r.l, q.body.r.r, env[q.binder := IntV(k)]);
      assert q.body == Bin(Or, Not(q.body.l.e), Bin(And, q.body.r.l, q.body.r.r));
    }
    if Holds(p, h0, env) && Holds(p, h1, env) {
      forall k: int | InRange(k, vlo, vhi, q.inclusive) ensures Holds(p, q.body, env[q.binder := IntV(k)]) {
        assert Holds(p, h0.body, env[q.binder := IntV(k)]);
      }
    }
    if Holds(p, q, env) {
      forall k: int | InRange(k, vlo, vhi, q.inclusive)
        ensures Holds(p, h0.body, env[q.binder := IntV(k)]) && Holds(p, h1.body, env[q.binder := IntV(k)])
      {
        assert Holds(p, q.body, env[q.binder := IntV(k)]);
      }
    }
  }

  lemma {:induction false} GuardMeaning(p: Program, a: Expr, c: Expr, d: Expr, env: Env)
    ensures Holds(p, Bin(Or, Not(a), Bin(And, c, d)), env)
       <==> Holds(p, Bin(Or, Not(a), c), env) && Holds(p, Bin(Or, Not(a), d), env)
  {
    assert Holds(p, Bin(And, c, d), env) <==> Holds(p, c, env) && Holds(p, d, env);
  }

  lemma {:induction false} ImplicationSplit(p: Program, types: Types, g: Goal, h0: Goal, h1: Goal)
    requires g.term.Quant? && g.term.isForall && IsGuardedConjunction(g.term.body)
    requires h0.term == Half(g.term, g.term.body.r.l) && h1.term == Half(g.term, g.term.body.r.r)
    requires h0.premises == h1.premises == g.premises
    ensures Valid(p, types, g) <==> Valid(p, types, h0) && Valid(p, types, h1)
  {
    forall env: Env ensures Holds(p, g.term, env) <==> Holds(p, h0.term, env) && Holds(p, h1.term, env) {
      HalfMeaning(p, g.term, env);
    }
  }

  lemma {:induction false} InstanceAt(g: Goal, k: int, i: nat, j: nat)
    requires HasLiteralRange(g.term) && j < |Instances(g, k, i)|
    ensures Instances(g, k, i)[j] == Goal(SubLabel(g.row, i + j), Subst(g.term.body, g.term.binder, k + j), g.premises)
    decreases j
  {
    if j > 0 { InstanceAt(g, k + 1, i + 1, j - 1); }
  }

  lemma {:induction false} UnrollSound(p: Program, types: Types, g: Goal)
    requires HasLiteralRange(g.term) && UnrollSafe(types, g.term, g.premises)
    requires AllValid(p, types, Instances(g, g.term.lo.v, 0))
    ensures Valid(p, types, g)
  {
    var q := g.term;
    forall env: Env | WellTyped(env, types) && AllHold(p, g.premises, env) ensures Holds(p, q, env) {
      forall k: int | q.lo.v <= k < RangeEnd(q) ensures Holds(p, q.body, env[q.binder := IntV(k)]) {
        InstanceAt(g, q.lo.v, 0, k - q.lo.v);
        assert Valid(p, types, Instances(g, q.lo.v, 0)[k - q.lo.v]);
        InstanceCovers(p, types, g, Instances(g, q.lo.v, 0)[k - q.lo.v], k, env);
      }
      LiteralForall(p, q, env);
    }
  }

  lemma {:induction false} InstanceCovers(p: Program, types: Types, g: Goal, inst: Goal, k: int, env: Env)
    requires HasLiteralRange(g.term) && UnrollSafe(types, g.term, g.premises) && AllHold(p, g.premises, env)
    requires WellTyped(env, types)
    requires inst.term == Subst(g.term.body, g.term.binder, k) && inst.premises == g.premises && Valid(p, types, inst)
    ensures Holds(p, g.term.body, env[g.term.binder := IntV(k)])
  {
    var q := g.term;
    if Handled(q.body, q.binder) {
      SubstIsBinding(p, q.body, q.binder, k, env);
      assert AllHold(p, inst.premises, env);
    } else {
      var env' := env[q.binder := IntV(k)];
      forall i | 0 <= i < |g.premises| ensures Holds(p, g.premises[i], env') {
        EvalFree(p, {}, g.premises[i], env, env');
      }
      SubstUnderBinding(p, q.body, q.binder, k, env');
      assert AllHold(p, inst.premises, env');
    }
  }

  lemma {:induction false} LiteralForall(p: Program, q: Expr, env: Env)
    requires HasLiteralRange(q)
    ensures Holds(p, q, env)
           <==> forall k: int :: q.lo.v <= k < RangeEnd(q) ==> Holds(p, q.body, env[q.binder := IntV(k)])
  {
    assert Eval(p, {}, q.lo, env) == IntV(q.lo.v) && Eval(p, {}, q.hi, env) == IntV(q.hi.v);
    assert forall k: int :: InRange(k, IntV(q.lo.v), IntV(q.hi.v), q.inclusive) <==> q.lo.v <= k < RangeEnd(q);
    if Holds(p, q, env) {
      forall k: int | q.lo.v <= k < RangeEnd(q) ensures Holds(p, q.body, env[q.binder := IntV(k)]) {
        assert InRange(k, IntV(q.lo.v), IntV(q.hi.v), q.inclusive);
      }
    }
  }

  lemma {:induction false} BranchSplit(p: Program, types: Types, g: Goal, T: Goal, F: Goal)
    requires g.term.Ternary?
    requires T.term == g.term.t && T.premises == g.premises + [g.term.c]
    requires F.term == g.term.f && F.premises == g.premises + [Not(g.term.c)]
    ensures Valid(p, types, g) <==> Valid(p, types, T) && Valid(p, types, F)
  {
    forall env: Env
      ensures AllHold(p, T.premises, env) <==> AllHold(p, g.premises, env) && Holds(p, g.term.c, env)
      ensures AllHold(p, F.premises, env) <==> AllHold(p, g.premises, env) && !Holds(p, g.term.c, env)
      ensures Holds(p, g.term, env)
             <==> if Holds(p, g.term.c, env) then Holds(p, T.term, env) else Holds(p, F.term, env)
    {
      AllHoldSnoc(p, g.premises, g.term.c, env);
      AllHoldSnoc(p, g.premises, Not(g.term.c), env);
    }
  }

  lemma {:induction false} AllHoldSnoc(p: Program, es: seq<Expr>, e: Expr, env: Env)
    ensures AllHold(p, es + [e], env) <==> AllHold(p, es, env) && Holds(p, e, env)
  {
    var all := es + [e];
    assert all[|es|] == e && forall i :: 0 <= i < |es| ==> all[i] == es[i];
    if AllHold(p, all, env) {
      forall i | 0 <= i < |es| ensures Holds(p, es[i], env) { assert Holds(p, all[i], env); }
      assert Holds(p, all[|es|], env);
    }
  }

  // ----- exactness -----

  /** Every quantifier the splitter unrolls binds a name in handled forms. */
  predicate SplitHandled(e: Expr) {
    if e.Bin? && e.op.And? then SplitHandled(e.l) && SplitHandled(e.r)
    else if e.Quant? && IsGuardedConjunction(e.body) then e.isForall
    else HasLiteralRange(e) ==> Handled(e.body, e.binder) && !IsOldName(e.binder)
  }

  /** No leaf is reached by the premise isolation. */
  predicate NotIsolated(e: Expr, premises: nat) {
    if e.Bin? && e.op.And? then NotIsolated(e.l, premises) && NotIsolated(e.r, premises)
    else
      || premises < 2
      || (e.Quant? && IsGuardedConjunction(e.body))
      || (HasLiteralRange(e) && (RangeEnd(e) < e.lo.v || RangeEnd(e) - e.lo.v <= MAX_UNROLL))
      || e.Ternary?
  }

  /** Without premise isolation the leaves are together equivalent to the goal. */
  lemma {:induction false} SplitExact(p: Program, types: Types, g: Goal)
    requires SplitHandled(g.term) && NotIsolated(g.term, |g.premises|)
    ensures AllValid(p, types, Split(g)) <==> Valid(p, types, g)
    decreases g.term
  {
    var e := g.term;
    if e.Bin? && e.op.And? {
      var L, R := Goal(SubLabel(g.row, 0), e.l, g.premises), Goal(SubLabel(g.row, 1), e.r, g.premises);
      AllValidAppend(p, types, Split(L), Split(R));
      SplitExact(p, types, L);
      SplitExact(p, types, R);
      ConjunctSplit(p, types, g, L, R);
    } else if e.Quant? && IsGuardedConjunction(e.body) {
      ImplicationSplit(p, types, g, Split(g)[0], Split(g)[1]);
      TwoValid(p, types, Split(g));
    } else if HasLiteralRange(e) && RangeEnd(e) < e.lo.v {
      forall env: Env ensures Holds(p, e, env) { LiteralForall(p, e, env); }
      assert forall env: Env :: Holds(p, Split(g)[0].term, env);
    } else if HasLiteralRange(e) && RangeEnd(e) - e.lo.v <= MAX_UNROLL {
      UnrollExact(p, types, g);
    } else if e.Ternary? {
      BranchSplit(p, types, g, Split(g)[0], Split(g)[1]);
      TwoValid(p, types, Split(g));
    } else {
      assert Split(g)[0] == g;
    }
  }

  lemma TwoValid(p: Program, types: Types, gs: seq<Goal>)
    requires |gs| == 2
    ensures AllValid(p, types, gs) <==> Valid(p, types, gs[0]) && Valid(p, types, gs[1])
  {
  }

  lemma {:induction false} UnrollExact(p: Program, types: Types, g: Goal)
    requires HasLiteralRange(g.term) && Handled(g.term.body, g.term.binder) && !IsOldName(g.term.binder)
    ensures AllValid(p, types, Instances(g, g.term.lo.v, 0)) <==> Valid(p, types, g)
  {
    var q := g.term;
    var insts := Instances(g, q.lo.v, 0);
    if AllValid(p, types, insts) { UnrollSound(p, types, g); }
    if Valid(p, types, g) {
      forall j | 0 <= j < |insts| ensures Valid(p, types, insts[j]) {
        InstanceAt(g, q.lo.v, 0, j);
        var k := q.lo.v + j;
        forall env: Env | WellTyped(env, types) && AllHold(p, insts[j].premises, env)
          ensures Holds(p, insts[j].term, env)
        {
          SubstIsBinding(p, q.body, q.binder, k, env);
          assert AllHold(p, g.premises, env);
          LiteralForall(p, q, env);
        }
      }
    }
  }

  /** With two or more premises, a goal no other strategy applies to is reported
      proven exactly when each premise proves it alone. */
  lemma {:induction false} IsolationExact(p: Program, types: Types, g: Goal)
    requires |g.premises| >= 2 && Split(g) == Isolated(g, 0) + [Goal(g.row + "#pfull", g.term, g.premises)]
    ensures AllValid(p, types, Split(g))
           <==> forall i :: 0 <= i < |g.premises| ==> Valid(p, types, Goal("", g.term, [g.premises[i]]))
  {
    var full := Goal(g.row + "#pfull", g.term, g.premises);
    var isolated := Isolated(g, 0);
    AllValidAppend(p, types, isolated, [full]);
    forall i | 0 <= i < |g.premises|
      ensures Valid(p, types, isolated[i]) <==> Valid(p, types, Goal("", g.term, [g.premises[i]]))
    {
      IsolatedAt(g, 0, i);
      var alone := Goal("", g.term, [g.premises[i]]);
      assert isolated[i].premises == alone.premises;
    }
    if forall i :: 0 <= i < |g.premises| ==> Valid(p, types, Goal("", g.term, [g.premises[i]])) {
      var alone := Goal("", g.term, [g.premises[0]]);
      assert Valid(p, types, alone);
      forall env: Env | WellTyped(env, types) && AllHold(p, g.premises, env) ensures Holds(p, g.term, env) {
        assert AllHold(p, alone.premises, env);
      }
      assert Valid(p, types, full);
    }
  }

  lemma {:induction false} IsolatedAt(g: Goal, i: nat, j: nat)
    requires i <= |g.premises| && j < |Isolated(g, i)|
    ensures Isolated(g, i)[j] == Goal(g.row + "#p" + Decimal(i + j), g.term, [g.premises[i + j]])
    decreases j
  {
    if j > 0 { IsolatedAt(g, i + 1, j - 1); }
  }
}
