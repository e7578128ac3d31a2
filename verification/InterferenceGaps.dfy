/** What the stability query does where a step changes nothing, and where names
    cross slots. */
module InterferenceGaps {
  import opened Options
  import opened Values
  import opened Terms
  import opened SpecLang
  import opened Lowering
  import opened LoweredBinders
  import opened Statements
  import opened SymbolicExec
  import opened SymbolicSound
  import opened FunctionContracts
  import opened Noninterference

  // ----- steps that change nothing -----

  ghost predicate NamesOrdinary(p: Program, inv: SpecFn, h: Handler, other: Handler) {
    && NoOldConsts(p) && RESULT !in p.consts && RESULT !in inv.params
    && forall x :: x in h.params || x in inv.params || x in other.params ==> x !in p.consts
  }

  /** The two copies of the invariant when the slots' terms are unchanged: equal
      terms exactly when the invariant's term binds nothing, and equal values
      always. */
  lemma {:induction false} TwoCopies(p: Program, inv: SpecFn, h: Handler, other: Handler, st: NameMap)
    requires Aligned(inv, h) && Aligned(inv, other) && NamesOrdinary(p, inv, h, other)
    requires Scoped(p, {}, inv.body, Names(inv.params) + p.consts.Keys)
    requires PostTerms(h, ArgTerms(|h.params|), st) == ArgTerms(|h.params|)
    ensures var args := ArgTerms(|h.params|);
            var (pre, k) := Lower(p, {}, BindSlots(map[], inv.params, h.params, other.params, args), inv.body, 0);
            var post := Lower(p, {}, PostNames(inv, h, other, args, st), inv.body, k).0;
            (pre == post <==> Bound(pre) == {}) && forall rho: Valuation :: True(pre, rho) <==> True(post, rho)
  {
    var args := ArgTerms(|h.params|);
    var nm := BindSlots(map[], inv.params, h.params, other.params, args);
    var k := Lower(p, {}, nm, inv.body, 0).1;
    SecondNames(p, inv, h, other, st, k);
    FirstNames(p, inv, h, other);
    SecondCopyExact(p, nm, inv.body, Names(inv.params) + p.consts.Keys, 0);
    forall rho: Valuation
      ensures True(Lower(p, {}, nm, inv.body, 0).0, rho) <==> True(Lower(p, {}, nm, inv.body, k).0, rho)
    {
      LowerPreservesMeaning(p, {}, nm, inv.body, Names(inv.params) + p.consts.Keys, 0, SlotSyms(|h.params|), rho);
      LowerPreservesMeaning(p, {}, nm, inv.body, Names(inv.params) + p.consts.Keys, k, SlotSyms(|h.params|), rho);
    }
  }

  /** The name map of the first copy. */
  lemma {:induction false} FirstNames(p: Program, inv: SpecFn, h: Handler, other: Handler)
    requires Aligned(inv, h) && Aligned(inv, other) && NamesOrdinary(p, inv, h, other)
    ensures var nm := BindSlots(map[], inv.params, h.params, other.params, ArgTerms(|h.params|));
            BoundIn(nm, {}) && SymsIn(nm, SlotSyms(|h.params|)) && nm.Keys !! p.consts.Keys
              && Names(inv.params) <= nm.Keys
  {
    var args := ArgTerms(|h.params|);
    var nm := BindSlots(map[], inv.params, h.params, other.params, args);
    BindSlotsKeys(map[], inv.params, h.params, other.params, args);
    forall x | x in nm ensures Bound(nm[x]) == {} && Free(nm[x]) <= SlotSyms(|h.params|) {
      var i :| 0 <= i < |args| && args[i] == nm[x];
      assert Arg(i) in SlotSyms(|h.params|);
    }
  }

  /** The result bound in the second copy's map is out of the invariant's sight. */
  lemma {:induction false} SecondNames(p: Program, inv: SpecFn, h: Handler, other: Handler, st: NameMap, k: nat)
    requires Aligned(inv, h) && Aligned(inv, other) && NamesOrdinary(p, inv, h, other)
    requires Scoped(p, {}, inv.body, Names(inv.params) + p.consts.Keys)
    requires PostTerms(h, ArgTerms(|h.params|), st) == ArgTerms(|h.params|)
    ensures var args := ArgTerms(|h.params|);
            Lower(p, {}, PostNames(inv, h, other, args, st), inv.body, k)
            == Lower(p, {}, BindSlots(map[], inv.params, h.params, other.params, args), inv.body, k)
  {
    var args := ArgTerms(|h.params|);
    var nm := BindSlots(map[], inv.params, h.params, other.params, args);
    var nm' := PostNames(inv, h, other, args, st);
    BindSlotsKeys(map[], inv.params, h.params, other.params, args);
    LowerAgree(p, {}, nm, nm', inv.body, Names(inv.params) + p.consts.Keys, k);
  }

  /** A step that leaves every slot's term as it was. If the invariant's term
      binds a symbol, the query is about two copies of the same meaning and is
      valid. If it binds none, the two copies are one string, the invariant is
      dropped from the premise, and the query is valid exactly when the step's
      `requires` alone imply the invariant. */
  lemma {:induction false} UnchangedStepExact(p: Program, inv: SpecFn, sorts: Sorting, h: Handler, other: Handler)
    requires Aligned(inv, h) && Aligned(inv, other) && NamesOrdinary(p, inv, h, other)
    requires Scoped(p, {}, inv.body, Names(inv.params) + p.consts.Keys)
    requires var args := ArgTerms(|h.params|);
             PostTerms(h, args, DriveBody(p, h, BindSlots(map[], h.params, inv.params, inv.params, args), args).st)
             == args
    ensures var args := ArgTerms(|h.params|);
            var nm := BindSlots(map[], h.params, inv.params, inv.params, args);
            var enc := DriveBody(p, h, nm, args);
            var pre := Lower(p, {}, BindSlots(map[], inv.params, h.params, other.params, args), inv.body, 0).0;
            var reqs := LowerClauses(p, nm, h.pre, enc.k).0;
            AllValid(PairObligations(p, inv, h, other), sorts)
            <==> AllValid(enc.obls, sorts)
                 && (Bound(pre) == {} ==>
                       forall rho: Valuation | WellSorted(rho, sorts) :: AllTrue(reqs, rho) ==> True(pre, rho))
  {
    var args := ArgTerms(|h.params|);
    var nm := BindSlots(map[], h.params, inv.params, inv.params, args);
    var enc := DriveBody(p, h, nm, args);
    var (pre, k) := Lower(p, {}, BindSlots(map[], inv.params, h.params, other.params, args), inv.body, 0);
    var post := Lower(p, {}, PostNames(inv, h, other, args, enc.st), inv.body, k).0;
    var reqs := LowerClauses(p, nm, h.pre, enc.k).0;
    var req := ConjoinPre(reqs, TBool(true));
    forall rho: Valuation ensures True(req, rho) <==> AllTrue(reqs, rho) { ConjoinPreMeaning(reqs, TBool(true), rho); }
    TwoCopies(p, inv, h, other, enc.st);
    StabilityExact(req, pre, post, sorts);
    LastObligation(enc.obls, Obl([], Stability(req, pre, post)), sorts);
  }

  /** The query for two copies with the same values. */
  lemma {:induction false} StabilityExact(req: Term, pre: Term, post: Term, sorts: Sorting)
    requires forall rho: Valuation :: True(pre, rho) <==> True(post, rho)
    ensures Valid(Obl([], Stability(req, pre, post)), sorts)
       <==> (pre == post ==> forall rho: Valuation | WellSorted(rho, sorts) :: True(req, rho) ==> True(pre, rho))
  {
    var o := Obl([], Stability(req, pre, post));
    forall rho: Valuation ensures Holds(o, rho) <==> (pre == post ==> True(req, rho) ==> True(pre, rho)) {
      StabilityAt(req, pre, post, rho);
    }
    if Valid(o, sorts) && pre == post {
      forall rho: Valuation | WellSorted(rho, sorts) ensures True(req, rho) ==> True(pre, rho) { assert Holds(o, rho); }
    }
  }

  lemma StabilityAt(req: Term, pre: Term, post: Term, rho: Valuation)
    requires True(pre, rho) <==> True(post, rho)
    ensures Holds(Obl([], Stability(req, pre, post)), rho) <==> (pre == post ==> True(req, rho) ==> True(pre, rho))
  {
    assert EvalT(TBin(And, req, pre), rho) == Apply(And, EvalT(req, rho), EvalT(pre, rho));
    ImpMeaning(req, post, rho);
    ImpMeaning(TBin(And, req, pre), post, rho);
  }

  lemma LastObligation(obls: seq<Obl>, o: Obl, sorts: Sorting)
    ensures AllValid(obls + [o], sorts) <==> AllValid(obls, sorts) && Valid(o, sorts)
  {
    if AllValid(obls + [o], sorts) {
      assert o in obls + [o];
      forall x | x in obls ensures Valid(x, sorts) { assert x in obls + [o]; }
    }
  }

  // ----- names that cross slots -----

  /** The shape of the pair's obligations, part by part. */
  lemma {:induction false} PairShape(p: Program, inv: SpecFn, h: Handler, other: Handler, args: seq<Term>,
                                     after: seq<Term>, pre: Term, post: Term)
    requires Aligned(inv, h) && Aligned(inv, other) && h.ret == None && h.pre == [] && args == ArgTerms(|h.params|)
    requires var enc := DriveBody(p, h, BindSlots(map[], h.params, inv.params, inv.params, args), args);
             enc.obls == [] && PostTerms(h, args, enc.st) == after
    requires Lower(p, {}, BindSlots(map[], inv.params, h.params, other.params, args), inv.body, 0) == (pre, 0)
    requires Lower(p, {}, BindSlots(map[], inv.params, h.params, other.params, after), inv.body, 0) == (post, 0)
    ensures PairObligations(p, inv, h, other) == [Obl([], Stability(TBool(true), pre, post))]
  {
    var nm := BindSlots(map[], inv.params, h.params, other.params, after);
    assert nm + map[] == nm;
  }

  const CrossedInv := SpecFn(["a", "b"], Bin(Eq, Index(Var("a"), IntLit(0)), IntLit(0)))
  const Crossed := Handler(["b", "a"], [true, true], [],
                           [WriteIndex("b", [IntLit(0)], IntLit(5)), WriteIndex("a", [IntLit(0)], IntLit(0))], None)
  const Straight := Handler(["a", "b"], [true, true], [], [], None)

  lemma {:induction false} CrossedStep(p: Program, x: Value, y: Value)
    ensures Step(p, Crossed, [x, y]) == [Store(x, IntV(0), IntV(5)), Store(y, IntV(0), IntV(0))]
  {
    var env := StepEnv(Crossed, [x, y]);
    assert Crossed.params[1..] == ["a"] && ["a"][1..] == [] && [x, y][1..] == [y] && [y][1..] == [];
    assert env == map["b" := x, "a" := y, RESULT := IntV(0)];
    var body := Crossed.body;
    var env1 := env["b" := Store(x, IntV(0), IntV(5))];
    WriteAtZero(p, "b", IntLit(5), env);
    WriteAtZero(p, "a", IntLit(0), env1);
    assert body[1..] == [body[1]] && [body[1]][1..] == [];
    assert RunAll(p, body, env, 0) == RunAll(p, [body[1]], env1, 0);
  }

  lemma {:induction false} WriteAtZero(p: Program, x: string, e: Expr, env: Env)
    requires x in env
    ensures Run(p, WriteIndex(x, [IntLit(0)], e), env, 0)
         == Normal(env[x := Store(env[x], IntV(0), Eval(p, {}, e, env))])
  {
    assert [IntLit(0)][1..] == [];
    assert EvalSeq(p, {}, [IntLit(0)], env) == [IntV(0)];
    assert [IntV(0)][1..] == [];
    assert forall v, w :: UpdatePath(v, [IntV(0)], w) == Store(v, IntV(0), w);
  }

  /** Writing element 0 of an array that the store holds. */
  lemma {:induction false} EncodeAtZero(p: Program, nm: NameMap, x: string, n: int, st: NameMap)
    requires x in st
    ensures Encode(p, nm, [], [], Top, WriteIndex(x, [IntLit(0)], IntLit(n)), st, 0)
         == Enc(st[x := TStore(st[x], TInt(0), TInt(n))], 0, [], false, Top)
  {
    assert [IntLit(0)][1..] == [] && [TInt(0)][..0] == [] && [TInt(0)] + [] == [TInt(0)];
    assert LowerWp(p, nm, st, IntLit(0), 0) == (TInt(0), 0) && LowerWpSeq(p, nm, st, [], 0) == ([], 0);
    assert LowerWpSeq(p, nm, st, [IntLit(0)], 0) == ([TInt(0)] + [], 0);
    assert NestedStore(st[x], [TInt(0)], TInt(n), 1) == TInt(n) && SelectChain(st[x], []) == st[x];
    assert NestedStore(st[x], [TInt(0)], TInt(n), 0) == TStore(st[x], TInt(0), TInt(n));
    assert LowerWp(p, nm, st, IntLit(n), 0) == (TInt(n), 0) && Current(nm, st, x, 0).0 == st[x];
  }

  lemma {:induction false} DriveCrossed(p: Program, h: Handler, nm: NameMap, x: Term, y: Term)
    requires h == Crossed
    ensures DriveBody(p, h, nm, [x, y]).obls == []
    ensures PostTerms(h, [x, y], DriveBody(p, h, nm, [x, y]).st)
         == [TStore(x, TInt(0), TInt(5)), TStore(y, TInt(0), TInt(0))]
  {
    var bodyNm, st, body := BodyNames(h, nm, [x, y]), BodyStore(h, [x, y]), h.body;
    assert h.params[1..] == ["a"] && ["a"][1..] == [] && [x, y][1..] == [y] && [y][1..] == [];
    assert st == map["b" := x, "a" := y, RESULT := TSym(Const(ResultSym, RESULT))];
    var st1 := st["b" := TStore(x, TInt(0), TInt(5))];
    EncodeAtZero(p, bodyNm, "b", 5, st);
    EncodeAtZero(p, bodyNm, "a", 0, st1);
    assert FullBody(h) == body && body[1..] == [body[1]] && [body[1]][1..] == [];
    assert EncodeAll(p, bodyNm, [], [], Top, [body[1]], st1, 0).st == st1["a" := TStore(y, TInt(0), TInt(0))];
  }

  /** Both names of slot 1 end up bound to slot 1's term, `a` among them. */
  lemma {:induction false} CrossedInvTerm(p: Program, inv: SpecFn, h: Handler, other: Handler, x: Term, y: Term)
    requires inv == CrossedInv && h == Crossed && other == Straight
    ensures BindSlots(map[], inv.params, h.params, other.params, [x, y]) == map["a" := y, "b" := y]
    ensures Lower(p, {}, BindSlots(map[], inv.params, h.params, other.params, [x, y]), inv.body, 0)
         == (TBin(Eq, TSelect(y, TInt(0)), TInt(0)), 0)
  {
    var m: NameMap := map["a" := x, "b" := x];
    assert inv.params[1..] == ["b"] && h.params[1..] == ["a"] && other.params[1..] == ["b"] && [x, y][1..] == [y];
    assert ["a"][1..] == [] && ["b"][1..] == [] && [y][1..] == [];
    assert map[]["a" := x]["b" := x]["a" := x] == m && m["b" := y]["a" := y]["b" := y] == map["a" := y, "b" := y];
    assert BindSlots(m, ["b"], ["a"], ["b"], [y]) == BindSlots(m["b" := y]["a" := y]["b" := y], [], [], [], []);
    var nm: NameMap := map["a" := y, "b" := y];
    assert Lower(p, {}, nm, Index(Var("a"), IntLit(0)), 0) == (TSelect(y, TInt(0)), 0);
  }

  /** Names that coincide across slots break the query: the invariant reads
      slot 0 by the name `a`, but slot 1 rebinds `a`, so the obligations of the
      pair speak of slot 1 only and are valid, while the step destroys the
      invariant. */
  lemma {:induction false} CrossedNamesUnsound(p: Program, sorts: Sorting)
    ensures AllValid(PairObligations(p, CrossedInv, Crossed, Straight), sorts)
    ensures var zero := ConstArray(IntV(0));
            InvHolds(p, CrossedInv, [zero, zero]) && !InvHolds(p, CrossedInv, Step(p, Crossed, [zero, zero]))
  {
    var zero := ConstArray(IntV(0));
    CrossedStep(p, zero, zero);
    CrossedInvariant(p, zero, zero);
    CrossedInvariant(p, Store(zero, IntV(0), IntV(5)), Store(zero, IntV(0), IntV(0)));
    CrossedObligation(p, sorts, CrossedInv, Crossed, Straight);
  }

  lemma {:induction false} CrossedObligation(p: Program, sorts: Sorting, inv: SpecFn, h: Handler, other: Handler)
    requires inv == CrossedInv && h == Crossed && other == Straight
    ensures AllValid(PairObligations(p, inv, h, other), sorts)
  {
    var x, y := TSym(Arg(0)), TSym(Arg(1));
    var args := ArgTerms(|h.params|);
    assert args == [x, y];
    DriveCrossed(p, h, BindSlots(map[], h.params, inv.params, inv.params, args), x, y);
    var x', y' := TStore(x, TInt(0), TInt(5)), TStore(y, TInt(0), TInt(0));
    CrossedInvTerm(p, inv, h, other, x, y);
    CrossedInvTerm(p, inv, h, other, x', y');
    var pre, post := TBin(Eq, TSelect(y, TInt(0)), TInt(0)), TBin(Eq, TSelect(y', TInt(0)), TInt(0));
    PairShape(p, inv, h, other, args, [x', y'], pre, post);
    ReadsZero(y, TBin(And, TBool(true), pre), sorts);
    assert Stability(TBool(true), pre, post) == TImp(TBin(And, TBool(true), pre), post);
  }

  lemma {:induction false} ReadsZero(y: Term, premise: Term, sorts: Sorting)
    ensures AllValid([Obl([], TImp(premise, TBin(Eq, TSelect(TStore(y, TInt(0), TInt(0)), TInt(0)), TInt(0))))], sorts)
  {
    var t := TSelect(TStore(y, TInt(0), TInt(0)), TInt(0));
    var goal := TImp(premise, TBin(Eq, t, TInt(0)));
    forall rho: Valuation ensures Holds(Obl([], goal), rho) {
      assert EvalT(t, rho) == Select(EvalT(TStore(y, TInt(0), TInt(0)), rho), IntV(0));
      assert EvalT(TBin(Eq, t, TInt(0)), rho) == Apply(Eq, EvalT(t, rho), EvalT(TInt(0), rho));
      assert EvalT(goal, rho) == BoolV(AsBool(EvalT(premise, rho)) ==> True(TBin(Eq, t, TInt(0)), rho));
    }
  }

  lemma {:induction false} CrossedInvariant(p: Program, x: Value, y: Value)
    ensures InvHolds(p, CrossedInv, [x, y]) <==> Select(x, IntV(0)) == IntV(0)
  {
    var env: Env := Bind(map[], CrossedInv.params, [x, y]);
    assert CrossedInv.params[1..] == ["b"] && ["b"][1..] == [] && [x, y][1..] == [y] && [y][1..] == [];
    assert env == map["a" := x, "b" := y];
    assert Eval(p, {}, CrossedInv.body, env) == Apply(Eq, Eval(p, {}, Index(Var("a"), IntLit(0)), env), IntV(0));
  }

  // ----- one handler -----

  /** A declaration over a single handler checks nothing: only pairs of different
      handlers are queried. */
  lemma SingleHandlerIsUnchecked(p: Program, inv: SpecFn, sorts: Sorting, h: Handler)
    ensures AllPairsValid(p, inv, sorts, [h])
  {
  }
}
