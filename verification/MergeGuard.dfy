/** When joining the two arms of an `if` is right, and a verified function that
    fails because it is not. */
module MergeGuard {
  import opened Values
  import opened Terms
  import opened SpecLang
  import opened Lowering
  import opened Statements
  import opened SymbolicExec
  import opened SymbolicSound
  import opened FunctionContracts

  /** For every pair of live stores with these keys, the merged store denotes
      the arm selected by the condition on every name of `dom`. */
  ghost predicate MergesRight(nm: NameMap, keysA: set<string>, keysB: set<string>, dom: set<string>) {
    forall a: NameMap, b: NameMap, c: Term, rho: Valuation, x: string
      | a.Keys == keysA && b.Keys == keysB && x in dom && x in nm + a && x in nm + b ::
      MergesRightAt(nm, a, b, c, rho, x)
  }

  ghost predicate MergesRightAt(nm: NameMap, a: NameMap, b: NameMap, c: Term, rho: Valuation, x: string)
    requires x in nm + a && x in nm + b
  {
    EvalT((nm + MergeLive(a, b, c))[x], rho) == EvalT((nm + if True(c, rho) then a else b)[x], rho)
  }

  /** mergeStores is right for all stores with the given keys exactly when the
      names also resolvable outside the store are in both stores or in
      neither. */
  lemma {:induction false} MergeNeedsSameKeys(nm: NameMap, keysA: set<string>, keysB: set<string>, dom: set<string>)
    ensures MergesRight(nm, keysA, keysB, dom) <==> SameVisible(keysA, keysB, dom * nm.Keys)
  {
    if SameVisible(keysA, keysB, dom * nm.Keys) {
      forall a: NameMap, b: NameMap, c: Term, rho: Valuation, x: string
        | a.Keys == keysA && b.Keys == keysB && x in dom && x in nm + a && x in nm + b
        ensures MergesRightAt(nm, a, b, c, rho, x)
      {
        assert x in nm
               ==> (x in keysA <==> x in keysA * (dom * nm.Keys)) && (x in keysB <==> x in keysB * (dom * nm.Keys));
      }
    } else {
      var x :| x in dom && x in nm && (x in keysA) != (x in keysB);
      // a literal that differs from what the name map says about x
      var lit := if EvalT(nm[x], map[]) == IntV(0) then TInt(1) else TInt(0);
      var a: NameMap := map y | y in keysA :: lit;
      var b: NameMap := map y | y in keysB :: lit;
      var c := TBool(x in keysB);
      assert !MergesRightAt(nm, a, b, c, map[], x);
    }
  }

  const EMPTY_PROGRAM := Program(map[], map[])

  /** `fn f(n) { if n > 0 { n = 5; } assert n == 5; }` */
  const LOPSIDED := Fn({"n"}, [], [],
    [If(Bin(Gt, Var("n"), IntLit(0)), [Assign("n", IntLit(5))], []),
     Assert(Bin(Eq, Var("n"), IntLit(5)))], true)

  /** Every obligation of the function is valid, yet the call with n == 0 fails
      its assertion: the arm that assigns the parameter is the only one whose
      store holds it, so its value wins on both paths. */
  lemma {:induction false} LopsidedParameterAssignment(sorts: Sorting)
    ensures AllValid(Obligations(EMPTY_PROGRAM, LOPSIDED, {}), sorts)
    ensures RunAll(EMPTY_PROGRAM, LOPSIDED.body, EntryEnv(LOPSIDED, {}, map["n" := IntV(0)]), 0).AssertFailed?
    ensures !FlowAll(EMPTY_PROGRAM, LOPSIDED.body, EntryDom(EMPTY_PROGRAM, LOPSIDED, {}), {}).ok
  {
    LopsidedObligations();
    FiveIsFive(sorts);
    LopsidedRun();
    LopsidedFlow();
  }

  lemma {:induction false} FiveIsFive(sorts: Sorting)
    ensures AllValid([Obl([], TBin(Eq, TInt(5), TInt(5)))], sorts)
  {
    forall rho: Valuation ensures Holds(Obl([], TBin(Eq, TInt(5), TInt(5))), rho) {}
  }

  lemma {:induction false} LopsidedNames()
    ensures MappedNames(LOPSIDED, {}) == {"n"} && EntryNames(LOPSIDED, {}) == map["n" := TSym(Const(ParamSym, "n"))]
    ensures EntryEnv(LOPSIDED, {}, map["n" := IntV(0)]) == map["n" := IntV(0)]
    ensures EntryDom(EMPTY_PROGRAM, LOPSIDED, {}) == {"n"}
  {
    assert OldNamesIn([]) == {} && "n" in LOPSIDED.params && "n"[0] != OldName("")[0];
  }

  lemma {:induction false} LopsidedObligations()
    ensures Obligations(EMPTY_PROGRAM, LOPSIDED, {}) == [Obl([], TBin(Eq, TInt(5), TInt(5)))]
  {
    LopsidedNames();
    var p, body := EMPTY_PROGRAM, LOPSIDED.body;
    var nm := EntryNames(LOPSIDED, {});
    assert EntryStore({}) == map[];
    LopsidedBranch(nm);
    LopsidedCheck(nm);
    assert body[1..] == [body[1]];
    var st: NameMap := map[];
    assert EncodeAll(p, nm, [], [], Top, body, st, 0).obls == [Obl([], TBin(Eq, TInt(5), TInt(5)))];
  }

  lemma {:induction false} LopsidedCheck(nm: NameMap)
    ensures EncodeAll(EMPTY_PROGRAM, nm, [], [], Top, [LOPSIDED.body[1]], map["n" := TInt(5)], 0).obls
         == [Obl([], TBin(Eq, TInt(5), TInt(5)))]
  {
    var p, merged: NameMap, check := EMPTY_PROGRAM, map["n" := TInt(5)], LOPSIDED.body[1];
    var goal := TBin(Eq, TInt(5), TInt(5));
    assert LowerWp(p, nm, merged, check.cond, 0) == (goal, 0) && [] + PathTerms(Top) == [];
    assert Encode(p, nm, [], [], Top, check, merged, 0) == Enc(merged, 0, [Obl([], goal)], false, Top);
    assert [check][1..] == [];
  }

  lemma {:induction false} LopsidedBranch(nm: NameMap)
    requires nm == map["n" := TSym(Const(ParamSym, "n"))]
    ensures Encode(EMPTY_PROGRAM, nm, [], [], Top, LOPSIDED.body[0], map[], 0)
         == Enc(map["n" := TInt(5)], 0, [], false, Top)
  {
    var p, st: NameMap, branch := EMPTY_PROGRAM, map[], LOPSIDED.body[0];
    var cond, assign := TBin(Gt, nm["n"], TInt(0)), Assign("n", IntLit(5));
    assert LowerWp(p, nm, st, branch.cond, 0) == (cond, 0);
    assert Encode(p, nm, [], [], Cond(cond), assign, st, 0) == Enc(map["n" := TInt(5)], 0, [], false, Top);
    assert EncodeAll(p, nm, [], [], Cond(cond), [assign], st, 0) == Enc(map["n" := TInt(5)], 0, [], false, Top);
    assert EncodeAll(p, nm, [], [], Cond(TNot(cond)), [], st, 0) == Enc(st, 0, [], false, Top);
    assert MergeLive(map["n" := TInt(5)], st, cond) == map["n" := TInt(5)];
  }

  lemma {:induction false} LopsidedRun()
    ensures RunAll(EMPTY_PROGRAM, LOPSIDED.body, EntryEnv(LOPSIDED, {}, map["n" := IntV(0)]), 0).AssertFailed?
  {
    LopsidedNames();
    var p, env: Env := EMPTY_PROGRAM, map["n" := IntV(0)];
    var branch, check := LOPSIDED.body[0], LOPSIDED.body[1];
    assert Run(p, branch, env, 0) == Normal(env) by {
      assert Leave(env, env) == env;
      assert Eval(p, {}, branch.cond, env) == BoolV(false);
    }
    assert LOPSIDED.body[1..] == [check];
    assert Run(p, check, env, 0).AssertFailed?;
  }

  lemma {:induction false} LopsidedFlow()
    ensures !FlowAll(EMPTY_PROGRAM, LOPSIDED.body, EntryDom(EMPTY_PROGRAM, LOPSIDED, {}), {}).ok
  {
    LopsidedNames();
    var p, dom, assign := EMPTY_PROGRAM, {"n"}, Assign("n", IntLit(5));
    assert FlowAll(p, [assign], dom, {}).keys == {"n"} by { assert Flow(p, assign, dom, {}).keys == {"n"}; }
    assert "n" in {"n"} * dom && "n" !in {} * dom;
    assert !SameVisible({"n"}, {}, dom);
    assert !Flow(p, LOPSIDED.body[0], dom, {}).ok;
  }

  /** What a merged store holds: a name in both arms' stores has the value of the
      arm taken, and a name in one arm's only has that arm's value on both
      paths, whichever arm it is. */
  lemma {:induction false} MergedAt(a: NameMap, b: NameMap, c: Term, rho: Valuation, x: string)
    ensures x in MergeLive(a, b, c) <==> x in a || x in b
    ensures x in a && x in b ==> EvalT(MergeLive(a, b, c)[x], rho) == EvalT(if True(c, rho) then a[x] else b[x], rho)
    ensures x in a && x in b && a[x] == b[x] ==> MergeLive(a, b, c)[x] == a[x]
    ensures x in a && x !in b ==> MergeLive(a, b, c)[x] == a[x]
    ensures x !in a && x in b ==> MergeLive(a, b, c)[x] == b[x]
  {
  }
}
