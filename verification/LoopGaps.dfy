/** Verified functions that fail at run time: what the checks on loops do not
    establish. */
module LoopGaps {
  import opened Values
  import opened Terms
  import opened SpecLang
  import opened Lowering
  import opened Statements
  import opened SymbolicExec
  import opened SymbolicSound
  import opened FunctionContracts
  import opened LoopExitAbstraction
  import opened LoopExact

  const NO_FNS := Program(map[], map[])

  lemma {:induction false} CmpMeaning(op: BinOp, l: Term, r: Term, rho: Valuation)
    ensures EvalT(TBin(op, l, r), rho) == Apply(op, EvalT(l, rho), EvalT(r, rho))
  {
  }

  /** `let mut i = 0; while i < 2 invariant i <= 1 { i = i + 1; } assert false;` */
  const COUNT_GUARD := Bin(Lt, Var("i"), IntLit(2))
  const COUNT_INV := Bin(Le, Var("i"), IntLit(1))
  const COUNT_STEP := Assign("i", Bin(Add, Var("i"), IntLit(1)))
  const COUNT_LOOP := While(COUNT_GUARD, [COUNT_INV], [COUNT_STEP])
  const COUNTER := Fn({}, [], [], [Let("i", IntLit(0)), COUNT_LOOP, Assert(BoolLit(false))], true)

  /** Preservation is checked from the pre-loop store, that is for the first
      iteration only: all obligations of this function are valid although its
      invariant is not inductive, and the run reaches the failing assertion. */
  lemma {:induction false} PreservationIsCheckedOnce(sorts: Sorting)
    ensures AllValid(Obligations(NO_FNS, COUNTER, {}), sorts)
    ensures RunAll(NO_FNS, COUNTER.body, map[], 2).AssertFailed?
    ensures !Inductive(NO_FNS, COUNT_LOOP, map["i" := IntV(0)])
  {
    CounterObligations(sorts);
    CounterRun();
    var e: Env := map["i" := IntV(1)];
    assert RunScope(NO_FNS, [COUNT_STEP], e, 0) == Normal(map["i" := IntV(2)]) by { CounterStep(1, 0); }
    assert ClausesHold(NO_FNS, [COUNT_INV], e);
    CounterMutates();
    assert HeadState(COUNT_LOOP, map["i" := IntV(0)], e);
    assert !AsBool(Eval(NO_FNS, {}, COUNT_INV, map["i" := IntV(2)]));
    assert COUNT_INV in [COUNT_INV];
  }

  lemma {:induction false} CounterMutates()
    ensures Mutated([COUNT_STEP]) == {"i"}
  {
    assert MutatedIn(COUNT_STEP) == {"i"} && [COUNT_STEP][1..] == [];
  }

  lemma {:induction false} CounterStep(n: int, fuel: nat)
    ensures RunScope(NO_FNS, [COUNT_STEP], map["i" := IntV(n)], fuel) == Normal(map["i" := IntV(n + 1)])
  {
    var e: Env := map["i" := IntV(n)];
    assert Eval(NO_FNS, {}, COUNT_STEP.value, e) == IntV(n + 1);
    assert Run(NO_FNS, COUNT_STEP, e, fuel) == Normal(map["i" := IntV(n + 1)]);
    assert RunAll(NO_FNS, [COUNT_STEP], e, fuel) == Normal(map["i" := IntV(n + 1)]);
    assert Leave(e, map["i" := IntV(n + 1)]) == map["i" := IntV(n + 1)];
  }

  lemma {:induction false} CounterLoop(n: int, fuel: nat)
    requires 0 <= n <= 2 && fuel >= 2 - n
    ensures Run(NO_FNS, COUNT_LOOP, map["i" := IntV(n)], fuel) == Normal(map["i" := IntV(2)])
    decreases 2 - n
  {
    assert Eval(NO_FNS, {}, COUNT_GUARD, map["i" := IntV(n)]) == BoolV(n < 2);
    if n < 2 {
      CounterStep(n, fuel);
      CounterLoop(n + 1, fuel - 1);
    }
  }

  lemma {:induction false} CounterRun()
    ensures RunAll(NO_FNS, COUNTER.body, map[], 2).AssertFailed?
  {
    var body := COUNTER.body;
    var e0: Env := map["i" := IntV(0)];
    assert Run(NO_FNS, body[0], map[], 2) == Normal(e0);
    CounterLoop(0, 2);
    assert body[1..] == [COUNT_LOOP, Assert(BoolLit(false))];
    assert body[1..][1..] == [Assert(BoolLit(false))];
    assert RunAll(NO_FNS, body[1..][1..], map["i" := IntV(2)], 2).AssertFailed?;
    assert RunAll(NO_FNS, body[1..], e0, 2).AssertFailed?;
  }

  lemma {:induction false} OneClause(p: Program, nm: NameMap, st: NameMap, e: Expr, k: nat)
    ensures EncodeClauses(p, nm, st, [e], k) == ([LowerWp(p, nm, st, e, k).0], LowerWp(p, nm, st, e, k).1)
  {
    var (t, k1) := LowerWp(p, nm, st, e, k);
    assert [e][1..] == [] && [t] + [] == [t];
    assert EncodeClauses(p, nm, st, [], k1) == ([], k1);
  }

  // the terms and obligations of COUNTER
  const ENTRY_GUARD := TBin(Lt, TInt(0), TInt(2))
  const ENTRY_INV := TBin(Le, TInt(0), TInt(1))
  const NEXT := TBin(Add, TInt(0), TInt(1))
  const KEPT := TBin(Le, NEXT, TInt(1))
  const EXIT_I := TSym(LoopExit("i", 0))
  const DONE := TNot(TBin(Lt, EXIT_I, TInt(2)))
  const BOUND := TBin(Le, EXIT_I, TInt(1))
  const ENTRY_OBL := Obl([ENTRY_GUARD], ENTRY_INV)
  const PRES_OBL := Obl([ENTRY_GUARD, ENTRY_INV], KEPT)
  const LAST_OBL := Obl([TBin(And, DONE, BOUND)], TBool(false))

  lemma {:induction false} CounterChecks()
    ensures LoopChecks(NO_FNS, map[], [], [], Top, COUNT_GUARD, [COUNT_INV], [COUNT_STEP], map["i" := TInt(0)], 0)
         == ([ENTRY_OBL, PRES_OBL], 0)
  {
    var p, nm, st: NameMap := NO_FNS, map[], map["i" := TInt(0)];
    assert LowerWp(p, nm, st, COUNT_GUARD, 0) == (ENTRY_GUARD, 0);
    assert LowerWp(p, nm, st, COUNT_INV, 0) == (ENTRY_INV, 0);
    OneClause(p, nm, st, COUNT_INV, 0);
    var bodySt: NameMap := map["i" := NEXT];
    var prem := [ENTRY_GUARD, ENTRY_INV];
    assert Encode(p, nm, [], prem, Cond(ENTRY_GUARD), COUNT_STEP, st, 0) == Enc(bodySt, 0, [], false, Top);
    assert EncodeAll(p, nm, [], prem, Cond(ENTRY_GUARD), [COUNT_STEP], st, 0) == Enc(bodySt, 0, [], false, Top);
    assert LowerWp(p, nm, bodySt, COUNT_INV, 0) == (KEPT, 0);
    OneClause(p, nm, bodySt, COUNT_INV, 0);
    assert OblsFor([ENTRY_GUARD], [ENTRY_INV]) == [ENTRY_OBL] && OblsFor(prem, [KEPT]) == [PRES_OBL];
    assert [] + PathTerms(PathAnd(Top, Cond(ENTRY_GUARD))) == [ENTRY_GUARD];
    assert [] + PathTerms(Top) + [ENTRY_GUARD] + [ENTRY_INV] == prem;
    assert [ENTRY_OBL] + [] + [PRES_OBL] == [ENTRY_OBL, PRES_OBL];
  }

  lemma {:induction false} CounterExit()
    ensures ExitPath(NO_FNS, map[], Top, COUNT_GUARD, [COUNT_INV], map["i" := EXIT_I], 1)
         == (Cond(TBin(And, DONE, BOUND)), 1)
  {
    OneClause(NO_FNS, map[], map["i" := EXIT_I], COUNT_INV, 1);
    assert [BOUND][1..] == [];
    assert ConjoinAll(Cond(TBin(And, DONE, BOUND)), []) == Cond(TBin(And, DONE, BOUND));
    assert ConjoinAll(Cond(DONE), [BOUND]) == Cond(TBin(And, DONE, BOUND));
  }

  lemma {:induction false} CounterObligations(sorts: Sorting)
    ensures AllValid(Obligations(NO_FNS, COUNTER, {}), sorts)
  {
    CounterObligationsAre();
    forall rho: Valuation ensures Holds(ENTRY_OBL, rho) && Holds(PRES_OBL, rho) && Holds(LAST_OBL, rho) {
      CmpMeaning(Le, TInt(0), TInt(1), rho);
      CmpMeaning(Add, TInt(0), TInt(1), rho);
      CmpMeaning(Le, NEXT, TInt(1), rho);
      ExitContradicts(rho);
    }
  }

  /** The negated guard and the invariant contradict each other after the loop. */
  lemma {:induction false} ExitContradicts(rho: Valuation)
    ensures Holds(LAST_OBL, rho)
  {
    CmpMeaning(Lt, EXIT_I, TInt(2), rho);
    CmpMeaning(Le, EXIT_I, TInt(1), rho);
    CmpMeaning(And, DONE, BOUND, rho);
    assert LAST_OBL.premises[0] == TBin(And, DONE, BOUND);
  }

  lemma {:induction false} CounterLoopEncoding()
    ensures Encode(NO_FNS, map[], [], [], Top, COUNT_LOOP, map["i" := TInt(0)], 0)
         == Enc(map["i" := EXIT_I], 1, [ENTRY_OBL, PRES_OBL], false, Cond(TBin(And, DONE, BOUND)))
  {
    CounterChecks();
    CounterExit();
    assert MutatedIn(COUNT_STEP) == {"i"} && Mutated([COUNT_STEP]) == {"i"};
    assert ExitStore(map["i" := TInt(0)], {"i"}, 0) == map["i" := EXIT_I];
  }

  lemma {:induction false} FailEncoding()
    ensures EncodeAll(NO_FNS, map[], [], [], Cond(TBin(And, DONE, BOUND)), [Assert(BoolLit(false))], map["i" := EXIT_I],
                      1).obls
         == [LAST_OBL]
  {
    var fail, pc := Assert(BoolLit(false)), Cond(TBin(And, DONE, BOUND));
    assert [fail][1..] == [] && [LAST_OBL] + [] == [LAST_OBL] && [] + PathTerms(pc) == [pc.t];
    assert Encode(NO_FNS, map[], [], [], pc, fail, map["i" := EXIT_I], 1)
       == Enc(map["i" := EXIT_I], 1, [LAST_OBL], false, Top);
  }

  lemma {:induction false} CounterObligationsAre()
    ensures Obligations(NO_FNS, COUNTER, {}) == [ENTRY_OBL, PRES_OBL, LAST_OBL]
  {
    var p, body := NO_FNS, COUNTER.body;
    var nm, st: NameMap := map[], map["i" := TInt(0)];
    assert OldNamesIn([]) == {};
    assert EntryNames(COUNTER, {}) == nm && EntryStore({}) == map[];
    CounterLoopEncoding();
    FailEncoding();
    assert body[1..] == [COUNT_LOOP, Assert(BoolLit(false))] && body[1..][1..] == [Assert(BoolLit(false))];
    assert [ENTRY_OBL, PRES_OBL] + [LAST_OBL] == [ENTRY_OBL, PRES_OBL, LAST_OBL];
    assert EncodeAll(p, nm, [], [], Top, body[1..], st, 0).obls == [ENTRY_OBL, PRES_OBL, LAST_OBL];
    assert Encode(p, nm, [], [], Top, body[0], map[], 0) == Enc(st, 0, [], false, Top);
  }

  /** `while false invariant false { } assert false;` */
  const NOT_ENTERED := While(BoolLit(false), [BoolLit(false)], [])
  const SKIPPED := Fn({}, [], [], [NOT_ENTERED, Assert(BoolLit(false))], true)

  const NEVER := TBin(And, TNot(TBool(false)), TBool(false))
  const SKIP_OBLS := [Obl([TBool(false)], TBool(false)), Obl([TBool(false), TBool(false)], TBool(false))]

  /** The invariants of a loop that is skipped are never checked, yet assumed
      after it: every obligation is valid and the assertion fails. */
  lemma {:induction false} SkippedLoopIsUnchecked(sorts: Sorting)
    ensures AllValid(Obligations(NO_FNS, SKIPPED, {}), sorts)
    ensures RunAll(NO_FNS, SKIPPED.body, map[], 0).AssertFailed?
  {
    SkippedObligations();
    forall o, rho: Valuation | o in SKIP_OBLS + [Obl([NEVER], TBool(false))] ensures Holds(o, rho) {
      CmpMeaning(And, TNot(TBool(false)), TBool(false), rho);
      assert !True(o.premises[0], rho);
    }
    var body := SKIPPED.body;
    assert body[1..] == [Assert(BoolLit(false))];
    assert Run(NO_FNS, NOT_ENTERED, map[], 0) == Normal(map[]);
    assert RunAll(NO_FNS, body[1..], map[], 0).AssertFailed?;
  }

  lemma {:induction false} SkippedEncoding()
    ensures Encode(NO_FNS, map[], [], [], Top, NOT_ENTERED, map[], 0) == Enc(map[], 0, SKIP_OBLS, false, Cond(NEVER))
  {
    var p, nm: NameMap := NO_FNS, map[];
    OneClause(p, nm, map[], BoolLit(false), 0);
    var prem := [TBool(false), TBool(false)];
    assert [] + PathTerms(PathAnd(Top, Cond(TBool(false)))) == [TBool(false)];
    assert [] + PathTerms(Top) + [TBool(false)] + [TBool(false)] == prem;
    assert OblsFor([TBool(false)], [TBool(false)]) == [SKIP_OBLS[0]] && OblsFor(prem, [TBool(false)]) == [SKIP_OBLS[1]];
    assert LoopChecks(p, nm, [], [], Top, BoolLit(false), [BoolLit(false)], [], map[], 0) == (SKIP_OBLS, 0) by {
      assert [SKIP_OBLS[0]] + [] + [SKIP_OBLS[1]] == SKIP_OBLS;
    }
    WhileEncoding(p, nm, [], [], Top, BoolLit(false), [BoolLit(false)], [], map[], 0, {});
    assert ExitStore(map[], {}, 0) == map[];
    assert [TBool(false)][1..] == [] && ConjoinAll(Cond(NEVER), []) == Cond(NEVER);
    assert ConjoinAll(Cond(TNot(TBool(false))), [TBool(false)]) == Cond(NEVER);
  }

  lemma {:induction false} SkippedObligations()
    ensures Obligations(NO_FNS, SKIPPED, {}) == SKIP_OBLS + [Obl([NEVER], TBool(false))]
  {
    var p, nm: NameMap := NO_FNS, map[];
    var fail, body := Assert(BoolLit(false)), SKIPPED.body;
    assert OldNamesIn([]) == {};
    assert EntryNames(SKIPPED, {}) == nm && EntryStore({}) == map[];
    SkippedEncoding();
    assert body[1..] == [fail] && [fail][1..] == [] && [] + PathTerms(Cond(NEVER)) == [NEVER];
    var last := [Obl([NEVER], TBool(false))];
    assert Encode(p, nm, [], [], Cond(NEVER), fail, map[], 0) == Enc(map[], 0, last, false, Top);
    assert last + [] == last;
    assert EncodeAll(p, nm, [], [], Cond(NEVER), [fail], map[], 0).obls == last;
  }

  /** `while i < 3 { i = i + 1; } assert i == 0;` over a parameter `i` */
  const STEPS := While(Bin(Lt, Var("i"), IntLit(3)), [], [COUNT_STEP])
  const UNANNOTATED := Fn({"i"}, [], [], [STEPS, Assert(Bin(Eq, Var("i"), IntLit(0)))], true)

  /** Nothing is emitted for what follows a loop without invariants, so this
      function is verified; from 0 the loop ends at 3 and the assertion fails. */
  lemma {:induction false} UnannotatedLoopHidesRest(sorts: Sorting)
    ensures AllValid(Obligations(NO_FNS, UNANNOTATED, {}), sorts)
    ensures RunAll(NO_FNS, UNANNOTATED.body, map["i" := IntV(0)], 3).AssertFailed?
  {
    var body := UNANNOTATED.body;
    assert body == [STEPS] + [body[1]] && body[1..] == [body[1]];
    UnannotatedIsVerified(NO_FNS, UNANNOTATED, {}, sorts, STEPS, [body[1]]);
    StepsRun(0, 3);
    assert Eval(NO_FNS, {}, body[1].cond, map["i" := IntV(3)]) == BoolV(false);
    assert RunAll(NO_FNS, [body[1]], map["i" := IntV(3)], 3).AssertFailed?;
  }

  lemma {:induction false} StepsRun(n: int, fuel: nat)
    requires 0 <= n <= 3 && fuel >= 3 - n
    ensures Run(NO_FNS, STEPS, map["i" := IntV(n)], fuel) == Normal(map["i" := IntV(3)])
    decreases 3 - n
  {
    assert Eval(NO_FNS, {}, STEPS.cond, map["i" := IntV(n)]) == BoolV(n < 3);
    if n < 3 {
      CounterStep(n, fuel);
      StepsRun(n + 1, fuel - 1);
    }
  }

  /** `while i < 1 invariant true { a[0] = 7; i = i + 1; }` */
  const WRITE := WriteIndex("a", [IntLit(0)], IntLit(7))
  const WRITE_LOOP := While(Bin(Lt, Var("i"), IntLit(1)), [BoolLit(true)], [WRITE, COUNT_STEP])

  ghost const ZEROED := ConstArray(IntV(0))
  ghost const SEVENED := Store(ZEROED, IntV(0), IntV(7))

  lemma {:induction false} WriteStepRun()
    ensures RunScope(NO_FNS, WRITE_LOOP.body, map["i" := IntV(0), "a" := ZEROED], 1)
         == Normal(map["i" := IntV(1), "a" := SEVENED])
  {
    var env: Env := map["i" := IntV(0), "a" := ZEROED];
    var env1: Env := map["i" := IntV(0), "a" := SEVENED];
    var env2: Env := map["i" := IntV(1), "a" := SEVENED];
    WriteRun();
    assert Eval(NO_FNS, {}, COUNT_STEP.value, env1) == IntV(1);
    assert Run(NO_FNS, COUNT_STEP, env1, 1) == Normal(env2) by { assert env1["i" := IntV(1)] == env2; }
    assert WRITE_LOOP.body[1..] == [COUNT_STEP];
    assert RunAll(NO_FNS, [COUNT_STEP], env1, 1) == Normal(env2);
    assert Leave(env, env2) == env2;
  }

  lemma {:induction false} WriteRun()
    ensures Run(NO_FNS, WRITE, map["i" := IntV(0), "a" := ZEROED], 1) == Normal(map["i" := IntV(0), "a" := SEVENED])
  {
    var env: Env := map["i" := IntV(0), "a" := ZEROED];
    assert [IntLit(0)][1..] == [] && [IntV(0)][1..] == [];
    assert EvalSeq(NO_FNS, {}, [IntLit(0)], env) == [IntV(0)];
    assert UpdatePath(ZEROED, [IntV(0)], IntV(7)) == SEVENED;
    assert env["a" := SEVENED] == map["i" := IntV(0), "a" := SEVENED];
  }

  lemma {:induction false} WriteLoopRun(p: Program, s: Stmt)
    requires p == NO_FNS && s == WRITE_LOOP
    ensures Run(p, s, map["i" := IntV(0), "a" := ZEROED], 1) == Normal(map["i" := IntV(1), "a" := SEVENED])
  {
    WriteStepRun();
    assert Eval(p, {}, s.cond, map["i" := IntV(0), "a" := ZEROED]) == BoolV(true);
    assert Eval(p, {}, s.cond, map["i" := IntV(1), "a" := SEVENED]) == BoolV(false);
  }

  lemma {:induction false} WriteLoopMutates(s: Stmt)
    requires s == WRITE_LOOP
    ensures Mutated(s.body) == {"i"}
  {
    CounterMutates();
    assert s.body[1..] == [COUNT_STEP] && MutatedIn(s.body[0]) == {};
  }

  /** Element writes are not collected as mutations: the final state of this loop
      is none that its exit store covers, for any choice of the exit constants. */
  lemma {:induction false} ElementWriteEscapesExitStore(p: Program, s: Stmt, nm: NameMap, st: NameMap, dom: set<string>,
                                                        syms: set<Sym>, k: nat, sorts: Sorting, rho: Valuation,
                                                        env: Env, final: Env)
    requires p == NO_FNS && s == WRITE_LOOP && WellSorted(rho, sorts)
    requires env == map["i" := IntV(0), "a" := ZEROED] && final == map["i" := IntV(1), "a" := SEVENED]
    requires Ready(p, nm, st, dom, syms, k) && Denotes(p, nm, st, dom, rho, env)
    ensures Run(p, s, env, 1) == Normal(final)
    ensures !ExitReaches(p, nm, Encode(p, nm, [], [], Top, s, st, k).st, dom, syms, sorts, rho, final)
  {
    WriteLoopRun(p, s);
    WriteLoopMutates(s);
    assert SEVENED.cells[0] == IntV(7) && ZEROED.cells[0] == IntV(0);
    EscapesExitStore(p, nm, s, st, dom, syms, k, sorts, rho, env, 1, final, "a");
  }
}
