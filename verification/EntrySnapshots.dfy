/** The entry values a function's clauses may speak of: which have a symbol, which
    share it, and what becomes of an `old` that has none. */
module EntrySnapshots {
  import opened Values
  import opened Terms
  import opened SpecLang
  import opened Lowering
  import opened Statements
  import opened SymbolicExec
  import opened SymbolicSound
  import opened FunctionContracts

  /** Every mutable global starts as its own snapshot, whether or not a clause
      mentions it. */
  lemma GlobalIsItsSnapshot(f: Fn, globals: set<string>, g: string)
    requires g in globals && !IsOldName(g)
    ensures OldName(g) in EntryNames(f, globals) && EntryNames(f, globals)[OldName(g)] == EntryStore(globals)[g]
  {
    assert OldName(g) in Snapshots(f, globals);
    OldNameBack(g);
  }

  lemma OldNameBack(x: string)
    ensures Unold(OldName(x)) == x
  {
  }

  /** A parameter has a snapshot exactly if some `ensures` mentions its `old`, and
      it is a symbol other than the parameter's own. */
  lemma ParameterSnapshot(f: Fn, globals: set<string>, x: string)
    requires x in f.params && x !in globals && !IsOldName(x) && x != RESULT
    requires forall y :: y in f.params ==> !IsOldName(y)
    ensures OldName(x) in EntryNames(f, globals) <==> x in OldNamesIn(f.post)
    ensures OldName(x) in EntryNames(f, globals) ==> EntryNames(f, globals)[OldName(x)] != EntryNames(f, globals)[x]
  {
    OldNameBack(x);
    assert RESULT[0] != OldName(x)[0];
    forall y | OldName(y) == OldName(x) ensures y == x { OldNameBack(y); }
  }

  /** `fn f(x) ensures old(x) == x { }` */
  const KEPT_X := Fn({"x"}, [], [Bin(Eq, Old(Var("x")), Var("x"))], [ReturnVoid], true)
  const EMPTY := Program(map[], map[])

  /** Nothing ties a parameter's snapshot to the parameter, so this function is
      refused although every run of it is correct. */
  lemma {:induction false} UntiedSnapshotIsRefused(v: Value, sorts: Sorting)
    requires forall s :: s in sorts ==> sorts[s] == IntSort
    ensures RunIsCorrect(EMPTY, KEPT_X, RunAll(EMPTY, KEPT_X.body, EntryEnv(KEPT_X, {}, map["x" := v]), 0))
    ensures !AllValid(Obligations(EMPTY, KEPT_X, {}), sorts)
  {
    KeptRun(v);
    KeptObligation();
    var rho: Valuation := map[Const(OldSym, "x") := IntV(1)];
    var goal := TBin(Eq, TSym(Const(OldSym, "x")), TSym(Const(ParamSym, "x")));
    assert EvalT(goal, rho) == Apply(Eq, IntV(1), IntV(0));
    var o := Obl([], goal);
    assert !Holds(o, rho) && WellSorted(rho, sorts) && o in [o];
  }

  lemma {:induction false} KeptNames()
    ensures MappedNames(KEPT_X, {}) == {"x", OldName("x")}
    ensures EntryNames(KEPT_X, {})
         == map["x" := TSym(Const(ParamSym, "x")), OldName("x") := TSym(Const(OldSym, "x"))]
  {
    assert OldNames(Bin(Eq, Old(Var("x")), Var("x"))) == {"x"};
    assert KEPT_X.post[1..] == [] && OldNamesIn(KEPT_X.post) == {"x"};
    assert Snapshots(KEPT_X, {}) == {OldName("x")};
    assert "x"[0] != OldName("")[0] && !IsOldName("x");
    OldNameBack("x");
  }

  lemma {:induction false} KeptRun(v: Value)
    ensures RunIsCorrect(EMPTY, KEPT_X, RunAll(EMPTY, KEPT_X.body, EntryEnv(KEPT_X, {}, map["x" := v]), 0))
  {
    KeptNames();
    OldNameBack("x");
    var env := EntryEnv(KEPT_X, {}, map["x" := v]);
    assert "x"[0] != OldName("")[0];
    assert env["x"] == v && env[OldName("x")] == v;
    assert Eval(EMPTY, {}, KEPT_X.post[0], env) == Apply(Eq, v, v);
    assert ClausesHold(EMPTY, KEPT_X.post, env);
    assert KEPT_X.body[1..] == [];
  }

  lemma {:induction false} KeptObligation()
    ensures Obligations(EMPTY, KEPT_X, {})
         == [Obl([], TBin(Eq, TSym(Const(OldSym, "x")), TSym(Const(ParamSym, "x"))))]
  {
    KeptNames();
    var nm, st := EntryNames(KEPT_X, {}), EntryStore({});
    var goal := TBin(Eq, TSym(Const(OldSym, "x")), TSym(Const(ParamSym, "x")));
    assert st == map[];
    assert LowerWp(EMPTY, nm, st, KEPT_X.post[0], 0) == (goal, 0);
    assert KEPT_X.post[1..] == [] && [goal] + [] == [goal];
    assert EncodeClauses(EMPTY, nm, st, [], 0) == ([], 0);
    assert EncodeClauses(EMPTY, nm, st, KEPT_X.post, 0) == ([goal], 0);
    assert [] + PathTerms(Top) == [];
    assert OblsFor([], [goal]) == [Obl([], goal)];
    assert Encode(EMPTY, nm, KEPT_X.post, [], Top, ReturnVoid, st, 0) == Enc(st, 0, [Obl([], goal)], true, Top);
  }

  /** An `old` without a snapshot is lowered as the name itself where the store
      holds it: it says what the name holds now. */
  lemma OldReadsCurrent(p: Program, nm: NameMap, st: NameMap, x: string, k: nat)
    requires OldName(x) !in nm && x in st
    ensures LowerWp(p, nm, st, Old(Var(x)), k) == LowerWp(p, nm, st, Var(x), k)
  {
  }

  /** `fn f(x) { x = x + 1; assert old(x) == x; }` */
  const BUMPED := Fn({"x"}, [], [], [IncDec("x", true), Assert(Bin(Eq, Old(Var("x")), Var("x")))], true)

  /** The snapshots are those of `ensures` clauses only, so this assertion compares
      the new value with itself: its obligation is valid. */
  lemma {:induction false} OldInAssertion(sorts: Sorting)
    ensures AllValid(Obligations(EMPTY, BUMPED, {}), sorts)
  {
    BumpedObligation();
    var t := TBin(Add, TSym(Const(ParamSym, "x")), TInt(1));
    forall rho: Valuation ensures Holds(Obl([], TBin(Eq, t, t)), rho) {}
  }

  lemma {:induction false} BumpedObligation()
    ensures var t := TBin(Add, TSym(Const(ParamSym, "x")), TInt(1));
            Obligations(EMPTY, BUMPED, {}) == [Obl([], TBin(Eq, t, t))]
  {
    var body := BUMPED.body;
    assert OldNamesIn([]) == {} && "x" in BUMPED.params && "x"[0] != OldName("")[0];
    var nm: NameMap := map["x" := TSym(Const(ParamSym, "x"))];
    assert MappedNames(BUMPED, {}) == {"x"} && EntryNames(BUMPED, {}) == nm && EntryStore({}) == map[];
    var t := TBin(Add, TSym(Const(ParamSym, "x")), TInt(1));
    var st: NameMap := map["x" := t];
    assert Encode(EMPTY, nm, [], [], Top, body[0], map[], 0) == Enc(st, 0, [], false, Top);
    assert LowerWp(EMPTY, nm, st, body[1].cond, 0) == (TBin(Eq, t, t), 0) && [] + PathTerms(Top) == [];
    assert body[1..] == [body[1]] && [body[1]][1..] == [];
    assert Encode(EMPTY, nm, [], [], Top, body[1], st, 0) == Enc(st, 0, [Obl([], TBin(Eq, t, t))], false, Top);
    assert EncodeAll(EMPTY, nm, [], [], Top, [body[1]], st, 0).obls == [Obl([], TBin(Eq, t, t))];
  }
}
