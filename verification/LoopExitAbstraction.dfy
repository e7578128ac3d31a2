/** The store and path condition the executor continues with after a loop. */
module LoopExitAbstraction {
  import opened Values
  import opened Terms
  import opened SpecLang
  import opened Lowering
  import opened Statements
  import opened SymbolicExec
  import opened SymbolicSound

  /** Names declared anywhere inside. */
  function Declared(ss: seq<Stmt>): set<string>
    decreases ss, 0
  {
    if |ss| == 0 then {} else DeclaredIn(ss[0]) + Declared(ss[1..])
  }

  function DeclaredIn(s: Stmt): set<string>
    decreases s, 1
  {
    match s
    case Let(x, _) => {x}
    case Block(body) => Declared(body)
    case If(_, a, b) => Declared(a) + Declared(b)
    case While(_, _, body) => Declared(body)
    case _ => {}
  }

  /** Only whole variables are assigned, never array elements. */
  predicate ScalarWrites(ss: seq<Stmt>)
    decreases ss, 0
  {
    |ss| == 0 || (ScalarWritesIn(ss[0]) && ScalarWrites(ss[1..]))
  }

  predicate ScalarWritesIn(s: Stmt)
    decreases s, 1
  {
    match s
    case WriteIndex(_, _, _) => false
    case Block(body) => ScalarWrites(body)
    case If(_, a, b) => ScalarWrites(a) && ScalarWrites(b)
    case While(_, _, body) => ScalarWrites(body)
    case _ => true
  }

  /** The statements of a list, those inside others included. */
  function Parts(ss: seq<Stmt>): set<Stmt>
    decreases ss, 0
  {
    if |ss| == 0 then {} else PartsIn(ss[0]) + Parts(ss[1..])
  }

  function PartsIn(s: Stmt): set<Stmt>
    decreases s, 1
  {
    {s} + match s
          case Block(body) => Parts(body)
          case If(_, a, b) => Parts(a) + Parts(b)
          case While(_, _, body) => Parts(body)
          case _ => {}
  }

  predicate Writes(s: Stmt, x: string) {
    (s.Assign? || s.Compound? || s.IncDec?) && s.x == x
  }

  /** The names collected are exactly those that some statement inside assigns or
      steps. */
  lemma {:induction false} MutatedExact(ss: seq<Stmt>, x: string)
    ensures x in Mutated(ss) <==> exists t :: t in Parts(ss) && Writes(t, x)
    decreases ss, 0
  {
    if |ss| > 0 {
      MutatedInExact(ss[0], x);
      MutatedExact(ss[1..], x);
    }
  }

  lemma {:induction false} MutatedInExact(s: Stmt, x: string)
    ensures x in MutatedIn(s) <==> exists t :: t in PartsIn(s) && Writes(t, x)
    decreases s, 1
  {
    match s
    case Block(body) => MutatedExact(body, x); assert PartsIn(s) == {s} + Parts(body);
    case If(_, a, b) =>
      MutatedExact(a, x); MutatedExact(b, x);
      assert PartsIn(s) == {s} + Parts(a) + Parts(b);
    case While(_, _, body) => MutatedExact(body, x); assert PartsIn(s) == {s} + Parts(body);
    case _ =>
      assert PartsIn(s) == {s} && s in PartsIn(s);
      assert x in MutatedIn(s) <==> Writes(s, x);
  }

  ghost predicate SameOutside(env: Env, env': Env, touched: set<string>) {
    env.Keys <= env'.Keys && forall x :: x in env && x !in touched ==> env'[x] == env[x]
  }

  /** A name that is neither collected as mutated nor declared inside keeps its
      value through any normal run, nested loops included. */
  lemma {:induction false} MutatedIsComplete(p: Program, s: Stmt, env: Env, fuel: nat)
    requires ScalarWritesIn(s) && Run(p, s, env, fuel).Normal?
    ensures SameOutside(env, Run(p, s, env, fuel).s, MutatedIn(s) + DeclaredIn(s))
    decreases fuel, s, 1
  {
    match s
    case Let(_, _) =>
    case Assign(_, _) =>
    case Compound(_, _, _) =>
    case IncDec(_, _) =>
    case Assert(_) =>
    case Block(body) => MutatedIsCompleteScope(p, body, env, fuel);
    case If(c, a, b) =>
      if AsBool(Eval(p, {}, c, env)) {
        MutatedIsCompleteScope(p, a, env, fuel);
      } else {
        MutatedIsCompleteScope(p, b, env, fuel);
      }
    case While(c, _, body) =>
      if AsBool(Eval(p, {}, c, env)) {
        var o := RunScope(p, body, env, fuel);
        MutatedIsCompleteScope(p, body, env, fuel);
        MutatedIsComplete(p, s, o.s, fuel - 1);
      }
  }

  lemma {:induction false} MutatedIsCompleteScope(p: Program, ss: seq<Stmt>, env: Env, fuel: nat)
    requires ScalarWrites(ss) && RunScope(p, ss, env, fuel).Normal?
    ensures SameOutside(env, RunScope(p, ss, env, fuel).s, Mutated(ss) + Declared(ss))
    ensures RunScope(p, ss, env, fuel).s.Keys == env.Keys
    decreases fuel, ss, 2
  {
    MutatedIsCompleteAll(p, ss, env, fuel);
  }

  lemma {:induction false} MutatedIsCompleteAll(p: Program, ss: seq<Stmt>, env: Env, fuel: nat)
    requires ScalarWrites(ss) && RunAll(p, ss, env, fuel).Normal?
    ensures SameOutside(env, RunAll(p, ss, env, fuel).s, Mutated(ss) + Declared(ss))
    decreases fuel, ss, 0
  {
    if |ss| > 0 {
      MutatedIsComplete(p, ss[0], env, fuel);
      MutatedIsCompleteAll(p, ss[1..], Run(p, ss[0], env, fuel).s, fuel);
    }
  }

  ghost predicate Ints(env: Env, names: set<string>) {
    forall x :: x in names && x in env ==> env[x].IntV?
  }

  /** What is known of a state at the head of a loop entered from `entry`: names
      the body does not write are as they were, and those it writes hold
      integers, as the constants that stand for them do. */
  ghost predicate HeadState(s: Stmt, entry: Env, e: Env)
    requires s.While?
  {
    e.Keys == entry.Keys && SameOutside(entry, e, Mutated(s.body)) && Ints(e, Mutated(s.body))
  }

  /** The invariants are preserved by every iteration of the loop, not just the
      first. */
  ghost predicate Inductive(p: Program, s: Stmt, entry: Env)
    requires s.While?
  {
    forall e: Env, fuel: nat ::
      HeadState(s, entry, e) && ClausesHold(p, s.invariants, e) && AsBool(Eval(p, {}, s.cond, e))
        && RunScope(p, s.body, e, fuel).Normal?
      ==> && ClausesHold(p, s.invariants, RunScope(p, s.body, e, fuel).s)
          && Ints(RunScope(p, s.body, e, fuel).s, Mutated(s.body))
  }

  lemma {:induction false} HeadStateKept(p: Program, s: Stmt, dom: set<string>, entry: Env, e: Env, fuel: nat)
    requires LoopCovered(p, s, dom) && entry.Keys <= dom && HeadState(s, entry, e)
    requires RunScope(p, s.body, e, fuel).Normal?
    requires Ints(RunScope(p, s.body, e, fuel).s, Mutated(s.body))
    ensures HeadState(s, entry, RunScope(p, s.body, e, fuel).s)
  {
    MutatedIsCompleteScope(p, s.body, e, fuel);
  }

  lemma {:induction false} InvariantsAtExit(p: Program, s: Stmt, dom: set<string>, entry: Env, e: Env, fuel: nat)
    requires LoopCovered(p, s, dom) && entry.Keys <= dom && Inductive(p, s, entry) && HeadState(s, entry, e)
    requires ClausesHold(p, s.invariants, e) && Run(p, s, e, fuel).Normal?
    ensures ExitState(p, s, entry, Run(p, s, e, fuel).s)
    decreases fuel
  {
    if AsBool(Eval(p, {}, s.cond, e)) {
      HeadStateKept(p, s, dom, entry, e, fuel);
      InvariantsAtExit(p, s, dom, entry, RunScope(p, s.body, e, fuel).s, fuel - 1);
    }
  }

  /** Loops covered: annotated, with scalar writes to ordinary names and no
      shadowing, and a guard and invariants over visible names. */
  ghost predicate LoopCovered(p: Program, s: Stmt, dom: set<string>) {
    && s.While? && |s.invariants| > 0 && ScalarWrites(s.body)
    && Declared(s.body) !! dom
    && Mutated(s.body) !! p.consts.Keys && (forall x :: x in Mutated(s.body) ==> !IsOldName(x))
    && Scoped(p, {}, s.cond, dom) && ClausesScoped(p, s.invariants, dom)
  }

  ghost predicate FreeIn(ts: seq<Term>, syms: set<Sym>) {
    forall i :: 0 <= i < |ts| ==> Free(ts[i]) <= syms
  }

  function ExitSyms(syms: set<Sym>, mutated: set<string>, k: nat): set<Sym> {
    syms + set x | x in mutated :: LoopExit(x, k)
  }

  /** Give every exit constant the value its name has when the loop ends. */
  function ExitValuation(rho: Valuation, mutated: set<string>, k: nat, env: Env): Valuation {
    rho + map s | s in (set x | x in mutated :: LoopExit(x, k)) ::
      if s.LoopExit? && s.local in env then env[s.local] else IntV(0)
  }

  /** A name outside the mutated ones keeps its term; a mutated one gets its
      exit constant. */
  lemma ExitStoreAt(nm: NameMap, st: NameMap, mutated: set<string>, k: nat, x: string)
    requires x in nm + ExitStore(st, mutated, k)
    ensures (nm + ExitStore(st, mutated, k))[x] == if x in mutated then TSym(LoopExit(x, k)) else (nm + st)[x]
  {
  }

  lemma {:induction false} ExitStoreReady(p: Program, nm: NameMap, st: NameMap, dom: set<string>, syms: set<Sym>,
                                          k: nat, k': nat, mutated: set<string>)
    requires Ready(p, nm, st, dom, syms, k) && k <= k'
    requires mutated !! p.consts.Keys && (forall x :: x in mutated ==> !IsOldName(x))
    ensures Ready(p, nm, ExitStore(st, mutated, k'), dom, ExitSyms(syms, mutated, k'), k' + |mutated|)
  {
    var exitSt, syms' := ExitStore(st, mutated, k'), ExitSyms(syms, mutated, k');
    assert (nm + exitSt).Keys == (nm + st).Keys + mutated;
    assert SymsIn(nm + exitSt, syms') by {
      forall x | x in nm + exitSt ensures Free((nm + exitSt)[x]) <= syms' {
        ExitStoreAt(nm, st, mutated, k', x);
        if x in mutated { assert LoopExit(x, k') in syms'; }
      }
    }
    assert Below(syms', k' + |mutated|) by { ExitSymsBelow(syms, mutated, k, k'); }
  }

  lemma ExitSymsBelow(syms: set<Sym>, mutated: set<string>, k: nat, k': nat)
    requires Below(syms, k) && k <= k'
    ensures Below(ExitSyms(syms, mutated, k'), k' + |mutated|)
  {
    forall s | s in ExitSyms(syms, mutated, k') ensures s.Const? || s.Arg? || s.at < k' + |mutated| {
      if s !in syms {
        var x :| x in mutated && s == LoopExit(x, k');
        assert |mutated| > 0;
      }
    }
  }

  lemma {:induction false} ExitStoreDenotes(p: Program, nm: NameMap, st: NameMap, dom: set<string>, syms: set<Sym>,
                                            k: nat, k': nat, mutated: set<string>, rho: Valuation, env: Env, env': Env)
    requires SymsIn(nm + st, syms) && Below(syms, k) && k <= k' && Denotes(p, nm, st, dom, rho, env)
    requires env'.Keys == env.Keys && forall x :: x in env && x !in mutated ==> env'[x] == env[x]
    ensures Denotes(p, nm, ExitStore(st, mutated, k'), dom, ExitValuation(rho, mutated, k', env'), env')
    ensures Terms.AgreeOn(rho, ExitValuation(rho, mutated, k', env'), syms)
  {
    var exitSt, rho' := ExitStore(st, mutated, k'), ExitValuation(rho, mutated, k', env');
    ExitValuationAgrees(rho, mutated, k', env', syms, k);
    forall x | x in env ensures x in nm + exitSt && EvalT((nm + exitSt)[x], rho') == env'[x] {
      assert x in nm + st && x in nm + exitSt;
      ExitStoreAt(nm, st, mutated, k', x);
      if x in mutated {
        ExitValue(rho, mutated, k', env', x);
      } else {
        Coincidence((nm + st)[x], rho, rho');
      }
    }
  }

  lemma ExitValue(rho: Valuation, mutated: set<string>, k: nat, env: Env, x: string)
    requires x in mutated && x in env
    ensures EvalT(TSym(LoopExit(x, k)), ExitValuation(rho, mutated, k, env)) == env[x]
  {
    assert LoopExit(x, k) in ExitValuation(rho, mutated, k, env);
  }

  lemma ExitValuationAgrees(rho: Valuation, mutated: set<string>, k': nat, env: Env, syms: set<Sym>, k: nat)
    requires Below(syms, k) && k <= k'
    ensures Terms.AgreeOn(rho, ExitValuation(rho, mutated, k', env), syms)
  {
  }

  lemma ExitValuationSorted(rho: Valuation, mutated: set<string>, k': nat, env: Env, sorts: Sorting)
    requires WellSorted(rho, sorts) && Ints(env, mutated)
    ensures WellSorted(ExitValuation(rho, mutated, k', env), sorts)
  {
    var rho' := ExitValuation(rho, mutated, k', env);
    forall s | s in sorts && !s.LoopExit? ensures SymValue(rho', s) == SymValue(rho, s) {}
    forall x, k ensures SymValue(rho', LoopExit(x, k)).IntV? { assert SymValue(rho, LoopExit(x, k)).IntV?; }
  }

  /** Some choice of the exit constants makes the exit store denote `env'`. */
  ghost predicate ExitReaches(p: Program, nm: NameMap, exitSt: NameMap, dom: set<string>, syms: set<Sym>,
                              sorts: Sorting, rho: Valuation, env': Env) {
    exists rho': Valuation ::
      Terms.AgreeOn(rho, rho', syms) && WellSorted(rho', sorts) && Denotes(p, nm, exitSt, dom, rho', env')
  }

  /** The states the exit store covers are exactly those in which every name
      that was not collected has its old value and every collected one is an
      integer. */
  lemma {:induction false} ExitStoreExact(p: Program, nm: NameMap, st: NameMap, dom: set<string>, syms: set<Sym>,
                                          k: nat, k': nat, mutated: set<string>, sorts: Sorting, rho: Valuation,
                                          env: Env, env': Env)
    requires SymsIn(nm + st, syms) && Below(syms, k) && k <= k' && Denotes(p, nm, st, dom, rho, env)
    requires WellSorted(rho, sorts) && env'.Keys == env.Keys
    ensures ExitReaches(p, nm, ExitStore(st, mutated, k'), dom, syms, sorts, rho, env')
       <==> (forall x :: x in env && x !in mutated ==> env'[x] == env[x]) && Ints(env', mutated)
  {
    var exitSt := ExitStore(st, mutated, k');
    if (forall x :: x in env && x !in mutated ==> env'[x] == env[x]) && Ints(env', mutated) {
      ExitStoreDenotes(p, nm, st, dom, syms, k, k', mutated, rho, env, env');
      ExitValuationSorted(rho, mutated, k', env', sorts);
    }
    forall rho': Valuation, x |
      Terms.AgreeOn(rho, rho', syms) && WellSorted(rho', sorts) && Denotes(p, nm, exitSt, dom, rho', env') && x in env
      ensures if x in mutated then env'[x].IntV? else env'[x] == env[x]
    {
      ExitStoreAt(nm, st, mutated, k', x);
      if x in mutated {
        assert env'[x] == SymValue(rho', LoopExit(x, k'));
      } else {
        assert x in nm + st;
        Coincidence((nm + st)[x], rho, rho');
      }
    }
  }

  lemma {:induction false} ExitStoreCovers(p: Program, nm: NameMap, st: NameMap, dom: set<string>, syms: set<Sym>,
                                           k: nat, k': nat, mutated: set<string>, sorts: Sorting, rho: Valuation,
                                           env: Env, env': Env)
      returns (syms': set<Sym>, rho': Valuation)
    requires Ready(p, nm, st, dom, syms, k) && k <= k' && Denotes(p, nm, st, dom, rho, env) && WellSorted(rho, sorts)
    requires mutated !! p.consts.Keys && (forall x :: x in mutated ==> !IsOldName(x)) && Ints(env', mutated)
    requires env'.Keys == env.Keys && forall x :: x in env && x !in mutated ==> env'[x] == env[x]
    ensures Ready(p, nm, ExitStore(st, mutated, k'), dom, syms', k' + |mutated|)
    ensures Denotes(p, nm, ExitStore(st, mutated, k'), dom, rho', env') && WellSorted(rho', sorts)
    ensures Terms.AgreeOn(rho, rho', syms)
  {
    ExitStoreReady(p, nm, st, dom, syms, k, k', mutated);
    ExitStoreDenotes(p, nm, st, dom, syms, k, k', mutated, rho, env, env');
    ExitValuationSorted(rho, mutated, k', env', sorts);
    syms', rho' := ExitSyms(syms, mutated, k'), ExitValuation(rho, mutated, k', env');
  }

  lemma {:induction false} LoopExitCoversState(p: Program, nm: NameMap, ens: seq<Expr>, prem: seq<Term>, pc: Path,
                                               s: Stmt, st: NameMap, dom: set<string>, syms: set<Sym>, k: nat,
                                               sorts: Sorting, rho: Valuation, env: Env, env': Env)
      returns (syms': set<Sym>, rho': Valuation)
    requires WellSorted(rho, sorts)
    requires LoopCovered(p, s, dom) && Ready(p, nm, st, dom, syms, k) && Denotes(p, nm, st, dom, rho, env)
    requires AllTrue(prem, rho) && PathTrue(pc, rho) && FreeIn(prem + PathTerms(pc), syms)
    requires ExitState(p, s, env, env')
    ensures ExitCovered(p, nm, prem, pc, Encode(p, nm, ens, prem, pc, s, st, k), dom, syms', rho', env')
    ensures WellSorted(rho', sorts)
  {
    var mutated := Mutated(s.body);
    var k', enc := EncodeWhileIs(p, nm, ens, prem, pc, s, st, k, mutated);
    syms', rho' := ExitStoreCovers(p, nm, st, dom, syms, k, k', mutated, sorts, rho, env, env');
    PremisesCarryOver(prem, pc, syms, rho, rho');
    ExitPathCovers(p, nm, pc, s.cond, s.invariants, ExitStore(st, mutated, k'), k' + |mutated|,
                   dom, syms', rho', env', enc);
  }

  /** What every state a loop can end in has in common. */
  ghost predicate ExitState(p: Program, s: Stmt, entry: Env, e: Env)
    requires s.While?
  {
    HeadState(s, entry, e) && ClausesHold(p, s.invariants, e) && !AsBool(Eval(p, {}, s.cond, e))
  }

  /** The encoding continues over `env`: the store denotes it, and premises and
      path condition are true, under the valuation `rho`. */
  ghost predicate ExitCovered(p: Program, nm: NameMap, prem: seq<Term>, pc: Path, enc: Enc, dom: set<string>,
                              syms: set<Sym>, rho: Valuation, env: Env) {
    && !enc.returned && Ready(p, nm, enc.st, dom, syms, enc.k) && Denotes(p, nm, enc.st, dom, rho, env)
    && PathTrue(PathAnd(pc, enc.exit), rho) && AllTrue(prem, rho)
  }

  /** Loop-exit abstraction: whatever the number of iterations, some choice of
      the exit constants makes the exit store denote the concrete exit state
      and makes the premises and the whole exit path condition true, so
      what follows the loop is encoded over every state the loop can end in. */
  lemma {:induction false} LoopExitCoversRun(p: Program, nm: NameMap, ens: seq<Expr>, prem: seq<Term>, pc: Path,
                                             s: Stmt, st: NameMap, dom: set<string>, syms: set<Sym>, k: nat,
                                             sorts: Sorting, rho: Valuation, env: Env, fuel: nat)
      returns (syms': set<Sym>, rho': Valuation)
    requires WellSorted(rho, sorts) && s.While? && Ints(env, Mutated(s.body))
    requires LoopCovered(p, s, dom) && Ready(p, nm, st, dom, syms, k) && Denotes(p, nm, st, dom, rho, env)
    requires AllTrue(prem, rho) && PathTrue(pc, rho) && FreeIn(prem + PathTerms(pc), syms)
    requires Inductive(p, s, env) && ClausesHold(p, s.invariants, env) && Run(p, s, env, fuel).Normal?
    ensures ExitCovered(p, nm, prem, pc, Encode(p, nm, ens, prem, pc, s, st, k), dom, syms', rho',
                        Run(p, s, env, fuel).s)
    ensures WellSorted(rho', sorts)
  {
    InvariantsAtExit(p, s, dom, env, env, fuel);
    syms', rho' := LoopExitCoversState(p, nm, ens, prem, pc, s, st, dom, syms, k, sorts, rho, env,
                                       Run(p, s, env, fuel).s);
  }

  /** What Encode returns for an annotated loop, and the counter at which the
      exit constants are minted. */
  lemma {:induction false} EncodeWhileIs(p: Program, nm: NameMap, ens: seq<Expr>, prem: seq<Term>, pc: Path, s: Stmt,
                                         st: NameMap, k: nat, mutated: set<string>)
      returns (k': nat, enc: Enc)
    requires s.While? && |s.invariants| > 0 && mutated == Mutated(s.body)
    ensures k <= k' && enc == Encode(p, nm, ens, prem, pc, s, st, k) && !enc.returned
    ensures enc.st == ExitStore(st, mutated, k')
    ensures enc.exit == ExitPath(p, nm, pc, s.cond, s.invariants, ExitStore(st, mutated, k'), k' + |mutated|).0
    ensures enc.k == ExitPath(p, nm, pc, s.cond, s.invariants, ExitStore(st, mutated, k'), k' + |mutated|).1
  {
    var (checks, k1) := LoopChecks(p, nm, ens, prem, pc, s.cond, s.invariants, s.body, st, k);
    enc := AfterLoop(p, nm, pc, s.cond, s.invariants, st, mutated, checks, k1);
    k' := k1;
  }

  lemma {:induction false} RunKeepsNames(p: Program, s: Stmt, env: Env, fuel: nat)
    requires Run(p, s, env, fuel).Normal?
    ensures env.Keys <= Run(p, s, env, fuel).s.Keys
    ensures s.While? ==> Run(p, s, env, fuel).s.Keys == env.Keys
    decreases fuel, s, 1
  {
    match s
    case Block(body) => ScopeKeepsNames(p, body, env, fuel);
    case If(c, a, b) =>
      if AsBool(Eval(p, {}, c, env)) { ScopeKeepsNames(p, a, env, fuel); } else { ScopeKeepsNames(p, b, env, fuel); }
    case While(c, _, body) =>
      if AsBool(Eval(p, {}, c, env)) {
        ScopeKeepsNames(p, body, env, fuel);
        RunKeepsNames(p, s, RunScope(p, body, env, fuel).s, fuel - 1);
      }
    case _ =>
  }

  lemma {:induction false} ScopeKeepsNames(p: Program, ss: seq<Stmt>, env: Env, fuel: nat)
    requires RunScope(p, ss, env, fuel).Normal?
    ensures RunScope(p, ss, env, fuel).s.Keys == env.Keys
    decreases fuel, ss, 2
  {
    ListKeepsNames(p, ss, env, fuel);
  }

  lemma {:induction false} ListKeepsNames(p: Program, ss: seq<Stmt>, env: Env, fuel: nat)
    requires RunAll(p, ss, env, fuel).Normal?
    ensures env.Keys <= RunAll(p, ss, env, fuel).s.Keys
    decreases fuel, ss, 0
  {
    if |ss| > 0 {
      RunKeepsNames(p, ss[0], env, fuel);
      ListKeepsNames(p, ss[1..], Run(p, ss[0], env, fuel).s, fuel);
    }
  }

  /** For every annotated loop and run, element writes and shadowing included:
      the exit store covers the final state exactly when the run left every
      name that was not collected as it was, and every collected one holds an
      integer. */
  lemma {:induction false} LoopExitExact(p: Program, nm: NameMap, ens: seq<Expr>, prem: seq<Term>, pc: Path, s: Stmt,
                                         st: NameMap, dom: set<string>, syms: set<Sym>, k: nat, sorts: Sorting,
                                         rho: Valuation, env: Env, fuel: nat)
    requires s.While? && |s.invariants| > 0 && Run(p, s, env, fuel).Normal?
    requires SymsIn(nm + st, syms) && Below(syms, k) && Denotes(p, nm, st, dom, rho, env) && WellSorted(rho, sorts)
    ensures var final := Run(p, s, env, fuel).s;
            ExitReaches(p, nm, Encode(p, nm, ens, prem, pc, s, st, k).st, dom, syms, sorts, rho, final)
            <==> SameOutside(env, final, Mutated(s.body)) && Ints(final, Mutated(s.body))
  {
    var mutated := Mutated(s.body);
    RunKeepsNames(p, s, env, fuel);
    var k', enc := EncodeWhileIs(p, nm, ens, prem, pc, s, st, k, mutated);
    ExitStoreExact(p, nm, st, dom, syms, k, k', mutated, sorts, rho, env, Run(p, s, env, fuel).s);
  }

  /** One name that is not collected and comes out different is enough. */
  lemma {:induction false} EscapesExitStore(p: Program, nm: NameMap, s: Stmt, st: NameMap, dom: set<string>,
                                            syms: set<Sym>, k: nat, sorts: Sorting, rho: Valuation, env: Env, fuel: nat,
                                            final: Env, x: string)
    requires s.While? && |s.invariants| > 0 && Run(p, s, env, fuel) == Normal(final)
    requires SymsIn(nm + st, syms) && Below(syms, k) && Denotes(p, nm, st, dom, rho, env) && WellSorted(rho, sorts)
    requires x in env && x !in Mutated(s.body) && (x in final ==> final[x] != env[x])
    ensures !ExitReaches(p, nm, Encode(p, nm, [], [], Top, s, st, k).st, dom, syms, sorts, rho, final)
  {
    LoopExitExact(p, nm, [], [], Top, s, st, dom, syms, k, sorts, rho, env, fuel);
  }

  lemma ReadyLater(p: Program, nm: NameMap, st: NameMap, dom: set<string>, syms: set<Sym>, k: nat, k': nat)
    requires Ready(p, nm, st, dom, syms, k) && k <= k'
    ensures Ready(p, nm, st, dom, syms, k')
  {
  }

  lemma {:induction false} ExitPathCovers(p: Program, nm: NameMap, pc: Path, c: Expr, invs: seq<Expr>, exitSt: NameMap,
                                          k: nat, dom: set<string>, syms: set<Sym>, rho: Valuation, env: Env, enc: Enc)
    requires enc.st == exitSt && enc.exit == ExitPath(p, nm, pc, c, invs, exitSt, k).0
    requires enc.k == ExitPath(p, nm, pc, c, invs, exitSt, k).1
    requires Ready(p, nm, exitSt, dom, syms, k)
    requires Denotes(p, nm, exitSt, dom, rho, env)
    requires Scoped(p, {}, c, dom) && ClausesScoped(p, invs, dom) && PathTrue(pc, rho)
    requires ClausesHold(p, invs, env) && !AsBool(Eval(p, {}, c, env))
    ensures PathTrue(PathAnd(pc, enc.exit), rho) && Ready(p, nm, enc.st, dom, syms, enc.k)
    ensures Denotes(p, nm, enc.st, dom, rho, env)
  {
    ExitPathMeaning(p, nm, pc, c, invs, exitSt, k, dom, syms, rho, env);
    ReadyLater(p, nm, exitSt, dom, syms, k, enc.k);
  }

  /** The exit path condition says that the guard is false and the invariants
      hold in the state the exit store denotes. */
  lemma {:induction false} ExitPathMeaning(p: Program, nm: NameMap, pc: Path, c: Expr, invs: seq<Expr>, exitSt: NameMap,
                                           k: nat, dom: set<string>, syms: set<Sym>, rho: Valuation, env: Env)
    requires Ready(p, nm, exitSt, dom, syms, k) && Denotes(p, nm, exitSt, dom, rho, env)
    requires Scoped(p, {}, c, dom) && ClausesScoped(p, invs, dom)
    ensures PathTrue(PathAnd(pc, ExitPath(p, nm, pc, c, invs, exitSt, k).0), rho)
       <==> PathTrue(pc, rho) && !AsBool(Eval(p, {}, c, env)) && ClausesHold(p, invs, env)
  {
    var (te, k1) := LowerWp(p, nm, exitSt, c, k);
    var ti := EncodeClauses(p, nm, exitSt, invs, k1).0;
    TermValue(p, nm, exitSt, c, dom, syms, k, rho, env);
    ReadyLater(p, nm, exitSt, dom, syms, k, k1);
    ClausesValue(p, nm, exitSt, invs, dom, syms, k1, rho, env);
    var out := PathAnd(pc, Cond(TNot(te)));
    PathAndMeaning(pc, Cond(TNot(te)), rho);
    ConjoinAllMeaning(out, ti, rho);
    PathAndMeaning(pc, ConjoinAll(out, ti), rho);
  }

  lemma {:induction false} ConjoinAllMeaning(pc: Path, ts: seq<Term>, rho: Valuation)
    ensures PathTrue(ConjoinAll(pc, ts), rho) <==> PathTrue(pc, rho) && AllTrue(ts, rho)
    decreases |ts|
  {
    if |ts| > 0 {
      PathAndMeaning(pc, Cond(ts[0]), rho);
      ConjoinAllMeaning(PathAnd(pc, Cond(ts[0])), ts[1..], rho);
      assert ts == [ts[0]] + ts[1..];
    }
  }

  lemma PremisesCarryOver(prem: seq<Term>, pc: Path, syms: set<Sym>, rho: Valuation, rho': Valuation)
    requires AllTrue(prem, rho) && PathTrue(pc, rho) && FreeIn(prem + PathTerms(pc), syms)
    requires Terms.AgreeOn(rho, rho', syms)
    ensures AllTrue(prem, rho') && PathTrue(pc, rho')
  {
    var all := prem + PathTerms(pc);
    forall i | 0 <= i < |prem| ensures True(prem[i], rho') {
      assert all[i] == prem[i];
      Coincidence(prem[i], rho, rho');
    }
    if pc.Cond? {
      assert all[|prem|] == pc.t;
      Coincidence(pc.t, rho, rho');
    }
  }

  /** A loop followed by covered statements: if the loop's invariants really are
      inductive and every obligation is valid, what follows the loop runs
      without a failed assertion and meets its postconditions. */
  lemma {:induction false} SoundAfterLoop(p: Program, nm: NameMap, ens: seq<Expr>, base: set<string>, prem: seq<Term>,
                                          pc: Path, s: Stmt, rest: seq<Stmt>, st: NameMap, dom: set<string>,
                                          syms: set<Sym>, k: nat, sorts: Sorting, rho: Valuation, env: Env, fuel: nat)
    requires WellSorted(rho, sorts) && s.While? && Ints(env, Mutated(s.body))
    requires LoopCovered(p, s, dom) && Ready(p, nm, st, dom, syms, k) && Denotes(p, nm, st, dom, rho, env)
    requires AllTrue(prem, rho) && PathTrue(pc, rho) && FreeIn(prem + PathTerms(pc), syms)
    requires Inductive(p, s, env) && ClausesHold(p, s.invariants, env) && Run(p, s, env, fuel).Normal?
    requires ClausesScoped(p, ens, base) && base <= dom && RESULT !in p.consts
    requires var enc := Encode(p, nm, ens, prem, pc, s, st, k);
             FlowAll(p, rest, dom, enc.st.Keys).ok
    requires AllValid(EncodeAll(p, nm, ens, prem, pc, [s] + rest, st, k).obls, sorts)
    ensures var o := RunAll(p, [s] + rest, env, fuel);
            !o.AssertFailed? && !o.OutOfFuel? && (o.Returned? ==> ClausesHold(p, ens, o.s))
  {
    var enc := Encode(p, nm, ens, prem, pc, s, st, k);
    var pc' := PathAnd(pc, enc.exit);
    var syms', rho' := LoopExitCoversRun(p, nm, ens, prem, pc, s, st, dom, syms, k, sorts, rho, env, fuel);
    var ss := [s] + rest;
    assert ss[0] == s && ss[1..] == rest;
    var later := EncodeAll(p, nm, ens, prem, pc', rest, enc.st, enc.k);
    assert AllHold(later.obls, rho') by {
      forall o | o in later.obls
        ensures Holds(o, rho')
      {
        assert Valid(o, sorts) by { assert o in EncodeAll(p, nm, ens, prem, pc, ss, st, k).obls; }
      }
    }
    SoundAll(p, nm, ens, base, prem, pc', rest, enc.st, dom, syms', enc.k, rho', Run(p, s, env, fuel).s, fuel);
  }

  /** The goal after a counting loop: the negated guard and the bound say that
      the counter equals the limit. */
  function CountedTo(limit: Sym, x: string, k: nat): Obl {
    var i, n := TSym(LoopExit(x, k)), TSym(limit);
    Obl([TBin(And, TNot(TBin(Lt, i, n)), TBin(Le, i, n))], TBin(Eq, i, n))
  }

  /** It is valid because the limit is declared Int, and would not be if symbols
      ranged over values of any sort. */
  lemma {:induction false} CountedToIsValid(limit: Sym, x: string, k: nat, sorts: Sorting)
    requires !limit.LoopExit? && limit in sorts && sorts[limit] == IntSort
    ensures Valid(CountedTo(limit, x, k), sorts) && !Valid(CountedTo(limit, x, k), map[])
  {
    forall rho: Valuation | WellSorted(rho, sorts) ensures Holds(CountedTo(limit, x, k), rho) {
      CountedToAt(limit, x, k, rho);
    }
    var odd: Valuation := map[limit := BoolV(true)];
    CountedToAt(limit, x, k, odd);
    assert WellSorted(odd, map[]);
  }

  lemma {:induction false} CountedToAt(limit: Sym, x: string, k: nat, rho: Valuation)
    ensures Holds(CountedTo(limit, x, k), rho)
       <==> (AsInt(SymValue(rho, LoopExit(x, k))) == AsInt(SymValue(rho, limit))
          ==> SymValue(rho, LoopExit(x, k)) == SymValue(rho, limit))
  {
    var i, n := TSym(LoopExit(x, k)), TSym(limit);
    var below, within := TBin(Lt, i, n), TBin(Le, i, n);
    assert EvalT(TNot(below), rho) == BoolV(!AsBool(Apply(Lt, EvalT(i, rho), EvalT(n, rho))));
    assert EvalT(TBin(And, TNot(below), within), rho) == Apply(And, EvalT(TNot(below), rho), EvalT(within, rho));
    assert EvalT(TBin(Eq, i, n), rho) == Apply(Eq, EvalT(i, rho), EvalT(n, rho));
    assert CountedTo(limit, x, k).premises[0] == TBin(And, TNot(below), within);
  }
}
