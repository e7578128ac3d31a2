/** Functions whose parameters hide compile-time constants. Where no constant
    that a reached spec body names is hidden, such a function is encoded and runs
    as if the hidden constants did not exist, so what is proved of functions
    without hidden constants holds of it. */
module HiddenConstants {
  import opened Values
  import opened Terms
  import opened SpecLang
  import opened Lowering
  import opened Statements
  import opened SymbolicExec
  import opened SymbolicSound
  import opened FunctionContracts
  import opened SymbolicExact
  import opened LoopExitAbstraction

  /** The program without the constants of the given names. */
  function Without(p: Program, hidden: set<string>): Program {
    Program(p.fns, p.consts - hidden)
  }

  // ----- terms -----

  /** A hidden name is resolved before any constant is looked up, in inlined
      bodies too. */
  lemma {:induction false} LowerSame(p: Program, q: Program, hidden: set<string>, exp: set<string>, nm: NameMap,
                                     e: Expr, k: nat)
    requires q == Without(p, hidden) && hidden <= nm.Keys
    ensures Lower(p, exp, nm, e, k) == Lower(q, exp, nm, e, k)
    decreases p.fns.Keys - exp, 1, e, 1
  {
    match e
    case IntLit(_) =>
    case BoolLit(_) =>
    case Var(_) =>
    case Old(_) =>
    case Quant(_, x, lo, hi, _, body) =>
      var b := Binder(x, k);
      var (_, k1) := Lower(p, exp, nm, lo, k + 1);
      var (_, k2) := Lower(p, exp, nm, hi, k1);
      LowerSame(p, q, hidden, exp, nm, lo, k + 1);
      LowerSame(p, q, hidden, exp, nm, hi, k1);
      LowerSame(p, q, hidden, exp, nm[x := TSym(b)], body, k2);
    case Not(a) => LowerSame(p, q, hidden, exp, nm, a, k);
    case Neg(a) => LowerSame(p, q, hidden, exp, nm, a, k);
    case Bin(_, l, r) =>
      LowerSame(p, q, hidden, exp, nm, l, k);
      LowerSame(p, q, hidden, exp, nm, r, Lower(p, exp, nm, l, k).1);
    case Ternary(c, a, b) =>
      var k1 := Lower(p, exp, nm, c, k).1;
      LowerSame(p, q, hidden, exp, nm, c, k);
      LowerSame(p, q, hidden, exp, nm, a, k1);
      LowerSame(p, q, hidden, exp, nm, b, Lower(p, exp, nm, a, k1).1);
    case Call(f, args) =>
      LowerSeqSame(p, q, hidden, exp, nm, args, k);
      var (ts, k1) := LowerSeq(p, exp, nm, args, k);
      LowerCallSame(p, q, hidden, exp, nm, f, ts, k1);
    case Index(a, i) =>
      LowerSame(p, q, hidden, exp, nm, a, k);
      LowerSame(p, q, hidden, exp, nm, i, Lower(p, exp, nm, a, k).1);
  }

  lemma {:induction false} LowerCallSame(p: Program, q: Program, hidden: set<string>, exp: set<string>, nm: NameMap,
                                         f: string, ts: seq<Term>, k: nat)
    requires q == Without(p, hidden) && hidden <= nm.Keys
    ensures LowerCall(p, exp, nm, f, ts, k) == LowerCall(q, exp, nm, f, ts, k)
    decreases p.fns.Keys - exp, 0
  {
    if f in p.fns && |ts| == |p.fns[f].params| && f !in exp {
      BindKeys(nm, p.fns[f].params, ts);
      LowerSame(p, q, hidden, exp + {f}, Bind(nm, p.fns[f].params, ts), p.fns[f].body, k);
    }
  }

  lemma {:induction false} LowerSeqSame(p: Program, q: Program, hidden: set<string>, exp: set<string>, nm: NameMap,
                                        es: seq<Expr>, k: nat)
    requires q == Without(p, hidden) && hidden <= nm.Keys
    ensures LowerSeq(p, exp, nm, es, k) == LowerSeq(q, exp, nm, es, k)
    decreases p.fns.Keys - exp, 1, es, 0
  {
    if |es| > 0 {
      LowerSame(p, q, hidden, exp, nm, es[0], k);
      LowerSeqSame(p, q, hidden, exp, nm, es[1..], Lower(p, exp, nm, es[0], k).1);
    }
  }

  lemma {:induction false} WpSame(p: Program, q: Program, hidden: set<string>, nm: NameMap, st: NameMap, e: Expr,
                                  k: nat)
    requires q == Without(p, hidden) && hidden <= nm.Keys
    ensures LowerWp(p, nm, st, e, k) == LowerWp(q, nm, st, e, k)
    decreases e, 1
  {
    match e
    case IntLit(_) =>
    case BoolLit(_) =>
    case Var(_) =>
    case Old(_) =>
    case Quant(_, x, lo, hi, _, body) =>
      var b := Binder(x, k);
      var (_, k1) := LowerWp(p, nm, st, lo, k + 1);
      var (_, k2) := LowerWp(p, nm, st, hi, k1);
      WpSame(p, q, hidden, nm, st, lo, k + 1);
      WpSame(p, q, hidden, nm, st, hi, k1);
      WpSame(p, q, hidden, nm, st[x := TSym(b)], body, k2);
    case Not(a) => WpSame(p, q, hidden, nm, st, a, k);
    case Neg(a) => WpSame(p, q, hidden, nm, st, a, k);
    case Bin(_, l, r) =>
      WpSame(p, q, hidden, nm, st, l, k);
      WpSame(p, q, hidden, nm, st, r, LowerWp(p, nm, st, l, k).1);
    case Ternary(c, a, b) =>
      var k1 := LowerWp(p, nm, st, c, k).1;
      WpSame(p, q, hidden, nm, st, c, k);
      WpSame(p, q, hidden, nm, st, a, k1);
      WpSame(p, q, hidden, nm, st, b, LowerWp(p, nm, st, a, k1).1);
    case Call(f, args) =>
      WpSeqSame(p, q, hidden, nm, st, args, k);
      var (ts, k1) := LowerWpSeq(p, nm, st, args, k);
      LowerCallSame(p, q, hidden, {}, nm, f, ts, k1);
    case Index(a, i) =>
      WpSame(p, q, hidden, nm, st, a, k);
      WpSame(p, q, hidden, nm, st, i, LowerWp(p, nm, st, a, k).1);
  }

  lemma {:induction false} WpSeqSame(p: Program, q: Program, hidden: set<string>, nm: NameMap, st: NameMap,
                                     es: seq<Expr>, k: nat)
    requires q == Without(p, hidden) && hidden <= nm.Keys
    ensures LowerWpSeq(p, nm, st, es, k) == LowerWpSeq(q, nm, st, es, k)
    decreases es, 0
  {
    if |es| > 0 {
      WpSame(p, q, hidden, nm, st, es[0], k);
      WpSeqSame(p, q, hidden, nm, st, es[1..], LowerWp(p, nm, st, es[0], k).1);
    }
  }

  // ----- obligations -----

  lemma {:induction false} ClausesSame(p: Program, q: Program, hidden: set<string>, nm: NameMap, st: NameMap,
                                       es: seq<Expr>, k: nat)
    requires q == Without(p, hidden) && hidden <= nm.Keys
    ensures EncodeClauses(p, nm, st, es, k) == EncodeClauses(q, nm, st, es, k)
    decreases |es|
  {
    if |es| > 0 {
      WpSame(p, q, hidden, nm, st, es[0], k);
      ClausesSame(p, q, hidden, nm, st, es[1..], LowerWp(p, nm, st, es[0], k).1);
    }
  }

  lemma {:induction false} PremisesSame(p: Program, q: Program, hidden: set<string>, nm: NameMap, es: seq<Expr>, k: nat)
    requires q == Without(p, hidden) && hidden <= nm.Keys
    ensures LowerClauses(p, nm, es, k) == LowerClauses(q, nm, es, k)
    decreases |es|
  {
    if |es| > 0 {
      LowerSame(p, q, hidden, {}, nm, es[0], k);
      PremisesSame(p, q, hidden, nm, es[1..], Lower(p, {}, nm, es[0], k).1);
    }
  }

  lemma {:induction false} EncodeSame(p: Program, q: Program, hidden: set<string>, nm: NameMap, ens: seq<Expr>,
                                      prem: seq<Term>, pc: Path, s: Stmt, st: NameMap, k: nat, dom: set<string>,
                                      keys: set<string>)
    requires q == Without(p, hidden) && hidden <= nm.Keys && Flow(q, s, dom, keys).ok
    ensures Encode(p, nm, ens, prem, pc, s, st, k) == Encode(q, nm, ens, prem, pc, s, st, k)
    decreases s, 1
  {
    match s
    case Let(_, e) => WpSame(p, q, hidden, nm, st, e, k);
    case Assign(_, e) => WpSame(p, q, hidden, nm, st, e, k);
    case Compound(_, _, e) => WpSame(p, q, hidden, nm, st, e, k);
    case IncDec(_, _) =>
    case WriteIndex(_, path, e) =>
      WpSeqSame(p, q, hidden, nm, st, path, k);
      WpSame(p, q, hidden, nm, st, e, LowerWpSeq(p, nm, st, path, k).1);
    case If(c, a, b) =>
      WpSame(p, q, hidden, nm, st, c, k);
      var (tc, k1) := LowerWp(p, nm, st, c, k);
      var ea := EncodeAll(p, nm, ens, prem, PathAnd(pc, Cond(tc)), a, st, k1);
      EncodeAllSame(p, q, hidden, nm, ens, prem, PathAnd(pc, Cond(tc)), a, st, k1, dom, keys);
      EncodeAllSame(p, q, hidden, nm, ens, prem, PathAnd(pc, Cond(TNot(tc))), b, st, ea.k, dom, keys);
    case Block(body) => EncodeAllSame(p, q, hidden, nm, ens, prem, pc, body, st, k, dom, keys);
    case Assert(c) => WpSame(p, q, hidden, nm, st, c, k);
    case Return(e) =>
      WpSame(p, q, hidden, nm, st, e, k);
      var (t, k1) := LowerWp(p, nm, st, e, k);
      ClausesSame(p, q, hidden, nm, st[RESULT := t], ens, k1);
    case ReturnVoid => ClausesSame(p, q, hidden, nm, st, ens, k);
  }

  lemma {:induction false} EncodeAllSame(p: Program, q: Program, hidden: set<string>, nm: NameMap, ens: seq<Expr>,
                                         prem: seq<Term>, pc: Path, ss: seq<Stmt>, st: NameMap, k: nat,
                                         dom: set<string>, keys: set<string>)
    requires q == Without(p, hidden) && hidden <= nm.Keys && FlowAll(q, ss, dom, keys).ok
    ensures EncodeAll(p, nm, ens, prem, pc, ss, st, k) == EncodeAll(q, nm, ens, prem, pc, ss, st, k)
    decreases ss, 0
  {
    if |ss| > 0 {
      var e1, f := Encode(p, nm, ens, prem, pc, ss[0], st, k), Flow(q, ss[0], dom, keys);
      EncodeSame(p, q, hidden, nm, ens, prem, pc, ss[0], st, k, dom, keys);
      LivenessAgrees(q, nm, ens, prem, pc, ss[0], st, k, dom, keys);
      if !f.dead {
        EncodeAllSame(p, q, hidden, nm, ens, prem, PathAnd(pc, e1.exit), ss[1..], e1.st, e1.k, f.dom, f.keys);
      }
    }
  }

  // ----- runs -----

  /** Names that may be looked up are bound or are not hidden. */
  ghost predicate BoundOrSeen(hidden: set<string>, dom: set<string>, env: Env) {
    forall x :: x in dom && x in hidden ==> x in env
  }

  lemma {:induction false} EvalSame(p: Program, q: Program, hidden: set<string>, exp: set<string>, e: Expr,
                                    dom: set<string>, env: Env)
    requires q == Without(p, hidden) && Scoped(q, exp, e, dom) && BoundOrSeen(hidden, dom, env)
    ensures Eval(p, exp, e, env) == Eval(q, exp, e, env)
    decreases p.fns.Keys - exp, 1, e, 1
  {
    match e
    case IntLit(_) =>
    case BoolLit(_) =>
    case Var(_) =>
    case Old(_) =>
    case Quant(_, _, _, _, _, _) => EvalQuantSame(p, q, hidden, exp, e, dom, env);
    case Not(a) => EvalSame(p, q, hidden, exp, a, dom, env);
    case Neg(a) => EvalSame(p, q, hidden, exp, a, dom, env);
    case Bin(_, l, r) => EvalSame(p, q, hidden, exp, l, dom, env); EvalSame(p, q, hidden, exp, r, dom, env);
    case Ternary(c, a, b) =>
      EvalSame(p, q, hidden, exp, c, dom, env);
      EvalSame(p, q, hidden, exp, a, dom, env);
      EvalSame(p, q, hidden, exp, b, dom, env);
    case Call(f, args) =>
      EvalSeqSame(p, q, hidden, exp, args, dom, env);
      EvalBodySame(p, q, hidden, exp, f, EvalSeq(p, exp, args, env));
    case Index(a, i) => EvalSame(p, q, hidden, exp, a, dom, env); EvalSame(p, q, hidden, exp, i, dom, env);
  }

  lemma {:induction false} EvalQuantSame(p: Program, q: Program, hidden: set<string>, exp: set<string>, e: Expr,
                                         dom: set<string>, env: Env)
    requires e.Quant? && q == Without(p, hidden) && Scoped(q, exp, e, dom) && BoundOrSeen(hidden, dom, env)
    ensures Eval(p, exp, e, env) == Eval(q, exp, e, env)
    decreases p.fns.Keys - exp, 1, e, 0
  {
    var Quant(_, x, lo, hi, _, body) := e;
    EvalSame(p, q, hidden, exp, lo, dom, env);
    EvalSame(p, q, hidden, exp, hi, dom, env);
    forall k: int ensures Eval(p, exp, body, env[x := IntV(k)]) == Eval(q, exp, body, env[x := IntV(k)]) {
      EvalSame(p, q, hidden, exp, body, dom + {x}, env[x := IntV(k)]);
    }
  }

  lemma {:induction false} EvalBodySame(p: Program, q: Program, hidden: set<string>, exp: set<string>, f: string,
                                        vs: seq<Value>)
    requires q == Without(p, hidden) && f in p.fns && f !in exp && |vs| == |p.fns[f].params|
    requires Scoped(q, exp + {f}, p.fns[f].body, Names(p.fns[f].params) + q.consts.Keys)
    ensures var env: Env := Bind(map[], p.fns[f].params, vs);
            Eval(p, exp + {f}, p.fns[f].body, env) == Eval(q, exp + {f}, p.fns[f].body, env)
    decreases p.fns.Keys - exp, 0
  {
    var SpecFn(params, body) := p.fns[f];
    BindKeys(map[], params, vs);
    EvalSame(p, q, hidden, exp + {f}, body, Names(params) + q.consts.Keys, Bind(map[], params, vs));
  }

  lemma {:induction false} EvalSeqSame(p: Program, q: Program, hidden: set<string>, exp: set<string>, es: seq<Expr>,
                                       dom: set<string>, env: Env)
    requires q == Without(p, hidden) && ScopedSeq(q, exp, es, dom) && BoundOrSeen(hidden, dom, env)
    ensures EvalSeq(p, exp, es, env) == EvalSeq(q, exp, es, env)
    decreases p.fns.Keys - exp, 1, es, 0
  {
    if |es| > 0 {
      EvalSame(p, q, hidden, exp, es[0], dom, env);
      EvalSeqSame(p, q, hidden, exp, es[1..], dom, env);
    }
  }

  lemma {:induction false} RunSame(p: Program, q: Program, hidden: set<string>, s: Stmt, env: Env, fuel: nat,
                                   dom: set<string>, keys: set<string>)
    requires q == Without(p, hidden) && hidden <= env.Keys && Flow(q, s, dom, keys).ok
    ensures Run(p, s, env, fuel) == Run(q, s, env, fuel)
    decreases s, 1
  {
    match s
    case Let(_, e) => EvalSame(p, q, hidden, {}, e, dom, env);
    case Assign(_, e) => EvalSame(p, q, hidden, {}, e, dom, env);
    case Compound(_, _, e) => EvalSame(p, q, hidden, {}, e, dom, env);
    case IncDec(_, _) =>
    case WriteIndex(_, path, e) =>
      EvalSeqSame(p, q, hidden, {}, path, dom, env);
      EvalSame(p, q, hidden, {}, e, dom, env);
    case If(c, a, b) =>
      EvalSame(p, q, hidden, {}, c, dom, env);
      RunAllSame(p, q, hidden, a, env, fuel, dom, keys);
      RunAllSame(p, q, hidden, b, env, fuel, dom, keys);
    case Block(body) => RunAllSame(p, q, hidden, body, env, fuel, dom, keys);
    case Assert(c) => EvalSame(p, q, hidden, {}, c, dom, env);
    case Return(e) => EvalSame(p, q, hidden, {}, e, dom, env);
    case ReturnVoid =>
  }

  lemma {:induction false} EndsRun(p: Program, s: Stmt, env: Env, fuel: nat)
    requires Ends(s)
    ensures !Run(p, s, env, fuel).Normal?
    decreases s, 1
  {
    match s
    case If(_, a, b) => EndsRunAll(p, a, env, fuel); EndsRunAll(p, b, env, fuel);
    case Block(body) => EndsRunAll(p, body, env, fuel);
    case _ =>
  }

  lemma {:induction false} EndsRunAll(p: Program, ss: seq<Stmt>, env: Env, fuel: nat)
    requires EndsAll(ss)
    ensures !RunAll(p, ss, env, fuel).Normal?
    decreases ss, 0
  {
    var o := Run(p, ss[0], env, fuel);
    if Ends(ss[0]) { EndsRun(p, ss[0], env, fuel); } else if o.Normal? { EndsRunAll(p, ss[1..], o.s, fuel); }
  }

  lemma {:induction false} RunAllSame(p: Program, q: Program, hidden: set<string>, ss: seq<Stmt>, env: Env, fuel: nat,
                                      dom: set<string>, keys: set<string>)
    requires q == Without(p, hidden) && hidden <= env.Keys && FlowAll(q, ss, dom, keys).ok
    ensures RunAll(p, ss, env, fuel) == RunAll(q, ss, env, fuel)
    decreases ss, 0
  {
    if |ss| > 0 {
      var f, o := Flow(q, ss[0], dom, keys), Run(p, ss[0], env, fuel);
      RunSame(p, q, hidden, ss[0], env, fuel, dom, keys);
      if o.Normal? {
        FlowEnds(q, ss[0], dom, keys);
        if f.dead { EndsRun(p, ss[0], env, fuel); }
        RunKeepsNames(p, ss[0], env, fuel);
        RunAllSame(p, q, hidden, ss[1..], o.s, fuel, f.dom, f.keys);
      }
    }
  }

  // ----- functions -----

  /** Obligations and runs of a function are those of the program without the
      constants its parameters hide. */
  lemma {:induction false} SameFunction(p: Program, q: Program, f: Fn, globals: set<string>, args: Env, fuel: nat)
    requires q == Without(p, f.params) && Covered(q, f, globals)
    ensures Obligations(p, f, globals) == Obligations(q, f, globals)
    ensures RunAll(p, f.body, EntryEnv(f, globals, args), fuel) == RunAll(q, f.body, EntryEnv(f, globals, args), fuel)
  {
    var nm, st := EntryNames(f, globals), EntryStore(globals);
    var (prem, k) := LowerClauses(p, nm, f.pre, 0);
    var enc := EncodeAll(p, nm, f.post, prem, Top, f.body, st, k);
    PremisesSame(p, q, f.params, nm, f.pre, 0);
    EncodeAllSame(p, q, f.params, nm, f.post, prem, Top, f.body, st, k, EntryDom(q, f, globals), globals);
    ClausesSame(p, q, f.params, nm, enc.st, f.post, enc.k);
    RunAllSame(p, q, f.params, f.body, EntryEnv(f, globals, args), fuel, EntryDom(q, f, globals), globals);
  }

  lemma {:induction false} ClausesHoldSame(p: Program, q: Program, hidden: set<string>, es: seq<Expr>, dom: set<string>,
                                           env: Env)
    requires q == Without(p, hidden) && ClausesScoped(q, es, dom) && hidden <= env.Keys
    ensures ClausesHold(p, es, env) <==> ClausesHold(q, es, env)
  {
    forall e | e in es ensures Eval(p, {}, e, env) == Eval(q, {}, e, env) { EvalSame(p, q, hidden, {}, e, dom, env); }
  }

  /** A function that is covered where the constants its parameters hide are taken
      away: no body that its calls reach names one of those. If its obligations
      are valid, its runs are correct. */
  lemma {:induction false} VerifiedWithHidden(p: Program, f: Fn, globals: set<string>, sorts: Sorting, args: Env,
                                              fuel: nat)
    requires Covered(Without(p, f.params), f, globals) && AllValid(Obligations(p, f, globals), sorts)
    requires WellSorted(EntryValuation(f, globals, args), sorts) && ClausesHold(p, f.pre, EntryEnv(f, globals, args))
    ensures RunIsCorrect(p, f, RunAll(p, f.body, EntryEnv(f, globals, args), fuel))
  {
    var q, env := Without(p, f.params), EntryEnv(f, globals, args);
    SameFunction(p, q, f, globals, args, fuel);
    ClausesHoldSame(p, q, f.params, f.pre, f.params + q.consts.Keys, env);
    VerifiedFunctionIsCorrect(q, f, globals, sorts, args, fuel);
    OutcomeSame(p, q, f, globals, args, fuel);
  }

  /** Where no `if` returns in one arm only, they hold at the arguments'
      valuation exactly if the run is correct. */
  lemma {:induction false} RunsWithHidden(p: Program, f: Fn, globals: set<string>, args: Env, fuel: nat)
    requires Covered(Without(p, f.params), f, globals) && BalancedAll(f.body)
    requires ClausesHold(p, f.pre, EntryEnv(f, globals, args))
    ensures AllHold(Obligations(p, f, globals), EntryValuation(f, globals, args))
       <==> RunIsCorrect(p, f, RunAll(p, f.body, EntryEnv(f, globals, args), fuel))
  {
    var q, env := Without(p, f.params), EntryEnv(f, globals, args);
    SameFunction(p, q, f, globals, args, fuel);
    ClausesHoldSame(p, q, f.params, f.pre, f.params + q.consts.Keys, env);
    ObligationsAreRuns(q, f, globals, args, fuel);
    OutcomeSame(p, q, f, globals, args, fuel);
  }

  lemma {:induction false} OutcomeSame(p: Program, q: Program, f: Fn, globals: set<string>, args: Env, fuel: nat)
    requires q == Without(p, f.params) && Covered(q, f, globals)
    ensures var o := RunAll(q, f.body, EntryEnv(f, globals, args), fuel);
            RunIsCorrect(p, f, o) <==> RunIsCorrect(q, f, o)
  {
    var env := EntryEnv(f, globals, args);
    var o := RunAll(q, f.body, env, fuel);
    if o.Normal? || o.Returned? {
      KeepsNames(q, f.body, env, fuel);
      ClausesHoldSame(p, q, f.params, f.post, EntryDom(q, f, globals), o.s);
    }
  }

  /** No run forgets a name, whether it returns or not. */
  lemma {:induction false} KeepsNames(p: Program, ss: seq<Stmt>, env: Env, fuel: nat)
    requires RunAll(p, ss, env, fuel).Normal? || RunAll(p, ss, env, fuel).Returned?
    ensures env.Keys <= RunAll(p, ss, env, fuel).s.Keys
    decreases fuel, ss, 0
  {
    if |ss| > 0 {
      var o := Run(p, ss[0], env, fuel);
      KeepsNamesIn(p, ss[0], env, fuel);
      if o.Normal? { KeepsNames(p, ss[1..], o.s, fuel); }
    }
  }

  lemma {:induction false} KeepsNamesIn(p: Program, s: Stmt, env: Env, fuel: nat)
    requires Run(p, s, env, fuel).Normal? || Run(p, s, env, fuel).Returned?
    ensures env.Keys <= Run(p, s, env, fuel).s.Keys
    decreases fuel, s, 1
  {
    match s
    case If(c, a, b) =>
      if AsBool(Eval(p, {}, c, env)) { KeepsNames(p, a, env, fuel); } else { KeepsNames(p, b, env, fuel); }
    case Block(body) => KeepsNames(p, body, env, fuel);
    case While(c, _, body) =>
      if AsBool(Eval(p, {}, c, env)) {
        KeepsNames(p, body, env, fuel);
        var o := RunScope(p, body, env, fuel);
        if o.Normal? { KeepsNamesIn(p, s, o.s, fuel - 1); }
      }
    case _ =>
  }

  // ----- a local that hides a constant -----

  const N_IS_3 := Program(map[], map["N" := 3])

  /** `{ let N = 5; } assert N == 5;` where `N` is the constant 3. */
  const LEAK := Fn({}, [], [], [Block([Let("N", IntLit(5))]), Assert(Bin(Eq, Var("N"), IntLit(5)))], true)

  const FIVES := Obl([], TBin(Eq, TInt(5), TInt(5)))

  /** A block's locals stay in the store after it, so they go on hiding constants
      of that name: the obligation is valid and the assertion fails. */
  lemma {:induction false} LeakedLocal(sorts: Sorting)
    ensures AllValid(Obligations(N_IS_3, LEAK, {}), sorts)
    ensures RunAll(N_IS_3, LEAK.body, map[], 0).AssertFailed?
  {
    LeakObligations();
    forall rho: Valuation ensures Holds(FIVES, rho) {}
    LeakRun();
  }

  lemma {:induction false} LeakObligations()
    ensures Obligations(N_IS_3, LEAK, {}) == [FIVES]
  {
    var p, nm, body := N_IS_3, map[], LEAK.body;
    var st: NameMap := map["N" := TInt(5)];
    assert OldNamesIn([]) == {};
    assert EntryNames(LEAK, {}) == nm && EntryStore({}) == map[];
    assert Encode(p, nm, [], [], Top, body[0].body[0], map[], 0) == Enc(st, 0, [], false, Top);
    assert body[0].body[1..] == [] && body[1..] == [body[1]] && [body[1]][1..] == [];
    assert Encode(p, nm, [], [], Top, body[0], map[], 0) == Enc(st, 0, [], false, Top);
    assert LowerWp(p, nm, st, body[1].cond, 0) == (FIVES.goal, 0) && [] + PathTerms(Top) == [];
    assert Encode(p, nm, [], [], Top, body[1], st, 0) == Enc(st, 0, [FIVES], false, Top);
    assert EncodeAll(p, nm, [], [], Top, [body[1]], st, 0).obls == [FIVES];
  }

  lemma {:induction false} LeakRun()
    ensures RunAll(N_IS_3, LEAK.body, map[], 0).AssertFailed?
  {
    var p, body := N_IS_3, LEAK.body;
    var none: Env := map[];
    assert Run(p, body[0].body[0], none, 0).Normal? && body[0].body[1..] == [];
    assert Run(p, body[0], none, 0) == Normal(none) by {
      assert RunAll(p, body[0].body, none, 0).Normal?;
      assert Leave(none, RunAll(p, body[0].body, none, 0).s) == none;
    }
    assert Lookup(p, none, "N") == IntV(3) && Eval(p, {}, body[1].cond, none) == BoolV(false);
    assert body[1..] == [body[1]];
  }
}
