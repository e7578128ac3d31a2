/** Exactly what the obligations of a body say: they are those of a run that,
    after an `if` that returns in one arm only, goes on as if the other arm had
    been taken. Where no such `if` occurs, they hold exactly if the run is
    correct. */
module SymbolicExact {
  import opened Values
  import opened Terms
  import opened SpecLang
  import opened Lowering
  import opened Statements
  import opened SymbolicExec
  import opened SymbolicSound
  import opened FunctionContracts

  // ----- the run the obligations describe -----

  /** Every path through the statement returns. */
  predicate Ends(s: Stmt)
    decreases s, 1
  {
    match s
    case Return(_) => true
    case ReturnVoid => true
    case If(_, a, b) => EndsAll(a) && EndsAll(b)
    case Block(body) => EndsAll(body)
    case _ => false
  }

  predicate EndsAll(ss: seq<Stmt>)
    decreases ss, 0
  {
    |ss| > 0 && (Ends(ss[0]) || EndsAll(ss[1..]))
  }

  /** The state the encoding goes on with: an arm that returns is passed over in
      favour of the other one. */
  ghost function After(p: Program, s: Stmt, env: Env): Env
    decreases s, 1
  {
    match s
    case Let(_, _) => Run(p, s, env, 0).s
    case Assign(_, _) => Run(p, s, env, 0).s
    case Compound(_, _, _) => Run(p, s, env, 0).s
    case IncDec(_, _) => Run(p, s, env, 0).s
    case WriteIndex(_, _, _) => Run(p, s, env, 0).s
    case If(c, a, b) =>
      if EndsAll(a) then Leave(env, AfterAll(p, b, env))
      else if EndsAll(b) then Leave(env, AfterAll(p, a, env))
      else if AsBool(Eval(p, {}, c, env)) then Leave(env, AfterAll(p, a, env))
      else Leave(env, AfterAll(p, b, env))
    case Block(body) => Leave(env, AfterAll(p, body, env))
    case _ => env
  }

  ghost function AfterAll(p: Program, ss: seq<Stmt>, env: Env): Env
    decreases ss, 0
  {
    if |ss| == 0 || Ends(ss[0]) then env else AfterAll(p, ss[1..], After(p, ss[0], env))
  }

  /** What is checked along the path taken: assertions, and postconditions at
      returns. */
  ghost predicate Checked(p: Program, ens: seq<Expr>, s: Stmt, env: Env)
    decreases s, 1
  {
    match s
    case Assert(c) => AsBool(Eval(p, {}, c, env))
    case Return(e) => ClausesHold(p, ens, env[RESULT := Eval(p, {}, e, env)])
    case ReturnVoid => ClausesHold(p, ens, env)
    case If(c, a, b) => if AsBool(Eval(p, {}, c, env)) then CheckedAll(p, ens, a, env) else CheckedAll(p, ens, b, env)
    case Block(body) => CheckedAll(p, ens, body, env)
    case _ => true
  }

  ghost predicate CheckedAll(p: Program, ens: seq<Expr>, ss: seq<Stmt>, env: Env)
    decreases ss, 0
  {
    |ss| == 0 ||
    (Checked(p, ens, ss[0], env) && (Ends(ss[0]) || CheckedAll(p, ens, ss[1..], After(p, ss[0], env))))
  }

  lemma {:induction false} FlowEnds(p: Program, s: Stmt, dom: set<string>, keys: set<string>)
    ensures Flow(p, s, dom, keys).dead == Ends(s)
    decreases s, 1
  {
    match s
    case If(_, a, b) => FlowEndsAll(p, a, dom, keys); FlowEndsAll(p, b, dom, keys);
    case Block(body) => FlowEndsAll(p, body, dom, keys);
    case _ =>
  }

  lemma {:induction false} FlowEndsAll(p: Program, ss: seq<Stmt>, dom: set<string>, keys: set<string>)
    ensures FlowAll(p, ss, dom, keys).dead == EndsAll(ss)
    decreases ss, 0
  {
    if |ss| > 0 {
      var f := Flow(p, ss[0], dom, keys);
      FlowEnds(p, ss[0], dom, keys);
      if !f.dead { FlowEndsAll(p, ss[1..], f.dom, f.keys); }
    }
  }

  // ----- paths not taken -----

  /** A premise or the path condition is false. */
  ghost predicate Unreached(prem: seq<Term>, pc: Path, rho: Valuation) {
    !AllTrue(prem, rho) || !PathTrue(pc, rho)
  }

  lemma OblsUnreached(prem: seq<Term>, pc: Path, more: seq<Term>, goals: seq<Term>, rho: Valuation)
    requires Unreached(prem, pc, rho)
    ensures AllHold(OblsFor(prem + PathTerms(pc) + more, goals), rho)
  {
    var all := prem + PathTerms(pc) + more;
    if !PathTrue(pc, rho) {
      assert all[|prem|] == pc.t;
    } else {
      var i :| 0 <= i < |prem| && !True(prem[i], rho);
      assert all[i] == prem[i];
    }
  }

  lemma OblsOffPath(prem: seq<Term>, pc: Path, goals: seq<Term>, rho: Valuation)
    requires Unreached(prem, pc, rho)
    ensures AllHold(OblsFor(prem + PathTerms(pc), goals), rho)
  {
    assert prem + PathTerms(pc) + [] == prem + PathTerms(pc);
    OblsUnreached(prem, pc, [], goals, rho);
  }

  /** Under a false premise or path condition every obligation holds, whatever
      the statement, loops included. */
  lemma {:induction false} OffPath(p: Program, nm: NameMap, ens: seq<Expr>, prem: seq<Term>, pc: Path, s: Stmt,
                                   st: NameMap, k: nat, rho: Valuation)
    requires Unreached(prem, pc, rho)
    ensures AllHold(Encode(p, nm, ens, prem, pc, s, st, k).obls, rho)
    decreases s, 2
  {
    match s
    case Let(_, _) =>
    case Assign(_, _) =>
    case Compound(_, _, _) =>
    case IncDec(_, _) =>
    case WriteIndex(_, _, _) =>
    case If(c, a, b) =>
      var (tc, k1) := LowerWp(p, nm, st, c, k);
      var pa, pb := PathAnd(pc, Cond(tc)), PathAnd(pc, Cond(TNot(tc)));
      PathAndMeaning(pc, Cond(tc), rho);
      PathAndMeaning(pc, Cond(TNot(tc)), rho);
      OffPathAll(p, nm, ens, prem, pa, a, st, k1, rho);
      OffPathAll(p, nm, ens, prem, pb, b, st, EncodeAll(p, nm, ens, prem, pa, a, st, k1).k, rho);
    case Block(body) => OffPathAll(p, nm, ens, prem, pc, body, st, k, rho);
    case Assert(c) =>
      var t := LowerWp(p, nm, st, c, k).0;
      OblsOffPath(prem, pc, [t], rho);
      assert Obl(prem + PathTerms(pc), t) == OblsFor(prem + PathTerms(pc), [t])[0];
    case Return(e) =>
      var (t, k1) := LowerWp(p, nm, st, e, k);
      OblsOffPath(prem, pc, EncodeClauses(p, nm, st[RESULT := t], ens, k1).0, rho);
    case ReturnVoid => OblsOffPath(prem, pc, EncodeClauses(p, nm, st, ens, k).0, rho);
    case While(c, invs, body) =>
      if |invs| == 0 {
        OffPathAll(p, nm, ens, prem, Cond(TBool(false)), body, st, LowerWp(p, nm, st, c, k).1, rho);
      } else {
        WhileEncoding(p, nm, ens, prem, pc, c, invs, body, st, k, Mutated(body));
        ChecksOffPath(p, nm, ens, prem, pc, c, invs, body, st, k, rho);
      }
  }

  lemma {:induction false} ChecksOffPath(p: Program, nm: NameMap, ens: seq<Expr>, prem: seq<Term>, pc: Path, c: Expr,
                                         invs: seq<Expr>, body: seq<Stmt>, st: NameMap, k: nat, rho: Valuation)
    requires Unreached(prem, pc, rho)
    ensures AllHold(LoopChecks(p, nm, ens, prem, pc, c, invs, body, st, k).0, rho)
    decreases body, 1
  {
    var (tc, k1) := LowerWp(p, nm, st, c, k);
    var (ti, k2) := EncodeClauses(p, nm, st, invs, k1);
    var inner, bodyPrem := PathAnd(pc, Cond(tc)), prem + PathTerms(pc) + [tc] + ti;
    var eb := EncodeAll(p, nm, ens, bodyPrem, inner, body, st, k2);
    var tp := EncodeClauses(p, nm, eb.st, invs, eb.k).0;
    PathAndMeaning(pc, Cond(tc), rho);
    OblsOffPath(prem, inner, ti, rho);
    assert bodyPrem == prem + PathTerms(pc) + ([tc] + ti);
    OblsUnreached(prem, pc, [tc] + ti, tp, rho);
    PremisesUnreached(prem, pc, [tc] + ti, inner, rho);
    OffPathAll(p, nm, ens, bodyPrem, inner, body, st, k2, rho);
  }

  lemma PremisesUnreached(prem: seq<Term>, pc: Path, more: seq<Term>, inner: Path, rho: Valuation)
    requires Unreached(prem, pc, rho)
    ensures Unreached(prem + PathTerms(pc) + more, inner, rho)
  {
    var all := prem + PathTerms(pc) + more;
    if !PathTrue(pc, rho) {
      assert all[|prem|] == pc.t;
    } else {
      var i :| 0 <= i < |prem| && !True(prem[i], rho);
      assert all[i] == prem[i];
    }
  }

  lemma {:induction false} OffPathAll(p: Program, nm: NameMap, ens: seq<Expr>, prem: seq<Term>, pc: Path, ss: seq<Stmt>,
                                      st: NameMap, k: nat, rho: Valuation)
    requires Unreached(prem, pc, rho)
    ensures AllHold(EncodeAll(p, nm, ens, prem, pc, ss, st, k).obls, rho)
    decreases ss, 0
  {
    if |ss| > 0 {
      var e1 := Encode(p, nm, ens, prem, pc, ss[0], st, k);
      OffPath(p, nm, ens, prem, pc, ss[0], st, k, rho);
      PathAndMeaning(pc, e1.exit, rho);
      if !e1.returned { OffPathAll(p, nm, ens, prem, PathAnd(pc, e1.exit), ss[1..], e1.st, e1.k, rho); }
    }
  }

  /** The encoder's liveness is the static check's. */
  lemma {:induction false} LivenessAgrees(p: Program, nm: NameMap, ens: seq<Expr>, prem: seq<Term>, pc: Path, s: Stmt,
                                          st: NameMap, k: nat, dom: set<string>, keys: set<string>)
    requires Flow(p, s, dom, keys).ok
    ensures Encode(p, nm, ens, prem, pc, s, st, k).returned == Flow(p, s, dom, keys).dead
    decreases s, 1
  {
    match s
    case If(c, a, b) =>
      var (tc, k1) := LowerWp(p, nm, st, c, k);
      LivenessAgreesAll(p, nm, ens, prem, PathAnd(pc, Cond(tc)), a, st, k1, dom, keys);
      LivenessAgreesAll(p, nm, ens, prem, PathAnd(pc, Cond(TNot(tc))), b, st,
                        EncodeAll(p, nm, ens, prem, PathAnd(pc, Cond(tc)), a, st, k1).k, dom, keys);
    case Block(body) => LivenessAgreesAll(p, nm, ens, prem, pc, body, st, k, dom, keys);
    case _ =>
  }

  lemma {:induction false} LivenessAgreesAll(p: Program, nm: NameMap, ens: seq<Expr>, prem: seq<Term>, pc: Path,
                                             ss: seq<Stmt>, st: NameMap, k: nat, dom: set<string>, keys: set<string>)
    requires FlowAll(p, ss, dom, keys).ok
    ensures EncodeAll(p, nm, ens, prem, pc, ss, st, k).returned == FlowAll(p, ss, dom, keys).dead
    decreases ss, 0
  {
    if |ss| > 0 {
      var f := Flow(p, ss[0], dom, keys);
      var e1 := Encode(p, nm, ens, prem, pc, ss[0], st, k);
      LivenessAgrees(p, nm, ens, prem, pc, ss[0], st, k, dom, keys);
      if !f.dead { LivenessAgreesAll(p, nm, ens, prem, PathAnd(pc, e1.exit), ss[1..], e1.st, e1.k, f.dom, f.keys); }
    }
  }

  // ----- the store follows that run -----

  /** Whatever the obligations, the store denotes the state the encoding goes on
      with. */
  lemma {:induction false} Tracks(p: Program, nm: NameMap, ens: seq<Expr>, prem: seq<Term>, pc: Path, s: Stmt,
                                  st: NameMap, dom: set<string>, syms: set<Sym>, k: nat, rho: Valuation, env: Env)
    requires Ready(p, nm, st, dom, syms, k) && Denotes(p, nm, st, dom, rho, env) && Flow(p, s, dom, st.Keys).ok
    requires !Ends(s)
    ensures Denotes(p, nm, Encode(p, nm, ens, prem, pc, s, st, k).st, Flow(p, s, dom, st.Keys).dom, rho,
                    After(p, s, env))
    decreases s, 1
  {
    match s
    case Let(x, e) =>
      TermValue(p, nm, st, e, dom, syms, k, rho, env);
      DenotesUpdate(p, nm, st, dom, rho, env, x, LowerWp(p, nm, st, e, k).0);
    case Assign(x, e) =>
      TermValue(p, nm, st, e, dom, syms, k, rho, env);
      DenotesUpdate(p, nm, st, dom, rho, env, x, LowerWp(p, nm, st, e, k).0);
      assert dom + {x} == dom;
    case Compound(_, _, _) => SoundUpdate(p, nm, ens, prem, pc, s, st, dom, syms, k, rho, env, 0);
    case IncDec(_, _) => SoundUpdate(p, nm, ens, prem, pc, s, st, dom, syms, k, rho, env, 0);
    case WriteIndex(_, _, _) => SoundWrite(p, nm, ens, prem, pc, s, st, dom, syms, k, rho, env, 0);
    case If(_, _, _) => TracksIf(p, nm, ens, prem, pc, s, st, dom, syms, k, rho, env);
    case Block(body) =>
      TracksAll(p, nm, ens, prem, pc, body, st, dom, syms, k, rho, env);
      DenotesLeave(p, nm, EncodeAll(p, nm, ens, prem, pc, body, st, k).st, dom, FlowAll(p, body, dom, st.Keys).dom, rho,
                   env, AfterAll(p, body, env));
    case Assert(_) =>
  }

  lemma {:induction false} TracksIf(p: Program, nm: NameMap, ens: seq<Expr>, prem: seq<Term>, pc: Path, s: Stmt,
                                    st: NameMap, dom: set<string>, syms: set<Sym>, k: nat, rho: Valuation, env: Env)
    requires s.If? && Ready(p, nm, st, dom, syms, k) && Denotes(p, nm, st, dom, rho, env) && Flow(p, s, dom, st.Keys).ok
    requires !Ends(s)
    ensures Denotes(p, nm, Encode(p, nm, ens, prem, pc, s, st, k).st, dom, rho, After(p, s, env))
    decreases s, 0
  {
    var If(c, a, b) := s;
    var (tc, k1) := LowerWp(p, nm, st, c, k);
    var pa, pb := PathAnd(pc, Cond(tc)), PathAnd(pc, Cond(TNot(tc)));
    var ka := EncodeAll(p, nm, ens, prem, pa, a, st, k1).k;
    TermValue(p, nm, st, c, dom, syms, k, rho, env);
    ArmTracks(p, nm, ens, prem, pa, a, st, dom, syms, k1, rho, env);
    ArmTracks(p, nm, ens, prem, pb, b, st, dom, syms, ka, rho, env);
    if !EndsAll(a) && !EndsAll(b) {
      var sa, sb := EncodeAll(p, nm, ens, prem, pa, a, st, k1).st, EncodeAll(p, nm, ens, prem, pb, b, st, ka).st;
      DenotesMerge(p, nm, sa, sb, dom, tc, rho, After(p, s, env));
    }
  }

  /** One arm, on its own copy of the store. */
  lemma {:induction false} ArmTracks(p: Program, nm: NameMap, ens: seq<Expr>, prem: seq<Term>, pc: Path, ss: seq<Stmt>,
                                     st: NameMap, dom: set<string>, syms: set<Sym>, k: nat, rho: Valuation, env: Env)
    requires Ready(p, nm, st, dom, syms, k) && Denotes(p, nm, st, dom, rho, env) && FlowAll(p, ss, dom, st.Keys).ok
    ensures var r, f := EncodeAll(p, nm, ens, prem, pc, ss, st, k), FlowAll(p, ss, dom, st.Keys);
            && r.returned == f.dead == EndsAll(ss)
            && (!f.dead ==> r.st.Keys == f.keys && Denotes(p, nm, r.st, dom, rho, Leave(env, AfterAll(p, ss, env))))
    decreases ss, 2
  {
    FlowEndsAll(p, ss, dom, st.Keys);
    EncodeStaticAll(p, nm, ens, prem, pc, ss, st, dom, syms, k);
    if !EndsAll(ss) {
      TracksAll(p, nm, ens, prem, pc, ss, st, dom, syms, k, rho, env);
      DenotesLeave(p, nm, EncodeAll(p, nm, ens, prem, pc, ss, st, k).st, dom, FlowAll(p, ss, dom, st.Keys).dom, rho,
                   env, AfterAll(p, ss, env));
    }
  }

  lemma {:induction false} TracksAll(p: Program, nm: NameMap, ens: seq<Expr>, prem: seq<Term>, pc: Path, ss: seq<Stmt>,
                                     st: NameMap, dom: set<string>, syms: set<Sym>, k: nat, rho: Valuation, env: Env)
    requires Ready(p, nm, st, dom, syms, k) && Denotes(p, nm, st, dom, rho, env) && FlowAll(p, ss, dom, st.Keys).ok
    requires !EndsAll(ss)
    ensures Denotes(p, nm, EncodeAll(p, nm, ens, prem, pc, ss, st, k).st, FlowAll(p, ss, dom, st.Keys).dom, rho,
                    AfterAll(p, ss, env))
    decreases ss, 0
  {
    if |ss| > 0 {
      var e1, f1 := Encode(p, nm, ens, prem, pc, ss[0], st, k), Flow(p, ss[0], dom, st.Keys);
      FlowEnds(p, ss[0], dom, st.Keys);
      EncodeStatic(p, nm, ens, prem, pc, ss[0], st, dom, syms, k);
      Tracks(p, nm, ens, prem, pc, ss[0], st, dom, syms, k, rho, env);
      TracksAll(p, nm, ens, prem, PathAnd(pc, e1.exit), ss[1..], e1.st, f1.dom, syms, e1.k, rho, After(p, ss[0], env));
    }
  }

  // ----- the obligations say what is checked -----

  lemma OblsExact(prem: seq<Term>, pc: Path, goals: seq<Term>, rho: Valuation)
    requires AllTrue(prem, rho) && PathTrue(pc, rho)
    ensures AllHold(OblsFor(prem + PathTerms(pc), goals), rho) <==> AllTrue(goals, rho)
  {
    if AllHold(OblsFor(prem + PathTerms(pc), goals), rho) { OblsUnderPath(prem, pc, goals, rho); }
  }

  lemma AllHoldAppend(a: seq<Obl>, b: seq<Obl>, rho: Valuation)
    ensures AllHold(a + b, rho) <==> AllHold(a, rho) && AllHold(b, rho)
  {
    if AllHold(a + b, rho) { AllHoldSplit(a, b, rho); }
  }

  /** At a valuation that denotes the state, under true premises and a true path
      condition, the obligations of a statement hold exactly when what they are
      about does. */
  lemma {:induction false} Exact(p: Program, nm: NameMap, ens: seq<Expr>, base: set<string>, prem: seq<Term>, pc: Path,
                                 s: Stmt, st: NameMap, dom: set<string>, syms: set<Sym>, k: nat, rho: Valuation,
                                 env: Env)
    requires Ready(p, nm, st, dom, syms, k) && Denotes(p, nm, st, dom, rho, env)
    requires Flow(p, s, dom, st.Keys).ok && ClausesScoped(p, ens, base) && base <= dom && RESULT !in p.consts
    requires AllTrue(prem, rho) && PathTrue(pc, rho)
    ensures AllHold(Encode(p, nm, ens, prem, pc, s, st, k).obls, rho) <==> Checked(p, ens, s, env)
    decreases s, 1
  {
    match s
    case Let(_, _) =>
    case Assign(_, _) =>
    case Compound(_, _, _) =>
    case IncDec(_, _) =>
    case WriteIndex(_, _, _) =>
    case If(_, _, _) => ExactIf(p, nm, ens, base, prem, pc, s, st, dom, syms, k, rho, env);
    case Block(body) => ExactAll(p, nm, ens, base, prem, pc, body, st, dom, syms, k, rho, env);
    case Assert(c) =>
      var t := LowerWp(p, nm, st, c, k).0;
      TermValue(p, nm, st, c, dom, syms, k, rho, env);
      OblsExact(prem, pc, [t], rho);
      assert Encode(p, nm, ens, prem, pc, s, st, k).obls == OblsFor(prem + PathTerms(pc), [t]);
      assert AllTrue([t], rho) <==> True([t][0], rho);
    case Return(_) => ExactReturn(p, nm, ens, base, prem, pc, s, st, dom, syms, k, rho, env);
    case ReturnVoid =>
      forall e | e in ens ensures Scoped(p, {}, e, dom) { ScopedMono(p, {}, e, base, dom); }
      ClausesValue(p, nm, st, ens, dom, syms, k, rho, env);
      OblsExact(prem, pc, EncodeClauses(p, nm, st, ens, k).0, rho);
  }

  lemma {:induction false} ExactReturn(p: Program, nm: NameMap, ens: seq<Expr>, base: set<string>, prem: seq<Term>,
                                       pc: Path, s: Stmt, st: NameMap, dom: set<string>, syms: set<Sym>, k: nat,
                                       rho: Valuation, env: Env)
    requires s.Return? && Ready(p, nm, st, dom, syms, k) && Denotes(p, nm, st, dom, rho, env)
    requires Flow(p, s, dom, st.Keys).ok && ClausesScoped(p, ens, base) && base <= dom && RESULT !in p.consts
    requires AllTrue(prem, rho) && PathTrue(pc, rho)
    ensures AllHold(Encode(p, nm, ens, prem, pc, s, st, k).obls, rho) <==> Checked(p, ens, s, env)
  {
    var (t, k1) := LowerWp(p, nm, st, s.value, k);
    var st' := st[RESULT := t];
    TermFree(p, nm, st, s.value, dom, syms, k);
    TermValue(p, nm, st, s.value, dom, syms, k, rho, env);
    assert RESULT[0] != OldName("")[0];
    ReadyUpdate(p, nm, st, dom, syms, k, RESULT, t, k1);
    DenotesUpdate(p, nm, st, dom, rho, env, RESULT, t);
    var dom' := dom + {RESULT};
    forall e | e in ens ensures Scoped(p, {}, e, dom') { ScopedMono(p, {}, e, base, dom'); }
    ClausesValue(p, nm, st', ens, dom', syms, k1, rho, env[RESULT := EvalT(t, rho)]);
    OblsExact(prem, pc, EncodeClauses(p, nm, st', ens, k1).0, rho);
  }

  lemma {:induction false} ExactIf(p: Program, nm: NameMap, ens: seq<Expr>, base: set<string>, prem: seq<Term>,
                                   pc: Path, s: Stmt, st: NameMap, dom: set<string>, syms: set<Sym>, k: nat,
                                   rho: Valuation, env: Env)
    requires s.If? && Ready(p, nm, st, dom, syms, k) && Denotes(p, nm, st, dom, rho, env)
    requires Flow(p, s, dom, st.Keys).ok && ClausesScoped(p, ens, base) && base <= dom && RESULT !in p.consts
    requires AllTrue(prem, rho) && PathTrue(pc, rho)
    ensures AllHold(Encode(p, nm, ens, prem, pc, s, st, k).obls, rho) <==> Checked(p, ens, s, env)
    decreases s, 0
  {
    var If(c, a, b) := s;
    var (tc, k1) := LowerWp(p, nm, st, c, k);
    var pa, pb := PathAnd(pc, Cond(tc)), PathAnd(pc, Cond(TNot(tc)));
    var ka := EncodeAll(p, nm, ens, prem, pa, a, st, k1).k;
    TermValue(p, nm, st, c, dom, syms, k, rho, env);
    AllHoldAppend(EncodeAll(p, nm, ens, prem, pa, a, st, k1).obls, EncodeAll(p, nm, ens, prem, pb, b, st, ka).obls,
                  rho);
    if AsBool(Eval(p, {}, c, env)) {
      PathAndMeaning(pc, Cond(tc), rho);
      ExactAll(p, nm, ens, base, prem, pa, a, st, dom, syms, k1, rho, env);
      PathAndMeaning(pc, Cond(TNot(tc)), rho);
      OffPathAll(p, nm, ens, prem, pb, b, st, ka, rho);
    } else {
      PathAndMeaning(pc, Cond(TNot(tc)), rho);
      ExactAll(p, nm, ens, base, prem, pb, b, st, dom, syms, ka, rho, env);
      PathAndMeaning(pc, Cond(tc), rho);
      OffPathAll(p, nm, ens, prem, pa, a, st, k1, rho);
    }
  }

  lemma {:induction false} ExactAll(p: Program, nm: NameMap, ens: seq<Expr>, base: set<string>, prem: seq<Term>,
                                    pc: Path, ss: seq<Stmt>, st: NameMap, dom: set<string>, syms: set<Sym>, k: nat,
                                    rho: Valuation, env: Env)
    requires Ready(p, nm, st, dom, syms, k) && Denotes(p, nm, st, dom, rho, env)
    requires FlowAll(p, ss, dom, st.Keys).ok && ClausesScoped(p, ens, base) && base <= dom && RESULT !in p.consts
    requires AllTrue(prem, rho) && PathTrue(pc, rho)
    ensures AllHold(EncodeAll(p, nm, ens, prem, pc, ss, st, k).obls, rho) <==> CheckedAll(p, ens, ss, env)
    decreases ss, 0
  {
    if |ss| > 0 {
      var e1, f1 := Encode(p, nm, ens, prem, pc, ss[0], st, k), Flow(p, ss[0], dom, st.Keys);
      FlowEnds(p, ss[0], dom, st.Keys);
      EncodeStatic(p, nm, ens, prem, pc, ss[0], st, dom, syms, k);
      Exact(p, nm, ens, base, prem, pc, ss[0], st, dom, syms, k, rho, env);
      if !f1.dead {
        Tracks(p, nm, ens, prem, pc, ss[0], st, dom, syms, k, rho, env);
        ExactAll(p, nm, ens, base, prem, PathAnd(pc, e1.exit), ss[1..], e1.st, f1.dom, syms, e1.k, rho,
                 After(p, ss[0], env));
        AllHoldAppend(e1.obls, EncodeAll(p, nm, ens, prem, PathAnd(pc, e1.exit), ss[1..], e1.st, e1.k).obls, rho);
      }
    }
  }

  // ----- whole functions -----

  /** What the obligations of a function are about, from a given entry state. */
  ghost predicate FunctionChecks(p: Program, f: Fn, env: Env) {
    && CheckedAll(p, f.post, f.body, env)
    && (!EndsAll(f.body) && !f.isVoid ==> ClausesHold(p, f.post, AfterAll(p, f.body, env)))
  }

  /** The obligations are exact: at the valuation of given arguments that meet
      `requires` they hold if and only if everything passes along the run that
      passes over early returns. */
  lemma {:induction false} ObligationsAreExact(p: Program, f: Fn, globals: set<string>, args: Env)
    requires Covered(p, f, globals) && ClausesHold(p, f.pre, EntryEnv(f, globals, args))
    ensures AllHold(Obligations(p, f, globals), EntryValuation(f, globals, args))
           <==> FunctionChecks(p, f, EntryEnv(f, globals, args))
  {
    var nm, st, dom := EntryNames(f, globals), EntryStore(globals), EntryDom(p, f, globals);
    var rho, env, syms := EntryValuation(f, globals, args), EntryEnv(f, globals, args), EntrySyms(f, globals);
    var (prem, k) := LowerClauses(p, nm, f.pre, 0);
    var enc := EncodeAll(p, nm, f.post, prem, Top, f.body, st, k);
    EntryReady(p, f, globals, args, k);
    PremisesHold(p, f, globals, args);
    ExactAll(p, nm, f.post, dom, prem, Top, f.body, st, dom, syms, k, rho, env);
    FlowEndsAll(p, f.body, dom, globals);
    EncodeStaticAll(p, nm, f.post, prem, Top, f.body, st, dom, syms, k);
    if !EndsAll(f.body) {
      TracksAll(p, nm, f.post, prem, Top, f.body, st, dom, syms, k, rho, env);
      FallThrough(p, f, globals, rho, AfterAll(p, f.body, env), prem, k);
      AllHoldAppend(enc.obls, OblsFor(prem, EncodeClauses(p, nm, enc.st, f.post, enc.k).0), rho);
    }
  }

  // ----- when that run is the real one -----

  /** No `if` returns in exactly one of its arms. */
  predicate Balanced(s: Stmt)
    decreases s, 1
  {
    match s
    case If(_, a, b) => EndsAll(a) == EndsAll(b) && BalancedAll(a) && BalancedAll(b)
    case Block(body) => BalancedAll(body)
    case While(_, _, _) => false
    case _ => true
  }

  predicate BalancedAll(ss: seq<Stmt>)
    decreases ss, 0
  {
    |ss| == 0 || (Balanced(ss[0]) && (Ends(ss[0]) || BalancedAll(ss[1..])))
  }

  ghost predicate NoFailure(p: Program, ens: seq<Expr>, o: Outcome) {
    !o.AssertFailed? && !o.OutOfFuel? && (o.Returned? ==> ClausesHold(p, ens, o.s))
  }

  /** How a balanced statement runs: it fails exactly if something checked does,
      and otherwise returns if it always does and goes on to `After` if not. */
  ghost predicate RunsAsChecked(p: Program, ens: seq<Expr>, o: Outcome, checked: bool, ends: bool, after: Env) {
    && (NoFailure(p, ens, o) <==> checked)
    && (checked ==> if ends then o.Returned? else o == Normal(after))
  }

  lemma {:induction false} BalancedRun(p: Program, ens: seq<Expr>, s: Stmt, env: Env, fuel: nat)
    requires Balanced(s)
    ensures RunsAsChecked(p, ens, Run(p, s, env, fuel), Checked(p, ens, s, env), Ends(s), After(p, s, env))
    decreases s, 1
  {
    match s
    case If(c, a, b) =>
      if AsBool(Eval(p, {}, c, env)) {
        BalancedRunAll(p, ens, a, env, fuel);
      } else {
        BalancedRunAll(p, ens, b, env, fuel);
      }
    case Block(body) => BalancedRunAll(p, ens, body, env, fuel);
    case _ =>
  }

  lemma {:induction false} BalancedRunAll(p: Program, ens: seq<Expr>, ss: seq<Stmt>, env: Env, fuel: nat)
    requires BalancedAll(ss)
    ensures RunsAsChecked(p, ens, RunAll(p, ss, env, fuel), CheckedAll(p, ens, ss, env), EndsAll(ss),
                          AfterAll(p, ss, env))
    decreases ss, 0
  {
    if |ss| > 0 {
      BalancedRun(p, ens, ss[0], env, fuel);
      if !Ends(ss[0]) { BalancedRunAll(p, ens, ss[1..], After(p, ss[0], env), fuel); }
    }
  }

  /** For balanced bodies a failing obligation is never a false alarm: at the
      valuation of given arguments the obligations hold if and only if the run
      is correct. */
  lemma {:induction false} ObligationsAreRuns(p: Program, f: Fn, globals: set<string>, args: Env, fuel: nat)
    requires Covered(p, f, globals) && BalancedAll(f.body) && ClausesHold(p, f.pre, EntryEnv(f, globals, args))
    ensures AllHold(Obligations(p, f, globals), EntryValuation(f, globals, args))
       <==> RunIsCorrect(p, f, RunAll(p, f.body, EntryEnv(f, globals, args), fuel))
  {
    ObligationsAreExact(p, f, globals, args);
    BalancedRunAll(p, f.post, f.body, EntryEnv(f, globals, args), fuel);
  }

  // ----- where they are not exact -----

  const NOTHING := Program(map[], map[])

  /** `fn f(n) { if n > 0 { return; } assert n <= 0; }` */
  const GUARD := Bin(Gt, Var("n"), IntLit(0))
  const CLAIM := Bin(Le, Var("n"), IntLit(0))
  const EARLY := Fn({"n"}, [], [], [If(GUARD, [ReturnVoid], []), Assert(CLAIM)], true)

  /** The path condition after the `if` does not say that its guard was false:
      every run of the function is correct, and yet for n == 1 its obligation
      does not hold. */
  lemma {:induction false} EarlyReturnIsRefused(n: int)
    ensures RunIsCorrect(NOTHING, EARLY, RunAll(NOTHING, EARLY.body, EntryEnv(EARLY, {}, map["n" := IntV(n)]), 0))
    ensures AllHold(Obligations(NOTHING, EARLY, {}), EntryValuation(EARLY, {}, map["n" := IntV(n)])) <==> n <= 0
    ensures !BalancedAll(EARLY.body)
  {
    EarlyRun(n);
    EarlyObligationAt(n);
    EarlyIsUnbalanced();
  }

  lemma {:induction false} EarlyObligationAt(n: int)
    ensures AllHold(Obligations(NOTHING, EARLY, {}), EntryValuation(EARLY, {}, map["n" := IntV(n)])) <==> n <= 0
  {
    EarlyObligations();
    var sym := Const(ParamSym, "n");
    var rho := EntryValuation(EARLY, {}, map["n" := IntV(n)]);
    assert "n"[0] != OldName("")[0];
    assert EntrySym({}, "n") == sym && sym in EntrySyms(EARLY, {});
    var goal := TBin(Le, TSym(sym), TInt(0));
    assert EvalT(goal, rho) == Apply(Le, SymValue(rho, sym), IntV(0));
    assert Obl([], goal) in Obligations(NOTHING, EARLY, {});
  }

  lemma {:induction false} EarlyIsUnbalanced()
    ensures !BalancedAll(EARLY.body)
  {
    assert EndsAll([ReturnVoid]) && !EndsAll([]);
    assert !Balanced(EARLY.body[0]);
  }

  lemma {:induction false} EarlyRun(n: int)
    ensures EntryEnv(EARLY, {}, map["n" := IntV(n)]) == map["n" := IntV(n)]
    ensures NoFailure(NOTHING, [], RunAll(NOTHING, EARLY.body, map["n" := IntV(n)], 0))
  {
    assert OldNamesIn([]) == {} && "n"[0] != OldName("")[0];
    assert MappedNames(EARLY, {}) == {"n"};
    var env: Env := map["n" := IntV(n)];
    assert EntryEnv(EARLY, {}, env) == env;
    var branch, check := EARLY.body[0], EARLY.body[1];
    assert EARLY.body[1..] == [check] && [check][1..] == [];
    assert Eval(NOTHING, {}, GUARD, env) == BoolV(n > 0) && Eval(NOTHING, {}, CLAIM, env) == BoolV(n <= 0);
    if n > 0 {
      assert RunAll(NOTHING, [ReturnVoid], env, 0) == Returned(env);
      assert Run(NOTHING, branch, env, 0) == Returned(env);
    } else {
      assert Leave(env, env) == env;
      assert Run(NOTHING, branch, env, 0) == Normal(env) && Run(NOTHING, check, env, 0) == Normal(env);
    }
  }

  lemma {:induction false} EarlyObligations()
    ensures Obligations(NOTHING, EARLY, {}) == [Obl([], TBin(Le, TSym(Const(ParamSym, "n")), TInt(0)))]
  {
    assert OldNamesIn([]) == {} && "n"[0] != OldName("")[0];
    assert MappedNames(EARLY, {}) == {"n"};
    var n, nm, st: NameMap := TSym(Const(ParamSym, "n")), EntryNames(EARLY, {}), map[];
    assert nm == map["n" := n] && EntryStore({}) == st;
    EarlyBranch(nm, n);
    EarlyCheck(nm, n);
    assert EARLY.body[1..] == [EARLY.body[1]];
    assert EncodeAll(NOTHING, nm, [], [], Top, EARLY.body, st, 0).obls == [Obl([], TBin(Le, n, TInt(0)))];
  }

  lemma {:induction false} EarlyCheck(nm: NameMap, n: Term)
    requires nm == map["n" := n]
    ensures EncodeAll(NOTHING, nm, [], [], Top, [EARLY.body[1]], map[], 0).obls == [Obl([], TBin(Le, n, TInt(0)))]
  {
    var check, st: NameMap, goal := EARLY.body[1], map[], TBin(Le, n, TInt(0));
    assert LowerWp(NOTHING, nm, st, CLAIM, 0) == (goal, 0) && [] + PathTerms(Top) == [];
    assert Encode(NOTHING, nm, [], [], Top, check, st, 0) == Enc(st, 0, [Obl([], goal)], false, Top);
    assert [check][1..] == [];
  }

  lemma {:induction false} EarlyBranch(nm: NameMap, n: Term)
    requires nm == map["n" := n]
    ensures Encode(NOTHING, nm, [], [], Top, EARLY.body[0], map[], 0) == Enc(map[], 0, [], false, Top)
  {
    var st: NameMap, guard := map[], TBin(Gt, n, TInt(0));
    assert LowerWp(NOTHING, nm, st, GUARD, 0) == (guard, 0);
    assert Encode(NOTHING, nm, [], [], Cond(guard), ReturnVoid, st, 0) == Enc(st, 0, [], true, Top);
    assert EncodeAll(NOTHING, nm, [], [], Cond(guard), [ReturnVoid], st, 0) == Enc(st, 0, [], true, Top);
    assert EncodeAll(NOTHING, nm, [], [], Cond(TNot(guard)), [], st, 0) == Enc(st, 0, [], false, Top);
  }
}
