/** What is checked of an annotated loop, exactly: its first iteration, and what
    follows it where the invariants hold. Other iterations are checked only
    where the store denotes the states they start in, and a loop that is skipped
    is not checked at all. */
module LoopExact {
  import opened Values
  import opened Terms
  import opened SpecLang
  import opened Lowering
  import opened Statements
  import opened SymbolicExec
  import opened SymbolicSound
  import opened FunctionContracts
  import opened SymbolicExact
  import opened LoopExitAbstraction

  /** Guard, invariants and body are over visible names; the body is covered. */
  ghost predicate CheckedLoop(p: Program, ens: seq<Expr>, base: set<string>, s: Stmt, dom: set<string>,
                              keys: set<string>)
    requires s.While?
  {
    && Scoped(p, {}, s.cond, dom) && ClausesScoped(p, s.invariants, dom) && FlowAll(p, s.body, dom, keys).ok
    && ClausesScoped(p, ens, base) && base <= dom && RESULT !in p.consts
  }

  function Checks(p: Program, nm: NameMap, ens: seq<Expr>, prem: seq<Term>, pc: Path, s: Stmt, st: NameMap,
                  k: nat): seq<Obl>
    requires s.While?
  {
    LoopChecks(p, nm, ens, prem, pc, s.cond, s.invariants, s.body, st, k).0
  }

  /** If the guard is true the invariants hold, the body passes its checks, and
      the invariants hold where it goes on. */
  ghost predicate IterationChecks(p: Program, ens: seq<Expr>, s: Stmt, env: Env)
    requires s.While?
  {
    AsBool(Eval(p, {}, s.cond, env)) ==>
      && ClausesHold(p, s.invariants, env) && CheckedAll(p, ens, s.body, env)
      && (!EndsAll(s.body) ==> ClausesHold(p, s.invariants, AfterAll(p, s.body, env)))
  }

  /** At a valuation that denotes the state before the loop, the loop's checks
      hold exactly when its first iteration passes; they say nothing of the
      others. */
  lemma {:induction false} ChecksAreFirstIteration(p: Program, nm: NameMap, ens: seq<Expr>, base: set<string>,
                                                   prem: seq<Term>, pc: Path, s: Stmt, st: NameMap, dom: set<string>,
                                                   syms: set<Sym>, k: nat, rho: Valuation, env: Env)
    requires s.While? && CheckedLoop(p, ens, base, s, dom, st.Keys)
    requires Ready(p, nm, st, dom, syms, k) && Denotes(p, nm, st, dom, rho, env) && AllTrue(prem, rho)
    requires PathTrue(pc, rho)
    ensures AllHold(Checks(p, nm, ens, prem, pc, s, st, k), rho) <==> IterationChecks(p, ens, s, env)
  {
    var (tc, k1) := LowerWp(p, nm, st, s.cond, k);
    var (ti, k2) := EncodeClauses(p, nm, st, s.invariants, k1);
    var inner, bodyPrem := PathAnd(pc, Cond(tc)), prem + PathTerms(pc) + [tc] + ti;
    var eb := EncodeAll(p, nm, ens, bodyPrem, inner, s.body, st, k2);
    TermValue(p, nm, st, s.cond, dom, syms, k, rho, env);
    ClausesValue(p, nm, st, s.invariants, dom, syms, k1, rho, env);
    var tp := EncodeClauses(p, nm, eb.st, s.invariants, eb.k).0;
    LoopChecksParts(p, nm, ens, prem, pc, s, st, k, rho);
    PathAndMeaning(pc, Cond(tc), rho);
    if !True(tc, rho) {
      OblsOffPath(prem, inner, ti, rho);
      OffPathAll(p, nm, ens, bodyPrem, inner, s.body, st, k2, rho);
      UnderFalse(prem + PathTerms(pc), tc, ti, tp, rho);
    } else {
      OblsExact(prem, inner, ti, rho);
      if AllTrue(ti, rho) {
        AllTogether(prem, pc, tc, ti, rho);
        BodyChecks(p, nm, ens, base, bodyPrem, inner, s, st, dom, syms, k2, rho, env);
      }
    }
  }

  lemma UnderFalse(before: seq<Term>, t: Term, after: seq<Term>, goals: seq<Term>, rho: Valuation)
    requires !True(t, rho)
    ensures AllHold(OblsFor(before + [t] + after, goals), rho)
  {
    assert (before + [t] + after)[|before|] == t;
  }

  lemma AllTogether(prem: seq<Term>, pc: Path, t: Term, ts: seq<Term>, rho: Valuation)
    requires AllTrue(prem, rho) && PathTrue(pc, rho) && True(t, rho) && AllTrue(ts, rho)
    ensures AllTrue(prem + PathTerms(pc) + [t] + ts, rho)
  {
  }

  /** The checks are the entry, body and preservation ones. */
  lemma {:induction false} LoopChecksParts(p: Program, nm: NameMap, ens: seq<Expr>, prem: seq<Term>, pc: Path, s: Stmt,
                                           st: NameMap, k: nat, rho: Valuation)
    requires s.While?
    ensures var (tc, k1) := LowerWp(p, nm, st, s.cond, k);
            var (ti, k2) := EncodeClauses(p, nm, st, s.invariants, k1);
            var inner, bodyPrem := PathAnd(pc, Cond(tc)), prem + PathTerms(pc) + [tc] + ti;
            var eb := EncodeAll(p, nm, ens, bodyPrem, inner, s.body, st, k2);
            AllHold(Checks(p, nm, ens, prem, pc, s, st, k), rho)
            <==> && AllHold(OblsFor(prem + PathTerms(inner), ti), rho) && AllHold(eb.obls, rho)
                 && (!eb.returned
                    ==> AllHold(OblsFor(bodyPrem, EncodeClauses(p, nm, eb.st, s.invariants, eb.k).0), rho))
  {
    var (tc, k1) := LowerWp(p, nm, st, s.cond, k);
    var (ti, k2) := EncodeClauses(p, nm, st, s.invariants, k1);
    var inner, bodyPrem := PathAnd(pc, Cond(tc)), prem + PathTerms(pc) + [tc] + ti;
    var eb := EncodeAll(p, nm, ens, bodyPrem, inner, s.body, st, k2);
    var entry := OblsFor(prem + PathTerms(inner), ti);
    AllHoldAppend(entry, eb.obls, rho);
    AllHoldAppend(entry + eb.obls, OblsFor(bodyPrem, EncodeClauses(p, nm, eb.st, s.invariants, eb.k).0), rho);
  }

  lemma {:induction false} BodyChecks(p: Program, nm: NameMap, ens: seq<Expr>, base: set<string>, prem: seq<Term>,
                                      pc: Path, s: Stmt, st: NameMap, dom: set<string>, syms: set<Sym>, k: nat,
                                      rho: Valuation, env: Env)
    requires s.While? && CheckedLoop(p, ens, base, s, dom, st.Keys)
    requires Ready(p, nm, st, dom, syms, k) && Denotes(p, nm, st, dom, rho, env) && AllTrue(prem, rho)
    requires PathTrue(pc, rho)
    ensures var eb := EncodeAll(p, nm, ens, prem, pc, s.body, st, k);
            && (AllHold(eb.obls, rho) <==> CheckedAll(p, ens, s.body, env)) && eb.returned == EndsAll(s.body)
            && (!eb.returned ==>
                  (AllHold(OblsFor(prem, EncodeClauses(p, nm, eb.st, s.invariants, eb.k).0), rho)
                   <==> ClausesHold(p, s.invariants, AfterAll(p, s.body, env))))
  {
    var eb, f := EncodeAll(p, nm, ens, prem, pc, s.body, st, k), FlowAll(p, s.body, dom, st.Keys);
    ExactAll(p, nm, ens, base, prem, pc, s.body, st, dom, syms, k, rho, env);
    FlowEndsAll(p, s.body, dom, st.Keys);
    EncodeStaticAll(p, nm, ens, prem, pc, s.body, st, dom, syms, k);
    if !eb.returned {
      TracksAll(p, nm, ens, prem, pc, s.body, st, dom, syms, k, rho, env);
      forall e | e in s.invariants ensures Scoped(p, {}, e, f.dom) { ScopedMono(p, {}, e, dom, f.dom); }
      ClausesValue(p, nm, eb.st, s.invariants, f.dom, syms, eb.k, rho, AfterAll(p, s.body, env));
      OblsWithoutPath(prem, EncodeClauses(p, nm, eb.st, s.invariants, eb.k).0, rho);
    }
  }

  // ----- the iteration as it runs -----

  /** The first iteration as a run. */
  ghost predicate IterationRuns(p: Program, ens: seq<Expr>, s: Stmt, env: Env, fuel: nat)
    requires s.While?
  {
    AsBool(Eval(p, {}, s.cond, env)) ==>
      var o := RunAll(p, s.body, env, fuel);
      ClausesHold(p, s.invariants, env) && NoFailure(p, ens, o) && (o.Normal? ==> ClausesHold(p, s.invariants, o.s))
  }

  /** Where everything checked passes, the run does not fail, and if it goes on
      it goes on from the state the encoding goes on with. */
  ghost predicate RunsOn(p: Program, ens: seq<Expr>, o: Outcome, ends: bool, after: Env) {
    NoFailure(p, ens, o) && (o.Normal? ==> !ends && o.s == after)
  }

  lemma {:induction false} CheckedRun(p: Program, ens: seq<Expr>, s: Stmt, env: Env, fuel: nat, dom: set<string>,
                                      keys: set<string>)
    requires Flow(p, s, dom, keys).ok && Checked(p, ens, s, env)
    ensures RunsOn(p, ens, Run(p, s, env, fuel), Ends(s), After(p, s, env))
    decreases s, 1
  {
    match s
    case If(c, a, b) =>
      if AsBool(Eval(p, {}, c, env)) {
        CheckedRunAll(p, ens, a, env, fuel, dom, keys);
      } else {
        CheckedRunAll(p, ens, b, env, fuel, dom, keys);
      }
    case Block(body) => CheckedRunAll(p, ens, body, env, fuel, dom, keys);
    case _ =>
  }

  lemma {:induction false} CheckedRunAll(p: Program, ens: seq<Expr>, ss: seq<Stmt>, env: Env, fuel: nat,
                                         dom: set<string>, keys: set<string>)
    requires FlowAll(p, ss, dom, keys).ok && CheckedAll(p, ens, ss, env)
    ensures RunsOn(p, ens, RunAll(p, ss, env, fuel), EndsAll(ss), AfterAll(p, ss, env))
    decreases ss, 0
  {
    if |ss| > 0 {
      var f := Flow(p, ss[0], dom, keys);
      FlowEnds(p, ss[0], dom, keys);
      CheckedRun(p, ens, ss[0], env, fuel, dom, keys);
      if !Ends(ss[0]) && Run(p, ss[0], env, fuel).Normal? {
        CheckedRunAll(p, ens, ss[1..], After(p, ss[0], env), fuel, f.dom, f.keys);
      }
    }
  }

  /** Where the checks hold the first iteration runs right, and for a body in
      which no `if` returns in one arm only they hold only there. */
  lemma {:induction false} ChecksAreFirstRun(p: Program, nm: NameMap, ens: seq<Expr>, base: set<string>,
                                             prem: seq<Term>, pc: Path, s: Stmt, st: NameMap, dom: set<string>,
                                             syms: set<Sym>, k: nat, rho: Valuation, env: Env, fuel: nat)
    requires s.While? && CheckedLoop(p, ens, base, s, dom, st.Keys)
    requires Ready(p, nm, st, dom, syms, k) && Denotes(p, nm, st, dom, rho, env) && AllTrue(prem, rho)
    requires PathTrue(pc, rho)
    ensures AllHold(Checks(p, nm, ens, prem, pc, s, st, k), rho) ==> IterationRuns(p, ens, s, env, fuel)
    ensures BalancedAll(s.body) && IterationRuns(p, ens, s, env, fuel)
        ==> AllHold(Checks(p, nm, ens, prem, pc, s, st, k), rho)
  {
    ChecksAreFirstIteration(p, nm, ens, base, prem, pc, s, st, dom, syms, k, rho, env);
    if AsBool(Eval(p, {}, s.cond, env)) {
      if CheckedAll(p, ens, s.body, env) { CheckedRunAll(p, ens, s.body, env, fuel, dom, st.Keys); }
      if BalancedAll(s.body) { BalancedRunAll(p, ens, s.body, env, fuel); }
    }
  }

  // ----- when the checks speak of every iteration -----

  /** An iteration the loop may start from this state. */
  ghost predicate Starts(p: Program, s: Stmt, entry: Env, e: Env)
    requires s.While?
  {
    HeadState(s, entry, e) && ClausesHold(p, s.invariants, e) && AsBool(Eval(p, {}, s.cond, e))
  }

  /** The store before the loop denotes every state an iteration may start from,
      under some valuation that meets premises and path. */
  ghost predicate DenotesAllStarts(p: Program, nm: NameMap, prem: seq<Term>, pc: Path, s: Stmt, st: NameMap,
                                   dom: set<string>, sorts: Sorting, entry: Env)
    requires s.While?
  {
    forall e: Env | Starts(p, s, entry, e) ::
      exists rho: Valuation :: WellSorted(rho, sorts) && AllTrue(prem, rho) && PathTrue(pc, rho)
        && Denotes(p, nm, st, dom, rho, e)
  }

  /** The names the body writes hold integers after every iteration. */
  ghost predicate KeepsInts(p: Program, s: Stmt, entry: Env)
    requires s.While?
  {
    forall e: Env, fuel: nat :: Starts(p, s, entry, e) && RunScope(p, s.body, e, fuel).Normal? ==>
      Ints(RunScope(p, s.body, e, fuel).s, Mutated(s.body))
  }

  /** Each name the body writes still stands for a symbol of its own, of sort Int:
      one that no other name, no premise and no path condition mentions. */
  ghost predicate Untouched(nm: NameMap, prem: seq<Term>, pc: Path, s: Stmt, st: NameMap, sorts: Sorting, entry: Env,
                            own: map<string, Sym>, whose: map<Sym, string>)
    requires s.While?
  {
    && (forall x :: x in Mutated(s.body) && x in entry ==> x in own && own[x] in whose && whose[own[x]] == x)
    && (forall x :: x in own && x in nm + st ==> (nm + st)[x] == TSym(own[x]))
    && (forall z :: z in whose ==> whose[z] in Mutated(s.body) && (z in sorts ==> sorts[z] == IntSort))
    && (forall y :: y in nm + st && y !in Mutated(s.body) ==> Free((nm + st)[y]) !! whose.Keys)
    && (forall i :: 0 <= i < |prem + PathTerms(pc)| ==> Free((prem + PathTerms(pc))[i]) !! whose.Keys)
  }

  /** Such a store denotes every state an iteration may start from. */
  lemma {:induction false} UntouchedStarts(p: Program, nm: NameMap, prem: seq<Term>, pc: Path, s: Stmt, st: NameMap,
                                           dom: set<string>, sorts: Sorting, rho: Valuation, entry: Env,
                                           own: map<string, Sym>, whose: map<Sym, string>)
    requires s.While? && Untouched(nm, prem, pc, s, st, sorts, entry, own, whose)
    requires Denotes(p, nm, st, dom, rho, entry) && WellSorted(rho, sorts) && AllTrue(prem, rho) && PathTrue(pc, rho)
    ensures DenotesAllStarts(p, nm, prem, pc, s, st, dom, sorts, entry)
  {
    forall e: Env | Starts(p, s, entry, e)
      ensures exists rho': Valuation ::
        WellSorted(rho', sorts) && AllTrue(prem, rho') && PathTrue(pc, rho') && Denotes(p, nm, st, dom, rho', e)
    {
      var rho' := Reassigned(rho, whose, e);
      ReassignedSorted(rho, s, sorts, whose, e);
      ReassignedPremises(rho, prem, pc, whose, e);
      ReassignedDenotes(p, nm, prem, pc, s, st, dom, sorts, rho, entry, own, whose, e);
      assert WellSorted(rho', sorts) && AllTrue(prem, rho') && PathTrue(pc, rho') && Denotes(p, nm, st, dom, rho', e);
    }
  }

  /** The symbols of the written names take the values of the state. */
  function Reassigned(rho: Valuation, whose: map<Sym, string>, e: Env): Valuation {
    rho + map z | z in whose && whose[z] in e :: e[whose[z]]
  }

  lemma UnmentionedKeeps(rho: Valuation, whose: map<Sym, string>, e: Env, t: Term)
    requires Free(t) !! whose.Keys
    ensures EvalT(t, Reassigned(rho, whose, e)) == EvalT(t, rho)
  {
    Coincidence(t, rho, Reassigned(rho, whose, e));
  }

  lemma ReassignedSorted(rho: Valuation, s: Stmt, sorts: Sorting, whose: map<Sym, string>, e: Env)
    requires s.While? && WellSorted(rho, sorts) && Ints(e, Mutated(s.body))
    requires forall z :: z in whose ==> whose[z] in Mutated(s.body) && (z in sorts ==> sorts[z] == IntSort)
    ensures WellSorted(Reassigned(rho, whose, e), sorts)
  {
    var rho' := Reassigned(rho, whose, e);
    forall z ensures SymValue(rho', z) == SymValue(rho, z) || (z in whose && SymValue(rho', z).IntV?) {}
  }

  lemma ReassignedPremises(rho: Valuation, prem: seq<Term>, pc: Path, whose: map<Sym, string>, e: Env)
    requires AllTrue(prem, rho) && PathTrue(pc, rho)
    requires forall i :: 0 <= i < |prem + PathTerms(pc)| ==> Free((prem + PathTerms(pc))[i]) !! whose.Keys
    ensures AllTrue(prem, Reassigned(rho, whose, e)) && PathTrue(pc, Reassigned(rho, whose, e))
  {
    var all := prem + PathTerms(pc);
    forall i | 0 <= i < |prem| ensures True(prem[i], Reassigned(rho, whose, e)) {
      assert all[i] == prem[i];
      UnmentionedKeeps(rho, whose, e, prem[i]);
    }
    if pc.Cond? {
      assert all[|prem|] == pc.t;
      UnmentionedKeeps(rho, whose, e, pc.t);
    }
  }

  lemma {:induction false} ReassignedDenotes(p: Program, nm: NameMap, prem: seq<Term>, pc: Path, s: Stmt, st: NameMap,
                                             dom: set<string>, sorts: Sorting, rho: Valuation, entry: Env,
                                             own: map<string, Sym>, whose: map<Sym, string>, e: Env)
    requires s.While? && Untouched(nm, prem, pc, s, st, sorts, entry, own, whose)
    requires Denotes(p, nm, st, dom, rho, entry) && HeadState(s, entry, e)
    ensures Denotes(p, nm, st, dom, Reassigned(rho, whose, e), e)
  {
    var rho' := Reassigned(rho, whose, e);
    forall x | x in e ensures x in nm + st && EvalT((nm + st)[x], rho') == e[x] {
      assert x in entry && x in nm + st;
      if x in Mutated(s.body) {
        assert rho'[own[x]] == e[x];
      } else {
        UnmentionedKeeps(rho, whose, e, (nm + st)[x]);
      }
    }
  }

  /** One iteration from a state the store denotes. */
  lemma {:induction false} IterationKeeps(p: Program, nm: NameMap, ens: seq<Expr>, base: set<string>, prem: seq<Term>,
                                          pc: Path, s: Stmt, st: NameMap, dom: set<string>, syms: set<Sym>, k: nat,
                                          rho: Valuation, e: Env, fuel: nat)
    requires s.While? && CheckedLoop(p, ens, base, s, dom, st.Keys)
    requires Ready(p, nm, st, dom, syms, k) && Denotes(p, nm, st, dom, rho, e) && AllTrue(prem, rho)
    requires PathTrue(pc, rho)
    requires AllHold(Checks(p, nm, ens, prem, pc, s, st, k), rho)
    requires AsBool(Eval(p, {}, s.cond, e)) && RunScope(p, s.body, e, fuel).Normal?
    ensures ClausesHold(p, s.invariants, RunScope(p, s.body, e, fuel).s)
  {
    ChecksAreFirstIteration(p, nm, ens, base, prem, pc, s, st, dom, syms, k, rho, e);
    CheckedRunAll(p, ens, s.body, e, fuel, dom, st.Keys);
    TracksAll(p, nm, ens, prem, pc, s.body, st, dom, syms, k, rho, e);
    ListKeepsNames(p, s.body, e, fuel);
    var after := AfterAll(p, s.body, e);
    assert SameLookups(p, after, Leave(e, after), dom);
    forall inv | inv in s.invariants ensures AsBool(Eval(p, {}, inv, Leave(e, after))) {
      EvalAgree(p, {}, inv, dom, after, Leave(e, after));
    }
  }

  /** If the store still denotes every state an iteration may start from, valid
      checks make the invariants inductive. */
  lemma {:induction false} ValidChecksAreInductive(p: Program, nm: NameMap, ens: seq<Expr>, base: set<string>,
                                                   prem: seq<Term>, pc: Path, s: Stmt, st: NameMap, dom: set<string>,
                                                   syms: set<Sym>, k: nat, sorts: Sorting, entry: Env)
    requires s.While? && CheckedLoop(p, ens, base, s, dom, st.Keys) && Ready(p, nm, st, dom, syms, k)
    requires DenotesAllStarts(p, nm, prem, pc, s, st, dom, sorts, entry) && KeepsInts(p, s, entry)
    requires AllValid(Checks(p, nm, ens, prem, pc, s, st, k), sorts)
    ensures Inductive(p, s, entry)
  {
    forall e: Env, fuel: nat | Starts(p, s, entry, e) && RunScope(p, s.body, e, fuel).Normal?
      ensures ClausesHold(p, s.invariants, RunScope(p, s.body, e, fuel).s)
      ensures Ints(RunScope(p, s.body, e, fuel).s, Mutated(s.body))
    {
      var rho: Valuation :| WellSorted(rho, sorts) && AllTrue(prem, rho) && PathTrue(pc, rho)
          && Denotes(p, nm, st, dom, rho, e);
      IterationKeeps(p, nm, ens, base, prem, pc, s, st, dom, syms, k, rho, e, fuel);
    }
  }

  /** For such a loop nothing need be assumed of its iterations: if it is not
      skipped, or is skipped where the invariants hold, valid obligations make
      what follows it correct. */
  lemma {:induction false} SoundAfterCheckedLoop(p: Program, nm: NameMap, ens: seq<Expr>, base: set<string>,
                                                 prem: seq<Term>, pc: Path, s: Stmt, rest: seq<Stmt>, st: NameMap,
                                                 dom: set<string>, syms: set<Sym>, k: nat, sorts: Sorting,
                                                 rho: Valuation, env: Env, fuel: nat)
    requires s.While? && LoopCovered(p, s, dom) && CheckedLoop(p, ens, base, s, dom, st.Keys)
    requires WellSorted(rho, sorts) && Ints(env, Mutated(s.body))
    requires Ready(p, nm, st, dom, syms, k) && Denotes(p, nm, st, dom, rho, env)
    requires AllTrue(prem, rho) && PathTrue(pc, rho) && FreeIn(prem + PathTerms(pc), syms)
    requires DenotesAllStarts(p, nm, prem, pc, s, st, dom, sorts, env) && KeepsInts(p, s, env)
    requires AsBool(Eval(p, {}, s.cond, env)) || ClausesHold(p, s.invariants, env)
    requires Run(p, s, env, fuel).Normal?
    requires FlowAll(p, rest, dom, Encode(p, nm, ens, prem, pc, s, st, k).st.Keys).ok
    requires AllValid(EncodeAll(p, nm, ens, prem, pc, [s] + rest, st, k).obls, sorts)
    ensures NoFailure(p, ens, RunAll(p, [s] + rest, env, fuel))
  {
    ChecksAreEmitted(p, nm, ens, prem, pc, s, rest, st, k, sorts);
    ValidChecksAreInductive(p, nm, ens, base, prem, pc, s, st, dom, syms, k, sorts, env);
    ChecksAreFirstIteration(p, nm, ens, base, prem, pc, s, st, dom, syms, k, rho, env);
    assert AllHold(Checks(p, nm, ens, prem, pc, s, st, k), rho) by {
      forall o | o in Checks(p, nm, ens, prem, pc, s, st, k) ensures Holds(o, rho) { assert Valid(o, sorts); }
    }
    SoundAfterLoop(p, nm, ens, base, prem, pc, s, rest, st, dom, syms, k, sorts, rho, env, fuel);
  }

  lemma {:induction false} ChecksAreEmitted(p: Program, nm: NameMap, ens: seq<Expr>, prem: seq<Term>, pc: Path, s: Stmt,
                                            rest: seq<Stmt>, st: NameMap, k: nat, sorts: Sorting)
    requires s.While? && |s.invariants| > 0 && AllValid(EncodeAll(p, nm, ens, prem, pc, [s] + rest, st, k).obls, sorts)
    ensures AllValid(Checks(p, nm, ens, prem, pc, s, st, k), sorts)
  {
    var ss, enc := [s] + rest, Encode(p, nm, ens, prem, pc, s, st, k);
    assert ss[0] == s && ss[1..] == rest;
    WhileEncoding(p, nm, ens, prem, pc, s.cond, s.invariants, s.body, st, k, Mutated(s.body));
    var later := EncodeAll(p, nm, ens, prem, PathAnd(pc, enc.exit), rest, enc.st, enc.k);
    assert EncodeAll(p, nm, ens, prem, pc, ss, st, k).obls == Checks(p, nm, ens, prem, pc, s, st, k) + later.obls;
    forall o | o in Checks(p, nm, ens, prem, pc, s, st, k) ensures Valid(o, sorts) {
      assert o in Checks(p, nm, ens, prem, pc, s, st, k) + later.obls;
    }
  }

  // ----- what follows the loop -----

  /** Some choice of the exit constants makes the exit store denote the state and
      the path condition after the loop true. */
  ghost predicate Continues(p: Program, nm: NameMap, pc: Path, enc: Enc, dom: set<string>, syms: set<Sym>,
                            sorts: Sorting, rho: Valuation, final: Env) {
    exists rho': Valuation ::
      && Terms.AgreeOn(rho, rho', syms) && WellSorted(rho', sorts) && Denotes(p, nm, enc.st, dom, rho', final)
      && PathTrue(PathAnd(pc, enc.exit), rho')
  }

  lemma {:induction false} GuardEndsLoop(p: Program, s: Stmt, env: Env, fuel: nat)
    requires s.While? && Run(p, s, env, fuel).Normal?
    ensures !AsBool(Eval(p, {}, s.cond, Run(p, s, env, fuel).s))
    decreases fuel
  {
    if AsBool(Eval(p, {}, s.cond, env)) { GuardEndsLoop(p, s, RunScope(p, s.body, env, fuel).s, fuel - 1); }
  }

  /** The state a loop ends in is one that what follows is checked for exactly
      when every name not collected has its old value there, every collected one
      an integer, and the invariants hold. */
  lemma {:induction false} ContinuesExact(p: Program, nm: NameMap, ens: seq<Expr>, prem: seq<Term>, pc: Path, s: Stmt,
                                          st: NameMap, dom: set<string>, syms: set<Sym>, k: nat, sorts: Sorting,
                                          rho: Valuation, env: Env, fuel: nat)
    requires s.While? && |s.invariants| > 0 && Run(p, s, env, fuel).Normal?
    requires Scoped(p, {}, s.cond, dom) && ClausesScoped(p, s.invariants, dom)
    requires Mutated(s.body) !! p.consts.Keys && (forall x :: x in Mutated(s.body) ==> !IsOldName(x))
    requires Ready(p, nm, st, dom, syms, k) && Denotes(p, nm, st, dom, rho, env) && WellSorted(rho, sorts)
    requires PathTrue(pc, rho) && FreeIn(PathTerms(pc), syms)
    ensures var final := Run(p, s, env, fuel).s;
            Continues(p, nm, pc, Encode(p, nm, ens, prem, pc, s, st, k), dom, syms, sorts, rho, final)
            <==> && SameOutside(env, final, Mutated(s.body)) && Ints(final, Mutated(s.body))
                 && ClausesHold(p, s.invariants, final)
  {
    var mutated, final, enc := Mutated(s.body), Run(p, s, env, fuel).s, Encode(p, nm, ens, prem, pc, s, st, k);
    GuardEndsLoop(p, s, env, fuel);
    LoopExitExact(p, nm, ens, prem, pc, s, st, dom, syms, k, sorts, rho, env, fuel);
    ContinuesFrom(p, nm, ens, prem, pc, s, st, dom, syms, k, sorts, rho, mutated, enc, final);
  }

  lemma {:induction false} ContinuesFrom(p: Program, nm: NameMap, ens: seq<Expr>, prem: seq<Term>, pc: Path, s: Stmt,
                                         st: NameMap, dom: set<string>, syms: set<Sym>, k: nat, sorts: Sorting,
                                         rho: Valuation, mutated: set<string>, enc: Enc, final: Env)
    requires s.While? && |s.invariants| > 0 && Scoped(p, {}, s.cond, dom) && ClausesScoped(p, s.invariants, dom)
    requires mutated == Mutated(s.body) && mutated !! p.consts.Keys && (forall x :: x in mutated ==> !IsOldName(x))
    requires Ready(p, nm, st, dom, syms, k) && enc == Encode(p, nm, ens, prem, pc, s, st, k)
    requires PathTrue(pc, rho) && FreeIn(PathTerms(pc), syms) && !AsBool(Eval(p, {}, s.cond, final))
    ensures Continues(p, nm, pc, enc, dom, syms, sorts, rho, final)
       <==> ExitReaches(p, nm, enc.st, dom, syms, sorts, rho, final) && ClausesHold(p, s.invariants, final)
  {
    var k2, syms' := ExitEncoding(p, nm, ens, prem, pc, s, st, dom, syms, k, mutated, enc);
    ReachedAndMeant(p, nm, pc, s, enc, k2, dom, syms, syms', sorts, rho, final);
  }

  lemma {:induction false} ExitEncoding(p: Program, nm: NameMap, ens: seq<Expr>, prem: seq<Term>, pc: Path, s: Stmt,
                                        st: NameMap, dom: set<string>, syms: set<Sym>, k: nat, mutated: set<string>,
                                        enc: Enc)
      returns (k2: nat, syms': set<Sym>)
    requires s.While? && |s.invariants| > 0 && mutated == Mutated(s.body)
    requires enc == Encode(p, nm, ens, prem, pc, s, st, k)
    requires mutated !! p.consts.Keys && (forall x :: x in mutated ==> !IsOldName(x)) && Ready(p, nm, st, dom, syms, k)
    ensures enc.exit == ExitPath(p, nm, pc, s.cond, s.invariants, enc.st, k2).0 && Ready(p, nm, enc.st, dom, syms', k2)
  {
    var (checks, k1) := LoopChecks(p, nm, ens, prem, pc, s.cond, s.invariants, s.body, st, k);
    WhileEncoding(p, nm, ens, prem, pc, s.cond, s.invariants, s.body, st, k, mutated);
    k2 := k1 + |mutated|;
    AfterLoopIs(p, nm, pc, s.cond, s.invariants, st, mutated, checks, k1, k2);
    syms' := ReadyAfter(p, nm, enc.st, st, dom, syms, k, k1, k2, mutated);
  }

  lemma AfterLoopIs(p: Program, nm: NameMap, pc: Path, c: Expr, invs: seq<Expr>, st: NameMap, mutated: set<string>,
                    checks: seq<Obl>, k1: nat, k2: nat)
    requires k2 == k1 + |mutated|
    ensures var enc := AfterLoop(p, nm, pc, c, invs, st, mutated, checks, k1);
            enc.st == ExitStore(st, mutated, k1) && enc.exit == ExitPath(p, nm, pc, c, invs, enc.st, k2).0
  {
    var exitSt := ExitStore(st, mutated, k1);
    AfterLoopAt(p, nm, pc, c, invs, st, mutated, checks, k1, exitSt);
    SamePath(p, nm, pc, c, invs, exitSt, k2, k1 + |mutated|);
  }

  lemma AfterLoopAt(p: Program, nm: NameMap, pc: Path, c: Expr, invs: seq<Expr>, st: NameMap, mutated: set<string>,
                    checks: seq<Obl>, k: nat, exitSt: NameMap)
    requires exitSt == ExitStore(st, mutated, k)
    ensures var enc := AfterLoop(p, nm, pc, c, invs, st, mutated, checks, k);
            enc.st == exitSt && enc.exit == ExitPath(p, nm, pc, c, invs, exitSt, k + |mutated|).0
  {
  }

  lemma SamePath(p: Program, nm: NameMap, pc: Path, c: Expr, invs: seq<Expr>, st: NameMap, k: nat, k': nat)
    requires k == k'
    ensures ExitPath(p, nm, pc, c, invs, st, k) == ExitPath(p, nm, pc, c, invs, st, k')
  {
  }

  /** What follows is checked for a state exactly when the exit store reaches it
      and the invariants hold there. */
  lemma {:induction false} ReachedAndMeant(p: Program, nm: NameMap, pc: Path, s: Stmt, enc: Enc, k: nat,
                                           dom: set<string>, syms: set<Sym>, syms': set<Sym>, sorts: Sorting,
                                           rho: Valuation, final: Env)
    requires s.While? && enc.exit == ExitPath(p, nm, pc, s.cond, s.invariants, enc.st, k).0
    requires Scoped(p, {}, s.cond, dom) && ClausesScoped(p, s.invariants, dom) && Ready(p, nm, enc.st, dom, syms', k)
    requires PathTrue(pc, rho) && FreeIn(PathTerms(pc), syms) && !AsBool(Eval(p, {}, s.cond, final))
    ensures Continues(p, nm, pc, enc, dom, syms, sorts, rho, final)
       <==> ExitReaches(p, nm, enc.st, dom, syms, sorts, rho, final) && ClausesHold(p, s.invariants, final)
  {
    forall rho': Valuation | Terms.AgreeOn(rho, rho', syms) && Denotes(p, nm, enc.st, dom, rho', final)
      ensures PathTrue(PathAnd(pc, enc.exit), rho') <==> ClausesHold(p, s.invariants, final)
    {
      PathCarriesOver(pc, syms, rho, rho');
      ExitPathMeaning(p, nm, pc, s.cond, s.invariants, enc.st, k, dom, syms', rho', final);
    }
  }

  lemma ReadyAfter(p: Program, nm: NameMap, exitSt: NameMap, st: NameMap, dom: set<string>, syms: set<Sym>, k: nat,
                   k1: nat, k2: nat, mutated: set<string>)
      returns (syms': set<Sym>)
    requires Ready(p, nm, st, dom, syms, k) && k <= k1 && k2 == k1 + |mutated| && exitSt == ExitStore(st, mutated, k1)
    requires mutated !! p.consts.Keys && (forall x :: x in mutated ==> !IsOldName(x))
    ensures Ready(p, nm, exitSt, dom, syms', k2)
  {
    ExitStoreReady(p, nm, st, dom, syms, k, k1, mutated);
    syms' := ExitSyms(syms, mutated, k1);
  }

  lemma PathCarriesOver(pc: Path, syms: set<Sym>, rho: Valuation, rho': Valuation)
    requires PathTrue(pc, rho) && FreeIn(PathTerms(pc), syms) && Terms.AgreeOn(rho, rho', syms)
    ensures PathTrue(pc, rho')
  {
    if pc.Cond? {
      assert PathTerms(pc)[0] == pc.t;
      Coincidence(pc.t, rho, rho');
    }
  }

  // ----- loops without invariants -----

  /** A loop without invariants ends the path: what follows it is not encoded,
      and what is emitted for it holds at every valuation, whatever its body. */
  lemma {:induction false} NothingAfterUnannotated(p: Program, nm: NameMap, ens: seq<Expr>, prem: seq<Term>, pc: Path,
                                                   s: Stmt, rest: seq<Stmt>, st: NameMap, k: nat, rho: Valuation)
    requires s.While? && s.invariants == []
    ensures var enc := EncodeAll(p, nm, ens, prem, pc, [s] + rest, st, k);
            && enc.returned && enc.st == st
            && enc.obls == EncodeAll(p, nm, ens, prem, pc, [s], st, k).obls && AllHold(enc.obls, rho)
  {
    var ss, enc := [s] + rest, Encode(p, nm, ens, prem, pc, s, st, k);
    assert ss[0] == s && ss[1..] == rest && [s][0] == s;
    var k1 := LowerWp(p, nm, st, s.cond, k).1;
    var eb := EncodeAll(p, nm, ens, prem, Cond(TBool(false)), s.body, st, k1);
    assert enc == Enc(st, eb.k, eb.obls, true, Top);
    OffPathAll(p, nm, ens, prem, Cond(TBool(false)), s.body, st, k1, rho);
  }

  /** So a function that starts with such a loop is always verified, whatever
      follows the loop and whatever it ensures. */
  lemma {:induction false} UnannotatedIsVerified(p: Program, f: Fn, globals: set<string>, sorts: Sorting, s: Stmt,
                                                 rest: seq<Stmt>)
    requires s.While? && s.invariants == [] && f.body == [s] + rest
    ensures AllValid(Obligations(p, f, globals), sorts)
  {
    var nm, st := EntryNames(f, globals), EntryStore(globals);
    var (prem, k) := LowerClauses(p, nm, f.pre, 0);
    forall o, rho: Valuation | o in Obligations(p, f, globals) ensures Holds(o, rho) {
      NothingAfterUnannotated(p, nm, f.post, prem, Top, s, rest, st, k, rho);
    }
  }
}
