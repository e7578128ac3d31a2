/** Contracts of one function: the symbols declared at entry, the obligations
    emitted for the body, and what their validity means for every run. */
module FunctionContracts {
  import opened Values
  import opened Terms
  import opened SpecLang
  import opened Lowering
  import opened Statements
  import opened SymbolicExec
  import opened SymbolicSound

  datatype Fn = Fn(params: set<string>, pre: seq<Expr>, post: seq<Expr>, body: seq<Stmt>, isVoid: bool)

  function OldNames(e: Expr): set<string>
    decreases e, 1
  {
    match e
    case IntLit(_) => {}
    case BoolLit(_) => {}
    case Var(_) => {}
    case Old(sub) => if sub.Var? then {sub.name} else OldNames(sub)
    case Quant(_, _, lo, hi, _, body) => OldNames(lo) + OldNames(hi) + OldNames(body)
    case Not(a) => OldNames(a)
    case Neg(a) => OldNames(a)
    case Bin(_, l, r) => OldNames(l) + OldNames(r)
    case Ternary(c, a, b) => OldNames(c) + OldNames(a) + OldNames(b)
    case Call(_, args) => OldNamesIn(args)
    case Index(a, i) => OldNames(a) + OldNames(i)
  }

  function OldNamesIn(es: seq<Expr>): set<string>
    decreases es, 0
  {
    if |es| == 0 then {} else OldNames(es[0]) + OldNamesIn(es[1..])
  }

  function Unold(o: string): string
    requires IsOldName(o)
  {
    o[4..]
  }

  /** The snapshot names declared at entry. */
  function Snapshots(f: Fn, globals: set<string>): (r: set<string>)
    ensures forall o :: o in r ==> IsOldName(o)
  {
    set x | x in OldNamesIn(f.post) + globals :: OldName(x)
  }

  /** The constant declared for a name: a snapshot and a mutable global share
      the symbol of the entry value. */
  function EntrySym(globals: set<string>, x: string): Sym {
    if IsOldName(x) then Const(OldSym, Unold(x))
    else if x in globals then Const(OldSym, x)
    else if x == RESULT then Const(ResultSym, x)
    else Const(ParamSym, x)
  }

  function MappedNames(f: Fn, globals: set<string>): set<string> {
    f.params + Snapshots(f, globals) + if |f.post| > 0 && !f.isVoid then {RESULT} else {}
  }

  /** The name map at entry: parameters, the snapshots, and `result`. */
  function EntryNames(f: Fn, globals: set<string>): NameMap {
    map x | x in MappedNames(f, globals) :: TSym(EntrySym(globals, x))
  }

  /** The store at entry holds the mutable globals and nothing else; parameters
      are resolved through the name map. */
  function EntryStore(globals: set<string>): (st: NameMap)
    ensures st.Keys == globals
  {
    map g | g in globals :: TSym(EntrySym(globals, g))
  }

  /** `requires` clauses are lowered by the plain walker and become premises. */
  function LowerClauses(p: Program, nm: NameMap, es: seq<Expr>, k: nat): (r: (seq<Term>, nat))
    ensures |r.0| == |es| && k <= r.1
  {
    if |es| == 0 then ([], k)
    else
      var (t, k1) := Lower(p, {}, nm, es[0], k);
      var (ts, k2) := LowerClauses(p, nm, es[1..], k1);
      ([t] + ts, k2)
  }

  /** `emitFnContracts`: the obligations of the body, then the postconditions
      of a non-void body that can fall off its end. */
  function Obligations(p: Program, f: Fn, globals: set<string>): seq<Obl> {
    var nm := EntryNames(f, globals);
    var (prem, k) := LowerClauses(p, nm, f.pre, 0);
    var enc := EncodeAll(p, nm, f.post, prem, Top, f.body, EntryStore(globals), k);
    if !enc.returned && !f.isVoid then
      enc.obls + OblsFor(prem, EncodeClauses(p, nm, enc.st, f.post, enc.k).0)
    else enc.obls
  }

  // ----- entry states -----

  /** The state a run starts in: the given parameters and globals, their
      snapshots, and an arbitrary `result`. */
  function EntryEnv(f: Fn, globals: set<string>, args: Env): Env {
    map x | x in MappedNames(f, globals) + globals :: Given(args, EntrySym(globals, x).name)
  }

  function Given(args: Env, x: string): Value {
    if x in args then args[x] else IntV(0)
  }

  ghost predicate WellNamed(p: Program, f: Fn, globals: set<string>) {
    && f.params !! globals && (f.params + globals) !! p.consts.Keys && RESULT !in p.consts
    && OldNamesIn(f.post) <= f.params + globals && NoOldConsts(p)
    && (forall x :: x in f.params + globals ==> !IsOldName(x) && x != RESULT)
  }

  function EntryDom(p: Program, f: Fn, globals: set<string>): set<string> {
    MappedNames(f, globals) + globals + p.consts.Keys
  }

  /** The bodies covered: the static check passes, preconditions mention only
      parameters and constants, postconditions names known at entry. */
  ghost predicate Covered(p: Program, f: Fn, globals: set<string>) {
    && WellNamed(p, f, globals)
    && FlowAll(p, f.body, EntryDom(p, f, globals), globals).ok
    && ClausesScoped(p, f.pre, f.params + p.consts.Keys)
    && ClausesScoped(p, f.post, EntryDom(p, f, globals))
  }

  function EntrySyms(f: Fn, globals: set<string>): set<Sym> {
    set x | x in MappedNames(f, globals) + globals :: EntrySym(globals, x)
  }

  /** The valuation that gives every entry symbol its concrete value. */
  function EntryValuation(f: Fn, globals: set<string>, args: Env): Valuation {
    map s | s in EntrySyms(f, globals) :: if s.Const? then Given(args, s.name) else IntV(0)
  }

  lemma MappedNamesFresh(p: Program, f: Fn, globals: set<string>, x: string)
    requires WellNamed(p, f, globals) && x in MappedNames(f, globals)
    ensures x !in p.consts && x !in globals
  {
    if IsOldName(x) && x in globals { assert false; }
  }

  lemma EntryReady(p: Program, f: Fn, globals: set<string>, args: Env, k: nat)
    requires WellNamed(p, f, globals)
    ensures Ready(p, EntryNames(f, globals), EntryStore(globals), EntryDom(p, f, globals), EntrySyms(f, globals), k)
    ensures Denotes(p, EntryNames(f, globals), EntryStore(globals), EntryDom(p, f, globals),
                    EntryValuation(f, globals, args), EntryEnv(f, globals, args))
  {
    var nm, st, env := EntryNames(f, globals), EntryStore(globals), EntryEnv(f, globals, args);
    forall x | x in MappedNames(f, globals) ensures x !in p.consts && x !in globals {
      MappedNamesFresh(p, f, globals, x);
    }
    assert (nm + st).Keys == env.Keys;
    forall x | x in env
      ensures (nm + st)[x] == TSym(EntrySym(globals, x)) && EntrySym(globals, x) in EntrySyms(f, globals) {}
    assert env.Keys + p.consts.Keys == EntryDom(p, f, globals);
  }

  /** The lowered clauses are true where the clauses hold, and only there. */
  lemma {:induction false} LowerClausesMeaning(p: Program, nm: NameMap, es: seq<Expr>, dom: set<string>, syms: set<Sym>,
                                               k: nat, rho: Valuation, env: Env)
    requires ClausesScoped(p, es, dom) && NamesIn(p, nm, dom) && NoOldConsts(p) && SymsIn(nm, syms) && Below(syms, k)
    requires nm.Keys !! p.consts.Keys && SameLookups(p, EnvOf(nm, rho), env, dom)
    ensures AllTrue(LowerClauses(p, nm, es, k).0, rho) <==> ClausesHold(p, es, env)
    decreases |es|
  {
    if |es| > 0 {
      var (t, k1) := Lower(p, {}, nm, es[0], k);
      LowerPreservesMeaning(p, {}, nm, es[0], dom, k, syms, rho);
      EvalAgree(p, {}, es[0], dom, EnvOf(nm, rho), env);
      LowerClausesMeaning(p, nm, es[1..], dom, syms, k1, rho, env);
      AllTrueCons(t, LowerClauses(p, nm, es[1..], k1).0, rho);
      assert es == [es[0]] + es[1..];
    }
  }

  /** A run that passes every assertion and meets `ensures` at whichever return
      it takes, or where a non-void body falls off its end. */
  ghost predicate RunIsCorrect(p: Program, f: Fn, o: Outcome) {
    match o
    case AssertFailed => false
    case OutOfFuel => false
    case Returned(env) => ClausesHold(p, f.post, env)
    case Normal(env) => !f.isVoid ==> ClausesHold(p, f.post, env)
  }

  /** If every emitted obligation is valid, then every run from arguments of
      their sorts that meet `requires` is correct. */
  lemma {:induction false} VerifiedFunctionIsCorrect(p: Program, f: Fn, globals: set<string>, sorts: Sorting, args: Env,
                                                     fuel: nat)
    requires Covered(p, f, globals) && AllValid(Obligations(p, f, globals), sorts)
    requires WellSorted(EntryValuation(f, globals, args), sorts)
    requires ClausesHold(p, f.pre, EntryEnv(f, globals, args))
    ensures RunIsCorrect(p, f, RunAll(p, f.body, EntryEnv(f, globals, args), fuel))
  {
    forall o | o in Obligations(p, f, globals)
      ensures Holds(o, EntryValuation(f, globals, args))
    {
      assert Valid(o, sorts);
    }
    CorrectAt(p, f, globals, args, fuel);
  }

  /** At entry the name map says what the environment does. */
  lemma EntryLookups(p: Program, f: Fn, globals: set<string>, args: Env)
    requires WellNamed(p, f, globals)
    ensures var nm := EntryNames(f, globals);
            && SymsIn(nm, EntrySyms(f, globals)) && nm.Keys !! p.consts.Keys
            && SameLookups(p, EnvOf(nm, EntryValuation(f, globals, args)), EntryEnv(f, globals, args),
                           f.params + p.consts.Keys)
  {
    var nm, syms := EntryNames(f, globals), EntrySyms(f, globals);
    var rho, env := EntryValuation(f, globals, args), EntryEnv(f, globals, args);
    forall x | x in nm ensures Free(nm[x]) <= syms && x in env && EvalT(nm[x], rho) == env[x] && x !in p.consts {
      MappedNamesFresh(p, f, globals, x);
      assert EntrySym(globals, x) in syms;
    }
  }

  /** The premises hold where the preconditions do. */
  lemma {:induction false} PremisesHold(p: Program, f: Fn, globals: set<string>, args: Env)
    requires Covered(p, f, globals) && ClausesHold(p, f.pre, EntryEnv(f, globals, args))
    ensures AllTrue(LowerClauses(p, EntryNames(f, globals), f.pre, 0).0, EntryValuation(f, globals, args))
  {
    EntryLookups(p, f, globals, args);
    LowerClausesMeaning(p, EntryNames(f, globals), f.pre, f.params + p.consts.Keys, EntrySyms(f, globals), 0,
                     EntryValuation(f, globals, args), EntryEnv(f, globals, args));
  }

  /** The same for one call, at the valuation of its arguments. */
  lemma {:induction false} CorrectAt(p: Program, f: Fn, globals: set<string>, args: Env, fuel: nat)
    requires Covered(p, f, globals)
    requires AllHold(Obligations(p, f, globals), EntryValuation(f, globals, args))
    requires ClausesHold(p, f.pre, EntryEnv(f, globals, args))
    ensures RunIsCorrect(p, f, RunAll(p, f.body, EntryEnv(f, globals, args), fuel))
  {
    var nm, st, dom := EntryNames(f, globals), EntryStore(globals), EntryDom(p, f, globals);
    var rho, env, syms := EntryValuation(f, globals, args), EntryEnv(f, globals, args), EntrySyms(f, globals);
    var (prem, k) := LowerClauses(p, nm, f.pre, 0);
    EntryReady(p, f, globals, args, k);
    PremisesHold(p, f, globals, args);
    var enc := EncodeAll(p, nm, f.post, prem, Top, f.body, st, k);
    assert AllHold(enc.obls, rho) by {
      forall o | o in enc.obls ensures Holds(o, rho) { assert o in Obligations(p, f, globals); }
    }
    SoundAll(p, nm, f.post, dom, prem, Top, f.body, st, dom, syms, k, rho, env, fuel);
    var o := RunAll(p, f.body, env, fuel);
    if o.Normal? && !f.isVoid {
      EncodeStaticAll(p, nm, f.post, prem, Top, f.body, st, dom, syms, k);
      FallThrough(p, f, globals, rho, o.s, prem, k);
      forall ob | ob in OblsFor(prem, EncodeClauses(p, nm, enc.st, f.post, enc.k).0) ensures Holds(ob, rho) {
        assert ob in Obligations(p, f, globals);
      }
    }
  }

  /** Where a non-void body falls off its end, the obligations emitted there
      hold exactly when the postconditions do. */
  lemma {:induction false} FallThrough(p: Program, f: Fn, globals: set<string>, rho: Valuation, env: Env,
                                       prem: seq<Term>, k: nat)
    requires Covered(p, f, globals) && (prem, k) == LowerClauses(p, EntryNames(f, globals), f.pre, 0)
    requires AllTrue(prem, rho)
    requires var enc := EncodeAll(p, EntryNames(f, globals), f.post, prem, Top, f.body, EntryStore(globals), k);
             var fl := FlowAll(p, f.body, EntryDom(p, f, globals), globals);
             !fl.dead && Denotes(p, EntryNames(f, globals), enc.st, fl.dom, rho, env)
    ensures var enc := EncodeAll(p, EntryNames(f, globals), f.post, prem, Top, f.body, EntryStore(globals), k);
            AllHold(OblsFor(prem, EncodeClauses(p, EntryNames(f, globals), enc.st, f.post, enc.k).0), rho)
            <==> ClausesHold(p, f.post, env)
  {
    var nm, st, dom := EntryNames(f, globals), EntryStore(globals), EntryDom(p, f, globals);
    var syms := EntrySyms(f, globals);
    var enc := EncodeAll(p, nm, f.post, prem, Top, f.body, st, k);
    var fl := FlowAll(p, f.body, dom, globals);
    EntryReady(p, f, globals, map[], k);
    EncodeStaticAll(p, nm, f.post, prem, Top, f.body, st, dom, syms, k);
    var goals := EncodeClauses(p, nm, enc.st, f.post, enc.k).0;
    forall e | e in f.post ensures Scoped(p, {}, e, fl.dom) { ScopedMono(p, {}, e, dom, fl.dom); }
    ClausesValue(p, nm, enc.st, f.post, fl.dom, syms, enc.k, rho, env);
    OblsWithoutPath(prem, goals, rho);
  }

  lemma OblsWithoutPath(prem: seq<Term>, goals: seq<Term>, rho: Valuation)
    requires AllTrue(prem, rho)
    ensures AllHold(OblsFor(prem, goals), rho) <==> AllTrue(goals, rho)
  {
    assert prem + PathTerms(Top) == prem;
    if AllHold(OblsFor(prem, goals), rho) { OblsUnderPath(prem, Top, goals, rho); }
  }
}
