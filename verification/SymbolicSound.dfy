/** Soundness of the symbolic executor: if every obligation holds, no assertion
    fails and every return meets the postconditions. */
module SymbolicSound {
  import opened Values
  import opened Terms
  import opened SpecLang
  import opened Lowering
  import opened Statements
  import opened SymbolicExec

  // ----- which bodies are covered -----

  /** The outcome of the static check: is the body covered, which names are
      visible and which are in the store afterwards, and is the path dead? */
  datatype FlowResult = FlowResult(ok: bool, dom: set<string>, keys: set<string>, dead: bool)

  predicate Writable(x: string, dom: set<string>, consts: set<string>) {
    x in dom && x !in consts && !IsOldName(x)
  }

  /** Loop-free bodies whose names resolve, whose declarations do not shadow,
      and where the two live arms of an `if` leave the same visible names in
      the store. */
  function Flow(p: Program, s: Stmt, dom: set<string>, keys: set<string>): (f: FlowResult)
    ensures dom <= f.dom && (!f.dead ==> keys <= f.keys)
    decreases s, 1
  {
    match s
    case Let(x, e) =>
      FlowResult(Scoped(p, {}, e, dom) && x !in dom && !IsOldName(x), dom + {x}, keys + {x}, false)
    case Assign(x, e) =>
      FlowResult(Scoped(p, {}, e, dom) && Writable(x, dom, p.consts.Keys), dom, keys + {x}, false)
    case Compound(x, op, e) =>
      FlowResult(Arithmetic(op) && Scoped(p, {}, e, dom) && Writable(x, dom, p.consts.Keys), dom, keys + {x}, false)
    case IncDec(x, _) =>
      FlowResult(Writable(x, dom, p.consts.Keys), dom, keys + {x}, false)
    case WriteIndex(x, path, e) =>
      FlowResult(|path| > 0 && ScopedSeq(p, {}, path, dom) && Scoped(p, {}, e, dom) && Writable(x, dom, p.consts.Keys),
                 dom, keys + {x}, false)
    case If(c, a, b) =>
      var fa := FlowAll(p, a, dom, keys);
      var fb := FlowAll(p, b, dom, keys);
      FlowResult(Scoped(p, {}, c, dom) && fa.ok && fb.ok && (fa.dead || fb.dead || SameVisible(fa.keys, fb.keys, dom)),
                 dom, if fa.dead then fb.keys else if fb.dead then fa.keys else fa.keys + fb.keys, fa.dead && fb.dead)
    case Block(body) =>
      var f := FlowAll(p, body, dom, keys);
      FlowResult(f.ok, dom, f.keys, f.dead)
    case Assert(c) => FlowResult(Scoped(p, {}, c, dom), dom, keys, false)
    case Return(e) => FlowResult(Scoped(p, {}, e, dom), dom, keys, true)
    case ReturnVoid => FlowResult(true, dom, keys, true)
    case While(_, _, _) => FlowResult(false, dom, keys, false)
  }

  function FlowAll(p: Program, ss: seq<Stmt>, dom: set<string>, keys: set<string>): (f: FlowResult)
    ensures dom <= f.dom && (!f.dead ==> keys <= f.keys)
    decreases ss, 0
  {
    if |ss| == 0 then FlowResult(true, dom, keys, false)
    else
      var f := Flow(p, ss[0], dom, keys);
      if f.dead then f
      else
        var g := FlowAll(p, ss[1..], f.dom, f.keys);
        FlowResult(f.ok && g.ok, g.dom, g.keys, g.dead)
  }

  /** The guard that mergeStores needs: a visible name is in both stores or in
      neither. */
  predicate SameVisible(a: set<string>, b: set<string>, dom: set<string>) {
    a * dom == b * dom
  }

  // ----- what the store means -----

  /** Everything known about the store apart from its values. */
  ghost predicate Ready(p: Program, nm: NameMap, st: NameMap, dom: set<string>, syms: set<Sym>, k: nat) {
    && NoOldConsts(p) && NoOldIn(st)
    && (nm + st).Keys !! p.consts.Keys && p.consts.Keys <= dom
    && NamesIn(p, nm + st, dom)
    && SymsIn(nm + st, syms) && Below(syms, k)
  }

  /** Under `rho`, the terms the names stand for have the values of `env`. */
  ghost predicate Denotes(p: Program, nm: NameMap, st: NameMap, dom: set<string>, rho: Valuation, env: Env) {
    && env.Keys !! p.consts.Keys && env.Keys + p.consts.Keys == dom
    && forall x :: x in env ==> x in nm + st && EvalT((nm + st)[x], rho) == env[x]
  }

  ghost predicate Holds(o: Obl, rho: Valuation) {
    AllTrue(o.premises, rho) ==> True(o.goal, rho)
  }

  ghost predicate AllHold(obls: seq<Obl>, rho: Valuation) {
    forall o :: o in obls ==> Holds(o, rho)
  }

  /** The solver's question: does the obligation hold whatever values of their
      sorts the declared symbols have? */
  ghost predicate Valid(o: Obl, sorts: Sorting) {
    forall rho: Valuation | WellSorted(rho, sorts) :: Holds(o, rho)
  }

  ghost predicate AllValid(obls: seq<Obl>, sorts: Sorting) {
    forall o :: o in obls ==> Valid(o, sorts)
  }

  ghost predicate PathTrue(pc: Path, rho: Valuation) {
    pc.Cond? ==> True(pc.t, rho)
  }

  ghost predicate ClausesScoped(p: Program, es: seq<Expr>, dom: set<string>) {
    forall e :: e in es ==> Scoped(p, {}, e, dom)
  }

  ghost predicate ClausesHold(p: Program, es: seq<Expr>, env: Env) {
    forall e :: e in es ==> AsBool(Eval(p, {}, e, env))
  }

  // ----- expressions -----

  lemma {:induction false} TermFree(p: Program, nm: NameMap, st: NameMap, e: Expr, dom: set<string>, syms: set<Sym>,
                                    k: nat)
    requires Ready(p, nm, st, dom, syms, k) && Scoped(p, {}, e, dom)
    ensures Free(LowerWp(p, nm, st, e, k).0) <= syms
  {
    WpIsOverlay(p, nm, st, e, dom, k);
    LowerFree(p, {}, nm + st, e, dom, k, syms);
  }

  lemma {:induction false} TermValue(p: Program, nm: NameMap, st: NameMap, e: Expr, dom: set<string>, syms: set<Sym>,
                                     k: nat, rho: Valuation, env: Env)
    requires Ready(p, nm, st, dom, syms, k) && Scoped(p, {}, e, dom) && Denotes(p, nm, st, dom, rho, env)
    ensures EvalT(LowerWp(p, nm, st, e, k).0, rho) == Eval(p, {}, e, env)
  {
    WpIsOverlay(p, nm, st, e, dom, k);
    LowerPreservesMeaning(p, {}, nm + st, e, dom, k, syms, rho);
    EvalAgree(p, {}, e, dom, EnvOf(nm + st, rho), env);
  }

  lemma {:induction false} PathValues(p: Program, nm: NameMap, st: NameMap, es: seq<Expr>, dom: set<string>,
                                      syms: set<Sym>, k: nat, rho: Valuation, env: Env)
    requires Ready(p, nm, st, dom, syms, k) && ScopedSeq(p, {}, es, dom)
    ensures forall i :: 0 <= i < |es| ==> Free(LowerWpSeq(p, nm, st, es, k).0[i]) <= syms
    ensures Denotes(p, nm, st, dom, rho, env) ==> EvalTs(LowerWpSeq(p, nm, st, es, k).0, rho) == EvalSeq(p, {}, es, env)
    decreases |es|
  {
    if |es| > 0 {
      var (t, k1) := LowerWp(p, nm, st, es[0], k);
      var (ts, _) := LowerWpSeq(p, nm, st, es[1..], k1);
      TermFree(p, nm, st, es[0], dom, syms, k);
      PathValues(p, nm, st, es[1..], dom, syms, k1, rho, env);
      assert EvalTs([t] + ts, rho) == [EvalT(t, rho)] + EvalTs(ts, rho);
      if Denotes(p, nm, st, dom, rho, env) { TermValue(p, nm, st, es[0], dom, syms, k, rho, env); }
    }
  }

  lemma {:induction false} ClausesValue(p: Program, nm: NameMap, st: NameMap, es: seq<Expr>, dom: set<string>,
                                        syms: set<Sym>, k: nat, rho: Valuation, env: Env)
    requires Ready(p, nm, st, dom, syms, k) && ClausesScoped(p, es, dom) && Denotes(p, nm, st, dom, rho, env)
    ensures AllTrue(EncodeClauses(p, nm, st, es, k).0, rho) <==> ClausesHold(p, es, env)
    decreases |es|
  {
    if |es| > 0 {
      TermValue(p, nm, st, es[0], dom, syms, k, rho, env);
      var (t, k1) := LowerWp(p, nm, st, es[0], k);
      ClausesValue(p, nm, st, es[1..], dom, syms, k1, rho, env);
      var rest := EncodeClauses(p, nm, st, es[1..], k1).0;
      assert es == [es[0]] + es[1..];
      AllTrueCons(t, rest, rho);
    }
  }

  lemma AllTrueCons(t: Term, rest: seq<Term>, rho: Valuation)
    ensures AllTrue([t] + rest, rho) <==> True(t, rho) && AllTrue(rest, rho)
  {
    var ts := [t] + rest;
    assert ts[0] == t && forall i :: 0 <= i < |rest| ==> ts[i + 1] == rest[i];
    if AllTrue(ts, rho) {
      forall i | 0 <= i < |rest| ensures True(rest[i], rho) { assert True(ts[i + 1], rho); }
    }
  }

  // ----- nested writes -----

  lemma {:induction false} SelectChainMeaning(arr: Term, path: seq<Term>, rho: Valuation)
    ensures EvalT(SelectChain(arr, path), rho) == ReadPath(EvalT(arr, rho), EvalTs(path, rho))
    decreases |path|
  {
    if |path| > 0 {
      var init := path[..|path| - 1];
      SelectChainMeaning(arr, init, rho);
      ReadPathSnoc(EvalT(arr, rho), EvalTs(init, rho), EvalT(path[|path| - 1], rho));
      assert EvalTs(path, rho) == EvalTs(init, rho) + [EvalT(path[|path| - 1], rho)];
    }
  }

  lemma {:induction false} ReadPathSnoc(a: Value, path: seq<Value>, i: Value)
    ensures ReadPath(a, path + [i]) == Select(ReadPath(a, path), i)
    decreases |path|
  {
    if |path| > 0 {
      ReadPathSnoc(Select(a, path[0]), path[1..], i);
      assert (path + [i])[1..] == path[1..] + [i];
    } else {
      assert path + [i] == [i];
    }
  }

  /** The nested store/select term writes the value at exactly its index path,
      for a path of any depth. */
  lemma {:induction false} NestedStoreMeaning(arr: Term, path: seq<Term>, v: Term, j: nat, rho: Valuation)
    requires j <= |path|
    ensures EvalT(NestedStore(arr, path, v, j), rho)
         == UpdatePath(ReadPath(EvalT(arr, rho), EvalTs(path, rho)[..j]), EvalTs(path, rho)[j..], EvalT(v, rho))
    decreases |path| - j
  {
    var vs := EvalTs(path, rho);
    if j < |path| {
      NestedStoreMeaning(arr, path, v, j + 1, rho);
      OneStore(arr, path, j, NestedStore(arr, path, v, j + 1), rho);
      UpdateOneLevel(EvalT(arr, rho), vs, j, EvalT(v, rho));
    } else {
      assert vs[j..] == [];
    }
  }

  lemma {:induction false} OneStore(arr: Term, path: seq<Term>, j: nat, inner: Term, rho: Valuation)
    requires j < |path|
    ensures EvalT(TStore(SelectChain(arr, path[..j]), path[j], inner), rho)
         == Store(ReadPath(EvalT(arr, rho), EvalTs(path, rho)[..j]), EvalTs(path, rho)[j], EvalT(inner, rho))
  {
    SelectChainMeaning(arr, path[..j], rho);
    assert EvalTs(path[..j], rho) == EvalTs(path, rho)[..j];
  }

  lemma {:induction false} UpdateOneLevel(a: Value, vs: seq<Value>, j: nat, v: Value)
    requires j < |vs|
    ensures UpdatePath(ReadPath(a, vs[..j]), vs[j..], v)
         == Store(ReadPath(a, vs[..j]), vs[j], UpdatePath(ReadPath(a, vs[..j + 1]), vs[j + 1..], v))
  {
    ReadPathSnoc(a, vs[..j], vs[j]);
    assert vs[..j + 1] == vs[..j] + [vs[j]];
    assert vs[j..][1..] == vs[j + 1..];
  }

  lemma {:induction false} NestedStoreFree(arr: Term, path: seq<Term>, v: Term, j: nat, syms: set<Sym>)
    requires j <= |path| && Free(arr) <= syms && Free(v) <= syms
    requires forall i :: 0 <= i < |path| ==> Free(path[i]) <= syms
    ensures Free(NestedStore(arr, path, v, j)) <= syms
    decreases |path| - j
  {
    if j < |path| {
      NestedStoreFree(arr, path, v, j + 1, syms);
      SelectChainFree(arr, path[..j], syms);
    }
  }

  lemma {:induction false} SelectChainFree(arr: Term, path: seq<Term>, syms: set<Sym>)
    requires Free(arr) <= syms && forall i :: 0 <= i < |path| ==> Free(path[i]) <= syms
    ensures Free(SelectChain(arr, path)) <= syms
    decreases |path|
  {
    if |path| > 0 {
      SelectChainFree(arr, path[..|path| - 1], syms);
    }
  }

  // ----- the store stays well formed -----

  lemma {:induction false} ReadyUpdate(p: Program, nm: NameMap, st: NameMap, dom: set<string>, syms: set<Sym>, k: nat,
                                       x: string, t: Term, k': nat)
    requires Ready(p, nm, st, dom, syms, k) && k <= k' && Free(t) <= syms
    requires !IsOldName(x) && x !in p.consts
    ensures Ready(p, nm, st[x := t], dom + {x}, syms, k')
  {
    assert (nm + st[x := t]) == (nm + st)[x := t];
  }

  lemma {:induction false} ReadyMerge(p: Program, nm: NameMap, a: NameMap, b: NameMap, domA: set<string>,
                                      domB: set<string>, dom: set<string>, syms: set<Sym>, k: nat, c: Term)
    requires Ready(p, nm, a, domA, syms, k) && Ready(p, nm, b, domB, syms, k)
    requires dom <= domA && p.consts.Keys <= dom && Free(c) <= syms
    ensures Ready(p, nm, MergeLive(a, b, c), dom, syms, k)
  {
    var m := MergeLive(a, b, c);
    assert (nm + m).Keys == (nm + a).Keys + (nm + b).Keys;
    forall x | x in nm + m ensures Free((nm + m)[x]) <= syms {
      MergedFree(nm, a, b, c, syms, x);
    }
  }

  lemma {:induction false} MergedFree(nm: NameMap, a: NameMap, b: NameMap, c: Term, syms: set<Sym>, x: string)
    requires SymsIn(nm + a, syms) && SymsIn(nm + b, syms) && Free(c) <= syms && x in nm + MergeLive(a, b, c)
    ensures Free((nm + MergeLive(a, b, c))[x]) <= syms
  {
    if x in a { assert (nm + a)[x] == a[x]; }
    if x in b { assert (nm + b)[x] == b[x]; }
    if x !in a && x !in b { assert (nm + a)[x] == nm[x]; }
  }

  /** The key sets, the dead-path flag and the symbols evolve as Flow says,
      whatever the run does. */
  lemma {:induction false} EncodeStatic(p: Program, nm: NameMap, ens: seq<Expr>, prem: seq<Term>, pc: Path, s: Stmt,
                                        st: NameMap, dom: set<string>, syms: set<Sym>, k: nat)
    requires Ready(p, nm, st, dom, syms, k) && Flow(p, s, dom, st.Keys).ok
    ensures StaticOk(p, nm, Encode(p, nm, ens, prem, pc, s, st, k), Flow(p, s, dom, st.Keys), syms)
    decreases s, 1
  {
    match s
    case Let(x, e) =>
      TermFree(p, nm, st, e, dom, syms, k);
      ReadyUpdate(p, nm, st, dom, syms, k, x, LowerWp(p, nm, st, e, k).0, LowerWp(p, nm, st, e, k).1);
    case Assign(x, e) =>
      TermFree(p, nm, st, e, dom, syms, k);
      ReadyUpdate(p, nm, st, dom, syms, k, x, LowerWp(p, nm, st, e, k).0, LowerWp(p, nm, st, e, k).1);
      assert dom + {x} == dom;
    case Compound(_, _, _) => EncodeStaticUpdate(p, nm, ens, prem, pc, s, st, dom, syms, k);
    case IncDec(_, _) => EncodeStaticUpdate(p, nm, ens, prem, pc, s, st, dom, syms, k);
    case WriteIndex(_, _, _) => EncodeStaticWrite(p, nm, ens, prem, pc, s, st, dom, syms, k);
    case If(c, a, b) =>
      EncodeStaticIf(p, nm, ens, prem, pc, s, st, dom, syms, k);
    case Block(body) =>
      EncodeStaticAll(p, nm, ens, prem, pc, body, st, dom, syms, k);
    case Assert(_) =>
    case Return(_) =>
    case ReturnVoid =>
  }

  lemma {:induction false} EncodeStaticUpdate(p: Program, nm: NameMap, ens: seq<Expr>, prem: seq<Term>, pc: Path,
                                              s: Stmt, st: NameMap, dom: set<string>, syms: set<Sym>, k: nat)
    requires s.Compound? || s.IncDec?
    requires Ready(p, nm, st, dom, syms, k) && Flow(p, s, dom, st.Keys).ok
    ensures StaticOk(p, nm, Encode(p, nm, ens, prem, pc, s, st, k), Flow(p, s, dom, st.Keys), syms)
  {
    var x := s.x;
    CurrentFree(p, nm, st, dom, syms, k, x, k);
    var cur := Current(nm, st, x, k).0;
    match s
    case Compound(_, op, e) =>
      TermFree(p, nm, st, e, dom, syms, k);
      var (t, k1) := LowerWp(p, nm, st, e, k);
      OperandFree(op, cur, t, syms);
      UpdateOk(p, nm, st, dom, syms, k, x, TBin(op, cur, t), k1, Encode(p, nm, ens, prem, pc, s, st, k),
               Flow(p, s, dom, st.Keys));
    case IncDec(_, isInc) =>
      var op := if isInc then Add else Sub;
      OperandFree(op, cur, TInt(1), syms);
      UpdateOk(p, nm, st, dom, syms, k, x, TBin(op, cur, TInt(1)), k, Encode(p, nm, ens, prem, pc, s, st, k),
               Flow(p, s, dom, st.Keys));
  }

  /** Binding a visible name to a new term. */
  lemma UpdateOk(p: Program, nm: NameMap, st: NameMap, dom: set<string>, syms: set<Sym>, k: nat, x: string, t: Term,
                 k': nat, r: Enc, f: FlowResult)
    requires Ready(p, nm, st, dom, syms, k) && k <= k' && Free(t) <= syms && Writable(x, dom, p.consts.Keys)
    requires r == Enc(st[x := t], k', [], false, Top) && f.dom == dom && f.keys == st.Keys + {x} && !f.dead
    ensures StaticOk(p, nm, r, f, syms)
  {
    assert dom + {x} == dom;
    ReadyUpdate(p, nm, st, dom, syms, k, x, t, k');
  }

  lemma OperandFree(op: BinOp, l: Term, r: Term, syms: set<Sym>)
    requires Free(l) <= syms && Free(r) <= syms
    ensures Free(TBin(op, l, r)) <= syms
  {
  }

  lemma {:induction false} EncodeStaticWrite(p: Program, nm: NameMap, ens: seq<Expr>, prem: seq<Term>, pc: Path,
                                             s: Stmt, st: NameMap, dom: set<string>, syms: set<Sym>, k: nat)
    requires s.WriteIndex?
    requires Ready(p, nm, st, dom, syms, k) && Flow(p, s, dom, st.Keys).ok
    ensures StaticOk(p, nm, Encode(p, nm, ens, prem, pc, s, st, k), Flow(p, s, dom, st.Keys), syms)
  {
    var WriteIndex(x, path, e) := s;
    CurrentFree(p, nm, st, dom, syms, k, x, k);
    var cur := Current(nm, st, x, k).0;
    var (ts, k1) := LowerWpSeq(p, nm, st, path, k);
    PathValues(p, nm, st, path, dom, syms, k, map[], map[]);
    TermFree(p, nm, st, e, dom, syms, k1);
    var (t, k2) := LowerWp(p, nm, st, e, k1);
    NestedStoreFree(cur, ts, t, 0, syms);
    UpdateOk(p, nm, st, dom, syms, k, x, NestedStore(cur, ts, t, 0), k2, Encode(p, nm, ens, prem, pc, s, st, k),
             Flow(p, s, dom, st.Keys));
  }

  ghost predicate StaticOk(p: Program, nm: NameMap, r: Enc, f: FlowResult, syms: set<Sym>) {
    && r.returned == f.dead && r.exit.Top?
    && (!f.dead ==> r.st.Keys == f.keys && Ready(p, nm, r.st, f.dom, syms, r.k))
  }

  lemma {:induction false} CurrentFree(p: Program, nm: NameMap, st: NameMap, dom: set<string>, syms: set<Sym>, k: nat,
                                       x: string, k': nat)
    requires Ready(p, nm, st, dom, syms, k) && Writable(x, dom, p.consts.Keys)
    ensures x in nm + st && Current(nm, st, x, k') == ((nm + st)[x], k')
    ensures Free(Current(nm, st, x, k').0) <= syms
  {
  }

  lemma {:induction false} EncodeStaticIf(p: Program, nm: NameMap, ens: seq<Expr>, prem: seq<Term>, pc: Path, s: Stmt,
                                          st: NameMap, dom: set<string>, syms: set<Sym>, k: nat)
    requires s.If? && Ready(p, nm, st, dom, syms, k) && Flow(p, s, dom, st.Keys).ok
    ensures StaticOk(p, nm, Encode(p, nm, ens, prem, pc, s, st, k), Flow(p, s, dom, st.Keys), syms)
    decreases s, 0
  {
    var If(c, a, b) := s;
    var (tc, k1) := LowerWp(p, nm, st, c, k);
    var ea := EncodeAll(p, nm, ens, prem, PathAnd(pc, Cond(tc)), a, st, k1);
    var eb := EncodeAll(p, nm, ens, prem, PathAnd(pc, Cond(TNot(tc))), b, st, ea.k);
    var fa, fb := FlowAll(p, a, dom, st.Keys), FlowAll(p, b, dom, st.Keys);
    TermFree(p, nm, st, c, dom, syms, k);
    EncodeStaticAll(p, nm, ens, prem, PathAnd(pc, Cond(tc)), a, st, dom, syms, k1);
    EncodeStaticAll(p, nm, ens, prem, PathAnd(pc, Cond(TNot(tc))), b, st, dom, syms, ea.k);
    if !fa.dead && !fb.dead {
      ReadyMerge(p, nm, ea.st, eb.st, fa.dom, fb.dom, dom, syms, eb.k, tc);
    }
  }

  lemma {:induction false} EncodeStaticAll(p: Program, nm: NameMap, ens: seq<Expr>, prem: seq<Term>, pc: Path,
                                           ss: seq<Stmt>, st: NameMap, dom: set<string>, syms: set<Sym>, k: nat)
    requires Ready(p, nm, st, dom, syms, k) && FlowAll(p, ss, dom, st.Keys).ok
    ensures StaticOk(p, nm, EncodeAll(p, nm, ens, prem, pc, ss, st, k), FlowAll(p, ss, dom, st.Keys), syms)
    decreases ss, 0
  {
    if |ss| > 0 {
      EncodeStatic(p, nm, ens, prem, pc, ss[0], st, dom, syms, k);
      var e1 := Encode(p, nm, ens, prem, pc, ss[0], st, k);
      var f1 := Flow(p, ss[0], dom, st.Keys);
      if !f1.dead {
        EncodeStaticAll(p, nm, ens, prem, PathAnd(pc, e1.exit), ss[1..], e1.st, f1.dom, syms, e1.k);
      }
    }
  }

  // ----- runs -----

  ghost predicate RunOk(p: Program, nm: NameMap, ens: seq<Expr>, o: Outcome, st: NameMap, f: FlowResult,
                        rho: Valuation) {
    match o
    case AssertFailed => false
    case OutOfFuel => false
    case Returned(env) => ClausesHold(p, ens, env)
    case Normal(env) => !f.dead && Denotes(p, nm, st, f.dom, rho, env)
  }

  lemma {:induction false} DenotesUpdate(p: Program, nm: NameMap, st: NameMap, dom: set<string>, rho: Valuation,
                                         env: Env, x: string, t: Term)
    requires Denotes(p, nm, st, dom, rho, env) && x !in p.consts
    ensures Denotes(p, nm, st[x := t], dom + {x}, rho, env[x := EvalT(t, rho)])
  {
    assert (nm + st[x := t]) == (nm + st)[x := t];
  }

  lemma {:induction false} DenotesLeave(p: Program, nm: NameMap, st: NameMap, dom: set<string>, dom': set<string>,
                                        rho: Valuation, env: Env, env': Env)
    requires Denotes(p, nm, st, dom', rho, env') && dom <= dom'
    requires env.Keys !! p.consts.Keys && env.Keys + p.consts.Keys == dom
    ensures Denotes(p, nm, st, dom, rho, Leave(env, env'))
  {
    assert Leave(env, env').Keys == env.Keys;
  }

  /** Merging the live arms of an `if` denotes the arm that ran. */
  lemma {:induction false} DenotesMerge(p: Program, nm: NameMap, a: NameMap, b: NameMap, dom: set<string>, c: Term,
                                        rho: Valuation, env: Env)
    requires SameVisible(a.Keys, b.Keys, dom)
    requires Denotes(p, nm, if True(c, rho) then a else b, dom, rho, env)
    ensures Denotes(p, nm, MergeLive(a, b, c), dom, rho, env)
  {
    var m, picked := MergeLive(a, b, c), if True(c, rho) then a else b;
    forall x | x in env ensures x in nm + m && EvalT((nm + m)[x], rho) == env[x] {
      assert x in dom && (x in a <==> x in a.Keys * dom) && (x in b <==> x in b.Keys * dom);
      assert x in nm + picked && EvalT((nm + picked)[x], rho) == env[x];
      MergedValue(a, b, c, x, rho);
    }
  }

  lemma {:induction false} MergedValue(a: NameMap, b: NameMap, c: Term, x: string, rho: Valuation)
    requires x in a <==> x in b
    ensures x in MergeLive(a, b, c) <==> x in a
    ensures x in a ==> EvalT(MergeLive(a, b, c)[x], rho) == EvalT((if True(c, rho) then a else b)[x], rho)
  {
  }

  lemma {:induction false} PathAndMeaning(pc: Path, more: Path, rho: Valuation)
    ensures PathTrue(PathAnd(pc, more), rho) <==> PathTrue(pc, rho) && PathTrue(more, rho)
  {
    if pc.Cond? && more.Cond? {
      assert EvalT(TBin(And, pc.t, more.t), rho) == Apply(And, EvalT(pc.t, rho), EvalT(more.t, rho));
    }
  }

  lemma AllHoldSplit(a: seq<Obl>, b: seq<Obl>, rho: Valuation)
    requires AllHold(a + b, rho)
    ensures AllHold(a, rho) && AllHold(b, rho)
  {
    forall o | o in a ensures o in a + b {}
    forall o | o in b ensures o in a + b {}
  }

  lemma OblsUnderPath(prem: seq<Term>, pc: Path, goals: seq<Term>, rho: Valuation)
    requires AllTrue(prem, rho) && PathTrue(pc, rho) && AllHold(OblsFor(prem + PathTerms(pc), goals), rho)
    ensures AllTrue(goals, rho)
  {
    var obls := OblsFor(prem + PathTerms(pc), goals);
    forall i | 0 <= i < |goals| ensures True(goals[i], rho) {
      assert obls[i] in obls && Holds(obls[i], rho);
    }
  }

  /** The main theorem, statement by statement: at a valuation where premises,
      path condition and obligations hold and the store denotes the state, the
      run neither fails nor gets stuck, a return meets the postconditions, and
      after a normal step the store denotes the new state. */
  lemma {:induction false} Sound(p: Program, nm: NameMap, ens: seq<Expr>, base: set<string>, prem: seq<Term>, pc: Path,
                                 s: Stmt, st: NameMap, dom: set<string>, syms: set<Sym>, k: nat, rho: Valuation,
                                 env: Env, fuel: nat)
    requires Ready(p, nm, st, dom, syms, k) && Denotes(p, nm, st, dom, rho, env)
    requires Flow(p, s, dom, st.Keys).ok && ClausesScoped(p, ens, base) && base <= dom && RESULT !in p.consts
    requires AllTrue(prem, rho) && PathTrue(pc, rho)
    requires AllHold(Encode(p, nm, ens, prem, pc, s, st, k).obls, rho)
    ensures RunOk(p, nm, ens, Run(p, s, env, fuel), Encode(p, nm, ens, prem, pc, s, st, k).st, Flow(p, s, dom, st.Keys),
                  rho)
    decreases s, 1
  {
    match s
    case Let(x, e) =>
      TermValue(p, nm, st, e, dom, syms, k, rho, env);
      DenotesUpdate(p, nm, st, dom, rho, env, x, LowerWp(p, nm, st, e, k).0);
    case Assign(x, e) =>
      TermValue(p, nm, st, e, dom, syms, k, rho, env);
      DenotesUpdate(p, nm, st, dom, rho, env, x, LowerWp(p, nm, st, e, k).0);
      assert dom + {x} == dom;
    case Compound(_, _, _) =>
      SoundUpdate(p, nm, ens, prem, pc, s, st, dom, syms, k, rho, env, fuel);
    case IncDec(_, _) =>
      SoundUpdate(p, nm, ens, prem, pc, s, st, dom, syms, k, rho, env, fuel);
    case WriteIndex(_, _, _) =>
      SoundWrite(p, nm, ens, prem, pc, s, st, dom, syms, k, rho, env, fuel);
    case If(_, _, _) =>
      SoundIf(p, nm, ens, base, prem, pc, s, st, dom, syms, k, rho, env, fuel);
    case Block(body) =>
      SoundScope(p, nm, ens, base, prem, pc, body, st, dom, syms, k, rho, env, fuel);
    case Assert(c) =>
      var t := LowerWp(p, nm, st, c, k).0;
      TermValue(p, nm, st, c, dom, syms, k, rho, env);
      var o := Obl(prem + PathTerms(pc), t);
      assert o in Encode(p, nm, ens, prem, pc, s, st, k).obls;
      assert Holds(o, rho);
    case Return(_) =>
      SoundReturn(p, nm, ens, base, prem, pc, s, st, dom, syms, k, rho, env, fuel);
    case ReturnVoid =>
      forall e | e in ens ensures Scoped(p, {}, e, dom) { ScopedMono(p, {}, e, base, dom); }
      ClausesValue(p, nm, st, ens, dom, syms, k, rho, env);
      OblsUnderPath(prem, pc, EncodeClauses(p, nm, st, ens, k).0, rho);
  }

  lemma {:induction false} SoundUpdate(p: Program, nm: NameMap, ens: seq<Expr>, prem: seq<Term>, pc: Path, s: Stmt,
                                       st: NameMap, dom: set<string>, syms: set<Sym>, k: nat, rho: Valuation, env: Env,
                                       fuel: nat)
    requires s.Compound? || s.IncDec?
    requires Ready(p, nm, st, dom, syms, k) && Denotes(p, nm, st, dom, rho, env) && Flow(p, s, dom, st.Keys).ok
    ensures RunOk(p, nm, ens, Run(p, s, env, fuel), Encode(p, nm, ens, prem, pc, s, st, k).st, Flow(p, s, dom, st.Keys),
                  rho)
  {
    match s
    case Compound(x, op, e) =>
      var (t, k1) := LowerWp(p, nm, st, e, k);
      TermValue(p, nm, st, e, dom, syms, k, rho, env);
      UpdateValue(p, nm, st, dom, syms, k, rho, env, x, op, t, k1);
    case IncDec(x, isInc) =>
      UpdateValue(p, nm, st, dom, syms, k, rho, env, x, if isInc then Add else Sub, TInt(1), k);
  }

  /** A name combined with a term. */
  lemma {:induction false} UpdateValue(p: Program, nm: NameMap, st: NameMap, dom: set<string>, syms: set<Sym>, k: nat,
                                       rho: Valuation, env: Env, x: string, op: BinOp, t: Term, k': nat)
    requires Ready(p, nm, st, dom, syms, k) && Denotes(p, nm, st, dom, rho, env) && Writable(x, dom, p.consts.Keys)
    ensures Current(nm, st, x, k').1 == k'
    ensures Denotes(p, nm, st[x := TBin(op, Current(nm, st, x, k').0, t)], dom, rho,
                    env[x := Apply(op, Lookup(p, env, x), EvalT(t, rho))])
  {
    CurrentFree(p, nm, st, dom, syms, k, x, k');
    var cur := Current(nm, st, x, k').0;
    assert EvalT(cur, rho) == Lookup(p, env, x);
    assert EvalT(TBin(op, cur, t), rho) == Apply(op, EvalT(cur, rho), EvalT(t, rho));
    DenotesUpdate(p, nm, st, dom, rho, env, x, TBin(op, cur, t));
    assert dom + {x} == dom;
  }

  lemma {:induction false} SoundWrite(p: Program, nm: NameMap, ens: seq<Expr>, prem: seq<Term>, pc: Path, s: Stmt,
                                      st: NameMap, dom: set<string>, syms: set<Sym>, k: nat, rho: Valuation, env: Env,
                                      fuel: nat)
    requires s.WriteIndex?
    requires Ready(p, nm, st, dom, syms, k) && Denotes(p, nm, st, dom, rho, env) && Flow(p, s, dom, st.Keys).ok
    ensures RunOk(p, nm, ens, Run(p, s, env, fuel), Encode(p, nm, ens, prem, pc, s, st, k).st, Flow(p, s, dom, st.Keys),
                  rho)
  {
    var WriteIndex(x, path, e) := s;
    CurrentFree(p, nm, st, dom, syms, k, x, k);
    var cur := Current(nm, st, x, k).0;
    assert dom + {x} == dom;
    var (ts, k1) := LowerWpSeq(p, nm, st, path, k);
    PathValues(p, nm, st, path, dom, syms, k, rho, env);
    TermValue(p, nm, st, e, dom, syms, k1, rho, env);
    var t := LowerWp(p, nm, st, e, k1).0;
    NestedStoreMeaning(cur, ts, t, 0, rho);
    assert EvalTs(ts, rho)[0..] == EvalTs(ts, rho);
    DenotesUpdate(p, nm, st, dom, rho, env, x, NestedStore(cur, ts, t, 0));
  }

  lemma {:induction false} SoundReturn(p: Program, nm: NameMap, ens: seq<Expr>, base: set<string>, prem: seq<Term>,
                                       pc: Path, s: Stmt, st: NameMap, dom: set<string>, syms: set<Sym>, k: nat,
                                       rho: Valuation, env: Env, fuel: nat)
    requires s.Return?
    requires Ready(p, nm, st, dom, syms, k) && Denotes(p, nm, st, dom, rho, env)
    requires Flow(p, s, dom, st.Keys).ok && ClausesScoped(p, ens, base) && base <= dom && RESULT !in p.consts
    requires AllTrue(prem, rho) && PathTrue(pc, rho)
    requires AllHold(Encode(p, nm, ens, prem, pc, s, st, k).obls, rho)
    ensures RunOk(p, nm, ens, Run(p, s, env, fuel), Encode(p, nm, ens, prem, pc, s, st, k).st, Flow(p, s, dom, st.Keys),
                  rho)
  {
    var (t, k1) := LowerWp(p, nm, st, s.value, k);
    var st' := st[RESULT := t];
    TermFree(p, nm, st, s.value, dom, syms, k);
    TermValue(p, nm, st, s.value, dom, syms, k, rho, env);
    assert RESULT[0] != OldName("")[0];
    ReadyUpdate(p, nm, st, dom, syms, k, RESULT, t, k1);
    DenotesUpdate(p, nm, st, dom, rho, env, RESULT, t);
    var dom' := dom + {RESULT};
    forall e | e in ens ensures Scoped(p, {}, e, dom') { ScopedMono(p, {}, e, base, dom'); }
    ClausesValue(p, nm, st', ens, dom', syms, k1, rho, env[RESULT := EvalT(t, rho)]);
    OblsUnderPath(prem, pc, EncodeClauses(p, nm, st', ens, k1).0, rho);
  }

  lemma {:induction false} SoundIf(p: Program, nm: NameMap, ens: seq<Expr>, base: set<string>, prem: seq<Term>,
                                   pc: Path, s: Stmt, st: NameMap, dom: set<string>, syms: set<Sym>, k: nat,
                                   rho: Valuation, env: Env, fuel: nat)
    requires s.If?
    requires Ready(p, nm, st, dom, syms, k) && Denotes(p, nm, st, dom, rho, env)
    requires Flow(p, s, dom, st.Keys).ok && ClausesScoped(p, ens, base) && base <= dom && RESULT !in p.consts
    requires AllTrue(prem, rho) && PathTrue(pc, rho)
    requires AllHold(Encode(p, nm, ens, prem, pc, s, st, k).obls, rho)
    ensures RunOk(p, nm, ens, Run(p, s, env, fuel), Encode(p, nm, ens, prem, pc, s, st, k).st, Flow(p, s, dom, st.Keys),
                  rho)
    decreases s, 0
  {
    var If(c, a, b) := s;
    var (tc, k1) := LowerWp(p, nm, st, c, k);
    var pa, pb := PathAnd(pc, Cond(tc)), PathAnd(pc, Cond(TNot(tc)));
    var ea := EncodeAll(p, nm, ens, prem, pa, a, st, k1);
    var eb := EncodeAll(p, nm, ens, prem, pb, b, st, ea.k);
    var fa, fb := FlowAll(p, a, dom, st.Keys), FlowAll(p, b, dom, st.Keys);
    TermValue(p, nm, st, c, dom, syms, k, rho, env);
    EncodeStaticAll(p, nm, ens, prem, pa, a, st, dom, syms, k1);
    EncodeStaticAll(p, nm, ens, prem, pb, b, st, dom, syms, ea.k);
    AllHoldSplit(ea.obls, eb.obls, rho);
    if AsBool(Eval(p, {}, c, env)) {
      PathAndMeaning(pc, Cond(tc), rho);
      SoundScope(p, nm, ens, base, prem, pa, a, st, dom, syms, k1, rho, env, fuel);
    } else {
      PathAndMeaning(pc, Cond(TNot(tc)), rho);
      SoundScope(p, nm, ens, base, prem, pb, b, st, dom, syms, ea.k, rho, env, fuel);
    }
    var o := Run(p, s, env, fuel);
    if o.Normal? && !fa.dead && !fb.dead {
      DenotesMerge(p, nm, ea.st, eb.st, dom, tc, rho, o.s);
    }
  }

  lemma {:induction false} SoundScope(p: Program, nm: NameMap, ens: seq<Expr>, base: set<string>, prem: seq<Term>,
                                      pc: Path, ss: seq<Stmt>, st: NameMap, dom: set<string>, syms: set<Sym>, k: nat,
                                      rho: Valuation, env: Env, fuel: nat)
    requires Ready(p, nm, st, dom, syms, k) && Denotes(p, nm, st, dom, rho, env)
    requires FlowAll(p, ss, dom, st.Keys).ok && ClausesScoped(p, ens, base) && base <= dom && RESULT !in p.consts
    requires AllTrue(prem, rho) && PathTrue(pc, rho)
    requires AllHold(EncodeAll(p, nm, ens, prem, pc, ss, st, k).obls, rho)
    ensures RunOk(p, nm, ens, RunScope(p, ss, env, fuel), EncodeAll(p, nm, ens, prem, pc, ss, st, k).st,
                  FlowAll(p, ss, dom, st.Keys).(dom := dom), rho)
    decreases ss, 2
  {
    SoundAll(p, nm, ens, base, prem, pc, ss, st, dom, syms, k, rho, env, fuel);
    var o := RunAll(p, ss, env, fuel);
    if o.Normal? {
      DenotesLeave(p, nm, EncodeAll(p, nm, ens, prem, pc, ss, st, k).st, dom, FlowAll(p, ss, dom, st.Keys).dom, rho,
                   env, o.s);
    }
  }

  lemma {:induction false} SoundAll(p: Program, nm: NameMap, ens: seq<Expr>, base: set<string>, prem: seq<Term>,
                                    pc: Path, ss: seq<Stmt>, st: NameMap, dom: set<string>, syms: set<Sym>, k: nat,
                                    rho: Valuation, env: Env, fuel: nat)
    requires Ready(p, nm, st, dom, syms, k) && Denotes(p, nm, st, dom, rho, env)
    requires FlowAll(p, ss, dom, st.Keys).ok && ClausesScoped(p, ens, base) && base <= dom && RESULT !in p.consts
    requires AllTrue(prem, rho) && PathTrue(pc, rho)
    requires AllHold(EncodeAll(p, nm, ens, prem, pc, ss, st, k).obls, rho)
    ensures RunOk(p, nm, ens, RunAll(p, ss, env, fuel), EncodeAll(p, nm, ens, prem, pc, ss, st, k).st,
                  FlowAll(p, ss, dom, st.Keys), rho)
    decreases ss, 0
  {
    if |ss| > 0 {
      var e1 := Encode(p, nm, ens, prem, pc, ss[0], st, k);
      var f1 := Flow(p, ss[0], dom, st.Keys);
      EncodeStatic(p, nm, ens, prem, pc, ss[0], st, dom, syms, k);
      if f1.dead {
        Sound(p, nm, ens, base, prem, pc, ss[0], st, dom, syms, k, rho, env, fuel);
      } else {
        var e2 := EncodeAll(p, nm, ens, prem, PathAnd(pc, e1.exit), ss[1..], e1.st, e1.k);
        AllHoldSplit(e1.obls, e2.obls, rho);
        Sound(p, nm, ens, base, prem, pc, ss[0], st, dom, syms, k, rho, env, fuel);
        var o := Run(p, ss[0], env, fuel);
        if o.Normal? {
          SoundAll(p, nm, ens, base, prem, PathAnd(pc, e1.exit), ss[1..], e1.st, f1.dom, syms, e1.k, rho, o.s, fuel);
        }
      }
    }
  }
}
