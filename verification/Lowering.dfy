/** Lowering of specification expressions to SMT terms, and its meaning. */
module Lowering {
  import opened Values
  import opened Terms
  import opened SpecLang

  type NameMap = map<string, Term>

  /** `smtExpr`: names resolve through `nm`; `k` is the context's counter, from
      which quantifier symbols and placeholders are minted. */
  function Lower(p: Program, exp: set<string>, nm: NameMap, e: Expr, k: nat): (r: (Term, nat))
    ensures k <= r.1
    decreases p.fns.Keys - exp, 1, e, 1
  {
    match e
    case IntLit(v) => (TInt(v), k)
    case BoolLit(b) => (TBool(b), k)
    case Var(x) =>
      if x in nm then (nm[x], k)
      else if x in p.consts then (TInt(p.consts[x]), k)
      else (TSym(Placeholder(k)), k + 1)
    case Old(sub) =>
      if sub.Var? && OldName(sub.name) in nm then (nm[OldName(sub.name)], k)
      else (TSym(Placeholder(k)), k + 1)
    case Quant(isForall, x, lo, hi, inclusive, body) =>
      var b := Binder(x, k);
      var (tlo, k1) := Lower(p, exp, nm, lo, k + 1);
      var (thi, k2) := Lower(p, exp, nm, hi, k1);
      var (tbody, k3) := Lower(p, exp, nm[x := TSym(b)], body, k2);
      (TQuant(isForall, b, TImp(RangeTerm(b, tlo, thi, inclusive), tbody)), k3)
    case Not(a) =>
      var (t, k1) := Lower(p, exp, nm, a, k);
      (TNot(t), k1)
    case Neg(a) =>
      var (t, k1) := Lower(p, exp, nm, a, k);
      (TNeg(t), k1)
    case Bin(op, l, r) =>
      var (tl, k1) := Lower(p, exp, nm, l, k);
      var (tr, k2) := Lower(p, exp, nm, r, k1);
      (BinTerm(op, tl, tr), k2)
    case Ternary(c, a, b) =>
      var (tc, k1) := Lower(p, exp, nm, c, k);
      var (ta, k2) := Lower(p, exp, nm, a, k1);
      var (tb, k3) := Lower(p, exp, nm, b, k2);
      (TIte(tc, ta, tb), k3)
    case Call(f, args) =>
      var (ts, k1) := LowerSeq(p, exp, nm, args, k);
      LowerCall(p, exp, nm, f, ts, k1)
    case Index(a, i) =>
      var (ta, k1) := Lower(p, exp, nm, a, k);
      var (ti, k2) := Lower(p, exp, nm, i, k1);
      (TSelect(ta, ti), k2)
  }

  /** `smtInlineSpecCall`: the callee's body under the parameter bindings, or a
      placeholder for an unknown, ill-applied or recursive call. */
  function LowerCall(p: Program, exp: set<string>, nm: NameMap, f: string, ts: seq<Term>, k: nat): (r: (Term, nat))
    ensures k <= r.1
    decreases p.fns.Keys - exp, 0
  {
    if f in p.fns && |ts| == |p.fns[f].params| && f !in exp then
      Lower(p, exp + {f}, Bind(nm, p.fns[f].params, ts), p.fns[f].body, k)
    else
      (TSym(Placeholder(k)), k + 1)
  }

  function LowerSeq(p: Program, exp: set<string>, nm: NameMap, es: seq<Expr>, k: nat): (r: (seq<Term>, nat))
    ensures |r.0| == |es| && k <= r.1
    decreases p.fns.Keys - exp, 1, es, 0
  {
    if |es| == 0 then ([], k)
    else
      var (t, k1) := Lower(p, exp, nm, es[0], k);
      var (ts, k2) := LowerSeq(p, exp, nm, es[1..], k1);
      ([t] + ts, k2)
  }

  function RangeTerm(b: Sym, lo: Term, hi: Term, inclusive: bool): Term {
    TBin(And, TBin(Ge, TSym(b), lo), TBin(if inclusive then Le else Lt, TSym(b), hi))
  }

  function BinTerm(op: BinOp, l: Term, r: Term): Term {
    if op == Ne then TNot(TBin(Eq, l, r)) else TBin(op, l, r)
  }

  /** `smtExprWp`: as Lower, but `st` is consulted before `nm`. Inlined spec
      bodies see only `nm`. */
  function LowerWp(p: Program, nm: NameMap, st: NameMap, e: Expr, k: nat): (r: (Term, nat))
    ensures k <= r.1
    decreases e, 1
  {
    match e
    case IntLit(v) => (TInt(v), k)
    case BoolLit(b) => (TBool(b), k)
    case Var(x) =>
      if x in st then (st[x], k)
      else if x in nm then (nm[x], k)
      else if x in p.consts then (TInt(p.consts[x]), k)
      else (TSym(Placeholder(k)), k + 1)
    case Old(sub) =>
      if sub.Var? && OldName(sub.name) in nm then (nm[OldName(sub.name)], k)
      else if sub.Var? && sub.name in st then (st[sub.name], k)
      else (TSym(Placeholder(k)), k + 1)
    case Quant(isForall, x, lo, hi, inclusive, body) =>
      var b := Binder(x, k);
      var (tlo, k1) := LowerWp(p, nm, st, lo, k + 1);
      var (thi, k2) := LowerWp(p, nm, st, hi, k1);
      var (tbody, k3) := LowerWp(p, nm, st[x := TSym(b)], body, k2);
      (TQuant(isForall, b, TImp(RangeTerm(b, tlo, thi, inclusive), tbody)), k3)
    case Not(a) =>
      var (t, k1) := LowerWp(p, nm, st, a, k);
      (TNot(t), k1)
    case Neg(a) =>
      var (t, k1) := LowerWp(p, nm, st, a, k);
      (TNeg(t), k1)
    case Bin(op, l, r) =>
      var (tl, k1) := LowerWp(p, nm, st, l, k);
      var (tr, k2) := LowerWp(p, nm, st, r, k1);
      (BinTerm(op, tl, tr), k2)
    case Ternary(c, a, b) =>
      var (tc, k1) := LowerWp(p, nm, st, c, k);
      var (ta, k2) := LowerWp(p, nm, st, a, k1);
      var (tb, k3) := LowerWp(p, nm, st, b, k2);
      (TIte(tc, ta, tb), k3)
    case Call(f, args) =>
      var (ts, k1) := LowerWpSeq(p, nm, st, args, k);
      LowerCall(p, {}, nm, f, ts, k1)
    case Index(a, i) =>
      var (ta, k1) := LowerWp(p, nm, st, a, k);
      var (ti, k2) := LowerWp(p, nm, st, i, k1);
      (TSelect(ta, ti), k2)
  }

  function LowerWpSeq(p: Program, nm: NameMap, st: NameMap, es: seq<Expr>, k: nat): (r: (seq<Term>, nat))
    ensures |r.0| == |es| && k <= r.1
    decreases es, 0
  {
    if |es| == 0 then ([], k)
    else
      var (t, k1) := LowerWp(p, nm, st, es[0], k);
      var (ts, k2) := LowerWpSeq(p, nm, st, es[1..], k1);
      ([t] + ts, k2)
  }

  lemma {:induction false} ImpMeaning(l: Term, r: Term, rho: Valuation)
    ensures True(TImp(l, r), rho) <==> (True(l, rho) ==> True(r, rho))
  {
  }

  lemma {:induction false} RangeMeaning(b: Sym, lo: Term, hi: Term, inclusive: bool, rho: Valuation)
    ensures True(RangeTerm(b, lo, hi, inclusive), rho)
        <==> InRange(AsInt(SymValue(rho, b)), EvalT(lo, rho), EvalT(hi, rho), inclusive)
  {
    var ge := TBin(Ge, TSym(b), lo);
    var lt := TBin(if inclusive then Le else Lt, TSym(b), hi);
    assert EvalT(ge, rho) == Apply(Ge, SymValue(rho, b), EvalT(lo, rho));
    assert EvalT(lt, rho) == Apply(lt.op, SymValue(rho, b), EvalT(hi, rho));
  }

  lemma {:induction false} QuantFree(isForall: bool, b: Sym, lo: Term, hi: Term, inclusive: bool, body: Term)
    ensures Free(TQuant(isForall, b, TImp(RangeTerm(b, lo, hi, inclusive), body)))
         <= Free(lo) + Free(hi) + (Free(body) - {b})
  {
    var ge := TBin(Ge, TSym(b), lo);
    var lt := TBin(if inclusive then Le else Lt, TSym(b), hi);
    assert Free(ge) == {b} + Free(lo);
    assert Free(lt) == {b} + Free(hi);
    var imp := TImp(RangeTerm(b, lo, hi, inclusive), body);
    assert Free(imp) == Free(ge) + Free(lt) + Free(body);
  }

  lemma {:induction false} BinMeaning(op: BinOp, l: Term, r: Term, rho: Valuation)
    ensures Free(BinTerm(op, l, r)) == Free(l) + Free(r)
    ensures EvalT(BinTerm(op, l, r), rho) == Apply(op, EvalT(l, rho), EvalT(r, rho))
  {
    if op == Ne {
      assert EvalT(TBin(Eq, l, r), rho) == BoolV(EvalT(l, rho) == EvalT(r, rho));
      assert Free(TBin(Eq, l, r)) == Free(l) + Free(r);
    }
  }

  // ----- the environment a name map denotes -----

  ghost function EnvOf(nm: NameMap, rho: Valuation): Env {
    map x | x in nm :: EvalT(nm[x], rho)
  }

  ghost function EvalTs(ts: seq<Term>, rho: Valuation): (vs: seq<Value>)
    ensures |vs| == |ts|
  {
    seq(|ts|, i requires 0 <= i < |ts| => EvalT(ts[i], rho))
  }

  ghost predicate NamesIn(p: Program, nm: NameMap, dom: set<string>) {
    dom <= nm.Keys + p.consts.Keys
  }

  /** Where the name map binds one of the given constants, the term has that
      constant's value. (Inlined bodies are resolved in the caller's map.) */
  ghost predicate Transparent(p: Program, cs: set<string>, nm: NameMap, rho: Valuation) {
    forall c :: c in cs && c in p.consts && c in nm ==> EvalT(nm[c], rho) == IntV(p.consts[c])
  }

  /** No compile-time constant is spelled like an `old` snapshot. */
  ghost predicate NoOldConsts(p: Program) {
    forall x :: x in p.consts ==> !IsOldName(x)
  }

  /** Every free symbol of every bound term is in `syms`. */
  ghost predicate SymsIn(nm: NameMap, syms: set<Sym>) {
    forall x :: x in nm ==> Free(nm[x]) <= syms
  }

  /** No symbol of `ss` can be minted again once the counter is at `k`. */
  ghost predicate Below(ss: set<Sym>, k: nat) {
    forall s :: s in ss ==> s.Const? || s.Arg? || s.at < k
  }

  lemma {:induction false} EnvOfBind(nm: NameMap, names: seq<string>, ts: seq<Term>, rho: Valuation)
    requires |names| == |ts|
    ensures EnvOf(Bind(nm, names, ts), rho) == Bind(EnvOf(nm, rho), names, EvalTs(ts, rho))
    decreases |names|
  {
    if |names| > 0 {
      EnvOfBind(nm[names[0] := ts[0]], names[1..], ts[1..], rho);
      assert EnvOf(nm[names[0] := ts[0]], rho) == EnvOf(nm, rho)[names[0] := EvalT(ts[0], rho)];
      assert EvalTs(ts[1..], rho) == EvalTs(ts, rho)[1..];
    }
  }

  lemma {:induction false} SymsInBind(nm: NameMap, names: seq<string>, ts: seq<Term>, syms: set<Sym>)
    requires |names| == |ts| && SymsIn(nm, syms)
    requires forall i :: 0 <= i < |ts| ==> Free(ts[i]) <= syms
    ensures SymsIn(Bind(nm, names, ts), syms)
    decreases |names|
  {
    if |names| > 0 {
      SymsInBind(nm[names[0] := ts[0]], names[1..], ts[1..], syms);
    }
  }

  // ----- what lowering yields -----

  /** Lowering a scoped expression introduces no free symbol, so minted binders
      never escape and no placeholder appears. */
  lemma {:induction false} LowerFree(p: Program, exp: set<string>, nm: NameMap, e: Expr, dom: set<string>, k: nat,
                                     syms: set<Sym>)
    requires Scoped(p, exp, e, dom) && NamesIn(p, nm, dom) && NoOldConsts(p) && SymsIn(nm, syms)
    ensures Free(Lower(p, exp, nm, e, k).0) <= syms
    decreases p.fns.Keys - exp, 1, e, 1
  {
    match e
    case IntLit(_) =>
    case BoolLit(_) =>
    case Var(_) =>
    case Old(_) =>
    case Quant(_, _, _, _, _, _) => LowerQuantFree(p, exp, nm, e, dom, k, syms);
    case Not(a) => LowerFree(p, exp, nm, a, dom, k, syms);
    case Neg(a) => LowerFree(p, exp, nm, a, dom, k, syms);
    case Bin(_, l, r) =>
      var (tl, k1) := Lower(p, exp, nm, l, k);
      LowerFree(p, exp, nm, l, dom, k, syms); LowerFree(p, exp, nm, r, dom, k1, syms);
      BinMeaning(e.op, tl, Lower(p, exp, nm, r, k1).0, map[]);
    case Ternary(c, a, b) =>
      var (_, k1) := Lower(p, exp, nm, c, k);
      var (_, k2) := Lower(p, exp, nm, a, k1);
      LowerFree(p, exp, nm, c, dom, k, syms);
      LowerFree(p, exp, nm, a, dom, k1, syms);
      LowerFree(p, exp, nm, b, dom, k2, syms);
    case Call(f, args) =>
      var (ts, k1) := LowerSeq(p, exp, nm, args, k);
      var SpecFn(params, body) := p.fns[f];
      LowerSeqFree(p, exp, nm, args, dom, k, syms);
      SymsInBind(nm, params, ts, syms);
      BindKeys(nm, params, ts);
      LowerFree(p, exp + {f}, Bind(nm, params, ts), body, Names(params) + p.consts.Keys, k1, syms);
    case Index(a, i) =>
      var (_, k1) := Lower(p, exp, nm, a, k);
      LowerFree(p, exp, nm, a, dom, k, syms); LowerFree(p, exp, nm, i, dom, k1, syms);
  }

  lemma {:induction false} LowerQuantFree(p: Program, exp: set<string>, nm: NameMap, e: Expr, dom: set<string>, k: nat,
                                          syms: set<Sym>)
    requires e.Quant?
    requires Scoped(p, exp, e, dom) && NamesIn(p, nm, dom) && NoOldConsts(p) && SymsIn(nm, syms)
    ensures Free(Lower(p, exp, nm, e, k).0) <= syms
    decreases p.fns.Keys - exp, 1, e, 0
  {
    var Quant(isForall, x, lo, hi, inclusive, body) := e;
    var b := Binder(x, k);
    var (tlo, k1) := Lower(p, exp, nm, lo, k + 1);
    var (thi, k2) := Lower(p, exp, nm, hi, k1);
    var tbody := Lower(p, exp, nm[x := TSym(b)], body, k2).0;
    LowerFree(p, exp, nm, lo, dom, k + 1, syms);
    LowerFree(p, exp, nm, hi, dom, k1, syms);
    LowerFree(p, exp, nm[x := TSym(b)], body, dom + {x}, k2, syms + {b});
    QuantFree(isForall, b, tlo, thi, inclusive, tbody);
  }

  lemma {:induction false} LowerSeqFree(p: Program, exp: set<string>, nm: NameMap, es: seq<Expr>, dom: set<string>,
                                        k: nat, syms: set<Sym>)
    requires ScopedSeq(p, exp, es, dom) && NamesIn(p, nm, dom) && NoOldConsts(p) && SymsIn(nm, syms)
    ensures forall i :: 0 <= i < |es| ==> Free(LowerSeq(p, exp, nm, es, k).0[i]) <= syms
    decreases p.fns.Keys - exp, 1, es, 0
  {
    if |es| > 0 {
      var (_, k1) := Lower(p, exp, nm, es[0], k);
      LowerFree(p, exp, nm, es[0], dom, k, syms);
      LowerSeqFree(p, exp, nm, es[1..], dom, k1, syms);
    }
  }

  /** Lowering preserves meaning: under any valuation the term has the value of
      the expression in the environment the name map denotes. Symbols minted
      while lowering are new, so no argument is captured. */
  lemma {:induction false} LowerPreservesMeaning(p: Program, exp: set<string>, nm: NameMap, e: Expr, dom: set<string>,
                                                 k: nat, syms: set<Sym>, rho: Valuation)
    requires Scoped(p, exp, e, dom) && NamesIn(p, nm, dom) && NoOldConsts(p)
    requires SymsIn(nm, syms) && Below(syms, k) && Transparent(p, Reached(p, exp, e), nm, rho)
    ensures EvalT(Lower(p, exp, nm, e, k).0, rho) == Eval(p, exp, e, EnvOf(nm, rho))
    decreases p.fns.Keys - exp, 1, e, 1
  {
    match e
    case IntLit(_) =>
    case BoolLit(_) =>
    case Var(_) =>
    case Old(_) =>
    case Quant(_, _, _, _, _, _) => LowerQuantMeaning(p, exp, nm, e, dom, k, syms, rho);
    case Not(a) => LowerPreservesMeaning(p, exp, nm, a, dom, k, syms, rho);
    case Neg(a) => LowerPreservesMeaning(p, exp, nm, a, dom, k, syms, rho);
    case Bin(_, _, _) => LowerOperandsMeaning(p, exp, nm, e, dom, k, syms, rho);
    case Ternary(_, _, _) => LowerTernaryMeaning(p, exp, nm, e, dom, k, syms, rho);
    case Call(_, _) => LowerCallMeaning(p, exp, nm, e, dom, k, syms, rho);
    case Index(_, _) => LowerOperandsMeaning(p, exp, nm, e, dom, k, syms, rho);
  }

  lemma {:induction false} LowerOperandsMeaning(p: Program, exp: set<string>, nm: NameMap, e: Expr, dom: set<string>,
                                                k: nat, syms: set<Sym>, rho: Valuation)
    requires e.Bin? || e.Index?
    requires Scoped(p, exp, e, dom) && NamesIn(p, nm, dom) && NoOldConsts(p)
    requires SymsIn(nm, syms) && Below(syms, k) && Transparent(p, Reached(p, exp, e), nm, rho)
    ensures EvalT(Lower(p, exp, nm, e, k).0, rho) == Eval(p, exp, e, EnvOf(nm, rho))
    decreases p.fns.Keys - exp, 1, e, 0
  {
    match e
    case Bin(op, l, r) =>
      var (tl, k1) := Lower(p, exp, nm, l, k);
      LowerPreservesMeaning(p, exp, nm, l, dom, k, syms, rho);
      LowerPreservesMeaning(p, exp, nm, r, dom, k1, syms, rho);
      BinMeaning(op, tl, Lower(p, exp, nm, r, k1).0, rho);
    case Index(a, i) =>
      var (_, k1) := Lower(p, exp, nm, a, k);
      LowerPreservesMeaning(p, exp, nm, a, dom, k, syms, rho);
      LowerPreservesMeaning(p, exp, nm, i, dom, k1, syms, rho);
  }

  lemma {:induction false} LowerTernaryMeaning(p: Program, exp: set<string>, nm: NameMap, e: Expr, dom: set<string>,
                                               k: nat, syms: set<Sym>, rho: Valuation)
    requires e.Ternary?
    requires Scoped(p, exp, e, dom) && NamesIn(p, nm, dom) && NoOldConsts(p)
    requires SymsIn(nm, syms) && Below(syms, k) && Transparent(p, Reached(p, exp, e), nm, rho)
    ensures EvalT(Lower(p, exp, nm, e, k).0, rho) == Eval(p, exp, e, EnvOf(nm, rho))
    decreases p.fns.Keys - exp, 1, e, 0
  {
    var (_, k1) := Lower(p, exp, nm, e.c, k);
    var (_, k2) := Lower(p, exp, nm, e.t, k1);
    LowerPreservesMeaning(p, exp, nm, e.c, dom, k, syms, rho);
    LowerPreservesMeaning(p, exp, nm, e.t, dom, k1, syms, rho);
    LowerPreservesMeaning(p, exp, nm, e.f, dom, k2, syms, rho);
  }

  lemma {:induction false} LowerCallMeaning(p: Program, exp: set<string>, nm: NameMap, e: Expr, dom: set<string>,
                                            k: nat, syms: set<Sym>, rho: Valuation)
    requires e.Call?
    requires Scoped(p, exp, e, dom) && NamesIn(p, nm, dom) && NoOldConsts(p)
    requires SymsIn(nm, syms) && Below(syms, k) && Transparent(p, Reached(p, exp, e), nm, rho)
    ensures EvalT(Lower(p, exp, nm, e, k).0, rho) == Eval(p, exp, e, EnvOf(nm, rho))
    decreases p.fns.Keys - exp, 1, e, 0
  {
    var Call(f, args) := e;
    var (ts, k1) := LowerSeq(p, exp, nm, args, k);
    LowerSeqFree(p, exp, nm, args, dom, k, syms);
    LowerSeqPreservesMeaning(p, exp, nm, args, dom, k, syms, rho);
    InlineMeaning(p, exp, nm, f, ts, k1, syms, rho);
  }

  /** An inlined body has its value over just the parameters. */
  lemma {:induction false} InlineMeaning(p: Program, exp: set<string>, nm: NameMap, f: string, ts: seq<Term>, k: nat,
                                         syms: set<Sym>, rho: Valuation)
    requires f in p.fns && f !in exp && |ts| == |p.fns[f].params| && NoOldConsts(p)
    requires Names(p.fns[f].params) !! Reached(p, exp + {f}, p.fns[f].body)
    requires Scoped(p, exp + {f}, p.fns[f].body, Names(p.fns[f].params) + p.consts.Keys)
    requires SymsIn(nm, syms) && Below(syms, k) && forall i :: 0 <= i < |ts| ==> Free(ts[i]) <= syms
    requires Transparent(p, NamedBy(p, f) + Reached(p, exp + {f}, p.fns[f].body), nm, rho)
    ensures EvalT(LowerCall(p, exp, nm, f, ts, k).0, rho)
         == Eval(p, exp + {f}, p.fns[f].body, Bind(map[], p.fns[f].params, EvalTs(ts, rho)))
    decreases p.fns.Keys - exp, 0
  {
    var SpecFn(params, body) := p.fns[f];
    var dom := Names(params) + p.consts.Keys;
    SymsInBind(nm, params, ts, syms);
    BindKeys(nm, params, ts);
    LowerPreservesMeaning(p, exp + {f}, Bind(nm, params, ts), body, dom, k, syms, rho);
    EnvOfBind(nm, params, ts, rho);
    ScopedFree(p, exp + {f}, body, dom);
    InlineLookups(p, f, nm, params, EvalTs(ts, rho), rho);
    EvalFree(p, exp + {f}, body, Bind(EnvOf(nm, rho), params, EvalTs(ts, rho)), Bind(map[], params, EvalTs(ts, rho)));
  }

  lemma InlineLookups(p: Program, f: string, nm: NameMap, params: seq<string>, vs: seq<Value>, rho: Valuation)
    requires f in p.fns && params == p.fns[f].params && |params| == |vs|
    requires FreeVars(p.fns[f].body) <= Names(params) + p.consts.Keys && Transparent(p, NamedBy(p, f), nm, rho)
    ensures SameLookups(p, Bind(EnvOf(nm, rho), params, vs), Bind(map[], params, vs), FreeVars(p.fns[f].body))
  {
    BindAgree(EnvOf(nm, rho), map[], params, vs);
    BindKeys(EnvOf(nm, rho), params, vs);
    BindKeys(map[], params, vs);
  }

  lemma {:induction false} LowerQuantMeaning(p: Program, exp: set<string>, nm: NameMap, e: Expr, dom: set<string>,
                                             k: nat, syms: set<Sym>, rho: Valuation)
    requires e.Quant?
    requires Scoped(p, exp, e, dom) && NamesIn(p, nm, dom) && NoOldConsts(p)
    requires SymsIn(nm, syms) && Below(syms, k) && Transparent(p, Reached(p, exp, e), nm, rho)
    ensures EvalT(Lower(p, exp, nm, e, k).0, rho) == Eval(p, exp, e, EnvOf(nm, rho))
    decreases p.fns.Keys - exp, 1, e, 0
  {
    var Quant(_, x, lo, hi, inclusive, body) := e;
    var b := Binder(x, k);
    var (tlo, k1) := Lower(p, exp, nm, lo, k + 1);
    var (thi, k2) := Lower(p, exp, nm, hi, k1);
    var tbody := Lower(p, exp, nm[x := TSym(b)], body, k2).0;
    LowerPreservesMeaning(p, exp, nm, lo, dom, k + 1, syms, rho);
    LowerPreservesMeaning(p, exp, nm, hi, dom, k1, syms, rho);
    LowerFree(p, exp, nm, lo, dom, k + 1, syms);
    LowerFree(p, exp, nm, hi, dom, k1, syms);
    forall i: int
      ensures EvalT(tbody, rho[b := IntV(i)]) == Eval(p, exp, body, EnvOf(nm, rho)[x := IntV(i)])
    {
      LowerBodyMeaning(p, exp, nm, x, b, body, dom, k2, syms, rho, i);
    }
    QuantMeaning(p, exp, e, EnvOf(nm, rho), b, tlo, thi, tbody, rho);
  }

  /** The body of a quantifier, at one value of the binder. */
  lemma {:induction false} LowerBodyMeaning(p: Program, exp: set<string>, nm: NameMap, x: string, b: Sym, body: Expr,
                                            dom: set<string>, k: nat, syms: set<Sym>, rho: Valuation, i: int)
    requires Scoped(p, exp, body, dom + {x}) && x !in Reached(p, exp, body) && NamesIn(p, nm, dom) && NoOldConsts(p)
    requires SymsIn(nm, syms) && b !in syms && Below(syms + {b}, k) && Transparent(p, Reached(p, exp, body), nm, rho)
    ensures EvalT(Lower(p, exp, nm[x := TSym(b)], body, k).0, rho[b := IntV(i)])
         == Eval(p, exp, body, EnvOf(nm, rho)[x := IntV(i)])
    decreases p.fns.Keys - exp, 1, body, 2
  {
    EnvOfBinder(nm, x, b, syms, rho, i);
    forall c | c in Reached(p, exp, body) && c in nm ensures EvalT(nm[c], rho[b := IntV(i)]) == EvalT(nm[c], rho) {
      Unused(nm[c], rho, b, IntV(i));
    }
    LowerPreservesMeaning(p, exp, nm[x := TSym(b)], body, dom + {x}, k, syms + {b}, rho[b := IntV(i)]);
  }

  /** If the bounds and the body are lowered right, so is the quantifier. */
  lemma {:induction false} QuantMeaning(p: Program, exp: set<string>, e: Expr, env: Env, b: Sym, lo: Term, hi: Term,
                                        body: Term, rho: Valuation)
    requires e.Quant? && e.isForall && b !in Free(lo) && b !in Free(hi)
    requires EvalT(lo, rho) == Eval(p, exp, e.lo, env) && EvalT(hi, rho) == Eval(p, exp, e.hi, env)
    requires forall i: int :: EvalT(body, rho[b := IntV(i)]) == Eval(p, exp, e.body, env[e.binder := IntV(i)])
    ensures EvalT(TQuant(true, b, TImp(RangeTerm(b, lo, hi, e.inclusive), body)), rho) == Eval(p, exp, e, env)
  {
    forall i: int
      ensures True(TImp(RangeTerm(b, lo, hi, e.inclusive), body), rho[b := IntV(i)])
         <==> (InRange(i, EvalT(lo, rho), EvalT(hi, rho), e.inclusive) ==>
                 AsBool(Eval(p, exp, e.body, env[e.binder := IntV(i)])))
    {
      GuardedMeaning(b, lo, hi, e.inclusive, body, rho, i);
    }
  }

  lemma {:induction false} GuardedMeaning(b: Sym, lo: Term, hi: Term, inclusive: bool, body: Term, rho: Valuation,
                                          i: int)
    requires b !in Free(lo) && b !in Free(hi)
    ensures True(TImp(RangeTerm(b, lo, hi, inclusive), body), rho[b := IntV(i)])
       <==> (InRange(i, EvalT(lo, rho), EvalT(hi, rho), inclusive) ==> True(body, rho[b := IntV(i)]))
  {
    var rho' := rho[b := IntV(i)];
    var range := RangeTerm(b, lo, hi, inclusive);
    Unused(lo, rho, b, IntV(i));
    Unused(hi, rho, b, IntV(i));
    RangeMeaning(b, lo, hi, inclusive, rho');
    assert SymValue(rho', b) == IntV(i);
    ImpMeaning(range, body, rho');
  }

  lemma {:induction false} EnvOfBinder(nm: NameMap, x: string, b: Sym, syms: set<Sym>, rho: Valuation, i: int)
    requires SymsIn(nm, syms) && b !in syms
    ensures EnvOf(nm[x := TSym(b)], rho[b := IntV(i)]) == EnvOf(nm, rho)[x := IntV(i)]
  {
    forall y | y in nm && y != x
      ensures EvalT(nm[y], rho[b := IntV(i)]) == EvalT(nm[y], rho)
    {
      Unused(nm[y], rho, b, IntV(i));
    }
  }

  lemma {:induction false} LowerSeqPreservesMeaning(p: Program, exp: set<string>, nm: NameMap, es: seq<Expr>,
                                                    dom: set<string>, k: nat, syms: set<Sym>, rho: Valuation)
    requires ScopedSeq(p, exp, es, dom) && NamesIn(p, nm, dom) && NoOldConsts(p)
    requires SymsIn(nm, syms) && Below(syms, k) && Transparent(p, ReachedSeq(p, exp, es), nm, rho)
    ensures EvalTs(LowerSeq(p, exp, nm, es, k).0, rho) == EvalSeq(p, exp, es, EnvOf(nm, rho))
    decreases p.fns.Keys - exp, 1, es, 0
  {
    if |es| > 0 {
      var (_, k1) := Lower(p, exp, nm, es[0], k);
      LowerPreservesMeaning(p, exp, nm, es[0], dom, k, syms, rho);
      LowerSeqPreservesMeaning(p, exp, nm, es[1..], dom, k1, syms, rho);
    }
  }

  // ----- the two walkers agree -----

  /** The two maps say the same about the given names. */
  ghost predicate SameOver(nm: NameMap, nm': NameMap, names: set<string>) {
    forall x :: x in names ==> (x in nm <==> x in nm') && (x in nm && x in nm' ==> nm[x] == nm'[x])
  }

  /** The term depends only on what the name map says about names in scope and
      about the constants that inlined bodies name. */
  lemma {:induction false} LowerAgree(p: Program, exp: set<string>, nm: NameMap, nm': NameMap, e: Expr,
                                      dom: set<string>, k: nat)
    requires Scoped(p, exp, e, dom) && SameOver(nm, nm', dom + Reached(p, exp, e))
    ensures Lower(p, exp, nm, e, k) == Lower(p, exp, nm', e, k)
    decreases p.fns.Keys - exp, 1, e, 1
  {
    match e
    case IntLit(_) =>
    case BoolLit(_) =>
    case Var(_) =>
    case Old(_) =>
    case Quant(_, _, _, _, _, _) => LowerQuantAgree(p, exp, nm, nm', e, dom, k);
    case Not(a) => LowerAgree(p, exp, nm, nm', a, dom, k);
    case Neg(a) => LowerAgree(p, exp, nm, nm', a, dom, k);
    case Bin(_, l, r) =>
      LowerAgree(p, exp, nm, nm', l, dom, k);
      LowerAgree(p, exp, nm, nm', r, dom, Lower(p, exp, nm, l, k).1);
    case Ternary(c, a, b) =>
      var k1 := Lower(p, exp, nm, c, k).1;
      LowerAgree(p, exp, nm, nm', c, dom, k);
      LowerAgree(p, exp, nm, nm', a, dom, k1);
      LowerAgree(p, exp, nm, nm', b, dom, Lower(p, exp, nm, a, k1).1);
    case Call(f, args) =>
      LowerSeqAgree(p, exp, nm, nm', args, dom, k);
      var (ts, k1) := LowerSeq(p, exp, nm, args, k);
      LowerCallAgree(p, exp, nm, nm', f, ts, k1);
    case Index(a, i) =>
      LowerAgree(p, exp, nm, nm', a, dom, k);
      LowerAgree(p, exp, nm, nm', i, dom, Lower(p, exp, nm, a, k).1);
  }

  lemma {:induction false} LowerQuantAgree(p: Program, exp: set<string>, nm: NameMap, nm': NameMap, e: Expr,
                                           dom: set<string>, k: nat)
    requires e.Quant? && Scoped(p, exp, e, dom) && SameOver(nm, nm', dom + Reached(p, exp, e))
    ensures Lower(p, exp, nm, e, k) == Lower(p, exp, nm', e, k)
    decreases p.fns.Keys - exp, 1, e, 0
  {
    var Quant(_, x, lo, hi, _, body) := e;
    var b := Binder(x, k);
    var (_, k1) := Lower(p, exp, nm, lo, k + 1);
    var (_, k2) := Lower(p, exp, nm, hi, k1);
    LowerAgree(p, exp, nm, nm', lo, dom, k + 1);
    LowerAgree(p, exp, nm, nm', hi, dom, k1);
    LowerAgree(p, exp, nm[x := TSym(b)], nm'[x := TSym(b)], body, dom + {x}, k2);
  }

  lemma {:induction false} LowerCallAgree(p: Program, exp: set<string>, nm: NameMap, nm': NameMap, f: string,
                                          ts: seq<Term>, k: nat)
    requires f in p.fns && |ts| == |p.fns[f].params| && f !in exp
    requires Scoped(p, exp + {f}, p.fns[f].body, Names(p.fns[f].params) + p.consts.Keys)
    requires SameOver(nm, nm', NamedBy(p, f) + Reached(p, exp + {f}, p.fns[f].body))
    ensures LowerCall(p, exp, nm, f, ts, k) == LowerCall(p, exp, nm', f, ts, k)
    decreases p.fns.Keys - exp, 0
  {
    var SpecFn(params, body) := p.fns[f];
    BindAgree(nm, nm', params, ts);
    BindKeys(nm, params, ts);
    BindKeys(nm', params, ts);
    var dom := Names(params) + NamedBy(p, f);
    ScopedFree(p, exp + {f}, body, Names(params) + p.consts.Keys);
    ScopedTight(p, exp + {f}, body, Names(params) + p.consts.Keys, dom);
    LowerAgree(p, exp + {f}, Bind(nm, params, ts), Bind(nm', params, ts), body, dom, k);
  }

  lemma {:induction false} LowerSeqAgree(p: Program, exp: set<string>, nm: NameMap, nm': NameMap, es: seq<Expr>,
                                         dom: set<string>, k: nat)
    requires ScopedSeq(p, exp, es, dom) && SameOver(nm, nm', dom + ReachedSeq(p, exp, es))
    ensures LowerSeq(p, exp, nm, es, k) == LowerSeq(p, exp, nm', es, k)
    decreases p.fns.Keys - exp, 1, es, 0
  {
    if |es| > 0 {
      LowerAgree(p, exp, nm, nm', es[0], dom, k);
      LowerSeqAgree(p, exp, nm, nm', es[1..], dom, Lower(p, exp, nm, es[0], k).1);
    }
  }

  /** The store never holds an `old` snapshot. */
  ghost predicate NoOldIn(st: NameMap) {
    forall x :: x in st ==> !IsOldName(x)
  }

  /** The store-aware walker lowers a scoped expression to exactly the term the
      plain walker gives under the overlaid map. */
  lemma {:induction false} WpIsOverlay(p: Program, nm: NameMap, st: NameMap, e: Expr, dom: set<string>, k: nat)
    requires Scoped(p, {}, e, dom) && NamesIn(p, nm + st, dom) && NoOldConsts(p) && NoOldIn(st)
    requires st.Keys !! Reached(p, {}, e)
    ensures LowerWp(p, nm, st, e, k) == Lower(p, {}, nm + st, e, k)
    decreases e, 1
  {
    match e
    case IntLit(_) =>
    case BoolLit(_) =>
    case Var(_) =>
    case Old(sub) =>
      assert OldName(sub.name) !in st;
    case Quant(_, _, _, _, _, _) => WpQuantIsOverlay(p, nm, st, e, dom, k);
    case Not(a) => WpIsOverlay(p, nm, st, a, dom, k);
    case Neg(a) => WpIsOverlay(p, nm, st, a, dom, k);
    case Bin(_, l, r) =>
      WpIsOverlay(p, nm, st, l, dom, k);
      WpIsOverlay(p, nm, st, r, dom, LowerWp(p, nm, st, l, k).1);
    case Ternary(c, a, b) =>
      var k1 := LowerWp(p, nm, st, c, k).1;
      WpIsOverlay(p, nm, st, c, dom, k);
      WpIsOverlay(p, nm, st, a, dom, k1);
      WpIsOverlay(p, nm, st, b, dom, LowerWp(p, nm, st, a, k1).1);
    case Call(f, args) =>
      WpSeqIsOverlay(p, nm, st, args, dom, k);
      var (ts, k1) := LowerWpSeq(p, nm, st, args, k);
      LowerCallAgree(p, {}, nm, nm + st, f, ts, k1);
    case Index(a, i) =>
      WpIsOverlay(p, nm, st, a, dom, k);
      WpIsOverlay(p, nm, st, i, dom, LowerWp(p, nm, st, a, k).1);
  }

  lemma {:induction false} WpQuantIsOverlay(p: Program, nm: NameMap, st: NameMap, e: Expr, dom: set<string>, k: nat)
    requires e.Quant? && Scoped(p, {}, e, dom) && NamesIn(p, nm + st, dom) && NoOldConsts(p) && NoOldIn(st)
    requires st.Keys !! Reached(p, {}, e)
    ensures LowerWp(p, nm, st, e, k) == Lower(p, {}, nm + st, e, k)
    decreases e, 0
  {
    var Quant(_, x, lo, hi, _, body) := e;
    var b := Binder(x, k);
    WpIsOverlay(p, nm, st, lo, dom, k + 1);
    var k1 := LowerWp(p, nm, st, lo, k + 1).1;
    WpIsOverlay(p, nm, st, hi, dom, k1);
    assert nm + st[x := TSym(b)] == (nm + st)[x := TSym(b)];
    WpIsOverlay(p, nm, st[x := TSym(b)], body, dom + {x}, LowerWp(p, nm, st, hi, k1).1);
  }

  lemma {:induction false} WpSeqIsOverlay(p: Program, nm: NameMap, st: NameMap, es: seq<Expr>, dom: set<string>, k: nat)
    requires ScopedSeq(p, {}, es, dom) && NamesIn(p, nm + st, dom) && NoOldConsts(p) && NoOldIn(st)
    requires st.Keys !! ReachedSeq(p, {}, es)
    ensures LowerWpSeq(p, nm, st, es, k) == LowerSeq(p, {}, nm + st, es, k)
    decreases es, 0
  {
    if |es| > 0 {
      WpIsOverlay(p, nm, st, es[0], dom, k);
      WpSeqIsOverlay(p, nm, st, es[1..], dom, LowerWp(p, nm, st, es[0], k).1);
    }
  }

  // ----- `exists` -----

  /** An `exists` is lowered with `=>` between its range and its body, as
      `forall` is, so the term is true under every valuation; it has the source
      meaning exactly when some index in the range satisfies the body. */
  lemma {:induction false} ExistsIsAlwaysTrue(p: Program, nm: NameMap, e: Expr, dom: set<string>, k: nat,
                                              syms: set<Sym>, rho: Valuation)
    requires e.Quant? && !e.isForall && Scoped(p, {}, e.lo, dom) && Scoped(p, {}, e.hi, dom)
    requires NamesIn(p, nm, dom) && NoOldConsts(p) && SymsIn(nm, syms) && Below(syms, k)
    ensures True(Lower(p, {}, nm, e, k).0, rho)
    ensures EvalT(Lower(p, {}, nm, e, k).0, rho) == Eval(p, {}, e, EnvOf(nm, rho))
       <==> exists i: int :: InRange(i, Eval(p, {}, e.lo, EnvOf(nm, rho)), Eval(p, {}, e.hi, EnvOf(nm, rho)),
                                     e.inclusive)
                          && AsBool(Eval(p, {}, e.body, EnvOf(nm, rho)[e.binder := IntV(i)]))
  {
    var Quant(_, x, lo, hi, inclusive, body) := e;
    var b := Binder(x, k);
    var (tlo, k1) := Lower(p, {}, nm, lo, k + 1);
    var (thi, k2) := Lower(p, {}, nm, hi, k1);
    var tbody := Lower(p, {}, nm[x := TSym(b)], body, k2).0;
    LowerFree(p, {}, nm, lo, dom, k + 1, syms);
    LowerFree(p, {}, nm, hi, dom, k1, syms);
    VacuousWitness(b, tlo, thi, inclusive, tbody, rho);
  }

  lemma {:induction false} ExistsIntro(b: Sym, body: Term, rho: Valuation, i: int)
    requires True(body, rho[b := IntV(i)])
    ensures True(TQuant(false, b, body), rho)
  {
  }

  lemma {:induction false} VacuousWitness(b: Sym, lo: Term, hi: Term, inclusive: bool, body: Term, rho: Valuation)
    requires b !in Free(lo) && b !in Free(hi)
    ensures True(TQuant(false, b, TImp(RangeTerm(b, lo, hi, inclusive), body)), rho)
  {
    var outside := AsInt(EvalT(hi, rho)) + 1;
    GuardedMeaning(b, lo, hi, inclusive, body, rho, outside);
    ExistsIntro(b, TImp(RangeTerm(b, lo, hi, inclusive), body), rho, outside);
  }

  /** `exists k in 0..0. true` is false but its term is true. */
  lemma {:induction false} ExistsOverEmptyRange()
    ensures var e := Quant(false, "k", IntLit(0), IntLit(0), false, BoolLit(true));
            var p := Program(map[], map[]);
            !AsBool(Eval(p, {}, e, map[])) && True(Lower(p, {}, map[], e, 0).0, map[])
  {
    var e := Quant(false, "k", IntLit(0), IntLit(0), false, BoolLit(true));
    ExistsIsAlwaysTrue(Program(map[], map[]), map[], e, {}, 0, {}, map[]);
  }
}
