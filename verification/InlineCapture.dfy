/** When inlining a spec body that names compile-time constants is right. An
    inlined body is resolved in the caller's name map, extended by the
    parameters, so a caller's name hides a constant of the same spelling. */
module InlineCapture {
  import opened Values
  import opened Terms
  import opened SpecLang
  import opened Lowering

  /** The program whose only spec function is `f(params) = body`. */
  function OneFn(f: string, params: seq<string>, body: Expr, consts: map<string, int>): Program {
    Program(map[f := SpecFn(params, body)], consts)
  }

  /** The body is lowered to its value over just the parameters. */
  ghost predicate InlinesRight(p: Program, nm: NameMap, f: string, ts: seq<Term>, k: nat, rho: Valuation)
    requires f in p.fns && |ts| == |p.fns[f].params|
  {
    EvalT(LowerCall(p, {}, nm, f, ts, k).0, rho)
    == Eval(p, {f}, p.fns[f].body, Bind(map[], p.fns[f].params, EvalTs(ts, rho)))
  }

  /** A body without calls, over the parameters and constants it names. */
  ghost predicate IsBody(f: string, params: seq<string>, body: Expr, consts: map<string, int>) {
    var p := OneFn(f, params, body, consts);
    Scoped(p, {f}, body, Names(params) + p.consts.Keys)
  }

  /** Once every spec function is being expanded, nothing more is reached. */
  lemma {:induction false} ReachesNothing(p: Program, exp: set<string>, e: Expr)
    requires p.fns.Keys <= exp
    ensures Reached(p, exp, e) == {}
    decreases e, 1
  {
    match e
    case IntLit(_) =>
    case BoolLit(_) =>
    case Var(_) =>
    case Old(_) =>
    case Quant(_, _, lo, hi, _, body) =>
      ReachesNothing(p, exp, lo); ReachesNothing(p, exp, hi); ReachesNothing(p, exp, body);
    case Not(a) => ReachesNothing(p, exp, a);
    case Neg(a) => ReachesNothing(p, exp, a);
    case Bin(_, l, r) => ReachesNothing(p, exp, l); ReachesNothing(p, exp, r);
    case Ternary(c, a, b) => ReachesNothing(p, exp, c); ReachesNothing(p, exp, a); ReachesNothing(p, exp, b);
    case Call(_, args) => ReachesNothingSeq(p, exp, args);
    case Index(a, i) => ReachesNothing(p, exp, a); ReachesNothing(p, exp, i);
  }

  lemma {:induction false} ReachesNothingSeq(p: Program, exp: set<string>, es: seq<Expr>)
    requires p.fns.Keys <= exp
    ensures ReachedSeq(p, exp, es) == {}
    decreases es, 0
  {
    if |es| > 0 {
      ReachesNothing(p, exp, es[0]);
      ReachesNothingSeq(p, exp, es[1..]);
    }
  }

  ghost predicate AllInlineRight(f: string, params: seq<string>, consts: map<string, int>, nm: NameMap, ts: seq<Term>,
                                 k: nat, rho: Valuation)
    requires |ts| == |params|
  {
    forall body | IsBody(f, params, body, consts) :: InlinesRight(OneFn(f, params, body, consts), nm, f, ts, k, rho)
  }

  /** Every body is inlined right exactly when no constant that is not a
      parameter is bound in the caller's map to another value. */
  lemma {:induction false} InliningExact(f: string, params: seq<string>, consts: map<string, int>, nm: NameMap,
                                         ts: seq<Term>, k: nat, syms: set<Sym>, rho: Valuation)
    requires |ts| == |params| && (forall c :: c in consts ==> !IsOldName(c))
    requires SymsIn(nm, syms) && Below(syms, k) && forall i :: 0 <= i < |ts| ==> Free(ts[i]) <= syms
    ensures AllInlineRight(f, params, consts, nm, ts, k, rho)
       <==> forall c :: c in consts && c !in params && c in nm ==> EvalT(nm[c], rho) == IntV(consts[c])
  {
    if forall c :: c in consts && c !in params && c in nm ==> EvalT(nm[c], rho) == IntV(consts[c]) {
      forall body | IsBody(f, params, body, consts)
        ensures InlinesRight(OneFn(f, params, body, consts), nm, f, ts, k, rho)
      {
        var p := OneFn(f, params, body, consts);
        assert {} + {f} == {f} && p.fns[f] == SpecFn(params, body);
        ReachesNothing(p, {f}, body);
        InlineMeaning(p, {}, nm, f, ts, k, syms, rho);
      }
    }
    forall c | c in consts && c !in params && c in nm && AllInlineRight(f, params, consts, nm, ts, k, rho)
      ensures EvalT(nm[c], rho) == IntV(consts[c])
    {
      NamingBody(f, params, consts, nm, ts, k, rho, c);
    }
  }

  /** The body that is just the constant's name tells the two apart. */
  lemma {:induction false} NamingBody(f: string, params: seq<string>, consts: map<string, int>, nm: NameMap,
                                      ts: seq<Term>, k: nat, rho: Valuation, c: string)
    requires |ts| == |params| && c in consts && c !in params && c in nm
    requires AllInlineRight(f, params, consts, nm, ts, k, rho)
    ensures EvalT(nm[c], rho) == IntV(consts[c])
  {
    var p := OneFn(f, params, Var(c), consts);
    assert IsBody(f, params, Var(c), consts);
    BindKeys(nm, params, ts);
    BindKeys(map[], params, EvalTs(ts, rho));
    assert InlinesRight(p, nm, f, ts, k, rho);
    assert {} + {f} == {f};
    assert LowerCall(p, {}, nm, f, ts, k) == Lower(p, {} + {f}, Bind(nm, params, ts), Var(c), k);
  }
}
