/** Unrolling a literal-range `forall` into a conjunction of lowered bodies. */
module QuantUnroll {
  import opened Values
  import opened Terms
  import opened SpecLang
  import opened Lowering
  import opened SmtContext

  const MAX_CONJUNCTS := 1024

  /** The caller falls back to the quantifier, gets a term, or the code reads the
      first of no conjuncts. */
  datatype Unrolled = Fallback | Conjunction(t: Term) | FirstOfNone

  function EndOf(q: Expr): int
    requires q.Quant? && q.hi.IntLit?
  {
    if q.inclusive then q.hi.v + 1 else q.hi.v
  }

  predicate Unrollable(q: Expr) {
    q.Quant? && q.isForall && q.lo.IntLit? && q.hi.IntLit? && EndOf(q) - q.lo.v <= MAX_CONJUNCTS
  }

  /** The body lowered with the binder pinned to `i`, `i + 1`, .. */
  function Conjuncts(p: Program, exp: set<string>, nm: NameMap, q: Expr, i: int, k: nat): (r: (seq<Term>, nat))
    requires q.Quant? && q.hi.IntLit?
    ensures k <= r.1 && |r.0| == if i < EndOf(q) then EndOf(q) - i else 0
    decreases EndOf(q) - i
  {
    if i >= EndOf(q) then ([], k)
    else
      var (t, k1) := Lower(p, exp, nm[q.binder := TInt(i)], q.body, k);
      var (ts, k2) := Conjuncts(p, exp, nm, q, i + 1, k1);
      ([t] + ts, k2)
  }

  /** `(and (and t0 t1) t2)`.. */
  function Conjoin(ts: seq<Term>): Term
    requires |ts| > 0
  {
    if |ts| == 1 then ts[0] else TBin(And, Conjoin(ts[..|ts| - 1]), ts[|ts| - 1])
  }

  function Unroll(p: Program, exp: set<string>, nm: NameMap, q: Expr, k: nat): (r: (Unrolled, nat))
    requires q.Quant?
  {
    if !q.isForall || !q.lo.IntLit? || !q.hi.IntLit? then (Fallback, k)
    else if EndOf(q) < q.lo.v then (Conjunction(TBool(true)), k)
    else if EndOf(q) - q.lo.v > MAX_CONJUNCTS then (Fallback, k)
    else
      var (ts, k1) := Conjuncts(p, exp, nm, q, q.lo.v, k);
      (if |ts| == 0 then FirstOfNone else Conjunction(Conjoin(ts)), k1)
  }

  /** `smtUnrollQuantForall`: the binder is pinned in the shared name map, one
      value at a time, and the map is restored. */
  method UnrollForall(c: SmtCtx, q: Expr) returns (r: Unrolled)
    requires q.Quant? && WellFormed(c.prog)
    modifies c
    ensures c.nameMap == old(c.nameMap) && c.expanding == old(c.expanding)
    ensures (r, c.placeholderSeq) == Unroll(c.prog, old(c.expanding), old(c.nameMap), q, old(c.placeholderSeq))
  {
    if !q.isForall || !q.lo.IntLit? || !q.hi.IntLit? { return Fallback; }
    var lo, hi := q.lo.v, if q.inclusive then q.hi.v + 1 else q.hi.v;
    if hi < lo { return Conjunction(TBool(true)); }
    if hi - lo > MAX_CONJUNCTS { return Fallback; }
    var hadBind := q.binder in c.nameMap;
    var savedBind := if hadBind then c.nameMap[q.binder] else TBool(true);
    var conj := PinnedBodies(c, q, lo, hi);
    PinAgain(c.nameMap, old(c.nameMap), q.binder, savedBind);
    if hadBind {
      c.nameMap := c.nameMap[q.binder := savedBind];
    } else {
      c.nameMap := c.nameMap - {q.binder};
    }
    assert c.nameMap == old(c.nameMap) by {
      if hadBind { assert old(c.nameMap)[q.binder := savedBind] == old(c.nameMap); }
      else { assert old(c.nameMap) - {q.binder} == old(c.nameMap); }
    }
    if |conj| == 0 { return FirstOfNone; }
    var acc := conj[0];
    for i := 1 to |conj|
      invariant acc == Conjoin(conj[..i])
    {
      assert conj[..i + 1][..i] == conj[..i];
      acc := TBin(And, acc, conj[i]);
    }
    assert conj[..|conj|] == conj;
    r := Conjunction(acc);
  }

  method PinnedBodies(c: SmtCtx, q: Expr, lo: int, hi: int) returns (conj: seq<Term>)
    requires q.Quant? && q.hi.IntLit? && hi == EndOf(q) && lo <= hi && WellFormed(c.prog)
    modifies c
    ensures c.nameMap - {q.binder} == old(c.nameMap) - {q.binder} && c.expanding == old(c.expanding)
    ensures lo == hi ==> c.nameMap == old(c.nameMap)
    ensures (conj, c.placeholderSeq)
         == Conjuncts(c.prog, old(c.expanding), old(c.nameMap), q, lo, old(c.placeholderSeq))
  {
    conj := [];
    var k := lo;
    ghost var all := Conjuncts(c.prog, c.expanding, c.nameMap, q, lo, c.placeholderSeq);
    while k < hi
      invariant lo <= k <= hi && c.expanding == old(c.expanding)
      invariant c.nameMap - {q.binder} == old(c.nameMap) - {q.binder}
      invariant k == lo ==> c.nameMap == old(c.nameMap)
      invariant var rest := Conjuncts(c.prog, c.expanding, old(c.nameMap), q, k, c.placeholderSeq);
                conj + rest.0 == all.0 && rest.1 == all.1
    {
      ghost var rest := Conjuncts(c.prog, c.expanding, old(c.nameMap), q, k, c.placeholderSeq);
      PinAgain(c.nameMap, old(c.nameMap), q.binder, TInt(k));
      c.nameMap := c.nameMap[q.binder := TInt(k)];
      var t := c.SmtExpr(q.body);
      Peel(conj, rest.0);
      conj := conj + [t];
      k := k + 1;
    }
    assert conj + [] == conj;
  }

  lemma Peel(done: seq<Term>, rest: seq<Term>)
    requires |rest| > 0
    ensures done + rest == (done + [rest[0]]) + rest[1..]
  {
  }

  lemma PinAgain(m: NameMap, m': NameMap, x: string, t: Term)
    requires m - {x} == m' - {x}
    ensures m[x := t] == m'[x := t] && m[x := t] - {x} == m - {x}
  {
    assert m[x := t] == (m - {x})[x := t] && m'[x := t] == (m' - {x})[x := t];
    assert m[x := t] - {x} == m - {x};
  }

  // ----- meaning -----

  lemma {:induction false} ConjoinMeaning(ts: seq<Term>, rho: Valuation)
    requires |ts| > 0
    ensures True(Conjoin(ts), rho) <==> AllTrue(ts, rho)
    decreases |ts|
  {
    if |ts| > 1 {
      var init, last := ts[..|ts| - 1], ts[|ts| - 1];
      ConjoinMeaning(init, rho);
      assert EvalT(TBin(And, Conjoin(init), last), rho) == Apply(And, EvalT(Conjoin(init), rho), EvalT(last, rho));
      assert forall i :: 0 <= i < |init| ==> init[i] == ts[i];
      if AllTrue(ts, rho) { assert True(ts[|ts| - 1], rho); }
    }
  }

  lemma {:induction false} PinnedMeaning(p: Program, exp: set<string>, nm: NameMap, q: Expr, i: int, k: nat,
                                         dom: set<string>, syms: set<Sym>, rho: Valuation)
    requires q.Quant? && Scoped(p, exp, q, dom)
    requires NamesIn(p, nm, dom) && NoOldConsts(p) && SymsIn(nm, syms) && Below(syms, k)
    requires Transparent(p, Reached(p, exp, q), nm, rho)
    ensures EvalT(Lower(p, exp, nm[q.binder := TInt(i)], q.body, k).0, rho)
         == Eval(p, exp, q.body, EnvOf(nm, rho)[q.binder := IntV(i)])
  {
    var pinned := nm[q.binder := TInt(i)];
    assert EnvOf(pinned, rho) == EnvOf(nm, rho)[q.binder := IntV(i)];
    LowerPreservesMeaning(p, exp, pinned, q.body, dom + {q.binder}, k, syms, rho);
  }

  /** The conjunct at `j` is the body with the binder pinned to `i + j`. */
  lemma {:induction false} ConjunctAt(p: Program, exp: set<string>, nm: NameMap, q: Expr, i: int, k: nat, j: nat)
      returns (k1: nat)
    requires q.Quant? && q.hi.IntLit? && j < |Conjuncts(p, exp, nm, q, i, k).0|
    ensures k <= k1
    ensures Conjuncts(p, exp, nm, q, i, k).0[j] == Lower(p, exp, nm[q.binder := TInt(i + j)], q.body, k1).0
    decreases j
  {
    if j == 0 {
      k1 := k;
    } else {
      k1 := ConjunctAt(p, exp, nm, q, i + 1, Lower(p, exp, nm[q.binder := TInt(i)], q.body, k).1, j - 1);
      assert i + 1 + (j - 1) == i + j;
    }
  }

  /** Each conjunct is the body with the binder bound to its index. */
  lemma {:induction false} ConjunctMeaning(p: Program, exp: set<string>, nm: NameMap, q: Expr, i: int, k: nat,
                                           dom: set<string>, syms: set<Sym>, rho: Valuation, j: nat)
    requires q.Quant? && q.hi.IntLit? && Scoped(p, exp, q, dom)
    requires NamesIn(p, nm, dom) && NoOldConsts(p) && SymsIn(nm, syms) && Below(syms, k)
    requires Transparent(p, Reached(p, exp, q), nm, rho)
    requires j < |Conjuncts(p, exp, nm, q, i, k).0|
    ensures EvalT(Conjuncts(p, exp, nm, q, i, k).0[j], rho)
         == Eval(p, exp, q.body, EnvOf(nm, rho)[q.binder := IntV(i + j)])
  {
    var k1 := ConjunctAt(p, exp, nm, q, i, k, j);
    PinnedMeaning(p, exp, nm, q, i + j, k1, dom, syms, rho);
  }

  /** The unrolled term is the bounded `forall` the recursive lowering gives, in
      every environment, for empty, exclusive and inclusive ranges; the one
      exception is a range whose end equals its start, where there is no first
      conjunct to return. */
  lemma {:induction false} UnrollIsForall(p: Program, exp: set<string>, nm: NameMap, q: Expr, k: nat, dom: set<string>,
                                          syms: set<Sym>, rho: Valuation)
    requires Unrollable(q) && Scoped(p, exp, q, dom)
    requires NamesIn(p, nm, dom) && NoOldConsts(p) && SymsIn(nm, syms) && Below(syms, k)
    requires Transparent(p, Reached(p, exp, q), nm, rho)
    ensures Unroll(p, exp, nm, q, k).0.FirstOfNone? <==> EndOf(q) == q.lo.v
    ensures EndOf(q) != q.lo.v ==>
              Unroll(p, exp, nm, q, k).0.Conjunction?
              && (True(Unroll(p, exp, nm, q, k).0.t, rho) <==> True(Lower(p, exp, nm, q, k).0, rho))
  {
    LowerPreservesMeaning(p, exp, nm, q, dom, k, syms, rho);
    BoundedForall(p, exp, q, EnvOf(nm, rho));
    if q.lo.v < EndOf(q) {
      var ts := Conjuncts(p, exp, nm, q, q.lo.v, k).0;
      ConjoinMeaning(ts, rho);
      ConjunctsMeaning(p, exp, nm, q, k, dom, syms, rho);
    }
  }

  lemma {:induction false} ConjunctsMeaning(p: Program, exp: set<string>, nm: NameMap, q: Expr, k: nat,
                                            dom: set<string>, syms: set<Sym>, rho: Valuation)
    requires Unrollable(q) && Scoped(p, exp, q, dom) && q.lo.v < EndOf(q)
    requires NamesIn(p, nm, dom) && NoOldConsts(p) && SymsIn(nm, syms) && Below(syms, k)
    requires Transparent(p, Reached(p, exp, q), nm, rho)
    ensures AllTrue(Conjuncts(p, exp, nm, q, q.lo.v, k).0, rho)
       <==> forall i: int :: q.lo.v <= i < EndOf(q) ==>
              AsBool(Eval(p, exp, q.body, EnvOf(nm, rho)[q.binder := IntV(i)]))
  {
    var ts, env := Conjuncts(p, exp, nm, q, q.lo.v, k).0, EnvOf(nm, rho);
    forall j | 0 <= j < |ts|
      ensures True(ts[j], rho) <==> AsBool(Eval(p, exp, q.body, env[q.binder := IntV(q.lo.v + j)]))
    {
      ConjunctMeaning(p, exp, nm, q, q.lo.v, k, dom, syms, rho, j);
    }
    ShiftRange(p, exp, q, env, ts, rho);
  }

  lemma {:induction false} BoundedForall(p: Program, exp: set<string>, q: Expr, env: Env)
    requires Unrollable(q)
    ensures AsBool(Eval(p, exp, q, env))
       <==> forall i: int :: q.lo.v <= i < EndOf(q) ==> AsBool(Eval(p, exp, q.body, env[q.binder := IntV(i)]))
  {
    assert Eval(p, exp, q.lo, env) == IntV(q.lo.v) && Eval(p, exp, q.hi, env) == IntV(q.hi.v);
    assert forall i: int :: InRange(i, IntV(q.lo.v), IntV(q.hi.v), q.inclusive) <==> q.lo.v <= i < EndOf(q);
    if AsBool(Eval(p, exp, q, env)) {
      forall i: int | q.lo.v <= i < EndOf(q) ensures AsBool(Eval(p, exp, q.body, env[q.binder := IntV(i)])) {
        assert InRange(i, IntV(q.lo.v), IntV(q.hi.v), q.inclusive);
      }
    }
  }

  lemma {:induction false} ShiftRange(p: Program, exp: set<string>, q: Expr, env: Env, ts: seq<Term>, rho: Valuation)
    requires Unrollable(q) && |ts| == EndOf(q) - q.lo.v
    requires forall j :: 0 <= j < |ts| ==>
               (True(ts[j], rho) <==> AsBool(Eval(p, exp, q.body, env[q.binder := IntV(q.lo.v + j)])))
    ensures AllTrue(ts, rho)
       <==> forall i: int :: q.lo.v <= i < EndOf(q) ==> AsBool(Eval(p, exp, q.body, env[q.binder := IntV(i)]))
  {
    if AllTrue(ts, rho) {
      forall i: int | q.lo.v <= i < EndOf(q) ensures AsBool(Eval(p, exp, q.body, env[q.binder := IntV(i)])) {
        assert True(ts[i - q.lo.v], rho);
        assert q.lo.v + (i - q.lo.v) == i;
      }
    }
  }

  /** The caller falls back to the quantifier exactly for an `exists`, for a bound
      that is no literal, and for more than 1024 indices. */
  lemma FallsBack(p: Program, exp: set<string>, nm: NameMap, q: Expr, k: nat)
    requires q.Quant?
    ensures Unroll(p, exp, nm, q, k).0.Fallback?
       <==> || !q.isForall || !q.lo.IntLit? || !q.hi.IntLit?
            || (if q.inclusive then q.hi.v - q.lo.v + 1 else q.hi.v - q.lo.v) > 1024
  {
  }
}
