/** Which bound symbols a lowered term has, and when two lowerings of the same
    expression give the same term. */
module LoweredBinders {
  import Values
  import opened Terms
  import opened SpecLang
  import opened Lowering

  /** The symbols a term binds. */
  function Bound(t: Term): set<Sym> {
    match t
    case TInt(_) => {}
    case TBool(_) => {}
    case TSym(_) => {}
    case TNot(a) => Bound(a)
    case TNeg(a) => Bound(a)
    case TBin(_, l, r) => Bound(l) + Bound(r)
    case TImp(l, r) => Bound(l) + Bound(r)
    case TIte(c, a, b) => Bound(c) + Bound(a) + Bound(b)
    case TSelect(a, i) => Bound(a) + Bound(i)
    case TStore(a, i, v) => Bound(a) + Bound(i) + Bound(v)
    case TQuant(_, s, body) => {s} + Bound(body)
  }

  ghost predicate BoundIn(nm: NameMap, w: set<Sym>) {
    forall x :: x in nm ==> Bound(nm[x]) <= w
  }

  /** Known before, or minted between the two counter values. */
  ghost predicate MintedIn(ss: set<Sym>, w: set<Sym>, k: nat, k': nat) {
    forall s :: s in ss ==> s in w || (s.Binder? && k <= s.at < k')
  }

  lemma BinBound(op: Values.BinOp, l: Term, r: Term)
    ensures Bound(BinTerm(op, l, r)) == Bound(l) + Bound(r)
  {
    assert Bound(TBin(Values.Eq, l, r)) == Bound(l) + Bound(r);
  }

  lemma QuantBound(isForall: bool, b: Sym, lo: Term, hi: Term, inclusive: bool, body: Term)
    ensures Bound(TQuant(isForall, b, TImp(RangeTerm(b, lo, hi, inclusive), body)))
         == {b} + Bound(lo) + Bound(hi) + Bound(body)
  {
    RangeBound(b, lo, hi, inclusive);
    var range := RangeTerm(b, lo, hi, inclusive);
    assert Bound(TImp(range, body)) == Bound(range) + Bound(body);
  }

  lemma RangeBound(b: Sym, lo: Term, hi: Term, inclusive: bool)
    ensures Bound(RangeTerm(b, lo, hi, inclusive)) == Bound(lo) + Bound(hi)
  {
    var op := if inclusive then Values.Le else Values.Lt;
    PlainBound(Values.Ge, TSym(b), lo);
    PlainBound(op, TSym(b), hi);
    PlainBound(Values.And, TBin(Values.Ge, TSym(b), lo), TBin(op, TSym(b), hi));
  }

  lemma PlainBound(op: Values.BinOp, l: Term, r: Term)
    ensures Bound(TBin(op, l, r)) == Bound(l) + Bound(r)
  {
  }

  lemma {:induction false} BindBound(nm: NameMap, names: seq<string>, ts: seq<Term>, w: set<Sym>)
    requires |names| == |ts| && BoundIn(nm, w) && forall i :: 0 <= i < |ts| ==> Bound(ts[i]) <= w
    ensures BoundIn(Bind(nm, names, ts), w)
    decreases |names|
  {
    if |names| > 0 { BindBound(nm[names[0] := ts[0]], names[1..], ts[1..], w); }
  }

  /** Every symbol a lowered term binds comes from the name map or was minted
      while lowering. */
  lemma {:induction false} BoundRange(p: Program, exp: set<string>, nm: NameMap, e: Expr, k: nat, w: set<Sym>)
    requires BoundIn(nm, w)
    ensures MintedIn(Bound(Lower(p, exp, nm, e, k).0), w, k, Lower(p, exp, nm, e, k).1)
    decreases p.fns.Keys - exp, 1, e, 1
  {
    match e
    case IntLit(_) =>
    case BoolLit(_) =>
    case Var(_) =>
    case Old(_) =>
    case Quant(isForall, x, lo, hi, inclusive, body) =>
      var b := Binder(x, k);
      var (tlo, k1) := Lower(p, exp, nm, lo, k + 1);
      var (thi, k2) := Lower(p, exp, nm, hi, k1);
      var (tbody, k3) := Lower(p, exp, nm[x := TSym(b)], body, k2);
      BoundRange(p, exp, nm, lo, k + 1, w);
      BoundRange(p, exp, nm, hi, k1, w);
      BoundRange(p, exp, nm[x := TSym(b)], body, k2, w);
      QuantBound(isForall, b, tlo, thi, inclusive, tbody);
    case Not(a) => BoundRange(p, exp, nm, a, k, w);
    case Neg(a) => BoundRange(p, exp, nm, a, k, w);
    case Bin(op, l, r) =>
      var (tl, k1) := Lower(p, exp, nm, l, k);
      BoundRange(p, exp, nm, l, k, w);
      BoundRange(p, exp, nm, r, k1, w);
      BinBound(op, tl, Lower(p, exp, nm, r, k1).0);
    case Ternary(c, a, b) =>
      var (_, k1) := Lower(p, exp, nm, c, k);
      var (_, k2) := Lower(p, exp, nm, a, k1);
      BoundRange(p, exp, nm, c, k, w);
      BoundRange(p, exp, nm, a, k1, w);
      BoundRange(p, exp, nm, b, k2, w);
    case Call(f, args) =>
      var (ts, k1) := LowerSeq(p, exp, nm, args, k);
      BoundRangeSeq(p, exp, nm, args, k, w);
      BoundRangeCall(p, exp, nm, f, ts, k, k1, w);
    case Index(a, i) =>
      var (_, k1) := Lower(p, exp, nm, a, k);
      BoundRange(p, exp, nm, a, k, w);
      BoundRange(p, exp, nm, i, k1, w);
  }

  lemma {:induction false} BoundRangeCall(p: Program, exp: set<string>, nm: NameMap, f: string, ts: seq<Term>, k: nat,
                                          k1: nat, w: set<Sym>)
    requires BoundIn(nm, w) && k <= k1 && forall i :: 0 <= i < |ts| ==> MintedIn(Bound(ts[i]), w, k, k1)
    ensures MintedIn(Bound(LowerCall(p, exp, nm, f, ts, k1).0), w, k, LowerCall(p, exp, nm, f, ts, k1).1)
    decreases p.fns.Keys - exp, 0
  {
    if f in p.fns && |ts| == |p.fns[f].params| && f !in exp {
      var w' := w + set i, s | 0 <= i < |ts| && s in Bound(ts[i]) :: s;
      forall i | 0 <= i < |ts| ensures Bound(ts[i]) <= w' {}
      BindBound(nm, p.fns[f].params, ts, w');
      BoundRange(p, exp + {f}, Bind(nm, p.fns[f].params, ts), p.fns[f].body, k1, w');
    }
  }

  lemma {:induction false} BoundRangeSeq(p: Program, exp: set<string>, nm: NameMap, es: seq<Expr>, k: nat, w: set<Sym>)
    requires BoundIn(nm, w)
    ensures forall i :: 0 <= i < |es| ==>
        MintedIn(Bound(LowerSeq(p, exp, nm, es, k).0[i]), w, k, LowerSeq(p, exp, nm, es, k).1)
    decreases p.fns.Keys - exp, 1, es, 0
  {
    if |es| > 0 {
      var (_, k1) := Lower(p, exp, nm, es[0], k);
      BoundRange(p, exp, nm, es[0], k, w);
      BoundRangeSeq(p, exp, nm, es[1..], k1, w);
    }
  }

  // ----- the same term at another counter value -----

  /** A term that binds nothing is the other term. */
  ghost predicate Like(t: Term, t': Term) {
    Bound(t) == {} ==> t' == t
  }

  ghost predicate MapsLike(nm: NameMap, nm': NameMap) {
    nm.Keys == nm'.Keys && forall x :: x in nm ==> Like(nm[x], nm'[x])
  }

  ghost predicate AllLike(ts: seq<Term>, ts': seq<Term>) {
    |ts| == |ts'| && forall i :: 0 <= i < |ts| ==> Like(ts[i], ts'[i])
  }

  lemma {:induction false} BindLike(nm: NameMap, nm': NameMap, names: seq<string>, ts: seq<Term>, ts': seq<Term>)
    requires |names| == |ts| && MapsLike(nm, nm') && AllLike(ts, ts')
    ensures MapsLike(Bind(nm, names, ts), Bind(nm', names, ts'))
    decreases |names|
  {
    if |names| > 0 { BindLike(nm[names[0] := ts[0]], nm'[names[0] := ts'[0]], names[1..], ts[1..], ts'[1..]); }
  }

  /** A scoped expression whose term binds nothing is lowered to that term
      whatever the counter. */
  lemma {:induction false} SameUnlessBound(p: Program, exp: set<string>, nm: NameMap, nm': NameMap, e: Expr,
                                           dom: set<string>, k: nat, k': nat)
    requires Scoped(p, exp, e, dom) && NamesIn(p, nm, dom) && NoOldConsts(p) && MapsLike(nm, nm')
    ensures Like(Lower(p, exp, nm, e, k).0, Lower(p, exp, nm', e, k').0)
    decreases p.fns.Keys - exp, 1, e, 1
  {
    match e
    case IntLit(_) =>
    case BoolLit(_) =>
    case Var(_) =>
    case Old(_) =>
    case Quant(_, _, _, _, _, _) =>
    case Not(a) => SameUnlessBound(p, exp, nm, nm', a, dom, k, k');
    case Neg(a) => SameUnlessBound(p, exp, nm, nm', a, dom, k, k');
    case Bin(op, l, r) =>
      var (tl, k1) := Lower(p, exp, nm, l, k);
      var (tl', k1') := Lower(p, exp, nm', l, k');
      SameUnlessBound(p, exp, nm, nm', l, dom, k, k');
      SameUnlessBound(p, exp, nm, nm', r, dom, k1, k1');
      BinBound(op, tl, Lower(p, exp, nm, r, k1).0);
    case Ternary(c, a, b) =>
      var (k1, k1') := (Lower(p, exp, nm, c, k).1, Lower(p, exp, nm', c, k').1);
      SameUnlessBound(p, exp, nm, nm', c, dom, k, k');
      SameUnlessBound(p, exp, nm, nm', a, dom, k1, k1');
      SameUnlessBound(p, exp, nm, nm', b, dom, Lower(p, exp, nm, a, k1).1, Lower(p, exp, nm', a, k1').1);
    case Call(f, args) =>
      var (ts, k1) := LowerSeq(p, exp, nm, args, k);
      var (ts', k1') := LowerSeq(p, exp, nm', args, k');
      SameUnlessBoundSeq(p, exp, nm, nm', args, dom, k, k');
      var SpecFn(params, body) := p.fns[f];
      BindLike(nm, nm', params, ts, ts');
      BindKeys(nm, params, ts);
      SameUnlessBound(p, exp + {f}, Bind(nm, params, ts), Bind(nm', params, ts'), body, Names(params) + p.consts.Keys,
                      k1, k1');
    case Index(a, i) =>
      SameUnlessBound(p, exp, nm, nm', a, dom, k, k');
      SameUnlessBound(p, exp, nm, nm', i, dom, Lower(p, exp, nm, a, k).1, Lower(p, exp, nm', a, k').1);
  }

  lemma {:induction false} SameUnlessBoundSeq(p: Program, exp: set<string>, nm: NameMap, nm': NameMap, es: seq<Expr>,
                                              dom: set<string>, k: nat, k': nat)
    requires ScopedSeq(p, exp, es, dom) && NamesIn(p, nm, dom) && NoOldConsts(p) && MapsLike(nm, nm')
    ensures AllLike(LowerSeq(p, exp, nm, es, k).0, LowerSeq(p, exp, nm', es, k').0)
    decreases p.fns.Keys - exp, 1, es, 0
  {
    if |es| > 0 {
      SameUnlessBound(p, exp, nm, nm', es[0], dom, k, k');
      SameUnlessBoundSeq(p, exp, nm, nm', es[1..], dom, Lower(p, exp, nm, es[0], k).1, Lower(p, exp, nm', es[0], k').1);
    }
  }

  /** Lowering once more, from where the first lowering stopped, gives the same
      term exactly when the term binds nothing. */
  lemma {:induction false} SecondCopyExact(p: Program, nm: NameMap, e: Expr, dom: set<string>, k: nat)
    requires Scoped(p, {}, e, dom) && NamesIn(p, nm, dom) && NoOldConsts(p) && BoundIn(nm, {})
    ensures var (t, k1) := Lower(p, {}, nm, e, k);
            Lower(p, {}, nm, e, k1).0 == t <==> Bound(t) == {}
  {
    var (t, k1) := Lower(p, {}, nm, e, k);
    SameUnlessBound(p, {}, nm, nm, e, dom, k, k1);
    BoundRange(p, {}, nm, e, k, {});
    BoundRange(p, {}, nm, e, k1, {});
  }
}
