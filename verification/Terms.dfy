/** SMT terms and their meaning under a valuation of the symbols. */
module Terms {
  import opened Values

  /** A declared constant, an argument of a whole-program query, the symbol
      minted for one quantifier, the uninterpreted constant standing for an
      unsupported form, or the constant standing for a name's value after a
      loop. The last three carry the value of the context's counter. */
  datatype Sym =
    | Const(kind: ConstKind, name: string)
    | Arg(index: nat)
    | Binder(binder: string, at: nat)
    | Placeholder(at: nat)
    | LoopExit(local: string, at: nat)

  /** What a declared constant stands for: a parameter, a result, or an entry
      value. */
  datatype ConstKind = ParamSym | ResultSym | OldSym

  datatype Term =
    | TInt(n: int)
    | TBool(p: bool)
    | TSym(s: Sym)
    | TNot(t: Term)
    | TNeg(t: Term)
    | TBin(op: BinOp, l: Term, r: Term)
    | TImp(l: Term, r: Term)
    | TIte(c: Term, t: Term, e: Term)
    | TSelect(a: Term, index: Term)
    | TStore(a: Term, index: Term, v: Term)
    | TQuant(isForall: bool, s: Sym, body: Term)

  type Valuation = map<Sym, Value>

  /** The sorts symbols are declared with. */
  type Sorting = map<Sym, Sort>

  function SymValue(rho: Valuation, s: Sym): Value {
    if s in rho then rho[s] else IntV(0)
  }

  ghost function EvalT(t: Term, rho: Valuation): Value {
    match t
    case TInt(i) => IntV(i)
    case TBool(b) => BoolV(b)
    case TSym(s) => SymValue(rho, s)
    case TNot(a) => BoolV(!AsBool(EvalT(a, rho)))
    case TNeg(a) => IntV(-AsInt(EvalT(a, rho)))
    case TBin(op, l, r) => Apply(op, EvalT(l, rho), EvalT(r, rho))
    case TImp(l, r) => BoolV(AsBool(EvalT(l, rho)) ==> AsBool(EvalT(r, rho)))
    case TIte(c, a, b) => if AsBool(EvalT(c, rho)) then EvalT(a, rho) else EvalT(b, rho)
    case TSelect(a, i) => Select(EvalT(a, rho), EvalT(i, rho))
    case TStore(a, i, v) => Store(EvalT(a, rho), EvalT(i, rho), EvalT(v, rho))
    case TQuant(isForall, s, body) =>
      if isForall then BoolV(forall i: int :: AsBool(EvalT(body, rho[s := IntV(i)])))
      else BoolV(exists i: int :: AsBool(EvalT(body, rho[s := IntV(i)])))
  }

  /** Every declared symbol has a value of its sort. The constants standing for a
      name after a loop are always declared Int. */
  ghost predicate WellSorted(rho: Valuation, sorts: Sorting) {
    && (forall s :: s in sorts && !s.LoopExit? ==> HasSort(SymValue(rho, s), sorts[s]))
    && (forall x, k :: SymValue(rho, LoopExit(x, k)).IntV?)
  }

  ghost predicate True(t: Term, rho: Valuation) {
    AsBool(EvalT(t, rho))
  }

  ghost predicate AllTrue(ts: seq<Term>, rho: Valuation) {
    forall i :: 0 <= i < |ts| ==> True(ts[i], rho)
  }

  /** The symbols free in a term. */
  function Free(t: Term): set<Sym> {
    match t
    case TInt(_) => {}
    case TBool(_) => {}
    case TSym(s) => {s}
    case TNot(a) => Free(a)
    case TNeg(a) => Free(a)
    case TBin(_, l, r) => Free(l) + Free(r)
    case TImp(l, r) => Free(l) + Free(r)
    case TIte(c, a, b) => Free(c) + Free(a) + Free(b)
    case TSelect(a, i) => Free(a) + Free(i)
    case TStore(a, i, v) => Free(a) + Free(i) + Free(v)
    case TQuant(_, s, body) => Free(body) - {s}
  }

  ghost predicate AgreeOn(rho: Valuation, rho': Valuation, ss: set<Sym>) {
    forall s :: s in ss ==> SymValue(rho, s) == SymValue(rho', s)
  }

  /** A term's value depends only on its free symbols. */
  lemma {:induction false} Coincidence(t: Term, rho: Valuation, rho': Valuation)
    requires AgreeOn(rho, rho', Free(t))
    ensures EvalT(t, rho) == EvalT(t, rho')
  {
    match t
    case TInt(_) =>
    case TBool(_) =>
    case TSym(_) =>
    case TNot(a) => Coincidence(a, rho, rho');
    case TNeg(a) => Coincidence(a, rho, rho');
    case TBin(_, l, r) => Coincidence(l, rho, rho'); Coincidence(r, rho, rho');
    case TImp(l, r) => Coincidence(l, rho, rho'); Coincidence(r, rho, rho');
    case TIte(c, a, b) =>
      Coincidence(c, rho, rho'); Coincidence(a, rho, rho'); Coincidence(b, rho, rho');
    case TSelect(a, i) => Coincidence(a, rho, rho'); Coincidence(i, rho, rho');
    case TStore(a, i, v) =>
      Coincidence(a, rho, rho'); Coincidence(i, rho, rho'); Coincidence(v, rho, rho');
    case TQuant(_, s, body) =>
      forall i: int
        ensures EvalT(body, rho[s := IntV(i)]) == EvalT(body, rho'[s := IntV(i)])
      {
        assert forall x :: x in Free(body) && x != s ==> x in Free(t);
        Coincidence(body, rho[s := IntV(i)], rho'[s := IntV(i)]);
      }
  }

  /** Rebinding a symbol that is not free changes nothing. */
  lemma Unused(t: Term, rho: Valuation, s: Sym, v: Value)
    requires s !in Free(t)
    ensures EvalT(t, rho[s := v]) == EvalT(t, rho)
  {
    Coincidence(t, rho[s := v], rho);
  }
}
