/** What the encoder does with names and calls it cannot resolve: each becomes a
    symbol of its own, of which nothing is known. */
module Placeholders {
  import opened Values
  import opened Terms
  import opened SpecLang
  import opened Lowering
  import opened Statements
  import opened SymbolicExec

  /** A name neither bound nor constant, an `old` of anything but a snapshot, or a
      call that is unknown, ill-applied or recursive. */
  predicate Unresolved(p: Program, exp: set<string>, nm: NameMap, e: Expr) {
    match e
    case Var(x) => x !in nm && x !in p.consts
    case Old(sub) => !sub.Var? || OldName(sub.name) !in nm
    case Call(f, args) => f !in p.fns || |args| != |p.fns[f].params| || f in exp
    case _ => false
  }

  /** The term is one symbol, minted here: none of the given ones, and none that
      will be minted once the counter is past it. */
  ghost predicate Opaque(t: Term, syms: set<Sym>, k: nat, k': nat) {
    t.TSym? && t.s !in syms && !Below({t.s}, k) && Below({t.s}, k')
  }

  lemma {:induction false} UnresolvedIsOpaque(p: Program, exp: set<string>, nm: NameMap, e: Expr, k: nat,
                                              syms: set<Sym>)
    requires Unresolved(p, exp, nm, e) && Below(syms, k)
    ensures var (t, k') := Lower(p, exp, nm, e, k);
            Opaque(t, syms, k, k')
  {
    if e.Call? { var (ts, k1) := LowerSeq(p, exp, nm, e.args, k); }
  }

  /** The store-aware walker, which resolves a name or an `old` in the store too. */
  lemma {:induction false} UnresolvedWpIsOpaque(p: Program, nm: NameMap, st: NameMap, e: Expr, k: nat, syms: set<Sym>)
    requires Unresolved(p, {}, nm, e) && Below(syms, k)
    requires (e.Var? ==> e.name !in st) && (e.Old? && e.sub.Var? ==> e.sub.name !in st)
    ensures var (t, k') := LowerWp(p, nm, st, e, k);
            Opaque(t, syms, k, k')
  {
    if e.Call? { var (ts, k1) := LowerWpSeq(p, nm, st, e.args, k); }
  }

  /** Nothing is known of such a term: whatever the other symbols are, it may have
      any value. */
  lemma {:induction false} OpaqueIsFree(t: Term, syms: set<Sym>, k: nat, k': nat, rho: Valuation, v: Value)
    requires Opaque(t, syms, k, k')
    ensures EvalT(t, rho[t.s := v]) == v && Terms.AgreeOn(rho, rho[t.s := v], syms)
  {
  }

  /** Two occurrences of one and the same unresolved expression are two symbols,
      so they are not even equal to each other. */
  lemma {:induction false} OccurrencesDiffer(p: Program, exp: set<string>, nm: NameMap, e: Expr, k: nat, later: nat)
    requires Unresolved(p, exp, nm, e) && Lower(p, exp, nm, e, k).1 <= later
    ensures Lower(p, exp, nm, e, k).0 != Lower(p, exp, nm, e, later).0
  {
    var (t, k') := Lower(p, exp, nm, e, k);
    UnresolvedIsOpaque(p, exp, nm, e, k, {});
    UnresolvedIsOpaque(p, exp, nm, e, later, {t.s});
  }

  // ----- statements that are passed over -----

  /** Stepping a name that neither store nor map knows starts from such a symbol. */
  lemma UnknownCurrentIsOpaque(nm: NameMap, st: NameMap, x: string, k: nat, syms: set<Sym>)
    requires x !in st && x !in nm && Below(syms, k)
    ensures Opaque(Current(nm, st, x, k).0, syms, k, Current(nm, st, x, k).1)
  {
  }

  /** A write to an element of an unknown array changes nothing. */
  lemma UnknownArrayIsIgnored(p: Program, nm: NameMap, ens: seq<Expr>, prem: seq<Term>, pc: Path, x: string,
                              path: seq<Expr>, e: Expr, st: NameMap, k: nat)
    requires x !in st && x !in nm
    ensures Encode(p, nm, ens, prem, pc, WriteIndex(x, path, e), st, k) == Enc(st, k, [], false, Top)
  {
  }

  /** A compound assignment with an operator that is not arithmetic is encoded as a
      plain one: the old value is forgotten. */
  lemma OtherCompoundIsAssignment(p: Program, nm: NameMap, ens: seq<Expr>, prem: seq<Term>, pc: Path, x: string,
                                  op: BinOp, e: Expr, st: NameMap, k: nat)
    requires !Arithmetic(op)
    ensures Encode(p, nm, ens, prem, pc, Compound(x, op, e), st, k).st
         == Encode(p, nm, ens, prem, pc, Assign(x, e), st, k).st
  {
  }
}
