/** The symbolic executor over function bodies: a store from names to terms, a
    path condition, and one obligation per assertion and per postcondition at
    each return. */
module SymbolicExec {
  import opened Values
  import opened Terms
  import opened SpecLang
  import opened Lowering
  import opened Statements

  /** The path condition; Top is the empty string. */
  datatype Path = Top | Cond(t: Term)

  function PathAnd(a: Path, b: Path): Path {
    if a.Top? then b else if b.Top? then a else Cond(TBin(And, a.t, b.t))
  }

  function PathTerms(pc: Path): seq<Term> {
    if pc.Top? then [] else [pc.t]
  }

  datatype Obl = Obl(premises: seq<Term>, goal: Term)

  /** What encoding leaves: the store, the counter, the obligations emitted,
      whether the path is dead, and a loop's exit condition. */
  datatype Enc = Enc(st: NameMap, k: nat, obls: seq<Obl>, returned: bool, exit: Path)

  /** `mergeStores` when both arms are alive. */
  function MergeLive(a: NameMap, b: NameMap, c: Term): NameMap {
    map x | x in a.Keys + b.Keys ::
      if x !in a then b[x]
      else if x !in b then a[x]
      else if a[x] == b[x] then a[x]
      else TIte(c, a[x], b[x])
  }

  function MergeStores(a: NameMap, aReturned: bool, b: NameMap, bReturned: bool, c: Term): NameMap {
    if aReturned && bReturned then map[]
    else if aReturned then b
    else if bReturned then a
    else MergeLive(a, b, c)
  }

  /** `acc` after the levels `j..` of the nested write have been wrapped round
      the value. */
  function NestedStore(arr: Term, path: seq<Term>, v: Term, j: nat): Term
    requires j <= |path|
    decreases |path| - j
  {
    if j == |path| then v
    else TStore(SelectChain(arr, path[..j]), path[j], NestedStore(arr, path, v, j + 1))
  }

  function SelectChain(arr: Term, path: seq<Term>): Term {
    if |path| == 0 then arr
    else TSelect(SelectChain(arr, path[..|path| - 1]), path[|path| - 1])
  }

  /** The term a name currently stands for. */
  function Current(nm: NameMap, st: NameMap, x: string, k: nat): (r: (Term, nat))
    ensures k <= r.1
  {
    if x in st then (st[x], k) else if x in nm then (nm[x], k) else (TSym(Placeholder(k)), k + 1)
  }

  /** The goals for a list of clauses lowered one after the other. */
  function EncodeClauses(p: Program, nm: NameMap, st: NameMap, es: seq<Expr>, k: nat): (r: (seq<Term>, nat))
    ensures |r.0| == |es| && k <= r.1
  {
    if |es| == 0 then ([], k)
    else
      var (t, k1) := LowerWp(p, nm, st, es[0], k);
      var (ts, k2) := EncodeClauses(p, nm, st, es[1..], k1);
      ([t] + ts, k2)
  }

  function OblsFor(premises: seq<Term>, goals: seq<Term>): seq<Obl> {
    seq(|goals|, i requires 0 <= i < |goals| => Obl(premises, goals[i]))
  }

  function ConjoinAll(pc: Path, ts: seq<Term>): Path
    decreases |ts|
  {
    if |ts| == 0 then pc else ConjoinAll(PathAnd(pc, Cond(ts[0])), ts[1..])
  }

  /** `collectMutatedVarNames`: plain assignments, compound ones and ++/--. An
      element write is not among them. */
  function Mutated(ss: seq<Stmt>): set<string>
    decreases ss, 0
  {
    if |ss| == 0 then {} else MutatedIn(ss[0]) + Mutated(ss[1..])
  }

  function MutatedIn(s: Stmt): set<string>
    decreases s, 1
  {
    match s
    case Assign(x, _) => {x}
    case Compound(x, _, _) => {x}
    case IncDec(x, _) => {x}
    case Block(body) => Mutated(body)
    case If(_, a, b) => Mutated(a) + Mutated(b)
    case While(_, _, body) => Mutated(body)
    case _ => {}
  }

  /** The store after a loop: every mutated name stands for a fresh constant.
      (The constants of one loop share the counter value at which the first of
      them is minted; the name tells them apart.) */
  function ExitStore(st: NameMap, mutated: set<string>, k: nat): NameMap {
    map x | x in st.Keys + mutated :: if x in mutated then TSym(LoopExit(x, k)) else st[x]
  }

  /** `smtEncodeStmt` */
  function Encode(p: Program, nm: NameMap, ens: seq<Expr>, prem: seq<Term>, pc: Path, s: Stmt, st: NameMap,
                  k: nat): (r: Enc)
    ensures k <= r.k && (r.returned ==> r.exit == Top)
    decreases s, 1
  {
    match s
    case Let(x, e) =>
      var (t, k1) := LowerWp(p, nm, st, e, k);
      Enc(st[x := t], k1, [], false, Top)
    case Assign(x, e) =>
      var (t, k1) := LowerWp(p, nm, st, e, k);
      Enc(st[x := t], k1, [], false, Top)
    case Compound(x, op, e) =>
      var (t, k1) := LowerWp(p, nm, st, e, k);
      var (cur, k2) := Current(nm, st, x, k1);
      Enc(st[x := if Arithmetic(op) then TBin(op, cur, t) else t], k2, [], false, Top)
    case IncDec(x, isInc) =>
      var (cur, k1) := Current(nm, st, x, k);
      Enc(st[x := TBin(if isInc then Add else Sub, cur, TInt(1))], k1, [], false, Top)
    case WriteIndex(x, path, e) =>
      if x !in st && x !in nm then Enc(st, k, [], false, Top)
      else
        var (ts, k1) := LowerWpSeq(p, nm, st, path, k);
        var (t, k2) := LowerWp(p, nm, st, e, k1);
        Enc(st[x := NestedStore(Current(nm, st, x, k).0, ts, t, 0)], k2, [], false, Top)
    case If(c, a, b) =>
      var (tc, k1) := LowerWp(p, nm, st, c, k);
      var ea := EncodeAll(p, nm, ens, prem, PathAnd(pc, Cond(tc)), a, st, k1);
      var eb := EncodeAll(p, nm, ens, prem, PathAnd(pc, Cond(TNot(tc))), b, st, ea.k);
      if ea.returned && eb.returned then Enc(st, eb.k, ea.obls + eb.obls, true, Top)
      else Enc(MergeStores(ea.st, ea.returned, eb.st, eb.returned, tc), eb.k, ea.obls + eb.obls, false, Top)
    case Block(body) => EncodeAll(p, nm, ens, prem, pc, body, st, k)
    case Assert(c) =>
      var (t, k1) := LowerWp(p, nm, st, c, k);
      Enc(st, k1, [Obl(prem + PathTerms(pc), t)], false, Top)
    case Return(e) =>
      var (t, k1) := LowerWp(p, nm, st, e, k);
      var st' := st[RESULT := t];
      var (goals, k2) := EncodeClauses(p, nm, st', ens, k1);
      Enc(st', k2, OblsFor(prem + PathTerms(pc), goals), true, Top)
    case ReturnVoid =>
      var (goals, k1) := EncodeClauses(p, nm, st, ens, k);
      Enc(st, k1, OblsFor(prem + PathTerms(pc), goals), true, Top)
    case While(c, invs, body) =>
      if |invs| == 0 then
        var (_, k1) := LowerWp(p, nm, st, c, k);
        var eb := EncodeAll(p, nm, ens, prem, Cond(TBool(false)), body, st, k1);
        Enc(st, eb.k, eb.obls, true, Top)
      else
        var (checks, k1) := LoopChecks(p, nm, ens, prem, pc, c, invs, body, st, k);
        AfterLoop(p, nm, pc, c, invs, st, Mutated(body), checks, k1)
  }

  /** The entry check of each invariant under the guard, the body's own
      obligations, and the preservation checks, all from the pre-loop store. */
  function LoopChecks(p: Program, nm: NameMap, ens: seq<Expr>, prem: seq<Term>, pc: Path,
                      c: Expr, invs: seq<Expr>, body: seq<Stmt>, st: NameMap, k: nat): (r: (seq<Obl>, nat))
    ensures k <= r.1
    decreases body, 1
  {
    var (tc, k1) := LowerWp(p, nm, st, c, k);
    var (ti, k2) := EncodeClauses(p, nm, st, invs, k1);
    var entry := OblsFor(prem + PathTerms(PathAnd(pc, Cond(tc))), ti);
    var bodyPrem := prem + PathTerms(pc) + [tc] + ti;
    var eb := EncodeAll(p, nm, ens, bodyPrem, PathAnd(pc, Cond(tc)), body, st, k2);
    if eb.returned then (entry + eb.obls, eb.k)
    else
      var (tp, k3) := EncodeClauses(p, nm, eb.st, invs, eb.k);
      (entry + eb.obls + OblsFor(bodyPrem, tp), k3)
  }

  /** How encoding continues after an annotated loop: on the exit store, under
      the negated guard and the invariants lowered there. */
  function AfterLoop(p: Program, nm: NameMap, pc: Path, c: Expr, invs: seq<Expr>, st: NameMap, mutated: set<string>,
                     checks: seq<Obl>, k: nat): (r: Enc)
    ensures k <= r.k && !r.returned
  {
    var exitSt := ExitStore(st, mutated, k);
    var (exit, k1) := ExitPath(p, nm, pc, c, invs, exitSt, k + |mutated|);
    Enc(exitSt, k1, checks, false, exit)
  }

  function ExitPath(p: Program, nm: NameMap, pc: Path, c: Expr, invs: seq<Expr>, exitSt: NameMap,
                    k: nat): (r: (Path, nat))
    ensures k <= r.1
  {
    var (te, k1) := LowerWp(p, nm, exitSt, c, k);
    var (ti, k2) := EncodeClauses(p, nm, exitSt, invs, k1);
    (ConjoinAll(PathAnd(pc, Cond(TNot(te))), ti), k2)
  }

  /** `smtEncodeStmts` */
  function EncodeAll(p: Program, nm: NameMap, ens: seq<Expr>, prem: seq<Term>, pc: Path, ss: seq<Stmt>, st: NameMap,
                     k: nat): (r: Enc)
    ensures k <= r.k && r.exit == Top
    decreases ss, 0
  {
    if |ss| == 0 then Enc(st, k, [], false, Top)
    else
      var e1 := Encode(p, nm, ens, prem, pc, ss[0], st, k);
      if e1.returned then e1
      else
        var e2 := EncodeAll(p, nm, ens, prem, PathAnd(pc, e1.exit), ss[1..], e1.st, e1.k);
        Enc(e2.st, e2.k, e1.obls + e2.obls, e2.returned, Top)
  }

  /** The encoding of an annotated loop, with its collected names. */
  lemma {:induction false} WhileEncoding(p: Program, nm: NameMap, ens: seq<Expr>, prem: seq<Term>, pc: Path, c: Expr,
                                         invs: seq<Expr>, body: seq<Stmt>, st: NameMap, k: nat, mutated: set<string>)
    requires |invs| > 0 && mutated == Mutated(body)
    ensures var r := LoopChecks(p, nm, ens, prem, pc, c, invs, body, st, k);
            Encode(p, nm, ens, prem, pc, While(c, invs, body), st, k)
            == AfterLoop(p, nm, pc, c, invs, st, mutated, r.0, r.1)
  {
    var s := While(c, invs, body);
    var r := LoopChecks(p, nm, ens, prem, pc, c, invs, body, st, k);
    assert Encode(p, nm, ens, prem, pc, s, st, k) == AfterLoop(p, nm, pc, c, invs, st, Mutated(body), r.0, r.1);
  }
}
