/** The pairwise stability queries of a `noninterference` declaration, and what
    their validity means for every interleaving of handler steps. */
module Noninterference {
  import opened Options
  import opened Values
  import opened Terms
  import opened SpecLang
  import opened Lowering
  import opened Statements
  import opened SymbolicExec
  import opened SymbolicSound
  import opened FunctionContracts
  import opened SymbolicExact

  /** A handler whose only return, if any, is its last statement. Array
      parameters are shared by reference. */
  datatype Handler = Handler(params: seq<string>, isArray: seq<bool>, pre: seq<Expr>, body: seq<Stmt>,
                             ret: Option<Expr>)

  function FullBody(h: Handler): seq<Stmt> {
    h.body + if h.ret.Some? then [Return(h.ret.value)] else []
  }

  // ----- the query for one ordered pair -----

  function ArgTerms(n: nat): (ts: seq<Term>)
    ensures |ts| == n
  {
    seq(n, i requires 0 <= i < n => TSym(Arg(i)))
  }

  /** The name map is filled slot by slot: at each slot the names of all three
      lists are bound to the slot's term, so a later slot overwrites a name an
      earlier one bound. */
  function BindSlots(m: NameMap, a: seq<string>, b: seq<string>, c: seq<string>, ts: seq<Term>): NameMap
    requires |a| == |b| == |c| == |ts|
    decreases |a|
  {
    if |a| == 0 then m
    else BindSlots(m[a[0] := ts[0]][b[0] := ts[0]][c[0] := ts[0]], a[1..], b[1..], c[1..], ts[1..])
  }

  /** The store, result and obligations of driving the step handler's body. */
  function DriveBody(p: Program, h: Handler, nm: NameMap, args: seq<Term>): Enc
    requires |h.params| == |args|
  {
    var bodyNm := BodyNames(h, nm, args);
    var (prem, k) := LowerClauses(p, bodyNm, h.pre, 0);
    EncodeAll(p, bodyNm, [], prem, Top, FullBody(h), BodyStore(h, args), k)
  }

  /** Post-state terms: array slots take the body's final term. */
  function PostTerms(h: Handler, args: seq<Term>, st: NameMap): (ts: seq<Term>)
    requires |h.params| == |h.isArray| == |args|
    ensures |ts| == |args| && forall i :: 0 <= i < |args| && !h.isArray[i] ==> ts[i] == args[i]
  {
    seq(|args|, i requires 0 <= i < |args| => if h.isArray[i] && h.params[i] in st then st[h.params[i]] else args[i])
  }

  function ConjoinPre(ts: seq<Term>, acc: Term): Term
    decreases |ts|
  {
    if |ts| == 0 then acc
    else ConjoinPre(ts[1..], if acc == TBool(true) then ts[0] else TBin(And, acc, ts[0]))
  }

  /** Arities match the invariant's; otherwise the pair is skipped. */
  predicate Aligned(inv: SpecFn, h: Handler) {
    |h.params| == |h.isArray| == |inv.params|
  }

  /** The stability query; identical copies of the invariant drop the first. */
  function Stability(req: Term, pre: Term, post: Term): Term {
    if pre == post then TImp(req, post) else TImp(TBin(And, req, pre), post)
  }

  /** The name map of the second copy: the slots' final terms and the result. */
  function PostNames(inv: SpecFn, h: Handler, other: Handler, args: seq<Term>, st: NameMap): NameMap
    requires Aligned(inv, h) && Aligned(inv, other) && |h.params| == |args|
  {
    var result: NameMap := if h.ret.Some? && RESULT in st then map[RESULT := st[RESULT]] else map[];
    BindSlots(map[], inv.params, h.params, other.params, PostTerms(h, args, st)) + result
  }

  /** The obligations of the pair (step `h`, assertion holder `other`): those of
      the driven body, and stability of the invariant. The invariant is lowered
      a second time in a context of its own, so the binders minted for the two
      copies differ; here the second copy goes on from the first one's counter. */
  function PairObligations(p: Program, inv: SpecFn, h: Handler, other: Handler): seq<Obl>
    requires Aligned(inv, h) && Aligned(inv, other)
  {
    var args := ArgTerms(|h.params|);
    var (pre, k) := Lower(p, {}, BindSlots(map[], inv.params, h.params, other.params, args), inv.body, 0);
    var nm := BindSlots(map[], h.params, inv.params, inv.params, args);
    var enc := DriveBody(p, h, nm, args);
    var postNm := PostNames(inv, h, other, args, enc.st);
    var post := Lower(p, {}, postNm, inv.body, k).0;
    var req := ConjoinPre(LowerClauses(p, nm, h.pre, enc.k).0, TBool(true));
    enc.obls + [Obl([], Stability(req, pre, post))]
  }

  /** What a declaration over a list of handlers emits is valid. */
  ghost predicate AllPairsValid(p: Program, inv: SpecFn, sorts: Sorting, hs: seq<Handler>) {
    forall a, b :: 0 <= a < |hs| && 0 <= b < |hs| && a != b && Aligned(inv, hs[a]) && Aligned(inv, hs[b]) ==>
      AllValid(PairObligations(p, inv, hs[a], hs[b]), sorts)
  }

  // ----- concrete steps -----

  /** The environment a handler starts in, over the shared slots. */
  function StepEnv(h: Handler, shared: seq<Value>): Env
    requires |h.params| == |shared|
  {
    Bind(map[], h.params, shared)[RESULT := IntV(0)]
  }

  ghost predicate PreHolds(p: Program, h: Handler, shared: seq<Value>) {
    |h.params| == |shared| && ClausesHold(p, h.pre, StepEnv(h, shared))
  }

  /** One atomic handler step: run the body, then write back the array slots. */
  ghost function Step(p: Program, h: Handler, shared: seq<Value>): (shared': seq<Value>)
    requires |h.params| == |h.isArray| == |shared|
    ensures |shared'| == |shared| && forall i :: 0 <= i < |shared| && !h.isArray[i] ==> shared'[i] == shared[i]
  {
    var o := RunAll(p, h.body, StepEnv(h, shared), 0);
    if o.Normal? then
      seq(|shared|, i requires 0 <= i < |shared| =>
        if h.isArray[i] && h.params[i] in o.s then o.s[h.params[i]] else shared[i])
    else shared
  }

  ghost predicate InvHolds(p: Program, inv: SpecFn, shared: seq<Value>)
    requires |inv.params| == |shared|
  {
    AsBool(Eval(p, {}, inv.body, Bind(map[], inv.params, shared)))
  }

  // ----- when the query means what it should -----

  /** A name bound at slot `i` is not bound again at a later slot. */
  predicate NotReused(xs: seq<string>, i: nat, x: string) {
    forall j :: i < j < |xs| ==> xs[j] != x
  }

  predicate SlotNamesClear(xs: seq<string>, a: seq<string>, b: seq<string>, c: seq<string>) {
    forall i :: 0 <= i < |xs| ==> NotReused(a, i, xs[i]) && NotReused(b, i, xs[i]) && NotReused(c, i, xs[i])
  }

  /** No `return` before the trailing one. */
  predicate NoReturns(ss: seq<Stmt>)
    decreases ss, 0
  {
    |ss| == 0 || (NoReturnsIn(ss[0]) && NoReturns(ss[1..]))
  }

  predicate NoReturnsIn(s: Stmt)
    decreases s, 1
  {
    match s
    case Return(_) => false
    case ReturnVoid => false
    case Block(body) => NoReturns(body)
    case If(_, a, b) => NoReturns(a) && NoReturns(b)
    case While(_, _, body) => NoReturns(body)
    case _ => true
  }

  predicate BodyCovered(p: Program, h: Handler) {
    var dom := Names(h.params) + {RESULT} + p.consts.Keys;
    var f := FlowAll(p, h.body, dom, Names(h.params) + {RESULT});
    f.ok && !f.dead && NoReturns(h.body) && (h.ret.Some? ==> Scoped(p, {}, h.ret.value, f.dom))
  }

  /** What the theorem asks of a pair: resolved arities, bodies in the fragment,
      ordinary names, and no name of one slot reused at a later slot. */
  ghost predicate PairCovered(p: Program, inv: SpecFn, h: Handler, other: Handler) {
    && Aligned(inv, h) && Aligned(inv, other) && NoOldConsts(p) && RESULT !in p.consts
    && Scoped(p, {}, inv.body, Names(inv.params) + p.consts.Keys) && RESULT !in inv.params
    && BodyCovered(p, h) && ClausesScoped(p, h.pre, Names(h.params) + p.consts.Keys)
    && (forall x :: x in h.params || x in inv.params || x in other.params ==> x !in p.consts && !IsOldName(x))
    && RESULT !in h.params
    && SlotNamesClear(inv.params, inv.params, h.params, other.params)
    && SlotNamesClear(h.params, h.params, inv.params, inv.params)
  }

  lemma NamesCons(xs: seq<string>)
    requires |xs| > 0
    ensures Names(xs) == {xs[0]} + Names(xs[1..]) && forall x :: x in xs <==> x == xs[0] || x in xs[1..]
  {
    assert xs == [xs[0]] + xs[1..];
  }

  lemma {:induction false} BindSlotsKeys(m: NameMap, a: seq<string>, b: seq<string>, c: seq<string>, ts: seq<Term>)
    requires |a| == |b| == |c| == |ts|
    ensures BindSlots(m, a, b, c, ts).Keys == m.Keys + Names(a) + Names(b) + Names(c)
    ensures forall x :: x in m && x !in a && x !in b && x !in c ==> BindSlots(m, a, b, c, ts)[x] == m[x]
    ensures forall x :: x in BindSlots(m, a, b, c, ts) && (x in a || x in b || x in c) ==>
        BindSlots(m, a, b, c, ts)[x] in ts
    decreases |a|
  {
    if |a| > 0 {
      var m' := m[a[0] := ts[0]][b[0] := ts[0]][c[0] := ts[0]];
      BindSlotsKeys(m', a[1..], b[1..], c[1..], ts[1..]);
      NamesCons(a); NamesCons(b); NamesCons(c);
    }
  }

  /** If no later slot reuses the name, it stands for its own slot's term. */
  lemma {:induction false} SlotBinding(m: NameMap, a: seq<string>, b: seq<string>, c: seq<string>, ts: seq<Term>,
                                       i: nat, x: string)
    requires |a| == |b| == |c| == |ts| && i < |a| && (x == a[i] || x == b[i] || x == c[i])
    requires NotReused(a, i, x) && NotReused(b, i, x) && NotReused(c, i, x)
    ensures x in BindSlots(m, a, b, c, ts) && BindSlots(m, a, b, c, ts)[x] == ts[i]
    decreases |a|
  {
    var m' := m[a[0] := ts[0]][b[0] := ts[0]][c[0] := ts[0]];
    if i == 0 {
      assert forall j :: 0 <= j < |a[1..]| ==> a[1..][j] == a[j + 1] && b[1..][j] == b[j + 1] && c[1..][j] == c[j + 1];
      BindSlotsKeys(m', a[1..], b[1..], c[1..], ts[1..]);
    } else {
      SlotBinding(m', a[1..], b[1..], c[1..], ts[1..], i - 1, x);
    }
  }

  /** The invariant's parameter stands for its own slot exactly when no later
      slot of the three lists reuses its name (for distinct slot terms). */
  lemma {:induction false} SlotBindingExact(a: seq<string>, b: seq<string>, c: seq<string>, n: nat, i: nat)
    requires |a| == |b| == |c| == n && i < n
    ensures a[i] in BindSlots(map[], a, b, c, ArgTerms(n))
    ensures BindSlots(map[], a, b, c, ArgTerms(n))[a[i]] == TSym(Arg(i))
       <==> NotReused(a, i, a[i]) && NotReused(b, i, a[i]) && NotReused(c, i, a[i])
  {
    var x := a[i];
    BindSlotsKeys(map[], a, b, c, ArgTerms(n));
    var last := LastSlot(a, b, c, i, x);
    SlotBinding(map[], a, b, c, ArgTerms(n), last, x);
  }

  lemma {:induction false} LastSlot(a: seq<string>, b: seq<string>, c: seq<string>, i: nat,
                                    x: string) returns (last: nat)
    requires |a| == |b| == |c| && i < |a| && x == a[i]
    ensures i <= last < |a| && (x == a[last] || x == b[last] || x == c[last])
    ensures NotReused(a, last, x) && NotReused(b, last, x) && NotReused(c, last, x)
    ensures last == i <==> NotReused(a, i, x) && NotReused(b, i, x) && NotReused(c, i, x)
  {
    last := i;
    var j := i + 1;
    while j < |a|
      invariant i <= last < j <= |a| && (x == a[last] || x == b[last] || x == c[last])
      invariant forall l :: last < l < j ==> a[l] != x && b[l] != x && c[l] != x
    {
      if a[j] == x || b[j] == x || c[j] == x { last := j; }
      j := j + 1;
    }
  }

  // ----- the pair query is sound -----

  function SlotSyms(n: nat): set<Sym> {
    (set i | 0 <= i < n :: Arg(i)) + {Const(ResultSym, RESULT)}
  }

  function SlotValuation(shared: seq<Value>): Valuation {
    map s | s in SlotSyms(|shared|) :: if s.Arg? && s.index < |shared| then shared[s.index] else IntV(0)
  }

  lemma ArgValue(shared: seq<Value>, i: nat)
    requires i < |shared|
    ensures EvalT(TSym(Arg(i)), SlotValuation(shared)) == shared[i] && Arg(i) in SlotSyms(|shared|)
  {
    assert Arg(i) in SlotSyms(|shared|);
  }

  /** Lowering the invariant over slot terms evaluates it over their values. */
  lemma {:induction false} InvariantTerm(p: Program, inv: SpecFn, b: seq<string>, c: seq<string>, ts: seq<Term>,
                                         extra: NameMap, shared: seq<Value>, rho: Valuation, syms: set<Sym>, k: nat)
    requires |inv.params| == |b| == |c| == |ts| == |shared| && NoOldConsts(p)
    requires Scoped(p, {}, inv.body, Names(inv.params) + p.consts.Keys) && SlotNamesClear(inv.params, inv.params, b, c)
    requires Below(syms, 0) && extra.Keys !! Names(inv.params) && SymsIn(extra, syms)
    requires (Names(inv.params) + Names(b) + Names(c) + extra.Keys) !! p.consts.Keys
    requires forall i :: 0 <= i < |ts| ==> Free(ts[i]) <= syms && EvalT(ts[i], rho) == shared[i]
    ensures EvalT(Lower(p, {}, BindSlots(map[], inv.params, b, c, ts) + extra, inv.body, k).0, rho)
         == Eval(p, {}, inv.body, Bind(map[], inv.params, shared))
  {
    var nm := BindSlots(map[], inv.params, b, c, ts) + extra;
    InvariantNames(inv, b, c, ts, extra, syms);
    LowerPreservesMeaning(p, {}, nm, inv.body, Names(inv.params) + p.consts.Keys, k, syms, rho);
    var env: Env := Bind(map[], inv.params, shared);
    BindKeys(map[], inv.params, shared);
    forall x | x in Names(inv.params) ensures Lookup(p, EnvOf(nm, rho), x) == Lookup(p, env, x) {
      var i :| 0 <= i < |inv.params| && inv.params[i] == x;
      SlotBinding(map[], inv.params, b, c, ts, i, x);
      BoundValue(map[], inv.params, shared, i);
    }
    EvalAgree(p, {}, inv.body, Names(inv.params) + p.consts.Keys, EnvOf(nm, rho), env);
  }

  lemma {:induction false} InvariantNames(inv: SpecFn, b: seq<string>, c: seq<string>, ts: seq<Term>, extra: NameMap,
                                          syms: set<Sym>)
    requires |inv.params| == |b| == |c| == |ts| && SymsIn(extra, syms) && forall i :: 0 <= i < |ts| ==>
        Free(ts[i]) <= syms
    ensures var nm := BindSlots(map[], inv.params, b, c, ts) + extra;
            nm.Keys == Names(inv.params) + Names(b) + Names(c) + extra.Keys && SymsIn(nm, syms)
  {
    BindSlotsKeys(map[], inv.params, b, c, ts);
  }

  lemma {:induction false} BoundValue<T>(m: map<string, T>, names: seq<string>, vs: seq<T>, i: nat)
    requires |names| == |vs| && i < |names| && NotReused(names, i, names[i])
    ensures names[i] in Bind(m, names, vs) && Bind(m, names, vs)[names[i]] == vs[i]
    decreases |names|
  {
    if i == 0 {
      BindKeys(m[names[0] := vs[0]], names[1..], vs[1..]);
      assert forall j :: 0 <= j < |names[1..]| ==> names[1..][j] == names[j + 1];
    } else {
      BoundValue(m[names[0] := vs[0]], names[1..], vs[1..], i - 1);
    }
  }

  lemma {:induction false} NeverReturns(p: Program, s: Stmt, env: Env, fuel: nat)
    requires NoReturnsIn(s)
    ensures !Run(p, s, env, fuel).Returned?
    decreases fuel, s, 1
  {
    match s
    case Block(body) => NeverReturnsAll(p, body, env, fuel);
    case If(_, a, b) => NeverReturnsAll(p, a, env, fuel); NeverReturnsAll(p, b, env, fuel);
    case While(c, _, body) =>
      NeverReturnsAll(p, body, env, fuel);
      var o := RunScope(p, body, env, fuel);
      if fuel > 0 && o.Normal? { NeverReturns(p, s, o.s, fuel - 1); }
    case _ =>
  }

  lemma {:induction false} NeverReturnsAll(p: Program, ss: seq<Stmt>, env: Env, fuel: nat)
    requires NoReturns(ss)
    ensures !RunAll(p, ss, env, fuel).Returned?
    decreases fuel, ss, 0
  {
    if |ss| > 0 {
      NeverReturns(p, ss[0], env, fuel);
      var o := Run(p, ss[0], env, fuel);
      if o.Normal? { NeverReturnsAll(p, ss[1..], o.s, fuel); }
    }
  }

  /** Appending the trailing return only records the result. */
  lemma {:induction false} EncodeTrailing(p: Program, nm: NameMap, prem: seq<Term>, pc: Path, ss: seq<Stmt>, e: Expr,
                                          st: NameMap, k: nat)
    requires !EncodeAll(p, nm, [], prem, pc, ss, st, k).returned
    ensures var r1 := EncodeAll(p, nm, [], prem, pc, ss, st, k);
            var r2 := EncodeAll(p, nm, [], prem, pc, ss + [Return(e)], st, k);
            r2.obls == r1.obls && r2.st == r1.st[RESULT := LowerWp(p, nm, r1.st, e, r1.k).0]
    decreases |ss|
  {
    var all := ss + [Return(e)];
    if |ss| == 0 {
      assert all == [Return(e)] && all[1..] == [];
      assert EncodeClauses(p, nm, st[RESULT := LowerWp(p, nm, st, e, k).0], [], LowerWp(p, nm, st, e, k).1).0 == [];
    } else {
      assert all[0] == ss[0] && all[1..] == ss[1..] + [Return(e)];
      var e1 := Encode(p, nm, [], prem, pc, ss[0], st, k);
      EncodeTrailing(p, nm, prem, PathAnd(pc, e1.exit), ss[1..], e, e1.st, e1.k);
    }
  }

  ghost predicate ParamsDenote(h: Handler, nm: NameMap, rho: Valuation, env: Env) {
    forall x :: x in Names(h.params) ==> x in nm && x in env && EvalT(nm[x], rho) == env[x]
  }

  /** The name map and the store a body is driven with. */
  function BodyNames(h: Handler, nm: NameMap, args: seq<Term>): NameMap
    requires |h.params| == |args|
  {
    Bind(nm, h.params, args)[RESULT := TSym(Const(ResultSym, RESULT))]
  }

  function BodyStore(h: Handler, args: seq<Term>): NameMap
    requires |h.params| == |args|
  {
    Bind(map[], h.params, args)[RESULT := TSym(Const(ResultSym, RESULT))]
  }

  lemma {:induction false} BodySyms(h: Handler, nm: NameMap, n: nat)
    requires |h.params| == n && SymsIn(nm, SlotSyms(n))
    ensures SymsIn(BodyNames(h, nm, ArgTerms(n)), SlotSyms(n)) && SymsIn(BodyStore(h, ArgTerms(n)), SlotSyms(n))
  {
    SymsInBind(nm, h.params, ArgTerms(n), SlotSyms(n));
    SymsInBind(map[], h.params, ArgTerms(n), SlotSyms(n));
  }

  lemma {:induction false} BodyParam(h: Handler, nm: NameMap, shared: seq<Value>, i: nat)
    requires i < |h.params| == |shared| && NotReused(h.params, i, h.params[i]) && h.params[i] != RESULT
    ensures var x, args := h.params[i], ArgTerms(|shared|);
            && x in BodyNames(h, nm, args) && BodyNames(h, nm, args)[x] == TSym(Arg(i))
            && x in BodyStore(h, args) && BodyStore(h, args)[x] == TSym(Arg(i))
            && x in StepEnv(h, shared) && StepEnv(h, shared)[x] == shared[i]
  {
    BoundValue(nm, h.params, ArgTerms(|shared|), i);
    BoundValue(map[], h.params, ArgTerms(|shared|), i);
    BoundValue(map[], h.params, shared, i);
  }

  lemma {:induction false} BodyKeys(h: Handler, nm: NameMap, shared: seq<Value>)
    requires |h.params| == |shared|
    ensures BodyNames(h, nm, ArgTerms(|shared|)).Keys == nm.Keys + Names(h.params) + {RESULT}
    ensures BodyStore(h, ArgTerms(|shared|)).Keys == Names(h.params) + {RESULT} == StepEnv(h, shared).Keys
  {
    BindKeys(nm, h.params, ArgTerms(|shared|));
    BindKeys(map[], h.params, ArgTerms(|shared|));
    BindKeys(map[], h.params, shared);
  }

  lemma {:induction false} SlotMapSyms(inv: SpecFn, h: Handler, shared: seq<Value>)
    requires |h.params| == |inv.params| == |shared|
    ensures SymsIn(BindSlots(map[], h.params, inv.params, inv.params, ArgTerms(|shared|)), SlotSyms(|shared|))
    ensures BindSlots(map[], h.params, inv.params, inv.params, ArgTerms(|shared|)).Keys
         == Names(h.params) + Names(inv.params)
  {
    var args := ArgTerms(|shared|);
    BindSlotsKeys(map[], h.params, inv.params, inv.params, args);
    forall t | t in args ensures Free(t) <= SlotSyms(|shared|) {
      var i :| 0 <= i < |shared| && args[i] == t;
      ArgValue(shared, i);
    }
  }

  ghost predicate Ordinary(p: Program, x: string) {
    x !in p.consts && !IsOldName(x)
  }

  /** Each parameter of the driven body is its slot's term and value. */
  lemma {:induction false} BodyParams(h: Handler, nm: NameMap, shared: seq<Value>)
    requires |h.params| == |shared| && SlotNamesClear(h.params, h.params, h.params, h.params) && RESULT !in h.params
    ensures forall x :: x in h.params ==>
      var bodyNm, st := BodyNames(h, nm, ArgTerms(|shared|)), BodyStore(h, ArgTerms(|shared|));
      && x in bodyNm && x in st && x in StepEnv(h, shared) && bodyNm[x] == st[x]
      && EvalT(st[x], SlotValuation(shared)) == StepEnv(h, shared)[x]
  {
    forall x | x in h.params
      ensures var bodyNm, st := BodyNames(h, nm, ArgTerms(|shared|)), BodyStore(h, ArgTerms(|shared|));
              && x in bodyNm && x in st && x in StepEnv(h, shared) && bodyNm[x] == st[x]
              && EvalT(st[x], SlotValuation(shared)) == StepEnv(h, shared)[x]
    {
      var i :| 0 <= i < |shared| && h.params[i] == x;
      BodyParam(h, nm, shared, i);
      ArgValue(shared, i);
    }
  }

  /** The driven body's entry store denotes the step's start state. */
  lemma {:induction false} DriveReady(p: Program, inv: SpecFn, h: Handler, other: Handler, shared: seq<Value>,
                                      nm: NameMap, k: nat)
    requires PairCovered(p, inv, h, other) && |shared| == |h.params|
    requires nm == BindSlots(map[], h.params, inv.params, inv.params, ArgTerms(|h.params|))
    ensures var bodyNm, st := BodyNames(h, nm, ArgTerms(|h.params|)), BodyStore(h, ArgTerms(|h.params|));
            var dom := Names(h.params) + {RESULT} + p.consts.Keys;
            && Ready(p, bodyNm, st, dom, SlotSyms(|shared|), k)
            && Denotes(p, bodyNm, st, dom, SlotValuation(shared), StepEnv(h, shared))
            && SymsIn(bodyNm, SlotSyms(|shared|)) && st.Keys == Names(h.params) + {RESULT}
            && ParamsDenote(h, bodyNm, SlotValuation(shared), StepEnv(h, shared))
  {
    SlotMapSyms(inv, h, shared);
    BodySyms(h, nm, |shared|);
    BodyKeys(h, nm, shared);
    BodyParams(h, nm, shared);
    var bodyNm, st := BodyNames(h, nm, ArgTerms(|h.params|)), BodyStore(h, ArgTerms(|h.params|));
    assert RESULT[0] != OldName("")[0];
    ReadyAt(p, h.params, inv.params, bodyNm, st, SlotSyms(|shared|), k);
    DenotesAt(p, h.params, bodyNm, st, SlotValuation(shared), StepEnv(h, shared));
  }

  lemma {:induction false} ReadyAt(p: Program, params: seq<string>, more: seq<string>, nm: NameMap, st: NameMap,
                                   syms: set<Sym>, k: nat)
    requires NoOldConsts(p) && Ordinary(p, RESULT) && (forall x :: x in params || x in more ==> Ordinary(p, x))
    requires st.Keys == Names(params) + {RESULT} && nm.Keys == Names(params) + Names(more) + {RESULT}
    requires SymsIn(nm, syms) && SymsIn(st, syms) && Below(syms, k)
    ensures Ready(p, nm, st, Names(params) + {RESULT} + p.consts.Keys, syms, k)
  {
    forall x | x in nm + st ensures Ordinary(p, x) && Free((nm + st)[x]) <= syms { }
  }

  lemma {:induction false} DenotesAt(p: Program, params: seq<string>, nm: NameMap, st: NameMap, rho: Valuation,
                                     env: Env)
    requires Ordinary(p, RESULT) && (forall x :: x in params ==> Ordinary(p, x))
    requires st.Keys == Names(params) + {RESULT} == env.Keys
    requires forall x :: x in params ==> EvalT(st[x], rho) == env[x]
    requires EvalT(st[RESULT], rho) == env[RESULT]
    ensures Denotes(p, nm, st, Names(params) + {RESULT} + p.consts.Keys, rho, env)
  {
    forall x | x in env ensures x in nm + st && EvalT((nm + st)[x], rho) == env[x] { }
  }

  /** The driven body's premises hold where the handler's `requires` do, and only
      there. */
  lemma {:induction false} DrivePremises(p: Program, inv: SpecFn, h: Handler, other: Handler, shared: seq<Value>,
                                         nm: NameMap)
    requires PairCovered(p, inv, h, other) && |shared| == |h.params|
    requires nm == BindSlots(map[], h.params, inv.params, inv.params, ArgTerms(|h.params|))
    ensures AllTrue(LowerClauses(p, BodyNames(h, nm, ArgTerms(|h.params|)), h.pre, 0).0, SlotValuation(shared))
       <==> PreHolds(p, h, shared)
  {
    var bodyNm := BodyNames(h, nm, ArgTerms(|h.params|));
    DriveReady(p, inv, h, other, shared, nm, 0);
    LowerClausesMeaning(p, bodyNm, h.pre, Names(h.params) + p.consts.Keys, SlotSyms(|shared|), 0, SlotValuation(shared),
                        StepEnv(h, shared));
  }

  /** A body without returns never ends its path, so it runs as it is checked. */
  lemma {:induction false} NoReturnsGoOn(p: Program, s: Stmt, dom: set<string>, keys: set<string>)
    requires NoReturnsIn(s) && Flow(p, s, dom, keys).ok
    ensures !Ends(s) && Balanced(s)
    decreases s, 1
  {
    match s
    case If(_, a, b) => NoReturnsGoOnAll(p, a, dom, keys); NoReturnsGoOnAll(p, b, dom, keys);
    case Block(body) => NoReturnsGoOnAll(p, body, dom, keys);
    case _ =>
  }

  lemma {:induction false} NoReturnsGoOnAll(p: Program, ss: seq<Stmt>, dom: set<string>, keys: set<string>)
    requires NoReturns(ss) && FlowAll(p, ss, dom, keys).ok
    ensures !EndsAll(ss) && BalancedAll(ss)
    decreases ss, 0
  {
    if |ss| > 0 {
      var f := Flow(p, ss[0], dom, keys);
      NoReturnsGoOn(p, ss[0], dom, keys);
      FlowEnds(p, ss[0], dom, keys);
      NoReturnsGoOnAll(p, ss[1..], f.dom, f.keys);
    }
  }

  /** The obligations of the driven body hold exactly if a step that meets
      `requires` runs through; and where it does, the post-state terms have the
      values it leaves in the shared slots. */
  lemma {:induction false} DriveExact(p: Program, inv: SpecFn, h: Handler, other: Handler, shared: seq<Value>)
    requires PairCovered(p, inv, h, other) && |shared| == |h.params|
    ensures var args := ArgTerms(|h.params|);
            var nm := BindSlots(map[], h.params, inv.params, inv.params, args);
            var enc := DriveBody(p, h, nm, args);
            var through := RunAll(p, h.body, StepEnv(h, shared), 0).Normal?;
            && (AllHold(enc.obls, SlotValuation(shared)) <==> (PreHolds(p, h, shared) ==> through))
            && (RESULT in enc.st ==> Free(enc.st[RESULT]) <= SlotSyms(|shared|))
            && (through ==> TermsDenote(PostTerms(h, args, enc.st), SlotValuation(shared), Step(p, h, shared),
                                        SlotSyms(|shared|)))
  {
    var n := |shared|;
    var args := ArgTerms(n);
    var nm := BindSlots(map[], h.params, inv.params, inv.params, args);
    var bodyNm, st := BodyNames(h, nm, args), BodyStore(h, args);
    var syms, rho, env := SlotSyms(n), SlotValuation(shared), StepEnv(h, shared);
    var dom := Names(h.params) + {RESULT} + p.consts.Keys;
    var (prem, k) := LowerClauses(p, bodyNm, h.pre, 0);
    DriveReady(p, inv, h, other, shared, nm, k);
    DrivePremises(p, inv, h, other, shared, nm);
    BodyExact(p, h, bodyNm, prem, st, dom, syms, k, rho, env);
    var enc, f := EncodeAll(p, bodyNm, [], prem, Top, h.body, st, k), FlowAll(p, h.body, dom, st.Keys);
    FullBodyEncoding(p, h, bodyNm, prem, st, k);
    if h.ret.Some? { TermFree(p, bodyNm, enc.st, h.ret.value, f.dom, syms, enc.k); }
    if RunAll(p, h.body, env, 0).Normal? {
      SlotsAfter(p, h, bodyNm, enc.st, DriveBody(p, h, nm, args).st, f.dom, syms, rho, shared);
    }
  }

  /** The same for the walk of the body without the trailing return. */
  lemma {:induction false} BodyExact(p: Program, h: Handler, nm: NameMap, prem: seq<Term>, st: NameMap,
                                     dom: set<string>, syms: set<Sym>, k: nat, rho: Valuation, env: Env)
    requires Ready(p, nm, st, dom, syms, k) && Denotes(p, nm, st, dom, rho, env) && RESULT !in p.consts
    requires NoReturns(h.body) && FlowAll(p, h.body, dom, st.Keys).ok
    ensures var enc, f := EncodeAll(p, nm, [], prem, Top, h.body, st, k), FlowAll(p, h.body, dom, st.Keys);
            var o := RunAll(p, h.body, env, 0);
            && (AllHold(enc.obls, rho) <==> (AllTrue(prem, rho) ==> o.Normal?))
            && !enc.returned && enc.st.Keys == f.keys && Ready(p, nm, enc.st, f.dom, syms, enc.k)
            && (o.Normal? ==> Denotes(p, nm, enc.st, f.dom, rho, o.s))
  {
    NoReturnsGoOnAll(p, h.body, dom, st.Keys);
    FlowEndsAll(p, h.body, dom, st.Keys);
    EncodeStaticAll(p, nm, [], prem, Top, h.body, st, dom, syms, k);
    BalancedRunAll(p, [], h.body, env, 0);
    NeverReturnsAll(p, h.body, env, 0);
    TracksAll(p, nm, [], prem, Top, h.body, st, dom, syms, k, rho, env);
    if AllTrue(prem, rho) {
      ExactAll(p, nm, [], {}, prem, Top, h.body, st, dom, syms, k, rho, env);
    } else {
      OffPathAll(p, nm, [], prem, Top, h.body, st, k, rho);
    }
  }

  ghost predicate TermsDenote(ts: seq<Term>, rho: Valuation, vs: seq<Value>, syms: set<Sym>) {
    |ts| == |vs| && forall i :: 0 <= i < |ts| ==> Free(ts[i]) <= syms && EvalT(ts[i], rho) == vs[i]
  }

  /** The walk of the whole body, in terms of the walk without the trailing
      return. */
  lemma {:induction false} FullBodyEncoding(p: Program, h: Handler, nm: NameMap, prem: seq<Term>, st: NameMap, k: nat)
    requires !EncodeAll(p, nm, [], prem, Top, h.body, st, k).returned
    ensures var enc := EncodeAll(p, nm, [], prem, Top, h.body, st, k);
            var full := EncodeAll(p, nm, [], prem, Top, FullBody(h), st, k);
            full.obls == enc.obls
            && full.st == if h.ret.Some? then enc.st[RESULT := LowerWp(p, nm, enc.st, h.ret.value, enc.k).0] else enc.st
  {
    if h.ret.Some? {
      EncodeTrailing(p, nm, prem, Top, h.body, h.ret.value, st, k);
    } else {
      assert h.body + [] == h.body;
    }
  }

  lemma {:induction false} SlotsAfter(p: Program, h: Handler, nm: NameMap, st: NameMap, full: NameMap, dom: set<string>,
                                      syms: set<Sym>, rho: Valuation, shared: seq<Value>)
    requires |h.params| == |h.isArray| == |shared| && RESULT !in h.params && SymsIn(nm + st, syms)
    requires rho == SlotValuation(shared) && syms == SlotSyms(|shared|)
    requires Names(h.params) <= st.Keys && (full == st || (RESULT in full && full == st[RESULT := full[RESULT]]))
    requires var o := RunAll(p, h.body, StepEnv(h, shared), 0);
             o.Normal? && Names(h.params) <= o.s.Keys && Denotes(p, nm, st, dom, rho, o.s)
    ensures TermsDenote(PostTerms(h, ArgTerms(|shared|), full), rho, Step(p, h, shared), syms)
  {
    var o := RunAll(p, h.body, StepEnv(h, shared), 0);
    var ts := PostTerms(h, ArgTerms(|shared|), full);
    forall i | 0 <= i < |shared| ensures Free(ts[i]) <= syms && EvalT(ts[i], rho) == Step(p, h, shared)[i] {
      ArgValue(shared, i);
      var x := h.params[i];
      assert x in Names(h.params);
      assert full[x] == st[x] == (nm + st)[x];
    }
  }

  /** The conjunction says that all its terms are true. */
  lemma {:induction false} ConjoinPreMeaning(ts: seq<Term>, acc: Term, rho: Valuation)
    ensures True(ConjoinPre(ts, acc), rho) <==> True(acc, rho) && AllTrue(ts, rho)
    decreases |ts|
  {
    if |ts| > 0 {
      assert EvalT(TBin(And, acc, ts[0]), rho) == Apply(And, EvalT(acc, rho), EvalT(ts[0], rho));
      ConjoinPreMeaning(ts[1..], if acc == TBool(true) then ts[0] else TBin(And, acc, ts[0]), rho);
      AllTrueCons(ts[0], ts[1..], rho);
      assert ts == [ts[0]] + ts[1..];
    }
  }

  /** The step's premise, as lowered for the stability query, is true where the
      handler's `requires` hold, and only there. */
  lemma {:induction false} StepPremise(p: Program, inv: SpecFn, h: Handler, other: Handler, shared: seq<Value>, k: nat)
    requires PairCovered(p, inv, h, other) && |shared| == |h.params|
    ensures var nm := BindSlots(map[], h.params, inv.params, inv.params, ArgTerms(|h.params|));
            True(ConjoinPre(LowerClauses(p, nm, h.pre, k).0, TBool(true)), SlotValuation(shared))
            <==> PreHolds(p, h, shared)
  {
    var n := |shared|;
    var nm := BindSlots(map[], h.params, inv.params, inv.params, ArgTerms(n));
    SlotMapSyms(inv, h, shared);
    forall x | x in Names(h.params)
      ensures x in StepEnv(h, shared) && EvalT(nm[x], SlotValuation(shared)) == StepEnv(h, shared)[x]
    {
      var i :| 0 <= i < n && h.params[i] == x;
      BodyParam(h, nm, shared, i);
      SlotBinding(map[], h.params, inv.params, inv.params, ArgTerms(n), i, x);
      ArgValue(shared, i);
    }
    BodyKeys(h, nm, shared);
    LowerClausesMeaning(p, nm, h.pre, Names(h.params) + p.consts.Keys, SlotSyms(n), k, SlotValuation(shared),
                        StepEnv(h, shared));
    ConjoinPreMeaning(LowerClauses(p, nm, h.pre, k).0, TBool(true), SlotValuation(shared));
  }

  /** The first copy of the invariant is true where the invariant holds. */
  lemma {:induction false} PreTerm(p: Program, inv: SpecFn, h: Handler, other: Handler, shared: seq<Value>)
    requires PairCovered(p, inv, h, other) && |shared| == |h.params|
    ensures True(Lower(p, {}, BindSlots(map[], inv.params, h.params, other.params, ArgTerms(|h.params|)), inv.body,
                       0).0, SlotValuation(shared))
       <==> InvHolds(p, inv, shared)
  {
    var n, rho, syms := |shared|, SlotValuation(shared), SlotSyms(|shared|);
    var args := ArgTerms(n);
    var nm := BindSlots(map[], inv.params, h.params, other.params, args);
    forall i | 0 <= i < n ensures Free(args[i]) <= syms && EvalT(args[i], rho) == shared[i] { ArgValue(shared, i); }
    InvariantTerm(p, inv, h.params, other.params, args, map[], shared, rho, syms, 0);
    assert nm + map[] == nm;
  }

  /** The second copy is true where the invariant holds after a step that runs
      through. */
  lemma {:induction false} PostTerm(p: Program, inv: SpecFn, h: Handler, other: Handler, shared: seq<Value>, k: nat)
    requires PairCovered(p, inv, h, other) && |shared| == |h.params|
    requires RunAll(p, h.body, StepEnv(h, shared), 0).Normal?
    ensures var args := ArgTerms(|h.params|);
            var enc := DriveBody(p, h, BindSlots(map[], h.params, inv.params, inv.params, args), args);
            True(Lower(p, {}, PostNames(inv, h, other, args, enc.st), inv.body, k).0, SlotValuation(shared))
            <==> InvHolds(p, inv, Step(p, h, shared))
  {
    var args := ArgTerms(|h.params|);
    var st := DriveBody(p, h, BindSlots(map[], h.params, inv.params, inv.params, args), args).st;
    DriveExact(p, inv, h, other, shared);
    PostNamesMeaning(p, inv, h, other, args, st, Step(p, h, shared), SlotValuation(shared), SlotSyms(|shared|), k);
  }

  /** The second copy, over terms for the slots' final values. */
  lemma {:induction false} PostNamesMeaning(p: Program, inv: SpecFn, h: Handler, other: Handler, args: seq<Term>,
                                            st: NameMap, after: seq<Value>, rho: Valuation, syms: set<Sym>, k: nat)
    requires PairCovered(p, inv, h, other) && |args| == |h.params| == |after| && Below(syms, 0)
    requires TermsDenote(PostTerms(h, args, st), rho, after, syms) && (RESULT in st ==> Free(st[RESULT]) <= syms)
    ensures True(Lower(p, {}, PostNames(inv, h, other, args, st), inv.body, k).0, rho) <==> InvHolds(p, inv, after)
  {
    var result: NameMap := if h.ret.Some? && RESULT in st then map[RESULT := st[RESULT]] else map[];
    InvariantTerm(p, inv, h.params, other.params, PostTerms(h, args, st), result, after, rho, syms, k);
  }

  /** The two copies of the invariant in the pair's query are one term. */
  predicate SameCopies(p: Program, inv: SpecFn, h: Handler, other: Handler)
    requires Aligned(inv, h) && Aligned(inv, other)
  {
    var args := ArgTerms(|h.params|);
    var (pre, k) := Lower(p, {}, BindSlots(map[], inv.params, h.params, other.params, args), inv.body, 0);
    var st := DriveBody(p, h, BindSlots(map[], h.params, inv.params, inv.params, args), args).st;
    pre == Lower(p, {}, PostNames(inv, h, other, args, st), inv.body, k).0
  }

  /** What a pair's obligations are about, for given values of the slots: a step
      that meets `requires` runs through, and ends in the invariant if it starts
      there, or wherever it starts if the query drops the first copy. */
  ghost predicate StepChecks(p: Program, inv: SpecFn, h: Handler, other: Handler, shared: seq<Value>)
    requires Aligned(inv, h) && Aligned(inv, other) && |shared| == |h.params|
  {
    PreHolds(p, h, shared) ==>
      && RunAll(p, h.body, StepEnv(h, shared), 0).Normal?
      && (SameCopies(p, inv, h, other) || InvHolds(p, inv, shared) ==> InvHolds(p, inv, Step(p, h, shared)))
  }

  /** The pair's obligations are exact. */
  lemma {:induction false} PairExact(p: Program, inv: SpecFn, h: Handler, other: Handler, shared: seq<Value>)
    requires PairCovered(p, inv, h, other) && |shared| == |h.params|
    ensures AllHold(PairObligations(p, inv, h, other), SlotValuation(shared)) <==> StepChecks(p, inv, h, other, shared)
  {
    var args := ArgTerms(|h.params|);
    var nm := BindSlots(map[], h.params, inv.params, inv.params, args);
    var enc := DriveBody(p, h, nm, args);
    var (pre, k) := Lower(p, {}, BindSlots(map[], inv.params, h.params, other.params, args), inv.body, 0);
    var post := Lower(p, {}, PostNames(inv, h, other, args, enc.st), inv.body, k).0;
    var req := ConjoinPre(LowerClauses(p, nm, h.pre, enc.k).0, TBool(true));
    PreTerm(p, inv, h, other, shared);
    StepPremise(p, inv, h, other, shared, enc.k);
    DriveExact(p, inv, h, other, shared);
    if RunAll(p, h.body, StepEnv(h, shared), 0).Normal? { PostTerm(p, inv, h, other, shared, k); }
    AllHoldAppend(enc.obls, [Obl([], Stability(req, pre, post))], SlotValuation(shared));
    StabilityMeaning(req, pre, post, SlotValuation(shared));
  }

  lemma {:induction false} StabilityMeaning(req: Term, pre: Term, post: Term, rho: Valuation)
    ensures AllHold([Obl([], Stability(req, pre, post))], rho)
       <==> (True(req, rho) && (pre == post || True(pre, rho)) ==> True(post, rho))
  {
    var o := Obl([], Stability(req, pre, post));
    assert AllHold([o], rho) <==> Holds(o, rho) by { assert o in [o]; }
    assert EvalT(TBin(And, req, pre), rho) == Apply(And, EvalT(req, rho), EvalT(pre, rho));
    ImpMeaning(req, post, rho);
    ImpMeaning(TBin(And, req, pre), post, rho);
  }

  /** In the second copy `result` stands for what the handler returns. */
  lemma {:induction false} ResultDenotes(p: Program, inv: SpecFn, h: Handler, other: Handler, shared: seq<Value>)
    requires PairCovered(p, inv, h, other) && |shared| == |h.params| && h.ret.Some?
    requires RESULT !in other.params && RunAll(p, h.body, StepEnv(h, shared), 0).Normal?
    ensures var args := ArgTerms(|h.params|);
            var st := DriveBody(p, h, BindSlots(map[], h.params, inv.params, inv.params, args), args).st;
            var nm := PostNames(inv, h, other, args, st);
            RESULT in nm && EvalT(nm[RESULT], SlotValuation(shared))
                         == Eval(p, {}, h.ret.value, RunAll(p, h.body, StepEnv(h, shared), 0).s)
  {
    var n := |shared|;
    var args := ArgTerms(n);
    var nm := BindSlots(map[], h.params, inv.params, inv.params, args);
    var bodyNm, st := BodyNames(h, nm, args), BodyStore(h, args);
    var syms, rho, env := SlotSyms(n), SlotValuation(shared), StepEnv(h, shared);
    var dom := Names(h.params) + {RESULT} + p.consts.Keys;
    var (prem, k) := LowerClauses(p, bodyNm, h.pre, 0);
    DriveReady(p, inv, h, other, shared, nm, k);
    BodyExact(p, h, bodyNm, prem, st, dom, syms, k, rho, env);
    var enc, f := EncodeAll(p, bodyNm, [], prem, Top, h.body, st, k), FlowAll(p, h.body, dom, st.Keys);
    FullBodyEncoding(p, h, bodyNm, prem, st, k);
    TermValue(p, bodyNm, enc.st, h.ret.value, f.dom, syms, enc.k, rho, RunAll(p, h.body, env, 0).s);
  }

  /** Without a returned value the second copy has no `result`. */
  lemma NoResult(inv: SpecFn, h: Handler, other: Handler, args: seq<Term>, st: NameMap)
    requires Aligned(inv, h) && Aligned(inv, other) && |h.params| == |args| && h.ret.None?
    requires RESULT !in inv.params && RESULT !in h.params && RESULT !in other.params
    ensures RESULT !in PostNames(inv, h, other, args, st)
  {
    BindSlotsKeys(map[], inv.params, h.params, other.params, PostTerms(h, args, st));
  }

  /** One pair: if its obligations are valid, a step of the handler from a state
      that meets its `requires` and the invariant ends in a state that meets
      the invariant. */
  lemma {:induction false} PairIsStable(p: Program, inv: SpecFn, sorts: Sorting, h: Handler, other: Handler,
                                        shared: seq<Value>)
    requires PairCovered(p, inv, h, other) && PreHolds(p, h, shared) && InvHolds(p, inv, shared)
    requires AllValid(PairObligations(p, inv, h, other), sorts) && WellSorted(SlotValuation(shared), sorts)
    ensures InvHolds(p, inv, Step(p, h, shared))
  {
    forall o | o in PairObligations(p, inv, h, other) ensures Holds(o, SlotValuation(shared)) {
      assert Valid(o, sorts);
    }
    PairExact(p, inv, h, other, shared);
  }

  // ----- whole runs -----

  /** The same values at the given slots. */
  ghost predicate SameOn(slots: seq<bool>, a: seq<Value>, b: seq<Value>) {
    |a| == |b| == |slots| && forall i :: 0 <= i < |slots| && slots[i] ==> a[i] == b[i]
  }

  function SlotNames(inv: SpecFn, slots: seq<bool>): set<string>
    requires |slots| == |inv.params|
  {
    set i | 0 <= i < |slots| && slots[i] :: inv.params[i]
  }

  /** A run of handler steps over the shared slots: each step is called with
      arguments of its own that agree with the state on those slots and meet the
      handler's `requires`, and the next state agrees with what it leaves. */
  ghost predicate IsStep(p: Program, sorts: Sorting, hs: seq<Handler>, slots: seq<bool>, a: nat, call: seq<Value>,
                         before: seq<Value>, after: seq<Value>) {
    && a < |hs| && |hs[a].isArray| == |slots| && SameOn(slots, call, before)
    && PreHolds(p, hs[a], call) && WellSorted(SlotValuation(call), sorts)
    && SameOn(slots, after, Step(p, hs[a], call))
  }

  ghost predicate IsRun(p: Program, sorts: Sorting, hs: seq<Handler>, slots: seq<bool>, who: seq<nat>,
                        calls: seq<seq<Value>>, states: seq<seq<Value>>) {
    && |states| == |who| + 1 && |calls| == |who|
    && forall i :: 0 <= i < |who| ==> IsStep(p, sorts, hs, slots, who[i], calls[i], states[i], states[i + 1])
  }

  ghost predicate AllCovered(p: Program, inv: SpecFn, hs: seq<Handler>) {
    forall a, b :: 0 <= a < |hs| && 0 <= b < |hs| && a != b ==> PairCovered(p, inv, hs[a], hs[b])
  }

  /** An invariant over the shared slots does not see the others. */
  lemma {:induction false} InvariantSeesSlots(p: Program, inv: SpecFn, slots: seq<bool>, a: seq<Value>, b: seq<Value>)
    requires |slots| == |inv.params| && SameOn(slots, a, b) && Names(inv.params) !! p.consts.Keys
    requires Scoped(p, {}, inv.body, SlotNames(inv, slots) + p.consts.Keys)
    requires forall i :: 0 <= i < |inv.params| ==> NotReused(inv.params, i, inv.params[i])
    ensures InvHolds(p, inv, a) <==> InvHolds(p, inv, b)
  {
    var ea: Env, eb: Env := Bind(map[], inv.params, a), Bind(map[], inv.params, b);
    BindKeys(map[], inv.params, a);
    BindKeys(map[], inv.params, b);
    forall x | x in SlotNames(inv, slots) ensures Lookup(p, ea, x) == Lookup(p, eb, x) {
      var i :| 0 <= i < |slots| && slots[i] && inv.params[i] == x;
      BoundValue(map[], inv.params, a, i);
      BoundValue(map[], inv.params, b, i);
    }
    EvalAgree(p, {}, inv.body, SlotNames(inv, slots) + p.consts.Keys, ea, eb);
  }

  /** One step of a run, called with arguments of its own. */
  lemma {:induction false} StepKeepsInvariant(p: Program, inv: SpecFn, sorts: Sorting, h: Handler, other: Handler,
                                              slots: seq<bool>, call: seq<Value>, before: seq<Value>, after: seq<Value>)
    requires PairCovered(p, inv, h, other) && AllValid(PairObligations(p, inv, h, other), sorts)
    requires |slots| == |inv.params| && Scoped(p, {}, inv.body, SlotNames(inv, slots) + p.consts.Keys)
    requires SameOn(slots, call, before) && PreHolds(p, h, call) && WellSorted(SlotValuation(call), sorts)
    requires SameOn(slots, after, Step(p, h, call)) && InvHolds(p, inv, before)
    ensures InvHolds(p, inv, after)
  {
    InvariantSeesSlots(p, inv, slots, call, before);
    PairIsStable(p, inv, sorts, h, other, call);
    InvariantSeesSlots(p, inv, slots, after, Step(p, h, call));
  }

  /** Interference freedom: with at least two handlers and an invariant over the
      shared slots, if all emitted pair obligations are valid, every interleaving
      of handler steps keeps the invariant from any state that has it, whatever
      the steps' other arguments. */
  lemma {:induction false} InterferenceFreedom(p: Program, inv: SpecFn, sorts: Sorting, hs: seq<Handler>,
                                               slots: seq<bool>, who: seq<nat>, calls: seq<seq<Value>>,
                                               states: seq<seq<Value>>, i: nat)
    requires |hs| >= 2 && AllCovered(p, inv, hs) && AllPairsValid(p, inv, sorts, hs)
    requires |slots| == |inv.params| && Scoped(p, {}, inv.body, SlotNames(inv, slots) + p.consts.Keys)
    requires IsRun(p, sorts, hs, slots, who, calls, states) && i < |states|
    requires |states[0]| == |inv.params| && InvHolds(p, inv, states[0])
    ensures |states[i]| == |inv.params| && InvHolds(p, inv, states[i])
    decreases i
  {
    if i > 0 {
      InterferenceFreedom(p, inv, sorts, hs, slots, who, calls, states, i - 1);
      var a := who[i - 1];
      var b := if a == 0 then 1 else 0;
      assert IsStep(p, sorts, hs, slots, a, calls[i - 1], states[i - 1], states[i]);
      assert PairCovered(p, inv, hs[a], hs[b]);
      StepKeepsInvariant(p, inv, sorts, hs[a], hs[b], slots, calls[i - 1], states[i - 1], states[i]);
    }
  }
}
