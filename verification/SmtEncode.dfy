/** The statement encoder as the original runs it: obligations are appended to
    one output, one counter is stepped, and the store is threaded through. */
module SmtEncode {
  import opened Values
  import opened Terms
  import opened SpecLang
  import opened Lowering
  import opened Statements
  import opened SymbolicExec

  /** `mergeStores`, key by key. */
  method MergeArms(a: NameMap, aReturned: bool, b: NameMap, bReturned: bool, c: Term) returns (dst: NameMap)
    ensures dst == MergeStores(a, aReturned, b, bReturned, c)
  {
    if aReturned && bReturned { return map[]; }
    if aReturned { return b; }
    if bReturned { return a; }
    dst := map[];
    var keys := a.Keys + b.Keys;
    ghost var live := MergeLive(a, b, c);
    while keys != {}
      invariant keys <= live.Keys && dst.Keys == live.Keys - keys
      invariant forall x :: x in dst ==> dst[x] == live[x]
      decreases keys
    {
      var x :| x in keys;
      keys := keys - {x};
      if x !in a {
        dst := dst[x := b[x]];
      } else if x !in b || a[x] == b[x] {
        dst := dst[x := a[x]];
      } else {
        dst := dst[x := TIte(c, a[x], b[x])];
      }
    }
  }

  /** The term for a nested element write, built from the innermost level out. */
  method BuildNestedStore(arr: Term, path: seq<Term>, v: Term) returns (acc: Term)
    ensures acc == NestedStore(arr, path, v, 0)
  {
    acc := v;
    var level := |path|;
    while level > 0
      invariant 0 <= level <= |path| && acc == NestedStore(arr, path, v, level)
    {
      level := level - 1;
      var sel := arr;
      for m := 0 to level
        invariant sel == SelectChain(arr, path[..m])
      {
        assert path[..m + 1][..m] == path[..m];
        sel := TSelect(sel, path[m]);
      }
      acc := TStore(sel, path[level], acc);
    }
  }

  /** `collectMutatedVarNames`: adds to the names already collected. */
  method CollectMutated(ss: seq<Stmt>, names: set<string>) returns (out: set<string>)
    ensures out == names + Mutated(ss)
    decreases ss, 0
  {
    out := names;
    for i := 0 to |ss|
      invariant out + Mutated(ss[i..]) == names + Mutated(ss)
    {
      out := CollectMutatedIn(ss[i], out);
    }
  }

  method CollectMutatedIn(s: Stmt, names: set<string>) returns (out: set<string>)
    ensures out == names + MutatedIn(s)
    decreases s, 1
  {
    out := names;
    match s
    case Assign(x, _) => out := out + {x};
    case Compound(x, _, _) => out := out + {x};
    case IncDec(x, _) => out := out + {x};
    case Block(body) => out := CollectMutated(body, out);
    case If(_, a, b) => out := CollectMutated(a, out); out := CollectMutated(b, out);
    case While(_, _, body) => out := CollectMutated(body, out);
    case _ =>
  }

  class Encoder {
    const prog: Program
    const nm: NameMap
    const ens: seq<Expr>
    var k: nat
    var out: seq<Obl>

    constructor (p: Program, names: NameMap, post: seq<Expr>, start: nat)
      ensures prog == p && nm == names && ens == post && k == start && out == []
    {
      prog, nm, ens, k, out := p, names, post, start, [];
    }

    /** Lower each clause over the store and emit it as a goal. */
    method DischargeClauses(es: seq<Expr>, premises: seq<Term>, st: NameMap) returns (goals: seq<Term>)
      modifies this
      ensures (goals, k) == EncodeClauses(prog, nm, st, es, old(k)) && out == old(out) + OblsFor(premises, goals)
    {
      goals := [];
      ghost var all := EncodeClauses(prog, nm, st, es, k).0;
      for i := 0 to |es|
        invariant |all| == |es|
          && EncodeClauses(prog, nm, st, es[i..], k).1 == EncodeClauses(prog, nm, st, es, old(k)).1
        invariant EncodeClauses(prog, nm, st, es[i..], k).0 == all[i..]
        invariant goals == all[..i] && out == old(out) + OblsFor(premises, goals)
      {
        assert es[i..][1..] == es[i + 1..] && all[i..][0] == all[i] && all[i..][1..] == all[i + 1..];
        var (t, k1) := LowerWp(prog, nm, st, es[i], k);
        out := out + [Obl(premises, t)];
        goals := goals + [t];
        k := k1;
        assert all[..i + 1] == all[..i] + [all[i]];
        assert OblsFor(premises, all[..i + 1]) == OblsFor(premises, all[..i]) + [Obl(premises, all[i])];
      }
      assert all[..|es|] == all;
    }

    /** `smtEncodeStmts` */
    method EncodeStmts(prem: seq<Term>, pathCond: Path, ss: seq<Stmt>,
                       store: NameMap) returns (st: NameMap, returned: bool)
      modifies this
      ensures Did(EncodeAll(prog, nm, ens, prem, pathCond, ss, store, old(k)), old(out), st, returned, Top)
      decreases ss, 0
    {
      st, returned := store, false;
      var pc := pathCond;
      ghost var all := EncodeAll(prog, nm, ens, prem, pathCond, ss, store, k);
      for i := 0 to |ss|
        invariant !returned
        invariant var rest := EncodeAll(prog, nm, ens, prem, pc, ss[i..], st, k);
                  SameEnd(all, rest) && old(out) + all.obls == out + rest.obls
      {
        ghost var before, st0, k0, pc0 := out, st, k, pc;
        var exit;
        st, returned, exit := EncodeStmt(prem, pc, ss[i], st);
        EncodeOne(prog, nm, ens, prem, pc0, ss, i, st0, k0, before);
        if returned { return; }
        pc := PathAnd(pc, exit);
      }
      assert ss[|ss|..] == [];
    }

    /** `smtEncodeStmt` */
    method EncodeStmt(prem: seq<Term>, pc: Path, s: Stmt,
                      store: NameMap) returns (st: NameMap, returned: bool, exit: Path)
      modifies this
      ensures Did(Encode(prog, nm, ens, prem, pc, s, store, old(k)), old(out), st, returned, exit)
      decreases s, 1
    {
      st, returned, exit := store, false, Top;
      match s
      case Let(x, e) =>
        var (t, k1) := LowerWp(prog, nm, st, e, k);
        st, k := st[x := t], k1;
      case Assign(x, e) =>
        var (t, k1) := LowerWp(prog, nm, st, e, k);
        st, k := st[x := t], k1;
      case Compound(x, op, e) =>
        var (t, k1) := LowerWp(prog, nm, st, e, k);
        var (cur, k2) := Current(nm, st, x, k1);
        st, k := st[x := if Arithmetic(op) then TBin(op, cur, t) else t], k2;
      case IncDec(x, isInc) =>
        var (cur, k1) := Current(nm, st, x, k);
        st, k := st[x := TBin(if isInc then Add else Sub, cur, TInt(1))], k1;
      case WriteIndex(x, path, e) =>
        if x !in st && x !in nm { return; }
        var arr := if x in st then st[x] else nm[x];
        var (ts, k1) := LowerWpSeq(prog, nm, st, path, k);
        var (t, k2) := LowerWp(prog, nm, st, e, k1);
        var acc := BuildNestedStore(arr, ts, t);
        st, k := st[x := acc], k2;
      case If(_, _, _) => st, returned := EncodeIf(prem, pc, s, store);
      case Block(body) => st, returned := EncodeStmts(prem, pc, body, store);
      case Assert(c) =>
        var (t, k1) := LowerWp(prog, nm, st, c, k);
        out, k := out + [Obl(prem + PathTerms(pc), t)], k1;
      case Return(e) =>
        var (t, k1) := LowerWp(prog, nm, st, e, k);
        st, k := st[RESULT := t], k1;
        var _ := DischargeClauses(ens, prem + PathTerms(pc), st);
        returned := true;
      case ReturnVoid =>
        var _ := DischargeClauses(ens, prem + PathTerms(pc), st);
        returned := true;
      case While(_, _, _) => st, returned, exit := EncodeWhile(prem, pc, s, store);
    }

    /** Each arm works on its own copy of the store. */
    method EncodeIf(prem: seq<Term>, pc: Path, s: Stmt, store: NameMap) returns (st: NameMap, returned: bool)
      requires s.If?
      modifies this
      ensures Did(Encode(prog, nm, ens, prem, pc, s, store, old(k)), old(out), st, returned, Top)
      decreases s, 0
    {
      var (cond, k1) := LowerWp(prog, nm, store, s.cond, k);
      k := k1;
      var thenStore, thenRet := EncodeStmts(prem, PathAnd(pc, Cond(cond)), s.then_, store);
      var elseStore, elseRet := EncodeStmts(prem, PathAnd(pc, Cond(TNot(cond))), s.else_, store);
      if thenRet && elseRet {
        st, returned := store, true;
      } else {
        st := MergeArms(thenStore, thenRet, elseStore, elseRet, cond);
        returned := false;
      }
    }

    method EncodeWhile(prem: seq<Term>, pc: Path, s: Stmt,
                       store: NameMap) returns (st: NameMap, returned: bool, exit: Path)
      requires s.While?
      modifies this
      ensures Did(Encode(prog, nm, ens, prem, pc, s, store, old(k)), old(out), st, returned, exit)
      decreases s, 0
    {
      if |s.invariants| == 0 {
        var (_, k1) := LowerWp(prog, nm, store, s.cond, k);
        k := k1;
        var _, _ := EncodeStmts(prem, Cond(TBool(false)), s.body, store);
        return store, true, Top;
      }
      ghost var before, k0 := out, k;
      EncodeChecks(prem, pc, s.cond, s.invariants, s.body, store);
      var mutated := CollectMutated(s.body, {});
      returned := false;
      ghost var checks := LoopChecks(prog, nm, ens, prem, pc, s.cond, s.invariants, s.body, store, k0).0;
      st, exit := FinishLoop(pc, s.cond, s.invariants, store, mutated, checks);
      WhileEncoding(prog, nm, ens, prem, pc, s.cond, s.invariants, s.body, store, k0, mutated);
      assert While(s.cond, s.invariants, s.body) == s;
    }

    /** The exit store and the path condition after the loop. */
    method FinishLoop(pc: Path, c: Expr, invs: seq<Expr>, store: NameMap, mutated: set<string>, ghost checks: seq<Obl>)
      returns (st: NameMap, exit: Path)
      modifies this`k
      ensures Enc(st, k, checks, false, exit) == AfterLoop(prog, nm, pc, c, invs, store, mutated, checks, old(k))
    {
      st := ExitStore(store, mutated, k);
      var (path, k1) := ExitPath(prog, nm, pc, c, invs, st, k + |mutated|);
      k, exit := k1, path;
    }

    /** Entry, body and preservation, all from the store before the loop. */
    method EncodeChecks(prem: seq<Term>, pc: Path, c: Expr, invs: seq<Expr>, body: seq<Stmt>, store: NameMap)
      modifies this
      ensures var (checks, k1) := LoopChecks(prog, nm, ens, prem, pc, c, invs, body, store, old(k));
              k == k1 && out == old(out) + checks
      decreases body, 1
    {
      var (cond, k1) := LowerWp(prog, nm, store, c, k);
      k := k1;
      var inside := PathAnd(pc, Cond(cond));
      ghost var out0 := out;
      var held := DischargeClauses(invs, prem + PathTerms(inside), store);
      var bodyPrem := prem + PathTerms(pc) + [cond] + held;
      ghost var entry := OblsFor(prem + PathTerms(inside), held);
      ghost var eb := EncodeAll(prog, nm, ens, bodyPrem, inside, body, store, k);
      var bodySt, bodyRet := EncodeStmts(bodyPrem, inside, body, store);
      assert out == out0 + entry + eb.obls;
      Append3(out0, entry, eb.obls);
      if !bodyRet {
        var kept := DischargeClauses(invs, bodyPrem, bodySt);
        Append3(out0, entry + eb.obls, OblsFor(bodyPrem, kept));
      }
    }

    /** The state after a call is what the encoding `r` says. */
    ghost predicate Did(r: Enc, before: seq<Obl>, st: NameMap, returned: bool, exit: Path)
      reads this
    {
      st == r.st && returned == r.returned && exit == r.exit && k == r.k && out == before + r.obls
    }
  }

  lemma Append3<T>(a: seq<T>, b: seq<T>, c: seq<T>)
    ensures a + b + c == a + (b + c)
  {
  }

  ghost predicate SameEnd(a: Enc, b: Enc) {
    a.st == b.st && a.k == b.k && a.returned == b.returned
  }

  /** One step of the walk over a statement list. */
  lemma EncodeOne(p: Program, nm: NameMap, ens: seq<Expr>, prem: seq<Term>, pc: Path, ss: seq<Stmt>, i: nat,
                  st: NameMap, k: nat, out: seq<Obl>)
    requires i < |ss|
    ensures var all, e1 := EncodeAll(p, nm, ens, prem, pc, ss[i..], st, k), Encode(p, nm, ens, prem, pc, ss[i], st, k);
            if e1.returned then all == e1
            else
              var rest := EncodeAll(p, nm, ens, prem, PathAnd(pc, e1.exit), ss[i + 1..], e1.st, e1.k);
              SameEnd(all, rest) && out + all.obls == out + e1.obls + rest.obls
  {
    assert ss[i..][0] == ss[i] && ss[i..][1..] == ss[i + 1..];
    var e1 := Encode(p, nm, ens, prem, pc, ss[i], st, k);
    Append3(out, e1.obls, EncodeAll(p, nm, ens, prem, PathAnd(pc, e1.exit), ss[i + 1..], e1.st, e1.k).obls);
  }
}
