/** The mutable encoding context: one name map, one set of spec functions being
    expanded and one counter, all updated in place while lowering. */
module SmtContext {
  import opened Sequences
  import opened Terms
  import opened SpecLang
  import opened Lowering

  ghost predicate WellFormed(p: Program) {
    forall f :: f in p.fns ==> Distinct(p.fns[f].params)
  }

  lemma {:induction false} BindSnoc<T>(m: map<string, T>, names: seq<string>, vs: seq<T>, x: string, v: T)
    requires |names| == |vs|
    ensures Bind(m, names + [x], vs + [v]) == Bind(m, names, vs)[x := v]
    decreases |names|
  {
    if |names| > 0 {
      BindSnoc(m[names[0] := vs[0]], names[1..], vs[1..], x, v);
      assert (names + [x])[1..] == names[1..] + [x] && (vs + [v])[1..] == vs[1..] + [v];
    } else {
      assert names + [x] == [x] && vs + [v] == [v];
    }
  }

  class SmtCtx {
    const prog: Program
    var nameMap: NameMap
    var expanding: set<string>
    var placeholderSeq: nat

    constructor (p: Program, nm: NameMap)
      ensures prog == p && nameMap == nm && expanding == {} && placeholderSeq == 0
    {
      prog, nameMap, expanding, placeholderSeq := p, nm, {}, 0;
    }

    /** `smtPlaceholder` */
    method FreshPlaceholder() returns (t: Term)
      modifies this`placeholderSeq
      ensures t == TSym(Placeholder(old(placeholderSeq))) && placeholderSeq == old(placeholderSeq) + 1
    {
      t := TSym(Placeholder(placeholderSeq));
      placeholderSeq := placeholderSeq + 1;
    }

    /** `smtExpr` computes Lower and leaves the name map and the set of
        functions being expanded as it found them, whatever the call graph. */
    method SmtExpr(e: Expr) returns (t: Term)
      requires WellFormed(prog)
      modifies this
      ensures nameMap == old(nameMap) && expanding == old(expanding)
      ensures (t, placeholderSeq) == Lower(prog, old(expanding), old(nameMap), e, old(placeholderSeq))
      decreases prog.fns.Keys - expanding, 1, e, 1
    {
      match e
      case IntLit(v) => t := TInt(v);
      case BoolLit(b) => t := TBool(b);
      case Var(x) =>
        if x in nameMap {
          t := nameMap[x];
        } else if x in prog.consts {
          t := TInt(prog.consts[x]);
        } else {
          t := FreshPlaceholder();
        }
      case Old(sub) =>
        if sub.Var? && OldName(sub.name) in nameMap {
          t := nameMap[OldName(sub.name)];
        } else {
          t := FreshPlaceholder();
        }
      case Quant(isForall, x, lo, hi, inclusive, body) =>
        var b := Binder(x, placeholderSeq);
        placeholderSeq := placeholderSeq + 1;
        var tlo := SmtExpr(lo);
        var thi := SmtExpr(hi);
        var hadBind := x in nameMap;
        var savedBind := if hadBind then nameMap[x] else TBool(true);
        nameMap := nameMap[x := TSym(b)];
        var tbody := SmtExpr(body);
        if hadBind {
          nameMap := nameMap[x := savedBind];
        } else {
          nameMap := nameMap - {x};
        }
        t := TQuant(isForall, b, TImp(RangeTerm(b, tlo, thi, inclusive), tbody));
      case Not(a) =>
        var ta := SmtExpr(a);
        t := TNot(ta);
      case Neg(a) =>
        var ta := SmtExpr(a);
        t := TNeg(ta);
      case Bin(op, l, r) =>
        var tl := SmtExpr(l);
        var tr := SmtExpr(r);
        t := BinTerm(op, tl, tr);
      case Ternary(c, a, b) =>
        var tc := SmtExpr(c);
        var ta := SmtExpr(a);
        var tb := SmtExpr(b);
        t := TIte(tc, ta, tb);
      case Call(f, args) =>
        var ts := SmtArgs(args);
        t := InlineSpecCall(f, ts);
      case Index(a, i) =>
        var ta := SmtExpr(a);
        var ti := SmtExpr(i);
        t := TSelect(ta, ti);
    }

    method SmtArgs(es: seq<Expr>) returns (ts: seq<Term>)
      requires WellFormed(prog)
      modifies this
      ensures nameMap == old(nameMap) && expanding == old(expanding)
      ensures (ts, placeholderSeq) == LowerSeq(prog, old(expanding), old(nameMap), es, old(placeholderSeq))
      decreases prog.fns.Keys - expanding, 1, es, 0
    {
      if |es| == 0 {
        ts := [];
      } else {
        var t := SmtExpr(es[0]);
        var rest := SmtArgs(es[1..]);
        ts := [t] + rest;
      }
    }

    /** `smtInlineSpecCall`: bind the parameters in place, lower the body, and
        undo exactly the bindings that were made. */
    method InlineSpecCall(f: string, args: seq<Term>) returns (t: Term)
      requires WellFormed(prog)
      modifies this
      ensures nameMap == old(nameMap) && expanding == old(expanding)
      ensures (t, placeholderSeq) == LowerCall(prog, old(expanding), old(nameMap), f, args, old(placeholderSeq))
      decreases prog.fns.Keys - expanding, 0
    {
      if f !in prog.fns || |args| != |prog.fns[f].params| || f in expanding {
        t := FreshPlaceholder();
        return;
      }
      var SpecFn(params, body) := prog.fns[f];
      expanding := expanding + {f};
      var saved, newlyBound := BindParams(params, args);
      t := SmtExpr(body);
      Unbind(params, args, saved, newlyBound, old(nameMap));
      expanding := expanding - {f};
    }

    method BindParams(params: seq<string>,
                      args: seq<Term>) returns (saved: seq<(string, Term)>, newlyBound: seq<string>)
      requires Distinct(params) && |params| == |args|
      modifies this`nameMap
      ensures nameMap == Bind(old(nameMap), params, args)
      ensures Remembered(old(nameMap), params, saved, newlyBound)
    {
      saved, newlyBound := [], [];
      for i := 0 to |params|
        invariant nameMap == Bind(old(nameMap), params[..i], args[..i])
        invariant Remembered(old(nameMap), params[..i], saved, newlyBound)
      {
        var pname := params[i];
        BindKeys(old(nameMap), params[..i], args[..i]);
        BindSnoc(old(nameMap), params[..i], args[..i], pname, args[i]);
        assert params[..i + 1] == params[..i] + [pname] && args[..i + 1] == args[..i] + [args[i]];
        if pname in nameMap {
          saved := saved + [(pname, nameMap[pname])];
        } else {
          newlyBound := newlyBound + [pname];
        }
        nameMap := nameMap[pname := args[i]];
      }
      assert params[..|params|] == params && args[..|params|] == args;
    }

    method Unbind(params: seq<string>, args: seq<Term>, saved: seq<(string, Term)>, newlyBound: seq<string>,
                  ghost nm: NameMap)
      requires |params| == |args| && nameMap == Bind(nm, params, args)
      requires Remembered(nm, params, saved, newlyBound)
      modifies this`nameMap
      ensures nameMap == nm
    {
      BindKeys(nm, params, args);
      for i := 0 to |newlyBound|
        invariant nameMap == old(nameMap) - Names(newlyBound[..i])
      {
        assert newlyBound[..i + 1] == newlyBound[..i] + [newlyBound[i]];
        nameMap := nameMap - {newlyBound[i]};
      }
      assert newlyBound[..|newlyBound|] == newlyBound;
      assert nameMap.Keys == nm.Keys;
      for i := 0 to |saved|
        invariant nameMap.Keys == nm.Keys
        invariant forall x :: x in nameMap && (x !in params || (x, nm[x]) in saved[..i]) ==> nameMap[x] == nm[x]
      {
        assert saved[..i + 1] == saved[..i] + [saved[i]];
        nameMap := nameMap[saved[i].0 := saved[i].1];
      }
      assert saved[..|saved|] == saved;
    }
  }

  /** `saved` holds the old term of every bound name that had one, and
      `newlyBound` the names that had none. */
  ghost predicate Remembered(nm: NameMap, params: seq<string>, saved: seq<(string, Term)>, newlyBound: seq<string>) {
    && (forall x :: x in newlyBound <==> x in params && x !in nm)
    && (forall j :: 0 <= j < |saved| ==> saved[j].0 in nm && saved[j].1 == nm[saved[j].0])
    && (forall x :: x in params && x in nm ==> (x, nm[x]) in saved)
  }
}
