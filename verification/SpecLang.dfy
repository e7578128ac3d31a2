/** Specification expressions and spec functions, with their source meaning. */
module SpecLang {
  import opened Values

  datatype Expr =
    | IntLit(v: int)
    | BoolLit(b: bool)
    | Var(name: string)
    | Old(sub: Expr)
    | Quant(isForall: bool, binder: string, lo: Expr, hi: Expr, inclusive: bool, body: Expr)
    | Not(e: Expr)
    | Neg(e: Expr)
    | Bin(op: BinOp, l: Expr, r: Expr)
    | Ternary(c: Expr, t: Expr, f: Expr)
    | Call(callee: string, args: seq<Expr>)
    | Index(base: Expr, index: Expr)

  /** `spec fn name(params) = body` */
  datatype SpecFn = SpecFn(params: seq<string>, body: Expr)

  /** The spec functions and the compile-time integer constants in scope. */
  datatype Program = Program(fns: map<string, SpecFn>, consts: map<string, int>)

  type Env = map<string, Value>

  /** The name under which the entry value of `x` is kept. */
  function OldName(x: string): (o: string)
    ensures IsOldName(o)
  {
    "old_" + x
  }

  predicate IsOldName(x: string) {
    "old_" <= x
  }

  function Names(xs: seq<string>): set<string> {
    set x | x in xs
  }

  /** Bind names to values left to right; a repeated name keeps the last one. */
  function Bind<T>(m: map<string, T>, names: seq<string>, vs: seq<T>): map<string, T>
    requires |names| == |vs|
    decreases |names|
  {
    if |names| == 0 then m
    else Bind(m[names[0] := vs[0]], names[1..], vs[1..])
  }

  function Lookup(p: Program, env: Env, x: string): Value {
    if x in env then env[x]
    else if x in p.consts then IntV(p.consts[x])
    else IntV(0)
  }

  /** The source meaning of an expression. A call evaluates the callee's body
      in an environment holding just its parameters. `exp` holds the functions
      being expanded; EvalIgnoresExpansion shows it has no effect on
      expressions whose calls are acyclic. */
  ghost function Eval(p: Program, exp: set<string>, e: Expr, env: Env): Value
    decreases p.fns.Keys - exp, e, 1
  {
    match e
    case IntLit(v) => IntV(v)
    case BoolLit(b) => BoolV(b)
    case Var(x) => Lookup(p, env, x)
    case Old(sub) => if sub.Var? then Lookup(p, env, OldName(sub.name)) else IntV(0)
    case Quant(isForall, x, lo, hi, inclusive, body) =>
      var vlo, vhi := Eval(p, exp, lo, env), Eval(p, exp, hi, env);
      if isForall then
        BoolV(forall k: int :: InRange(k, vlo, vhi, inclusive) ==> AsBool(Eval(p, exp, body, env[x := IntV(k)])))
      else
        BoolV(exists k: int :: InRange(k, vlo, vhi, inclusive) && AsBool(Eval(p, exp, body, env[x := IntV(k)])))
    case Not(a) => BoolV(!AsBool(Eval(p, exp, a, env)))
    case Neg(a) => IntV(-AsInt(Eval(p, exp, a, env)))
    case Bin(op, l, r) => Apply(op, Eval(p, exp, l, env), Eval(p, exp, r, env))
    case Ternary(c, a, b) =>
      if AsBool(Eval(p, exp, c, env)) then Eval(p, exp, a, env) else Eval(p, exp, b, env)
    case Call(f, args) =>
      var vs := EvalSeq(p, exp, args, env);
      if f in p.fns && |args| == |p.fns[f].params| && f !in exp then
        Eval(p, exp + {f}, p.fns[f].body, Bind(map[], p.fns[f].params, vs))
      else IntV(0)
    case Index(a, i) => Select(Eval(p, exp, a, env), Eval(p, exp, i, env))
  }

  ghost function EvalSeq(p: Program, exp: set<string>, es: seq<Expr>, env: Env): (vs: seq<Value>)
    ensures |vs| == |es|
    decreases p.fns.Keys - exp, es, 0
  {
    if |es| == 0 then [] else [Eval(p, exp, es[0], env)] + EvalSeq(p, exp, es[1..], env)
  }

  /** The names whose values an expression depends on. */
  function FreeVars(e: Expr): set<string>
    decreases e, 1
  {
    match e
    case IntLit(_) => {}
    case BoolLit(_) => {}
    case Var(x) => {x}
    case Old(sub) => if sub.Var? then {OldName(sub.name)} else {}
    case Quant(_, x, lo, hi, _, body) => FreeVars(lo) + FreeVars(hi) + (FreeVars(body) - {x})
    case Not(a) => FreeVars(a)
    case Neg(a) => FreeVars(a)
    case Bin(_, l, r) => FreeVars(l) + FreeVars(r)
    case Ternary(c, a, b) => FreeVars(c) + FreeVars(a) + FreeVars(b)
    case Call(_, args) => FreeVarsSeq(args)
    case Index(a, i) => FreeVars(a) + FreeVars(i)
  }

  function FreeVarsSeq(es: seq<Expr>): set<string>
    decreases es, 0
  {
    if |es| == 0 then {} else FreeVars(es[0]) + FreeVarsSeq(es[1..])
  }

  /** The compile-time constants that a spec function's body names. */
  function NamedBy(p: Program, f: string): (cs: set<string>)
    requires f in p.fns
    ensures cs <= p.consts.Keys
  {
    set x | x in FreeVars(p.fns[f].body) && x in p.consts && x !in p.fns[f].params
  }

  /** The constants named by the bodies that an expression's calls reach. */
  function Reached(p: Program, exp: set<string>, e: Expr): (cs: set<string>)
    ensures cs <= p.consts.Keys
    decreases p.fns.Keys - exp, e, 1
  {
    match e
    case IntLit(_) => {}
    case BoolLit(_) => {}
    case Var(_) => {}
    case Old(_) => {}
    case Quant(_, _, lo, hi, _, body) => Reached(p, exp, lo) + Reached(p, exp, hi) + Reached(p, exp, body)
    case Not(a) => Reached(p, exp, a)
    case Neg(a) => Reached(p, exp, a)
    case Bin(_, l, r) => Reached(p, exp, l) + Reached(p, exp, r)
    case Ternary(c, a, b) => Reached(p, exp, c) + Reached(p, exp, a) + Reached(p, exp, b)
    case Call(f, args) =>
      ReachedSeq(p, exp, args) +
      if f in p.fns && f !in exp then NamedBy(p, f) + Reached(p, exp + {f}, p.fns[f].body) else {}
    case Index(a, i) => Reached(p, exp, a) + Reached(p, exp, i)
  }

  function ReachedSeq(p: Program, exp: set<string>, es: seq<Expr>): (cs: set<string>)
    ensures cs <= p.consts.Keys
    decreases p.fns.Keys - exp, es, 0
  {
    if |es| == 0 then {} else Reached(p, exp, es[0]) + ReachedSeq(p, exp, es[1..])
  }

  /** Every name resolves, every call is to a known function of that arity and
      acyclic, spec bodies name only their parameters and constants. Quantifiers
      are `forall`, over a binder not spelled like an `old` snapshot. No binder
      or parameter hides a constant named by a body that is reached under it. */
  predicate Scoped(p: Program, exp: set<string>, e: Expr, dom: set<string>)
    decreases p.fns.Keys - exp, e, 1
  {
    match e
    case IntLit(_) => true
    case BoolLit(_) => true
    case Var(x) => x in dom
    case Old(sub) => sub.Var? && OldName(sub.name) in dom
    case Quant(isForall, x, lo, hi, _, body) =>
      && isForall && !IsOldName(x) && x !in Reached(p, exp, body)
      && Scoped(p, exp, lo, dom) && Scoped(p, exp, hi, dom) && Scoped(p, exp, body, dom + {x})
    case Not(a) => Scoped(p, exp, a, dom)
    case Neg(a) => Scoped(p, exp, a, dom)
    case Bin(_, l, r) => Scoped(p, exp, l, dom) && Scoped(p, exp, r, dom)
    case Ternary(c, a, b) => Scoped(p, exp, c, dom) && Scoped(p, exp, a, dom) && Scoped(p, exp, b, dom)
    case Call(f, args) =>
      && ScopedSeq(p, exp, args, dom)
      && f in p.fns && |args| == |p.fns[f].params| && f !in exp
      && Names(p.fns[f].params) !! Reached(p, exp + {f}, p.fns[f].body)
      && Scoped(p, exp + {f}, p.fns[f].body, Names(p.fns[f].params) + p.consts.Keys)
    case Index(a, i) => Scoped(p, exp, a, dom) && Scoped(p, exp, i, dom)
  }

  predicate ScopedSeq(p: Program, exp: set<string>, es: seq<Expr>, dom: set<string>)
    decreases p.fns.Keys - exp, es, 0
  {
    |es| == 0 || (Scoped(p, exp, es[0], dom) && ScopedSeq(p, exp, es[1..], dom))
  }

  ghost predicate AgreeOn<T>(m: map<string, T>, m': map<string, T>, dom: set<string>) {
    forall x :: x in dom ==> x in m && x in m' && m[x] == m'[x]
  }

  lemma {:induction false} BindKeys<T>(m: map<string, T>, names: seq<string>, vs: seq<T>)
    requires |names| == |vs|
    ensures Bind(m, names, vs).Keys == m.Keys + Names(names)
    ensures forall x :: x in m && x !in names ==> Bind(m, names, vs)[x] == m[x]
    decreases |names|
  {
    if |names| > 0 {
      BindKeys(m[names[0] := vs[0]], names[1..], vs[1..]);
      assert names == [names[0]] + names[1..];
    }
  }

  /** What the bound names map to does not depend on the map they extend. */
  lemma {:induction false} BindAgree<T>(m: map<string, T>, m': map<string, T>, names: seq<string>, vs: seq<T>)
    requires |names| == |vs|
    ensures AgreeOn(Bind(m, names, vs), Bind(m', names, vs), Names(names))
    decreases |names|
  {
    if |names| > 0 {
      BindKeys(m[names[0] := vs[0]], names[1..], vs[1..]);
      BindKeys(m'[names[0] := vs[0]], names[1..], vs[1..]);
      BindAgree(m[names[0] := vs[0]], m'[names[0] := vs[0]], names[1..], vs[1..]);
      assert names == [names[0]] + names[1..];
    }
  }

  ghost predicate SameLookups(p: Program, env: Env, env': Env, dom: set<string>) {
    forall x :: x in dom ==> Lookup(p, env, x) == Lookup(p, env', x)
  }

  /** An expression's value depends only on its free names. */
  lemma {:induction false} EvalFree(p: Program, exp: set<string>, e: Expr, env: Env, env': Env)
    requires SameLookups(p, env, env', FreeVars(e))
    ensures Eval(p, exp, e, env) == Eval(p, exp, e, env')
    decreases e, 1
  {
    match e
    case IntLit(_) =>
    case BoolLit(_) =>
    case Var(_) =>
    case Old(_) =>
    case Quant(_, x, lo, hi, _, body) =>
      EvalFree(p, exp, lo, env, env');
      EvalFree(p, exp, hi, env, env');
      assert forall y :: y in FreeVars(body) && y != x ==> y in FreeVars(e);
      forall k: int
        ensures Eval(p, exp, body, env[x := IntV(k)]) == Eval(p, exp, body, env'[x := IntV(k)])
      {
        EvalFree(p, exp, body, env[x := IntV(k)], env'[x := IntV(k)]);
      }
    case Not(a) => EvalFree(p, exp, a, env, env');
    case Neg(a) => EvalFree(p, exp, a, env, env');
    case Bin(_, l, r) => EvalFree(p, exp, l, env, env'); EvalFree(p, exp, r, env, env');
    case Ternary(c, a, b) =>
      EvalFree(p, exp, c, env, env'); EvalFree(p, exp, a, env, env'); EvalFree(p, exp, b, env, env');
    case Call(_, args) => EvalFreeSeq(p, exp, args, env, env');
    case Index(a, i) => EvalFree(p, exp, a, env, env'); EvalFree(p, exp, i, env, env');
  }

  lemma {:induction false} EvalFreeSeq(p: Program, exp: set<string>, es: seq<Expr>, env: Env, env': Env)
    requires SameLookups(p, env, env', FreeVarsSeq(es))
    ensures EvalSeq(p, exp, es, env) == EvalSeq(p, exp, es, env')
    decreases es, 0
  {
    if |es| > 0 {
      EvalFree(p, exp, es[0], env, env');
      EvalFreeSeq(p, exp, es[1..], env, env');
    }
  }

  lemma {:induction false} ScopedFree(p: Program, exp: set<string>, e: Expr, dom: set<string>)
    requires Scoped(p, exp, e, dom)
    ensures FreeVars(e) <= dom
    decreases e, 1
  {
    match e
    case IntLit(_) =>
    case BoolLit(_) =>
    case Var(_) =>
    case Old(_) =>
    case Quant(_, x, lo, hi, _, body) =>
      ScopedFree(p, exp, lo, dom);
      ScopedFree(p, exp, hi, dom);
      ScopedFree(p, exp, body, dom + {x});
    case Not(a) => ScopedFree(p, exp, a, dom);
    case Neg(a) => ScopedFree(p, exp, a, dom);
    case Bin(_, l, r) => ScopedFree(p, exp, l, dom); ScopedFree(p, exp, r, dom);
    case Ternary(c, a, b) => ScopedFree(p, exp, c, dom); ScopedFree(p, exp, a, dom); ScopedFree(p, exp, b, dom);
    case Call(_, args) => ScopedFreeSeq(p, exp, args, dom);
    case Index(a, i) => ScopedFree(p, exp, a, dom); ScopedFree(p, exp, i, dom);
  }

  lemma {:induction false} ScopedFreeSeq(p: Program, exp: set<string>, es: seq<Expr>, dom: set<string>)
    requires ScopedSeq(p, exp, es, dom)
    ensures FreeVarsSeq(es) <= dom
    decreases es, 0
  {
    if |es| > 0 {
      ScopedFree(p, exp, es[0], dom);
      ScopedFreeSeq(p, exp, es[1..], dom);
    }
  }

  /** The value of a scoped expression depends only on the names in scope. */
  lemma {:induction false} EvalAgree(p: Program, exp: set<string>, e: Expr, dom: set<string>, env: Env, env': Env)
    requires Scoped(p, exp, e, dom) && SameLookups(p, env, env', dom)
    ensures Eval(p, exp, e, env) == Eval(p, exp, e, env')
  {
    ScopedFree(p, exp, e, dom);
    EvalFree(p, exp, e, env, env');
  }

  /** Being scoped is a matter of the free names only. */
  lemma {:induction false} ScopedTight(p: Program, exp: set<string>, e: Expr, dom: set<string>, dom': set<string>)
    requires Scoped(p, exp, e, dom) && FreeVars(e) <= dom'
    ensures Scoped(p, exp, e, dom')
    decreases e, 1
  {
    match e
    case IntLit(_) =>
    case BoolLit(_) =>
    case Var(_) =>
    case Old(_) =>
    case Quant(_, x, lo, hi, _, body) =>
      ScopedTight(p, exp, lo, dom, dom');
      ScopedTight(p, exp, hi, dom, dom');
      ScopedTight(p, exp, body, dom + {x}, dom' + {x});
    case Not(a) => ScopedTight(p, exp, a, dom, dom');
    case Neg(a) => ScopedTight(p, exp, a, dom, dom');
    case Bin(_, l, r) => ScopedTight(p, exp, l, dom, dom'); ScopedTight(p, exp, r, dom, dom');
    case Ternary(c, a, b) =>
      ScopedTight(p, exp, c, dom, dom'); ScopedTight(p, exp, a, dom, dom'); ScopedTight(p, exp, b, dom, dom');
    case Call(_, args) => ScopedTightSeq(p, exp, args, dom, dom');
    case Index(a, i) => ScopedTight(p, exp, a, dom, dom'); ScopedTight(p, exp, i, dom, dom');
  }

  lemma {:induction false} ScopedTightSeq(p: Program, exp: set<string>, es: seq<Expr>, dom: set<string>,
                                          dom': set<string>)
    requires ScopedSeq(p, exp, es, dom) && FreeVarsSeq(es) <= dom'
    ensures ScopedSeq(p, exp, es, dom')
    decreases es, 0
  {
    if |es| > 0 {
      ScopedTight(p, exp, es[0], dom, dom');
      ScopedTightSeq(p, exp, es[1..], dom, dom');
    }
  }

  /** Scoping is monotone in the names. */
  lemma ScopedMono(p: Program, exp: set<string>, e: Expr, dom: set<string>, dom': set<string>)
    requires Scoped(p, exp, e, dom) && dom <= dom'
    ensures Scoped(p, exp, e, dom')
  {
    ScopedFree(p, exp, e, dom);
    ScopedTight(p, exp, e, dom, dom');
  }

  /** Enlarging the set of functions being expanded keeps the value of every
      expression that is still acyclic. */
  lemma {:induction false} EvalIgnoresExpansion(p: Program, exp: set<string>, more: set<string>, e: Expr,
                                                dom: set<string>, env: Env)
    requires exp <= more && Scoped(p, more, e, dom)
    ensures Scoped(p, exp, e, dom) && Eval(p, exp, e, env) == Eval(p, more, e, env)
    ensures Reached(p, exp, e) == Reached(p, more, e)
    decreases p.fns.Keys - more, e, 1
  {
    match e
    case IntLit(_) =>
    case BoolLit(_) =>
    case Var(_) =>
    case Old(_) =>
    case Quant(_, x, lo, hi, _, body) =>
      EvalIgnoresExpansion(p, exp, more, lo, dom, env);
      EvalIgnoresExpansion(p, exp, more, hi, dom, env);
      EvalIgnoresExpansion(p, exp, more, body, dom + {x}, env);
      forall k: int
        ensures Eval(p, exp, body, env[x := IntV(k)]) == Eval(p, more, body, env[x := IntV(k)])
      {
        EvalIgnoresExpansion(p, exp, more, body, dom + {x}, env[x := IntV(k)]);
      }
    case Not(a) => EvalIgnoresExpansion(p, exp, more, a, dom, env);
    case Neg(a) => EvalIgnoresExpansion(p, exp, more, a, dom, env);
    case Bin(_, l, r) =>
      EvalIgnoresExpansion(p, exp, more, l, dom, env); EvalIgnoresExpansion(p, exp, more, r, dom, env);
    case Ternary(c, a, b) =>
      EvalIgnoresExpansion(p, exp, more, c, dom, env);
      EvalIgnoresExpansion(p, exp, more, a, dom, env);
      EvalIgnoresExpansion(p, exp, more, b, dom, env);
    case Call(f, args) =>
      EvalSeqIgnoresExpansion(p, exp, more, args, dom, env);
      var params := p.fns[f].params;
      EvalIgnoresExpansion(p, exp + {f}, more + {f}, p.fns[f].body, Names(params) + p.consts.Keys,
                           Bind(map[], params, EvalSeq(p, exp, args, env)));
    case Index(a, i) =>
      EvalIgnoresExpansion(p, exp, more, a, dom, env); EvalIgnoresExpansion(p, exp, more, i, dom, env);
  }

  lemma {:induction false} EvalSeqIgnoresExpansion(p: Program, exp: set<string>, more: set<string>, es: seq<Expr>,
                                                   dom: set<string>, env: Env)
    requires exp <= more && ScopedSeq(p, more, es, dom)
    ensures ScopedSeq(p, exp, es, dom) && EvalSeq(p, exp, es, env) == EvalSeq(p, more, es, env)
    ensures ReachedSeq(p, exp, es) == ReachedSeq(p, more, es)
    decreases p.fns.Keys - more, es, 0
  {
    if |es| > 0 {
      EvalIgnoresExpansion(p, exp, more, es[0], dom, env);
      EvalSeqIgnoresExpansion(p, exp, more, es[1..], dom, env);
    }
  }

  /** The defining equation of a spec function, by value and with no trace of
      the expansion set. */
  lemma CallEquation(p: Program, f: string, args: seq<Expr>, dom: set<string>, env: Env)
    requires Scoped(p, {}, Call(f, args), dom)
    ensures Eval(p, {}, Call(f, args), env)
         == Eval(p, {}, p.fns[f].body, Bind(map[], p.fns[f].params, EvalSeq(p, {}, args, env)))
  {
    var params := p.fns[f].params;
    EvalIgnoresExpansion(p, {}, {} + {f}, p.fns[f].body, Names(params) + p.consts.Keys,
                         Bind(map[], params, EvalSeq(p, {}, args, env)));
  }
}
