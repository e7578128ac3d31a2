/** Function bodies: statements, their concrete runs, and the names they touch. */
module Statements {
  import opened Values
  import opened SpecLang

  datatype Stmt =
    | Let(x: string, init: Expr)
    | Assign(x: string, value: Expr)
    | Compound(x: string, op: BinOp, value: Expr)
    | IncDec(x: string, isInc: bool)
    | WriteIndex(x: string, path: seq<Expr>, value: Expr)
    | If(cond: Expr, then_: seq<Stmt>, else_: seq<Stmt>)
    | Block(body: seq<Stmt>)
    | Assert(cond: Expr)
    | Return(value: Expr)
    | ReturnVoid
    | While(cond: Expr, invariants: seq<Expr>, body: seq<Stmt>)

  predicate Arithmetic(op: BinOp) {
    op.Add? || op.Sub? || op.Mul? || op.Div? || op.Mod?
  }

  const RESULT := "result"

  datatype Outcome = Normal(s: Env) | Returned(s: Env) | AssertFailed | OutOfFuel

  /** The array `a` after writing `v` at the index path `path`. */
  ghost function UpdatePath(a: Value, path: seq<Value>, v: Value): Value
    decreases |path|
  {
    if |path| == 0 then v
    else Store(a, path[0], UpdatePath(Select(a, path[0]), path[1..], v))
  }

  ghost function ReadPath(a: Value, path: seq<Value>): Value
    decreases |path|
  {
    if |path| == 0 then a else ReadPath(Select(a, path[0]), path[1..])
  }

  /** Leaving a scope forgets the names declared in it. (Declarations never
      shadow; see Flow.) */
  function Leave(outer: Env, inner: Env): Env {
    map x | x in inner && x in outer :: inner[x]
  }

  /** One statement's run. `fuel` bounds the number of loop iterations. */
  ghost function Run(p: Program, s: Stmt, env: Env, fuel: nat): Outcome
    decreases fuel, s, 1
  {
    match s
    case Let(x, e) => Normal(env[x := Eval(p, {}, e, env)])
    case Assign(x, e) => Normal(env[x := Eval(p, {}, e, env)])
    case Compound(x, op, e) => Normal(env[x := Apply(op, Lookup(p, env, x), Eval(p, {}, e, env))])
    case IncDec(x, isInc) => Normal(env[x := Apply(if isInc then Add else Sub, Lookup(p, env, x), IntV(1))])
    case WriteIndex(x, path, e) =>
      Normal(env[x := UpdatePath(Lookup(p, env, x), EvalSeq(p, {}, path, env), Eval(p, {}, e, env))])
    case If(c, a, b) =>
      if AsBool(Eval(p, {}, c, env)) then RunScope(p, a, env, fuel) else RunScope(p, b, env, fuel)
    case Block(body) => RunScope(p, body, env, fuel)
    case Assert(c) => if AsBool(Eval(p, {}, c, env)) then Normal(env) else AssertFailed
    case Return(e) => Returned(env[RESULT := Eval(p, {}, e, env)])
    case ReturnVoid => Returned(env)
    case While(c, _, body) =>
      if !AsBool(Eval(p, {}, c, env)) then Normal(env)
      else if fuel == 0 then OutOfFuel
      else
        var o := RunScope(p, body, env, fuel);
        if o.Normal? then Run(p, s, o.s, fuel - 1) else o
  }

  ghost function RunScope(p: Program, ss: seq<Stmt>, env: Env, fuel: nat): Outcome
    decreases fuel, ss, 2
  {
    var o := RunAll(p, ss, env, fuel);
    if o.Normal? then Normal(Leave(env, o.s)) else o
  }

  ghost function RunAll(p: Program, ss: seq<Stmt>, env: Env, fuel: nat): Outcome
    decreases fuel, ss, 0
  {
    if |ss| == 0 then Normal(env)
    else
      var o := Run(p, ss[0], env, fuel);
      if o.Normal? then RunAll(p, ss[1..], o.s, fuel) else o
  }

  // ----- nested array writes -----

  /** Reading along the written path gives the new element, and along every
      other path of that depth the old one. */
  lemma {:induction false} ReadAfterWrite(a: Value, path: seq<Value>, v: Value, other: seq<Value>)
    requires |other| == |path|
    ensures ReadPath(UpdatePath(a, path, v), other)
         == if SamePath(path, other) then v else ReadPath(a, other)
    decreases |path|
  {
    if |path| > 0 {
      if AsInt(other[0]) == AsInt(path[0]) {
        ReadAfterWrite(Select(a, path[0]), path[1..], v, other[1..]);
        SamePathHead(path, other);
      } else {
        assert !SamePath(path, other);
      }
    }
  }

  ghost predicate SamePath(path: seq<Value>, other: seq<Value>)
    requires |other| == |path|
  {
    forall i :: 0 <= i < |path| ==> AsInt(path[i]) == AsInt(other[i])
  }

  lemma SamePathHead(path: seq<Value>, other: seq<Value>)
    requires |other| == |path| > 0 && AsInt(other[0]) == AsInt(path[0])
    ensures SamePath(path, other) <==> SamePath(path[1..], other[1..])
  {
    if SamePath(path[1..], other[1..]) {
      forall i | 0 <= i < |path| ensures AsInt(path[i]) == AsInt(other[i]) {
        if i > 0 { assert path[i] == path[1..][i - 1] && other[i] == other[1..][i - 1]; }
      }
    }
  }
}
