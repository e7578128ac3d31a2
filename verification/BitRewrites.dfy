/** Comparisons of masked, or-ed and shifted words with literals, rewritten to
    integer arithmetic. */
module BitRewrites {
  import opened Options
  import opened Bits
  import Values

  const WORD: nat := 0x1_0000_0000_0000_0000

  datatype Expr =
    | Lit(v: int)
    | Name(x: string)
    | Band(l: Expr, r: Expr)
    | Bor(l: Expr, r: Expr)
    | Shr(l: Expr, r: Expr)

  type Env = map<string, int>

  /** The unsigned 64-bit reading of an integer. */
  function Pattern(v: int): (p: nat)
    ensures p < WORD
  {
    v % WORD
  }

  // ----- meanings -----

  /** The integer a name lowers to: the local one, else the constant. */
  function NameValue(consts: Env, env: Env, x: string): int {
    if x in env then env[x] else if x in consts then consts[x] else 0
  }

  /** The 64-bit meaning of an expression. */
  function Word(consts: Env, env: Env, e: Expr): nat
  {
    match e
    case Lit(v) => Pattern(v)
    case Name(x) => Pattern(NameValue(consts, env, x))
    case Band(l, r) => BitAnd(Word(consts, env, l), Word(consts, env, r))
    case Bor(l, r) => BitOr(Word(consts, env, l), Word(consts, env, r))
    case Shr(l, r) => ShiftRight(Word(consts, env, l), Word(consts, env, r))
  }

  /** The integer meaning of the lowered term. */
  function Int(consts: Env, env: Env, e: Expr): int {
    match e
    case Lit(v) => v
    case Name(x) => NameValue(consts, env, x)
    case _ => Word(consts, env, e)
  }

  /** What a rewrite emits about the operand `x`. */
  datatype Form =
    | ModIs(x: Expr, power: nat, v: nat)
    | DivIs(x: Expr, power: nat, k: nat)
    | Below(x: Expr, power: nat)

  ghost predicate Meaning(consts: Env, env: Env, f: Form)
    requires f.power > 0
  {
    var x := Int(consts, env, f.x);
    match f
    case ModIs(_, p, v) => x % p == v
    case DivIs(_, p, k) => x / p == k
    case Below(_, p) => x < p
  }

  // ----- the rewrites -----

  /** `smtIsLowBitsMask`, on 64-bit patterns: the power if it is a mask. */
  function LowBitsMask(m: nat): (p: Option<nat>)
    requires m < WORD
  {
    var mp1 := (m + 1) % WORD;
    if m == 0 then None
    else if BitAnd(m, mp1) != 0 then None
    else if mp1 == 0 then None
    else Some(mp1)
  }

  /** `smtFoldIntLit`: a literal, or a compile-time constant of that name. */
  function FoldLit(consts: Env, e: Expr): (r: Option<nat>)
    ensures r.Some? ==> r.value < WORD
  {
    match e
    case Lit(v) => Some(Pattern(v))
    case Name(x) => if x in consts then Some(Pattern(consts[x])) else None
    case _ => None
  }

  /** The literal side of an equality and the other side; the left one is tried
      first. */
  function Sides(consts: Env, l: Expr, r: Expr): (s: Option<(nat, Expr)>)
    ensures s.Some? ==> s.value.0 < WORD
  {
    if FoldLit(consts, l).Some? then Some((FoldLit(consts, l).value, r))
    else if FoldLit(consts, r).Some? then Some((FoldLit(consts, r).value, l))
    else None
  }

  function MaskOf(consts: Env, e: Expr): Option<nat> {
    var m := FoldLit(consts, e);
    if m.Some? && LowBitsMask(m.value).Some? then m else None
  }

  /** `smtTryBandMaskEqZeroToMod` */
  function TryBand(consts: Env, l: Expr, r: Expr): Option<Form> {
    var s := Sides(consts, l, r);
    if s.None? || !s.value.1.Band? then None
    else
      var (v, band) := s.value;
      var left, right := MaskOf(consts, band.l), MaskOf(consts, band.r);
      if left.None? && right.None? then None
      else
        var (m, x) := if left.Some? then (left.value, band.r) else (right.value, band.l);
        if v == 0 || v == m then Some(ModIs(x, LowBitsMask(m).value, v)) else None
  }

  /** `smtTryShrEqToDiv` */
  function TryShr(consts: Env, l: Expr, r: Expr): Option<Form> {
    var s := Sides(consts, l, r);
    if s.None? || !s.value.1.Shr? then None
    else
      var (k, shr) := s.value;
      var n := FoldLit(consts, shr.r);
      if n.None? || n.value > 62 then None else Some(DivIs(shr.l, Pow2(n.value), k))
  }

  /** `smtTryBorEqMaskToMod` */
  function TryBor(consts: Env, l: Expr, r: Expr): Option<Form> {
    var s := Sides(consts, l, r);
    if s.None? || !s.value.1.Bor? then None
    else
      var (m, bor) := s.value;
      if FoldLit(consts, bor.r) != Some(m) && FoldLit(consts, bor.l) != Some(m) then None
      else
        var x := if FoldLit(consts, bor.r) == Some(m) then bor.l else bor.r;
        if LowBitsMask(m).Some? then Some(Below(x, LowBitsMask(m).value))
        else if LowBitsMask(WORD - 1 - m).Some? then Some(ModIs(x, LowBitsMask(WORD - 1 - m).value, 0))
        else None
  }

  // ----- masks -----

  lemma WordIs()
    ensures WORD == Pow2(64)
  {
    FourFold(4);
    assert Pow2(4) == 16;
    assert Pow2(16) == 16 * 16 * (16 * 16);
  }

  lemma {:induction false} FourFold(a: nat)
    ensures Pow2(16 * a) == Pow2(4 * a) * Pow2(4 * a) * (Pow2(4 * a) * Pow2(4 * a))
    ensures Pow2(4 * a) == Pow2(a) * Pow2(a) * (Pow2(a) * Pow2(a))
  {
    Pow2Sum(8 * a, 8 * a); Pow2Sum(4 * a, 4 * a); Pow2Sum(2 * a, 2 * a); Pow2Sum(a, a);
  }

  /** The masks recognized are exactly `2^k - 1` for `k` from 1 to 63. */
  lemma {:induction false} MasksRecognized(m: nat)
    requires m < WORD
    ensures LowBitsMask(m).Some? <==> exists k: nat :: 1 <= k <= 63 && m == Pow2(k) - 1
    ensures LowBitsMask(m).Some? ==> LowBitsMask(m).value == m + 1
  {
    if LowBitsMask(m).Some? { var k := MaskIsRun(m); }
    forall k: nat | 1 <= k <= 63 && m == Pow2(k) - 1 ensures LowBitsMask(m).Some? { RunIsMask(k); }
  }

  lemma {:induction false} MaskIsRun(m: nat) returns (k: nat)
    requires m < WORD && LowBitsMask(m).Some?
    ensures 1 <= k <= 63 && m == Pow2(k) - 1 && LowBitsMask(m).value == m + 1
  {
    WordIs();
    k := LowRun(m);
    if k >= 64 { Pow2Mono(64, k); }
  }

  lemma {:induction false} RunIsMask(k: nat)
    requires 1 <= k <= 63
    ensures Pow2(k) < WORD && LowBitsMask(Pow2(k) - 1) == Some(Pow2(k))
  {
    WordIs();
    Pow2Mono(k, 63); Pow2Mono(63, 64); Pow2Mono(0, k);
    LowRunAnd(k);
    Values.QuotientIs(Pow2(k), WORD, 0, Pow2(k));
  }

  /** Low bits are the same in an integer and in its 64-bit pattern. */
  lemma {:induction false} LowBitsAgree(x: int, k: nat)
    requires k <= 64
    ensures Pattern(x) % Pow2(k) == x % Pow2(k)
  {
    WordIs();
    Pow2Sum(k, 64 - k);
    ModMod(x, Pow2(k), Pow2(64 - k));
  }

  /** Dividing by `p` in one step, and after reducing modulo a multiple of it. */
  lemma ModMod(x: int, p: nat, q: nat)
    requires p >= 1 && q >= 1
    ensures p * q >= 1 && x % (p * q) % p == x % p && x / p == q * (x / (p * q)) + x % (p * q) / p
  {
    assert p * q >= 1 by { Values.AtLeast(p, q); }
    var d, y := x / (p * q), x % (p * q);
    assert x == (p * q) * d + y;
    assert (p * q) * d == p * (q * d);
    var e, r := y / p, y % p;
    assert p * (q * d + e) == p * (q * d) + p * e;
    Values.QuotientIs(x, p, q * d + e, r);
  }

  // ----- the rewrites keep the 64-bit meaning -----

  /** A name that folds to a constant is not hidden by a local one with another
      64-bit pattern. */
  predicate Unhidden(consts: Env, env: Env, e: Expr) {
    e.Name? && e.x in consts && e.x in env ==> Pattern(env[e.x]) == Pattern(consts[e.x])
  }

  /** The operands a rewrite folds: the literal side, and on the other side the
      mask or the shift amount. */
  function Folded(consts: Env, l: Expr, r: Expr): seq<Expr> {
    var s := Sides(consts, l, r);
    if s.None? then []
    else
      [if FoldLit(consts, l).Some? then l else r] +
      match s.value.1
      case Band(a, b) => [if MaskOf(consts, a).Some? then a else b]
      case Bor(a, b) => [if FoldLit(consts, b) == Some(s.value.0) then b else a]
      case Shr(_, n) => [n]
      case _ => []
  }

  /** No operand the rewrite folds is hidden. */
  predicate NoHidden(consts: Env, env: Env, l: Expr, r: Expr) {
    forall i :: 0 <= i < |Folded(consts, l, r)| ==> Unhidden(consts, env, Folded(consts, l, r)[i])
  }

  lemma {:induction false} FoldIsWord(consts: Env, env: Env, e: Expr)
    requires Unhidden(consts, env, e) && FoldLit(consts, e).Some?
    ensures Word(consts, env, e) == FoldLit(consts, e).value
  {
  }

  lemma {:induction false} AndAtMost(a: nat, b: nat)
    ensures BitAnd(a, b) <= a
    decreases a
  {
    if a != 0 && b != 0 { AndAtMost(a / 2, b / 2); }
  }

  lemma {:induction false} OrBelow(a: nat, b: nat, k: nat)
    requires a < Pow2(k) && b < Pow2(k)
    ensures BitOr(a, b) < Pow2(k)
    decreases k
  {
    if a != 0 && b != 0 { OrBelow(a / 2, b / 2, k - 1); }
  }

  lemma {:induction false} WordInRange(consts: Env, env: Env, e: Expr)
    ensures Word(consts, env, e) < WORD
  {
    match e
    case Lit(_) =>
    case Name(_) =>
    case Band(l, r) => WordInRange(consts, env, l); AndAtMost(Word(consts, env, l), Word(consts, env, r));
    case Bor(l, r) =>
      WordInRange(consts, env, l); WordInRange(consts, env, r); WordIs();
      OrBelow(Word(consts, env, l), Word(consts, env, r), 64);
    case Shr(l, _) => WordInRange(consts, env, l);
  }

  /** An expression's 64-bit meaning is the pattern of its integer meaning. */
  lemma {:induction false} WordIsPattern(consts: Env, env: Env, e: Expr)
    ensures Word(consts, env, e) == Pattern(Int(consts, env, e)) < WORD
  {
    WordInRange(consts, env, e);
  }

  /** The `&` rewrite has the 64-bit meaning for every integer operand. */
  lemma {:induction false} BandExact(consts: Env, env: Env, l: Expr, r: Expr)
    requires NoHidden(consts, env, l, r) && TryBand(consts, l, r).Some?
    ensures TryBand(consts, l, r).value.power > 0
    ensures Meaning(consts, env, TryBand(consts, l, r).value) <==> Word(consts, env, l) == Word(consts, env, r)
  {
    var (v, band) := Sides(consts, l, r).value;
    var left := MaskOf(consts, band.l);
    var (m, x) := if left.Some? then (left.value, band.r) else (MaskOf(consts, band.r).value, band.l);
    var k := MaskIsRun(m);
    var w := Word(consts, env, x);
    assert Unhidden(consts, env, Folded(consts, l, r)[0]) && Unhidden(consts, env, Folded(consts, l, r)[1]);
    FoldIsWord(consts, env, if left.Some? then band.l else band.r);
    FoldIsWord(consts, env, if FoldLit(consts, l).Some? then l else r);
    assert Word(consts, env, band) == BitAnd(w, m) by { AndCommutes(w, m); }
    AndLowMask(w, k);
    LowBitsIsMod(w, k);
    WordIsPattern(consts, env, x);
    LowBitsAgree(Int(consts, env, x), k);
  }

  /** The integers for which "below `2^k`" and "the pattern is below `2^k`" say
      the same. */
  predicate SameBound(x: int, p: nat) {
    if x < 0 then Pattern(x) < p else if x < WORD then true else Pattern(x) >= p
  }

  lemma {:induction false} OrWithLowMask(x: nat, m: nat)
    requires x < WORD && m < WORD && LowBitsMask(m).Some?
    ensures 0 < LowBitsMask(m).value < WORD && (BitOr(x, m) == m <==> x < LowBitsMask(m).value)
  {
    var k := MaskIsRun(m);
    RunIsMask(k);
    OrLowMask(x, k);
  }

  lemma {:induction false} OrWithHighMask(x: int, m: nat)
    requires m < WORD && LowBitsMask(WORD - 1 - m).Some?
    ensures 0 < LowBitsMask(WORD - 1 - m).value
        && (BitOr(Pattern(x), m) == m <==> x % LowBitsMask(WORD - 1 - m).value == 0)
  {
    WordIs();
    var k := MaskIsRun(WORD - 1 - m);
    OrHighMask(Pattern(x), m, k, 64);
    LowBitsIsMod(Pattern(x), k);
    LowBitsAgree(x, k);
  }

  /** The `|` rewrite: for a high mask it has the 64-bit meaning for every
      integer, for a low mask exactly under the stated bound, which every
      operand from 0 to `2^64 - 1` meets. */
  lemma {:induction false} BorExact(consts: Env, env: Env, l: Expr, r: Expr)
    requires NoHidden(consts, env, l, r) && TryBor(consts, l, r).Some?
    ensures TryBor(consts, l, r).value.power > 0
    ensures var f := TryBor(consts, l, r).value;
            (Meaning(consts, env, f) <==> Word(consts, env, l) == Word(consts, env, r))
            <==> f.ModIs? || SameBound(Int(consts, env, f.x), f.power)
  {
    var (m, bor) := Sides(consts, l, r).value;
    var onRight := FoldLit(consts, bor.r) == Some(m);
    var x := if onRight then bor.l else bor.r;
    var f := TryBor(consts, l, r).value;
    var w := Word(consts, env, x);
    assert Unhidden(consts, env, Folded(consts, l, r)[0]) && Unhidden(consts, env, Folded(consts, l, r)[1]);
    FoldIsWord(consts, env, if onRight then bor.r else bor.l);
    FoldIsWord(consts, env, if FoldLit(consts, l).Some? then l else r);
    assert Word(consts, env, bor) == BitOr(w, m) by { OrCommutes(w, m); }
    assert Word(consts, env, l) == Word(consts, env, r) <==> BitOr(w, m) == m;
    WordIsPattern(consts, env, x);
    if LowBitsMask(m).Some? {
      OrWithLowMask(w, m);
      BoundCases(Int(consts, env, x), f.power);
    } else {
      OrWithHighMask(Int(consts, env, x), m);
    }
  }

  lemma BoundCases(x: int, p: nat)
    requires 0 < p < WORD
    ensures SameBound(x, p) <==> (x < p <==> Pattern(x) < p)
  {
    if 0 <= x < WORD { Values.QuotientIs(x, WORD, 0, x); }
  }

  /** The shift rewrite agrees with the 64-bit meaning exactly when the operand's
      quotient is that of its pattern; over all literals together that is when
      the operand is from 0 to `2^64 - 1`. */
  lemma {:induction false} ShiftedQuotients(x: int, n: nat)
    requires n <= 62
    ensures x / Pow2(n) == Pattern(x) / Pow2(n) <==> 0 <= x < WORD
  {
    WordIs();
    Pow2Sum(n, 64 - n);
    ModMod(x, Pow2(n), Pow2(64 - n));
    NonZeroProduct(Pow2(64 - n), x / WORD);
  }

  lemma NonZeroProduct(q: nat, d: int)
    requires q >= 1
    ensures q * d == 0 <==> d == 0
  {
    if d > 0 { Values.AtLeast(q, d); }
    if d < 0 { Values.AtLeast(q, -d); assert q * -d == -(q * d); }
  }

  lemma {:induction false} ShrExact(consts: Env, env: Env, l: Expr, r: Expr)
    requires NoHidden(consts, env, l, r) && TryShr(consts, l, r).Some?
    ensures var f := TryShr(consts, l, r).value;
            var x := Int(consts, env, f.x);
            && f.power > 0
            && ((Meaning(consts, env, f) <==> Word(consts, env, l) == Word(consts, env, r))
                <==> 0 <= x < WORD || (x / f.power != f.k && Pattern(x) / f.power != f.k))
  {
    var (k, shr) := Sides(consts, l, r).value;
    var n := FoldLit(consts, shr.r).value;
    assert Unhidden(consts, env, Folded(consts, l, r)[0]) && Unhidden(consts, env, Folded(consts, l, r)[1]);
    FoldIsWord(consts, env, shr.r);
    FoldIsWord(consts, env, if FoldLit(consts, l).Some? then l else r);
    WordIsPattern(consts, env, shr.l);
    ShiftedQuotients(Int(consts, env, shr.l), n);
    ShiftIsDiv(Word(consts, env, shr.l), n);
    assert Word(consts, env, l) == Word(consts, env, r) <==> Word(consts, env, shr) == k;
  }

  // ----- hidden constants -----

  /** The rewrite says what the comparison does. */
  ghost predicate Right(consts: Env, env: Env, f: Form, l: Expr, r: Expr) {
    f.power > 0 && (Meaning(consts, env, f) <==> Word(consts, env, l) == Word(consts, env, r))
  }

  /** Two words that have no bit in common with the same words are equal. */
  lemma {:induction false} Separated(a: nat, b: nat) returns (x: nat)
    requires a != b
    ensures (BitAnd(x, a) == 0) != (BitAnd(x, b) == 0) && (x <= a || x <= b)
    decreases a + b
  {
    if a % 2 != b % 2 {
      x := 1;
      assert BitAnd(0, a / 2) == 0 && BitAnd(0, b / 2) == 0;
    } else {
      var y := Separated(a / 2, b / 2);
      x := 2 * y;
    }
  }

  lemma {:induction false} Absorbed(a: nat, b: nat)
    ensures BitAnd(BitOr(a, b), a) == a
    decreases a
  {
    if a == 0 {
      assert BitAnd(b, 0) == 0;
    } else if b == 0 {
      AndSelf(a);
    } else {
      var o := BitOr(a / 2, b / 2);
      Absorbed(a / 2, b / 2);
      OneBit(a, o, BitOr(a, b) % 2);
    }
  }

  lemma {:induction false} OneBit(a: nat, o: nat, bit: nat)
    requires a != 0 && bit < 2 && (a % 2 == 1 ==> bit == 1) && BitAnd(o, a / 2) == a / 2
    ensures BitAnd(2 * o + bit, a) == a
  {
    var x := 2 * o + bit;
    assert x / 2 == o && x % 2 == bit;
  }

  lemma {:induction false} OrSelf(a: nat)
    ensures BitOr(a, a) == a
    decreases a
  {
    if a != 0 { OrSelf(a / 2); }
  }

  /** Masking with `m` and comparing with `v` says the same as with `w` and `u`. */
  predicate SameTest(x: nat, m: nat, v: nat, w: nat, u: nat) {
    BitAnd(x, m) == v <==> BitAnd(x, w) == u
  }

  ghost predicate SameTests(m: nat, v: nat, w: nat, u: nat) {
    forall x: nat :: x < WORD ==> SameTest(x, m, v, w, u)
  }

  lemma TestAt(x: nat, m: nat, v: nat, w: nat, u: nat)
    requires SameTests(m, v, w, u) && x < WORD
    ensures BitAnd(x, m) == v <==> BitAnd(x, w) == u
  {
    assert SameTest(x, m, v, w, u);
  }

  /** Where it does for every word, the masks and the literals are the same. */
  lemma {:induction false} SameMaskTest(m: nat, v: nat, w: nat, u: nat)
    requires m < WORD && w < WORD && (v == 0 || v == m)
    requires SameTests(m, v, w, u)
    ensures w == m && u == v
  {
    if v == m {
      WordIs();
      OrBelow(m, w, 64);
      assert SameTest(m, m, v, w, u) && SameTest(w, m, v, w, u) && SameTest(BitOr(m, w), m, v, w, u);
      Absorbed(m, w); Absorbed(w, m); OrCommutes(m, w);
      AndSelf(m); AndSelf(w); AndCommutes(m, w);
    } else {
      assert SameTest(0, m, v, w, u) && BitAnd(0, m) == 0 && BitAnd(0, w) == 0;
      if w != m {
        var x := Separated(m, w);
        TestAt(x, m, v, w, u);
      }
    }
  }

  /** An operand that folds is read right exactly when it is not hidden by a
      local with another pattern. */
  lemma FoldedWords(consts: Env, env: Env, e: Expr)
    requires FoldLit(consts, e).Some?
    ensures Word(consts, env, e) == FoldLit(consts, e).value <==> Unhidden(consts, env, e)
  {
  }

  /** The comparison is rewritten right where the name `x` has the value `n`. */
  ghost predicate RightFor(consts: Env, env: Env, x: string, n: int, f: Form, l: Expr, r: Expr) {
    Right(consts, env[x := n], f, l, r)
  }

  lemma OtherName(consts: Env, env: Env, x: string, n: int, e: Expr)
    requires FoldLit(consts, e).Some? && e != Name(x)
    ensures Word(consts, env[x := n], e) == Word(consts, env, e)
  {
  }

  lemma {:induction false} BandAt(consts: Env, env: Env, x: string, n: int, mask: Expr, m: nat, v: Expr, f: Form)
    requires mask != Name(x) && v != Name(x) && FoldLit(consts, v).Some? && FoldLit(consts, mask).Some?
    requires m < WORD && LowBitsMask(m).Some? && f.ModIs? && f.x == Name(x) && f.power == LowBitsMask(m).value
    ensures RightFor(consts, env, x, n, f, Band(Name(x), mask), v)
       <==> SameTest(Pattern(n), m, f.v, Word(consts, env, mask), Word(consts, env, v))
  {
    var k := MaskIsRun(m);
    OtherName(consts, env, x, n, mask);
    OtherName(consts, env, x, n, v);
    AndLowMask(Pattern(n), k);
    LowBitsIsMod(Pattern(n), k);
    LowBitsAgree(n, k);
    assert Word(consts, env[x := n], Band(Name(x), mask)) == BitAnd(Pattern(n), Word(consts, env, mask));
  }

  /** The `&` rewrite is right for every integer operand exactly when neither the
      mask nor the literal is hidden by a local with another pattern. */
  lemma {:induction false} BandHiddenExact(consts: Env, env: Env, x: string, mask: Expr, v: Expr)
    requires x !in consts && mask != Name(x) && v != Name(x) && TryBand(consts, Band(Name(x), mask), v).Some?
    ensures var l, f := Band(Name(x), mask), TryBand(consts, Band(Name(x), mask), v).value;
            (forall n: int :: RightFor(consts, env, x, n, f, l, v))
              <==> Unhidden(consts, env, mask) && Unhidden(consts, env, v)
  {
    var f := TryBand(consts, Band(Name(x), mask), v).value;
    var m := MaskOf(consts, mask).value;
    FoldedWords(consts, env, mask);
    FoldedWords(consts, env, v);
    BandTests(consts, env, x, mask, m, v, f);
    if forall n: int :: RightFor(consts, env, x, n, f, Band(Name(x), mask), v) {
      WordInRange(consts, env, mask);
      SameMaskTest(m, f.v, Word(consts, env, mask), Word(consts, env, v));
    }
  }

  lemma {:induction false} BandTests(consts: Env, env: Env, x: string, mask: Expr, m: nat, v: Expr, f: Form)
    requires mask != Name(x) && v != Name(x) && FoldLit(consts, v).Some? && FoldLit(consts, mask).Some?
    requires m < WORD && LowBitsMask(m).Some? && f.ModIs? && f.x == Name(x) && f.power == LowBitsMask(m).value
    ensures (forall n: int :: RightFor(consts, env, x, n, f, Band(Name(x), mask), v))
       <==> SameTests(m, f.v, Word(consts, env, mask), Word(consts, env, v))
  {
    var l, w, u := Band(Name(x), mask), Word(consts, env, mask), Word(consts, env, v);
    if forall n: int :: RightFor(consts, env, x, n, f, l, v) {
      forall y: nat | y < WORD ensures SameTest(y, m, f.v, w, u) {
        assert RightFor(consts, env, x, y, f, l, v);
        BandAt(consts, env, x, y, mask, m, v, f);
        Values.QuotientIs(y, WORD, 0, y);
      }
    }
    if SameTests(m, f.v, w, u) {
      forall n: int ensures RightFor(consts, env, x, n, f, l, v) {
        assert SameTest(Pattern(n), m, f.v, w, u);
        BandAt(consts, env, x, n, mask, m, v, f);
      }
    }
  }

  lemma {:induction false} BorAt(consts: Env, env: Env, x: string, n: nat, mask: Expr, m: nat, v: Expr, f: Form)
    requires n < WORD && mask != Name(x) && v != Name(x) && FoldLit(consts, v).Some? && FoldLit(consts, mask).Some?
    requires m < WORD && if LowBitsMask(m).Some? then f == Below(Name(x), LowBitsMask(m).value)
                         else LowBitsMask(WORD - 1 - m).Some? && f == ModIs(Name(x), LowBitsMask(WORD - 1 - m).value, 0)
    ensures RightFor(consts, env, x, n, f, Bor(Name(x), mask), v)
       <==> (BitOr(n, m) == m <==> BitOr(n, Word(consts, env, mask)) == Word(consts, env, v))
  {
    OtherName(consts, env, x, n, mask);
    OtherName(consts, env, x, n, v);
    Values.QuotientIs(n, WORD, 0, n);
    if LowBitsMask(m).Some? { OrWithLowMask(n, m); } else { OrWithHighMask(n, m); }
    assert Word(consts, env[x := n], Bor(Name(x), mask)) == BitOr(n, Word(consts, env, mask));
  }

  /** The `|` rewrite is right for every operand from 0 to `2^64 - 1` exactly when
      neither occurrence of the mask is hidden by a local with another
      pattern. */
  lemma {:induction false} BorHiddenExact(consts: Env, env: Env, x: string, mask: Expr, v: Expr)
    requires x !in consts && mask != Name(x) && v != Name(x) && TryBor(consts, Bor(Name(x), mask), v).Some?
    ensures var l, f := Bor(Name(x), mask), TryBor(consts, Bor(Name(x), mask), v).value;
            (forall n: nat :: n < WORD ==> RightFor(consts, env, x, n, f, l, v))
            <==> Unhidden(consts, env, mask) && Unhidden(consts, env, v)
  {
    var l, f := Bor(Name(x), mask), TryBor(consts, Bor(Name(x), mask), v).value;
    var m, w, u := FoldLit(consts, v).value, Word(consts, env, mask), Word(consts, env, v);
    forall n: nat | n < WORD
      ensures RightFor(consts, env, x, n, f, l, v) <==> (BitOr(n, m) == m <==> BitOr(n, w) == u)
    {
      BorAt(consts, env, x, n, mask, m, v, f);
    }
    FoldedWords(consts, env, mask);
    FoldedWords(consts, env, v);
    if forall n: nat :: n < WORD ==> RightFor(consts, env, x, n, f, l, v) {
      WordInRange(consts, env, mask);
      assert RightFor(consts, env, x, 0, f, l, v) && RightFor(consts, env, x, m, f, l, v)
             && RightFor(consts, env, x, w, f, l, v);
      OrSelf(m); OrSelf(w); OrCommutes(m, w);
    }
  }

  // ----- when they fire -----

  /** The AND rewrite fires for a low mask on either side, with 0 or the mask
      itself to compare with, and for no other literal. */
  lemma {:induction false} BandFires(consts: Env, x: Expr, m: nat, v: nat)
    requires m < WORD && v < WORD && LowBitsMask(m).Some? && MaskOf(consts, x).None?
    ensures var f := if v == 0 || v == m then Some(ModIs(x, m + 1, v)) else None;
            TryBand(consts, Band(x, Lit(m)), Lit(v)) == f && TryBand(consts, Band(Lit(m), x), Lit(v)) == f
            && TryBand(consts, Lit(v), Band(x, Lit(m))) == f
  {
    MasksRecognized(m);
    LitFolds(consts, m); LitFolds(consts, v);
    assert MaskOf(consts, Lit(m)) == Some(m);
    assert Sides(consts, Band(x, Lit(m)), Lit(v)) == Some((v, Band(x, Lit(m))));
    assert Sides(consts, Band(Lit(m), x), Lit(v)) == Some((v, Band(Lit(m), x)));
    assert Sides(consts, Lit(v), Band(x, Lit(m))) == Some((v, Band(x, Lit(m))));
  }

  /** Of two masks the left one is tried first. */
  lemma {:induction false} BandPrefersLeft(consts: Env, m: nat, other: nat)
    requires m < WORD && other < WORD && LowBitsMask(m).Some? && LowBitsMask(other).Some?
    ensures TryBand(consts, Band(Lit(m), Lit(other)), Lit(0)) == Some(ModIs(Lit(other), m + 1, 0))
  {
    MasksRecognized(m);
    LitFolds(consts, m); LitFolds(consts, other); LitFolds(consts, 0);
  }

  lemma LitFolds(consts: Env, m: nat)
    requires m < WORD
    ensures FoldLit(consts, Lit(m)) == Some(m)
  {
    Values.QuotientIs(m, WORD, 0, m);
  }

  /** The OR rewrite fires for a low mask and for the complement of one. */
  lemma {:induction false} BorFires(consts: Env, x: Expr, m: nat)
    requires m < WORD && FoldLit(consts, x) != Some(m)
    ensures var f := if LowBitsMask(m).Some? then Some(Below(x, m + 1))
                     else if LowBitsMask(WORD - 1 - m).Some? then Some(ModIs(x, WORD - m, 0))
                     else None;
            TryBor(consts, Bor(x, Lit(m)), Lit(m)) == f && TryBor(consts, Bor(Lit(m), x), Lit(m)) == f
  {
    MasksRecognized(m);
    MasksRecognized(WORD - 1 - m);
    LitFolds(consts, m);
  }

  /** The shift rewrite fires for every literal shift up to 62. */
  lemma {:induction false} ShrFires(consts: Env, x: Expr, n: nat, k: nat)
    requires n < WORD && k < WORD
    ensures TryShr(consts, Shr(x, Lit(n)), Lit(k)) == if n <= 62 then Some(DivIs(x, Pow2(n), k)) else None
  {
    LitFolds(consts, n); LitFolds(consts, k);
  }

  /** The folder asks for a constant of that name before looking for a local
      one, so a local that hides a constant is read as the constant. */
  lemma {:induction false} ShadowedConstantMisread()
    ensures var consts, env: Env := map["M" := 7], map["M" := 8, "x" := 8];
            var l, r := Band(Name("x"), Name("M")), Lit(0);
            var f := TryBand(consts, l, r);
            f == Some(ModIs(Name("x"), 8, 0)) && Meaning(consts, env, f.value)
            && Word(consts, env, l) != Word(consts, env, r)
  {
    var consts, env: Env := map["M" := 7], map["M" := 8, "x" := 8];
    assert Pow2(3) == 8;
    RunIsMask(3);
    AndSelf(8);
    assert Word(consts, env, Band(Name("x"), Name("M"))) == BitAnd(Pattern(8), Pattern(8));
  }
}
