/** `ox_mat_solve`: Gauss-Jordan elimination with partial pivoting, over exact
    reals. */
module GaussJordan {

  /** Row-major storage, as in the runtime. */
  datatype Mat = Mat(rows: nat, cols: nat, data: seq<real>)

  /** An empty matrix still owns one (zero) element. */
  predicate WellFormed(m: Mat) {
    |m.data| == if m.rows * m.cols == 0 then 1 else m.rows * m.cols
  }

  lemma IndexFits(rows: nat, cols: nat, i: nat, j: nat)
    requires i < rows && j < cols
    ensures 0 <= i * cols + j < rows * cols
  {
    Multiples(i + 1, rows, cols);
    assert (i + 1) * cols == i * cols + cols;
    Multiples(0, i, cols);
  }

  lemma {:induction false} Multiples(a: nat, b: nat, c: nat)
    requires a <= b
    ensures a * c <= b * c
    decreases b
  {
    if a < b { Multiples(a, b - 1, c); }
  }

  function At(m: Mat, i: nat, j: nat): real
    requires WellFormed(m) && i < m.rows && j < m.cols
  {
    IndexFits(m.rows, m.cols, i, j);
    m.data[i * m.cols + j]
  }

  const TOLERANCE: real := 0.000000000001

  function Abs(x: real): real {
    if x < 0.0 then -x else x
  }

  /** NotSquare and BadRhs end the program in the original; Singular is the
      vector of NaNs, with the pivot that was too small. */
  datatype Outcome = NotSquare | BadRhs | Singular(pivot: real) | Solution(x: seq<real>)

  // ----- linear algebra on sequences of rows -----

  /** The sum of the first `k` products. */
  function DotTo(u: seq<real>, v: seq<real>, k: nat): real
    requires k <= |u| && k <= |v|
  {
    if k == 0 then 0.0 else DotTo(u, v, k - 1) + u[k - 1] * v[k - 1]
  }

  function Dot(u: seq<real>, v: seq<real>): real
    requires |u| == |v|
  {
    DotTo(u, v, |u|)
  }

  ghost predicate Solves(a: Mat, b: Mat, x: seq<real>)
    requires WellFormed(a) && a.rows == a.cols && |b.data| >= a.rows
  {
    |x| == a.rows && forall i :: 0 <= i < a.rows ==> Dot(RowOf(a, i), x) == b.data[i]
  }

  function RowOf(a: Mat, i: nat): (r: seq<real>)
    requires WellFormed(a) && i < a.rows
    ensures |r| == a.cols
  {
    seq(a.cols, j requires 0 <= j < a.cols => At(a, i, j))
  }

  /** A vector the matrix sends to zero. */
  ghost predicate InKernel(a: Mat, z: seq<real>)
    requires WellFormed(a) && a.rows == a.cols
  {
    |z| == a.rows && forall i :: 0 <= i < a.rows ==> Dot(RowOf(a, i), z) == 0.0
  }

  predicate IsZero(z: seq<real>) {
    forall i :: 0 <= i < |z| ==> z[i] == 0.0
  }

  ghost predicate IsSingular(a: Mat)
    requires WellFormed(a) && a.rows == a.cols
  {
    exists z :: InKernel(a, z) && !IsZero(z)
  }

  /** Rows of an augmented system of `n` equations. */
  predicate Shaped(m: seq<seq<real>>, n: nat) {
    |m| == n && forall i :: 0 <= i < n ==> |m[i]| == n + 1
  }

  ghost predicate InNull(m: seq<seq<real>>, n: nat, y: seq<real>)
    requires Shaped(m, n)
  {
    |y| == n + 1 && forall i :: 0 <= i < n ==> Dot(m[i], y) == 0.0
  }

  ghost predicate SameNull(m: seq<seq<real>>, m': seq<seq<real>>, n: nat) {
    Shaped(m, n) && Shaped(m', n) && forall y :: InNull(m, n, y) <==> InNull(m', n, y)
  }

  lemma {:induction false} DotScaled(u: seq<real>, u': seq<real>, d: real, y: seq<real>, k: nat)
    requires |u| == |u'| == |y| && k <= |u|
    requires forall j :: 0 <= j < k ==> u[j] == d * u'[j]
    ensures DotTo(u, y, k) == d * DotTo(u', y, k)
    decreases k
  {
    if k > 0 { DotScaled(u, u', d, y, k - 1); }
  }

  lemma {:induction false} DotReduced(u: seq<real>, w: seq<real>, f: real, u': seq<real>, y: seq<real>, k: nat)
    requires |u| == |w| == |u'| == |y| && k <= |u|
    requires forall j :: 0 <= j < k ==> u'[j] == u[j] - f * w[j]
    ensures DotTo(u', y, k) == DotTo(u, y, k) - f * DotTo(w, y, k)
    decreases k
  {
    if k > 0 { DotReduced(u, w, f, u', y, k - 1); }
  }

  lemma SwapKeepsNull(m: seq<seq<real>>, n: nat, a: nat, b: nat)
    requires Shaped(m, n) && a < n && b < n
    ensures SameNull(m, Swapped(m, a, b), n)
  {
    var m' := Swapped(m, a, b);
    forall y ensures InNull(m, n, y) <==> InNull(m', n, y) {
      if |y| == n + 1 {
        assert m'[a] == m[b] && m'[b] == m[a];
        if InNull(m', n, y) {
          forall i | 0 <= i < n
            ensures Dot(m[i], y) == 0.0
          {
            assert m[i] == m'[if i == a then b else if i == b then a else i];
          }
        }
      }
    }
  }

  // ----- the elimination, step by step -----

  /** The first row from `c` on whose entry in column `c` is largest, given that
      `p` is the one among the rows before `r`. */
  function PivotFrom(m: seq<seq<real>>, n: nat, c: nat, r: nat, p: nat): (q: nat)
    requires Shaped(m, n) && c <= p < r <= n
    requires forall i :: c <= i < r ==> Abs(m[i][c]) <= Abs(m[p][c])
    ensures c <= q < n && forall i :: c <= i < n ==> Abs(m[i][c]) <= Abs(m[q][c])
    decreases n - r
  {
    if r == n then p else PivotFrom(m, n, c, r + 1, if Abs(m[r][c]) > Abs(m[p][c]) then r else p)
  }

  function PivotRow(m: seq<seq<real>>, n: nat, c: nat): (q: nat)
    requires Shaped(m, n) && c < n
    ensures c <= q < n && forall i :: c <= i < n ==> Abs(m[i][c]) <= Abs(m[q][c])
  {
    PivotFrom(m, n, c, c + 1, c)
  }

  function Swapped(m: seq<seq<real>>, a: nat, b: nat): seq<seq<real>>
    requires a < |m| && b < |m|
  {
    m[a := m[b]][b := m[a]]
  }

  function Scaled(u: seq<real>, d: real): (v: seq<real>)
    requires d != 0.0
    ensures |v| == |u|
  {
    seq(|u|, j requires 0 <= j < |u| => u[j] / d)
  }

  function Reduced(u: seq<real>, w: seq<real>, f: real): (v: seq<real>)
    requires |u| == |w|
    ensures |v| == |u|
  {
    seq(|u|, j requires 0 <= j < |u| => u[j] - f * w[j])
  }

  /** Column `c` cleared: the pivot row scaled to 1, and its multiples taken off
      every other row. */
  function Cleared(m: seq<seq<real>>, n: nat, c: nat): (m': seq<seq<real>>)
    requires Shaped(m, n) && c < n && m[c][c] != 0.0
    ensures Shaped(m', n)
  {
    var p := Scaled(m[c], m[c][c]);
    seq(n, i requires 0 <= i < n => if i == c then p else Reduced(m[i], p, m[i][c]))
  }

  function LastColumn(m: seq<seq<real>>, n: nat): (x: seq<real>)
    requires Shaped(m, n)
    ensures |x| == n && forall i :: 0 <= i < n ==> x[i] == m[i][n]
  {
    seq(n, i requires 0 <= i < n => m[i][n])
  }

  /** The outcome from column `c` on. */
  function Eliminate(m: seq<seq<real>>, n: nat, c: nat): Outcome
    requires Shaped(m, n) && c <= n
    decreases n - c
  {
    if c == n then Solution(LastColumn(m, n))
    else
      var p := PivotRow(m, n, c);
      if Abs(m[p][c]) < TOLERANCE then Singular(Abs(m[p][c]))
      else Eliminate(Cleared(Swapped(m, c, p), n, c), n, c + 1)
  }

  /** The rows of the matrix, each followed by its right-hand side. */
  function System(a: Mat, b: Mat): (m: seq<seq<real>>)
    requires WellFormed(a) && a.rows == a.cols && |b.data| >= a.rows
    ensures Shaped(m, a.rows)
  {
    seq(a.rows, i requires 0 <= i < a.rows => RowOf(a, i) + [b.data[i]])
  }

  lemma ClearedKeepsNull(m: seq<seq<real>>, n: nat, c: nat)
    requires Shaped(m, n) && c < n && m[c][c] != 0.0
    ensures SameNull(m, Cleared(m, n, c), n)
  {
    forall y | |y| == n + 1 ensures InNull(m, n, y) <==> InNull(Cleared(m, n, c), n, y) {
      var m', d, p := Cleared(m, n, c), m[c][c], Scaled(m[c], m[c][c]);
      DotScaled(m[c], p, d, y, n + 1);
      assert Dot(m[c], y) == d * Dot(p, y) && m'[c] == p;
      assert Dot(m[c], y) == 0.0 <==> Dot(p, y) == 0.0;
      forall i | 0 <= i < n && i != c && Dot(p, y) == 0.0 ensures Dot(m'[i], y) == Dot(m[i], y) {
        DotReduced(m[i], p, m[i][c], m'[i], y, n + 1);
        assert m[i][c] * Dot(p, y) == 0.0;
      }
    }
  }

  // ----- finished columns -----

  /** The first `c` columns are those of the unit matrix. */
  predicate UnitColumns(m: seq<seq<real>>, n: nat, c: nat)
    requires Shaped(m, n) && c <= n
  {
    forall i, j :: 0 <= i < n && 0 <= j < c ==> m[i][j] == if i == j then 1.0 else 0.0
  }

  lemma ClearedUnits(m: seq<seq<real>>, n: nat, c: nat)
    requires Shaped(m, n) && c < n && m[c][c] != 0.0 && UnitColumns(m, n, c)
    ensures UnitColumns(Cleared(m, n, c), n, c + 1)
  {
    var m', p := Cleared(m, n, c), Scaled(m[c], m[c][c]);
    assert p[c] == m[c][c] / m[c][c] == 1.0;
    forall j | 0 <= j < c ensures p[j] == 0.0 { assert m[c][j] == 0.0; }
    forall i, j | 0 <= i < n && 0 <= j < c + 1 ensures m'[i][j] == if i == j then 1.0 else 0.0 {
      if i == c {
        assert m'[i][j] == p[j];
      } else {
        assert m'[i][j] == m[i][j] - m[i][c] * p[j];
        if j < c { assert m[i][c] * p[j] == 0.0; }
      }
    }
  }

  /** Swapping rows below the finished columns leaves these alone. */
  lemma SwappedUnits(m: seq<seq<real>>, n: nat, c: nat, p: nat)
    requires Shaped(m, n) && c <= p < n && UnitColumns(m, n, c)
    ensures UnitColumns(Swapped(m, c, p), n, c)
  {
  }

  /** The value of a row whose first `c` columns are the unit row `i`. */
  lemma {:induction false} UnitRowDot(u: seq<real>, y: seq<real>, i: nat, k: nat)
    requires |u| == |y| && k <= |u|
    requires forall j :: 0 <= j < k ==> u[j] == if i == j then 1.0 else 0.0
    ensures DotTo(u, y, k) == if i < k then y[i] else 0.0
    decreases k
  {
    if k > 0 { UnitRowDot(u, y, i, k - 1); }
  }

  /** Once all columns are finished, the last column is the solution. */
  lemma UnitNull(m: seq<seq<real>>, n: nat, y: seq<real>)
    requires Shaped(m, n) && UnitColumns(m, n, n) && |y| == n + 1
    ensures InNull(m, n, y) <==> forall i :: 0 <= i < n ==> y[i] == -(m[i][n] * y[n])
  {
    forall i | 0 <= i < n ensures Dot(m[i], y) == y[i] + m[i][n] * y[n] {
      UnitRowDot(m[i], y, i, n);
    }
  }

  /** The kernel vector a column without a pivot gives. */
  function Witness(m: seq<seq<real>>, n: nat, c: nat): (z: seq<real>)
    requires Shaped(m, n) && c < n
    ensures |z| == n + 1 && z[n] == 0.0 && z[c] == 1.0
  {
    seq(n + 1, j requires 0 <= j <= n => if j < c then -m[j][c] else if j == c then 1.0 else 0.0)
  }

  lemma {:induction false} TailZero(u: seq<real>, y: seq<real>, c: nat, k: nat)
    requires |u| == |y| && c < k <= |u| && forall j :: c < j < k ==> y[j] == 0.0
    ensures DotTo(u, y, k) == DotTo(u, y, c + 1)
    decreases k
  {
    if k > c + 1 {
      TailZero(u, y, c, k - 1);
      assert u[k - 1] * y[k - 1] == 0.0;
    }
  }

  /** If column `c` is zero on and below the diagonal, the matrix is singular. */
  lemma NoPivotIsNull(m: seq<seq<real>>, n: nat, c: nat)
    requires Shaped(m, n) && c < n && UnitColumns(m, n, c)
    requires forall i :: c <= i < n ==> m[i][c] == 0.0
    ensures InNull(m, n, Witness(m, n, c))
  {
    var z := Witness(m, n, c);
    forall i | 0 <= i < n ensures Dot(m[i], z) == 0.0 {
      TailZero(m[i], z, c, n + 1);
      UnitRowDot(m[i], z, i, c);
    }
  }

  // ----- the augmented system -----

  lemma {:induction false} DotPrefix(u: seq<real>, u': seq<real>, v: seq<real>, v': seq<real>, k: nat)
    requires k <= |u| && k <= |v| && k <= |u'| && k <= |v'| && u[..k] == u'[..k] && v[..k] == v'[..k]
    ensures DotTo(u, v, k) == DotTo(u', v', k)
    decreases k
  {
    if k > 0 {
      assert u[k - 1] == u[..k][k - 1] && u'[k - 1] == u'[..k][k - 1] && v[k - 1] == v[..k][k - 1]
             && v'[k - 1] == v'[..k][k - 1];
      assert u[..k - 1] == u[..k][..k - 1] && u'[..k - 1] == u'[..k][..k - 1];
      assert v[..k - 1] == v[..k][..k - 1] && v'[..k - 1] == v'[..k][..k - 1];
      DotPrefix(u, u', v, v', k - 1);
    }
  }

  lemma DotAppend(u: seq<real>, s: real, x: seq<real>, t: real)
    requires |u| == |x|
    ensures Dot(u + [s], x + [t]) == Dot(u, x) + s * t
  {
    DotPrefix(u + [s], u, x + [t], x, |u|);
  }

  /** Solutions are the null vectors ending in -1, kernel vectors those ending
      in 0. */
  lemma NullMeaning(a: Mat, b: Mat, x: seq<real>)
    requires WellFormed(a) && a.rows == a.cols && |b.data| >= a.rows && |x| == a.rows
    ensures InNull(System(a, b), a.rows, x + [-1.0]) <==> Solves(a, b, x)
    ensures InNull(System(a, b), a.rows, x + [0.0]) <==> InKernel(a, x)
  {
    var m := System(a, b);
    forall i | 0 <= i < a.rows
      ensures Dot(m[i], x + [-1.0]) == Dot(RowOf(a, i), x) - b.data[i]
      ensures Dot(m[i], x + [0.0]) == Dot(RowOf(a, i), x)
    {
      DotAppend(RowOf(a, i), b.data[i], x, -1.0);
      DotAppend(RowOf(a, i), b.data[i], x, 0.0);
    }
  }

  /** What a finished elimination says about the original system. */
  lemma FinishedSolves(m: seq<seq<real>>, a: Mat, b: Mat, x: seq<real>)
    requires WellFormed(a) && a.rows == a.cols && |b.data| >= a.rows
    requires SameNull(System(a, b), m, a.rows) && UnitColumns(m, a.rows, a.rows)
    requires |x| == a.rows && forall i :: 0 <= i < a.rows ==> x[i] == m[i][a.rows]
    ensures forall y :: Solves(a, b, y) <==> y == x
    ensures !IsSingular(a)
  {
    var n := a.rows;
    forall y | |y| == n ensures Solves(a, b, y) <==> y == x {
      NullMeaning(a, b, y);
      UnitNull(m, n, y + [-1.0]);
      assert InNull(System(a, b), n, y + [-1.0]) <==> InNull(m, n, y + [-1.0]);
      assert (forall i :: 0 <= i < n ==> (y + [-1.0])[i] == -(m[i][n] * -1.0)) <==> y == x;
    }
    forall z | InKernel(a, z) ensures IsZero(z) {
      NullMeaning(a, b, z);
      UnitNull(m, n, z + [0.0]);
      assert InNull(System(a, b), n, z + [0.0]) <==> InNull(m, n, z + [0.0]);
      forall i | 0 <= i < n ensures z[i] == 0.0 { assert (z + [0.0])[i] == -(m[i][n] * 0.0); }
    }
  }

  lemma NoPivotSingular(m: seq<seq<real>>, a: Mat, b: Mat, c: nat)
    requires WellFormed(a) && a.rows == a.cols && |b.data| >= a.rows
    requires SameNull(System(a, b), m, a.rows) && c < a.rows && UnitColumns(m, a.rows, c)
    requires forall i :: c <= i < a.rows ==> m[i][c] == 0.0
    ensures IsSingular(a)
  {
    var n := a.rows;
    NoPivotIsNull(m, n, c);
    var w := Witness(m, n, c);
    var z := w[..n];
    assert w == z + [0.0] && InNull(System(a, b), n, w);
    NullMeaning(a, b, z);
    assert z[c] == 1.0;
  }

  // ----- the elimination in place -----

  ghost function Rows(aug: array2<real>): (m: seq<seq<real>>)
    reads aug
    ensures |m| == aug.Length0 && forall i :: 0 <= i < |m| ==> |m[i]| == aug.Length1
  {
    seq(aug.Length0, i requires 0 <= i < aug.Length0 reads aug =>
      seq(aug.Length1, j requires 0 <= j < aug.Length1 reads aug => aug[i, j]))
  }

  method BuildAugmented(a: Mat, b: Mat) returns (aug: array2<real>)
    requires WellFormed(a) && WellFormed(b) && a.rows == a.cols && b.rows == a.rows && |b.data| >= a.rows
    ensures fresh(aug) && aug.Length0 == a.rows && aug.Length1 == a.rows + 1 && Rows(aug) == System(a, b)
  {
    var n := a.rows;
    aug := new real[n, n + 1]((i, j) => 0.0);
    for i := 0 to n
      invariant forall r :: 0 <= r < i ==> Rows(aug)[r] == RowOf(a, r) + [b.data[r]]
    {
      for j := 0 to n
        invariant forall r :: 0 <= r < i ==> Rows(aug)[r] == RowOf(a, r) + [b.data[r]]
        invariant forall q :: 0 <= q < j ==> aug[i, q] == RowOf(a, i)[q]
      {
        ghost var before := Rows(aug);
        aug[i, j] := At(a, i, j);
        assert forall r :: 0 <= r < i ==> Rows(aug)[r] == before[r];
      }
      ghost var before := Rows(aug);
      aug[i, n] := b.data[i];
      assert forall r :: 0 <= r < i ==> Rows(aug)[r] == before[r];
      assert Rows(aug)[i] == RowOf(a, i) + [b.data[i]];
    }
  }

  method FindPivot(aug: array2<real>, n: nat, col: nat) returns (piv: nat, best: real)
    requires col < n == aug.Length0 && aug.Length1 == n + 1
    ensures piv == PivotRow(Rows(aug), n, col) && best == Abs(aug[piv, col])
  {
    ghost var m := Rows(aug);
    ghost var first := PivotRow(m, n, col);
    piv, best := col, Abs(aug[col, col]);
    EntryAt(aug, col, col);
    for r := col + 1 to n
      invariant col <= piv < r && best == Abs(m[piv][col]) && Leads(m, n, col, r, piv)
      invariant PivotFrom(m, n, col, r, piv) == first
    {
      var v := Abs(aug[r, col]);
      EntryAt(aug, r, col);
      PivotNext(m, n, col, r, piv);
      if v > best { best, piv := v, r; }
    }
    EntryAt(aug, piv, col);
  }

  lemma EntryAt(aug: array2<real>, i: nat, j: nat)
    requires i < aug.Length0 && j < aug.Length1
    ensures Rows(aug)[i][j] == aug[i, j]
  {
  }

  /** Row `p` has the largest entry of column `c` among the rows from `c` to `r`. */
  ghost predicate Leads(m: seq<seq<real>>, n: nat, c: nat, r: nat, p: nat) {
    Shaped(m, n) && c <= p < r <= n && forall i :: c <= i < r ==> Abs(m[i][c]) <= Abs(m[p][c])
  }

  lemma PivotNext(m: seq<seq<real>>, n: nat, c: nat, r: nat, p: nat)
    requires Leads(m, n, c, r, p) && r < n
    ensures var q := if Abs(m[r][c]) > Abs(m[p][c]) then r else p;
            Leads(m, n, c, r + 1, q) && PivotFrom(m, n, c, r, p) == PivotFrom(m, n, c, r + 1, q)
  {
  }

  method SwapRows(aug: array2<real>, a: nat, b: nat)
    requires a < aug.Length0 && b < aug.Length0 && a != b
    modifies aug
    ensures Rows(aug) == Swapped(old(Rows(aug)), a, b)
  {
    ghost var m := Rows(aug);
    for j := 0 to aug.Length1
      invariant forall i, q :: 0 <= i < aug.Length0 && 0 <= q < aug.Length1 ==>
        aug[i, q] == old(aug[if q >= j then i else if i == a then b else if i == b then a else i, q])
    {
      var t := aug[a, j];
      aug[a, j] := aug[b, j];
      aug[b, j] := t;
    }
    forall i | 0 <= i < aug.Length0 ensures Rows(aug)[i] == Swapped(m, a, b)[i] {}
  }

  method DivideRow(aug: array2<real>, c: nat, d: real)
    requires c < aug.Length0 && d != 0.0
    modifies aug
    ensures Rows(aug) == old(Rows(aug))[c := Scaled(old(Rows(aug))[c], d)]
  {
    ghost var m := Rows(aug);
    for j := 0 to aug.Length1
      invariant forall i, q :: 0 <= i < aug.Length0 && 0 <= q < aug.Length1 ==>
        aug[i, q] == if i == c && q < j then old(aug[i, q]) / d else old(aug[i, q])
    {
      aug[c, j] := aug[c, j] / d;
    }
    forall i | 0 <= i < aug.Length0 ensures Rows(aug)[i] == m[c := Scaled(m[c], d)][i] {}
  }

  method ReduceRow(aug: array2<real>, r: nat, c: nat, factor: real)
    requires r < aug.Length0 && c < aug.Length0 && r != c
    modifies aug
    ensures Rows(aug) == old(Rows(aug))[r := Reduced(old(Rows(aug))[r], old(Rows(aug))[c], factor)]
  {
    ghost var m := Rows(aug);
    for j := 0 to aug.Length1
      invariant forall i, q :: 0 <= i < aug.Length0 && 0 <= q < aug.Length1 ==>
        aug[i, q] == if i == r && q < j then old(aug[i, q]) - factor * old(aug[c, q]) else old(aug[i, q])
    {
      aug[r, j] := aug[r, j] - factor * aug[c, j];
    }
    forall q | 0 <= q < aug.Length1 ensures Rows(aug)[r][q] == Reduced(m[r], m[c], factor)[q] {
      assert m[r][q] == old(aug[r, q]) && m[c][q] == old(aug[c, q]);
    }
    assert Rows(aug)[r] == Reduced(m[r], m[c], factor);
    forall i | 0 <= i < aug.Length0 && i != r ensures Rows(aug)[i] == m[i] {}
    assert Rows(aug) == m[r := Reduced(m[r], m[c], factor)];
  }

  /** One column of the elimination, once its pivot is on the diagonal. */
  method ClearColumn(aug: array2<real>, n: nat, col: nat)
    requires aug.Length0 == n && aug.Length1 == n + 1 && col < n && aug[col, col] != 0.0
    modifies aug
    ensures Rows(aug) == Cleared(old(Rows(aug)), n, col)
  {
    ghost var m := Rows(aug);
    ghost var m' := Cleared(m, n, col);
    var diag := aug[col, col];
    DivideRow(aug, col, diag);
    for r := 0 to n
      invariant forall i :: 0 <= i < n ==> Rows(aug)[i] == if i < r || i == col then m'[i] else m[i]
    {
      if r == col { continue; }
      var factor := aug[r, col];
      assert factor == Rows(aug)[r][col];
      ReduceRow(aug, r, col, factor);
    }
    assert Rows(aug) == m';
  }

  /** `ox_mat_solve` */
  method Solve(a: Mat, b: Mat) returns (out: Outcome)
    requires WellFormed(a) && WellFormed(b)
    ensures out.NotSquare? <==> a.rows != a.cols
    ensures out.BadRhs? <==> a.rows == a.cols && (b.rows != a.rows || (b.cols != 1 && b.rows != 1))
    ensures out.Solution? || out.Singular? ==> |b.data| >= a.rows && out == Eliminate(System(a, b), a.rows, 0)
  {
    if a.rows != a.cols { return NotSquare; }
    if b.rows != a.rows || (b.cols != 1 && b.rows != 1) { return BadRhs; }
    var n := a.rows;
    var aug := BuildAugmented(a, b);
    ghost var outcome := Eliminate(Rows(aug), n, 0);
    for col := 0 to n
      invariant outcome == Eliminate(Rows(aug), n, col)
    {
      var piv, best := FindPivot(aug, n, col);
      if Abs(best) < TOLERANCE { return Singular(best); }
      BringPivot(aug, col, piv);
      assert aug[col, col] == Rows(aug)[col][col];
      ClearColumn(aug, n, col);
    }
    var x := ReadSolution(aug, n);
    out := Solution(x);
  }

  method BringPivot(aug: array2<real>, col: nat, piv: nat)
    requires col < aug.Length0 && piv < aug.Length0
    modifies aug
    ensures Rows(aug) == Swapped(old(Rows(aug)), col, piv)
  {
    if piv != col { SwapRows(aug, col, piv); }
  }

  method ReadSolution(aug: array2<real>, n: nat) returns (x: seq<real>)
    requires aug.Length0 == n && aug.Length1 == n + 1
    ensures x == LastColumn(Rows(aug), n)
  {
    var v := new real[n](_ => 0.0);
    for i := 0 to n
      invariant forall j :: 0 <= j < i ==> v[j] == aug[j, n]
    {
      v[i] := aug[i, n];
    }
    x := v[..];
  }

  // ----- what the outcome means -----

  /** From any stage of the elimination of `a`, `b`. */
  lemma {:induction false} EliminateIsRight(a: Mat, b: Mat, m: seq<seq<real>>, c: nat)
    requires WellFormed(a) && a.rows == a.cols && |b.data| >= a.rows && c <= a.rows
    requires SameNull(System(a, b), m, a.rows) && UnitColumns(m, a.rows, c)
    ensures var out := Eliminate(m, a.rows, c);
            && (out.Solution? ==> !IsSingular(a) && forall y :: Solves(a, b, y) <==> y == out.x)
            && (out.Singular? ==> 0.0 <= out.pivot < 0.000000000001 && (out.pivot == 0.0 ==> IsSingular(a)))
            && (out.Solution? || out.Singular?)
    decreases a.rows - c
  {
    var n := a.rows;
    if c == n {
      FinishedSolves(m, a, b, LastColumn(m, n));
    } else {
      var p := PivotRow(m, n, c);
      if Abs(m[p][c]) < TOLERANCE {
        if Abs(m[p][c]) == 0.0 { NoPivotSingular(m, a, b, c); }
      } else {
        var s := Swapped(m, c, p);
        SwapKeepsNull(m, n, c, p);
        SwappedUnits(m, n, c, p);
        ClearedKeepsNull(s, n, c);
        ClearedUnits(s, n, c);
        EliminateIsRight(a, b, Cleared(s, n, c), c + 1);
      }
    }
  }

  /** A solution is returned only for a non-singular matrix, and it is the one
      there is; so a singular matrix is always reported. A report with pivot 0
      is certain. */
  lemma SolveIsRight(a: Mat, b: Mat)
    requires WellFormed(a) && a.rows == a.cols && |b.data| >= a.rows
    ensures var out := Eliminate(System(a, b), a.rows, 0);
            && (out.Solution? ==> !IsSingular(a) && forall y :: Solves(a, b, y) <==> y == out.x)
            && (out.Singular? ==> 0.0 <= out.pivot < 0.000000000001 && (out.pivot == 0.0 ==> IsSingular(a)))
            && (IsSingular(a) ==> out.Singular?)
  {
    EliminateIsRight(a, b, System(a, b), 0);
  }

  /** The absolute values of the pivots of the elimination without a threshold,
      up to the first that vanishes. */
  function Pivots(m: seq<seq<real>>, n: nat, c: nat): seq<real>
    requires Shaped(m, n) && c <= n
    decreases n - c
  {
    if c == n then []
    else
      var p := PivotRow(m, n, c);
      if m[p][c] == 0.0 then [0.0] else [Abs(m[p][c])] + Pivots(Cleared(Swapped(m, c, p), n, c), n, c + 1)
  }

  ghost predicate BelowThreshold(pivots: seq<real>) {
    exists i :: 0 <= i < |pivots| && pivots[i] < 0.000000000001
  }

  /** From any stage: the matrix is singular exactly when a pivot vanishes, and
      reported exactly when one is below the threshold. */
  lemma {:induction false} PivotsDecide(a: Mat, b: Mat, m: seq<seq<real>>, c: nat)
    requires WellFormed(a) && a.rows == a.cols && |b.data| >= a.rows && c <= a.rows
    requires SameNull(System(a, b), m, a.rows) && UnitColumns(m, a.rows, c)
    ensures IsSingular(a) <==> 0.0 in Pivots(m, a.rows, c)
    ensures Eliminate(m, a.rows, c).Singular? <==> BelowThreshold(Pivots(m, a.rows, c))
    decreases a.rows - c
  {
    var n := a.rows;
    if c == n {
      FinishedSolves(m, a, b, LastColumn(m, n));
    } else {
      var p := PivotRow(m, n, c);
      if m[p][c] == 0.0 {
        NoPivotSingular(m, a, b, c);
        assert Pivots(m, n, c)[0] == 0.0;
      } else {
        var s := Swapped(m, c, p);
        SwapKeepsNull(m, n, c, p);
        SwappedUnits(m, n, c, p);
        ClearedKeepsNull(s, n, c);
        ClearedUnits(s, n, c);
        PivotsDecide(a, b, Cleared(s, n, c), c + 1);
        FirstOrLater(Abs(m[p][c]), Pivots(Cleared(s, n, c), n, c + 1));
      }
    }
  }

  lemma FirstOrLater(first: real, rest: seq<real>)
    ensures BelowThreshold([first] + rest) <==> first < 0.000000000001 || BelowThreshold(rest)
  {
    var all := [first] + rest;
    assert all[0] == first;
    if i :| 0 <= i < |rest| && rest[i] < 0.000000000001 { assert all[i + 1] == rest[i]; }
  }

  /** A report is a false alarm exactly when no pivot vanishes and one is below
      the threshold. */
  lemma FalseAlarmExact(a: Mat, b: Mat)
    requires WellFormed(a) && a.rows == a.cols && |b.data| >= a.rows
    ensures var pivots := Pivots(System(a, b), a.rows, 0);
            && (IsSingular(a) <==> 0.0 in pivots)
            && (Eliminate(System(a, b), a.rows, 0).Singular? && !IsSingular(a)
               <==> 0.0 !in pivots && BelowThreshold(pivots))
  {
    PivotsDecide(a, b, System(a, b), 0);
  }

  /** The pivot is the first row with the largest entry: rows before it have
      smaller ones. */
  lemma {:induction false} PivotIsFirst(m: seq<seq<real>>, n: nat, c: nat, r: nat, p: nat)
    requires Shaped(m, n) && c <= p < r <= n && forall i :: c <= i < r ==> Abs(m[i][c]) <= Abs(m[p][c])
    requires forall i :: c <= i < p ==> Abs(m[i][c]) < Abs(m[p][c])
    ensures var q := PivotFrom(m, n, c, r, p);
            forall i :: c <= i < q ==> Abs(m[i][c]) < Abs(m[q][c])
    decreases n - r
  {
    if r < n { PivotIsFirst(m, n, c, r + 1, if Abs(m[r][c]) > Abs(m[p][c]) then r else p); }
  }

  lemma PivotRowIsFirst(m: seq<seq<real>>, n: nat, c: nat)
    requires Shaped(m, n) && c < n
    ensures var q := PivotRow(m, n, c);
            c <= q < n && (forall i :: c <= i < n ==> Abs(m[i][c]) <= Abs(m[q][c]))
            && forall i :: c <= i < q ==> Abs(m[i][c]) < Abs(m[q][c])
  {
    PivotIsFirst(m, n, c, c + 1, c);
  }

  /** A solution is returned exactly when every pivot is at least 1e-12. */
  lemma SolvedExact(a: Mat, b: Mat)
    requires WellFormed(a) && a.rows == a.cols && |b.data| >= a.rows
    ensures var out, pivots := Eliminate(System(a, b), a.rows, 0), Pivots(System(a, b), a.rows, 0);
            && (out.Solution? <==> forall i :: 0 <= i < |pivots| ==> pivots[i] >= 0.000000000001)
            && (out.Solution? || out.Singular?)
  {
    PivotsDecide(a, b, System(a, b), 0);
    SolveIsRight(a, b);
    EliminateIsRight(a, b, System(a, b), 0);
  }

  /** One equation `x * z == y`: solved by `y / x` exactly when `x` is at least
      1e-12 in magnitude. */
  lemma OneEquation(x: real, y: real)
    ensures var out := Eliminate(System(Mat(1, 1, [x]), Mat(1, 1, [y])), 1, 0);
            && (out.Solution? <==> x >= 0.000000000001 || x <= -0.000000000001)
            && (out.Solution? ==> |out.x| == 1 && x * out.x[0] == y)
  {
    var a, b := Mat(1, 1, [x]), Mat(1, 1, [y]);
    var m := System(a, b);
    assert RowOf(a, 0) == [x] && |m| == 1 && m[0] == [x] + [y];
    assert PivotRow(m, 1, 0) == 0;
    assert Pivots(m, 1, 0) == if x == 0.0 then [0.0] else [Abs(x)] + Pivots(Cleared(Swapped(m, 0, 0), 1, 0), 1, 1);
    SolvedExact(a, b);
    SolveIsRight(a, b);
    var out := Eliminate(m, 1, 0);
    if out.Solution? {
      assert Solves(a, b, out.x);
      OneRow(x, out.x);
    }
  }

  lemma OneRow(x: real, z: seq<real>)
    requires |z| == 1
    ensures Dot([x], z) == x * z[0]
  {
    assert Dot([x], z) == DotTo([x], z, 1) == DotTo([x], z, 0) + x * z[0];
  }

  const TINY := Mat(1, 1, [0.0000000000001])

  /** A matrix whose only pivot is below the threshold is reported, though it is
      not singular. */
  lemma ThresholdReportsTiny()
    ensures !IsSingular(TINY) && Eliminate(System(TINY, TINY), 1, 0) == Singular(0.0000000000001)
  {
    forall z | InKernel(TINY, z) ensures IsZero(z) {
      var row := RowOf(TINY, 0);
      assert Dot(row, z) == DotTo(row, z, 0) + row[0] * z[0];
    }
    assert RowOf(TINY, 0) == [0.0000000000001];
    assert PivotRow(System(TINY, TINY), 1, 0) == 0;
  }
}
