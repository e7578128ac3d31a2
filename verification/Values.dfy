/** Run-time values of the specification language and the operations on them.
    Integers are unbounded, as in the encoder's Int sort. */
module Values {

  datatype Value =
    | IntV(i: int)
    | BoolV(b: bool)
    | ArrV(cells: imap<int, Value>)

  /** The sort a symbol is declared with. */
  datatype Sort = IntSort | BoolSort | ArraySort(elem: Sort)

  /** An array value has a cell of the element sort at every integer. */
  ghost predicate HasSort(v: Value, s: Sort) {
    match s
    case IntSort => v.IntV?
    case BoolSort => v.BoolV?
    case ArraySort(elem) => v.ArrV? && forall k: int :: k in v.cells && HasSort(v.cells[k], elem)
  }

  datatype BinOp = Add | Sub | Mul | Div | Mod | Eq | Ne | Lt | Gt | Le | Ge | And | Or

  function AsInt(v: Value): int {
    if v.IntV? then v.i else 0
  }

  predicate AsBool(v: Value) {
    v.BoolV? && v.b
  }

  ghost function Cells(v: Value): imap<int, Value> {
    if v.ArrV? then v.cells else imap[]
  }

  predicate IsIndex(k: int) {
    true
  }

  /** The array with the same value everywhere. */
  ghost function ConstArray(v: Value): (a: Value)
    ensures a.ArrV? && forall k: int :: k in a.cells && a.cells[k] == v
  {
    ArrV(imap k: int | IsIndex(k) :: v)
  }

  /** SMT-LIB `select`; a value without that cell reads as zero. */
  ghost function Select(a: Value, i: Value): Value {
    if AsInt(i) in Cells(a) then Cells(a)[AsInt(i)] else IntV(0)
  }

  /** SMT-LIB `store`. */
  ghost function Store(a: Value, i: Value, v: Value): Value {
    ArrV(Cells(a)[AsInt(i) := v])
  }

  /** Euclidean division and remainder, as SMT-LIB `div` and `mod`. */
  function EuclidDiv(x: int, y: int): int {
    if y == 0 then 0 else x / y
  }

  function EuclidMod(x: int, y: int): int {
    if y == 0 then x else x % y
  }

  ghost function Apply(op: BinOp, a: Value, b: Value): Value {
    match op
    case Add => IntV(AsInt(a) + AsInt(b))
    case Sub => IntV(AsInt(a) - AsInt(b))
    case Mul => IntV(AsInt(a) * AsInt(b))
    case Div => IntV(EuclidDiv(AsInt(a), AsInt(b)))
    case Mod => IntV(EuclidMod(AsInt(a), AsInt(b)))
    case Eq => BoolV(a == b)
    case Ne => BoolV(a != b)
    case Lt => BoolV(AsInt(a) < AsInt(b))
    case Gt => BoolV(AsInt(a) > AsInt(b))
    case Le => BoolV(AsInt(a) <= AsInt(b))
    case Ge => BoolV(AsInt(a) >= AsInt(b))
    case And => BoolV(AsBool(a) && AsBool(b))
    case Or => BoolV(AsBool(a) || AsBool(b))
  }

  /** Is the index `k` inside the range `lo..hi` (or `lo..=hi`)? */
  predicate InRange(k: int, lo: Value, hi: Value, inclusive: bool) {
    AsInt(lo) <= k && if inclusive then k <= AsInt(hi) else k < AsInt(hi)
  }

  /** Machine division truncates toward zero. */
  function TruncDiv(x: int, y: int): int
    requires y != 0
  {
    var q := (if x < 0 then -x else x) / (if y < 0 then -y else y);
    if (x < 0) == (y < 0) then q else -q
  }

  /** The encoder's `div` is the machine's `sdiv` exactly when the dividend is
      non-negative or the division leaves no remainder. */
  lemma DivIsMachineDiv(x: int, y: int)
    requires y != 0
    ensures EuclidDiv(x, y) == TruncDiv(x, y) <==> x >= 0 || x % y == 0
  {
    var ax, ay := if x < 0 then -x else x, if y < 0 then -y else y;
    var q, r := ax / ay, ax % ay;
    assert ax == ay * q + r;
    if x >= 0 {
      var s := if y > 0 then q else -q;
      Signs(ay, q);
      QuotientIs(x, y, s, r);
    } else if r == 0 {
      var s := if y > 0 then -q else q;
      Signs(ay, q);
      QuotientIs(x, y, s, 0);
    } else {
      var s := if y > 0 then -q - 1 else q + 1;
      Signs(ay, q); Signs(ay, q + 1);
      assert ay * (q + 1) == ay * q + ay;
      QuotientIs(x, y, s, ay - r);
    }
  }

  lemma Signs(a: int, q: int)
    ensures a * (-q) == -(a * q) && (-a) * q == -(a * q) && (-a) * (-q) == a * q
  {
  }

  /** Euclidean quotient and remainder are the only pair in range. */
  lemma QuotientIs(x: int, y: int, q: int, r: int)
    requires y != 0 && x == y * q + r
    requires 0 <= r < (if y < 0 then -y else y)
    ensures x / y == q && x % y == r
  {
    var q', r' := x / y, x % y;
    var ay := if y < 0 then -y else y;
    var d := if y < 0 then q' - q else q - q';
    assert x == y * q' + r';
    assert ay * d == r' - r by { assert y * (q - q') == y * q - y * q'; Signs(y, q - q'); }
    if d >= 1 { AtLeast(ay, d); }
    if d <= -1 { AtLeast(ay, -d); Signs(ay, d); }
  }

  lemma AtLeast(a: nat, b: nat)
    requires b >= 1
    ensures a * b >= a
  {
    assert a * b == a * (b - 1) + a;
  }
}
