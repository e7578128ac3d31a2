/** What the associative containers compute: their entry sequences, the map they
    stand for, and the agreement of the hashed and the sorted one. */
module AssocSpec {
  import opened Sequences

  /** Parallel key and value sequences, in the container's own order. */
  datatype Entries = Entries(keys: seq<int>, vals: seq<int>)

  datatype Op = Set(k: int, v: int) | Get(k: int) | Contains(k: int) | Delete(k: int) | Clear | Len

  datatype Answer = Done | Got(found: bool, value: int) | Is(present: bool) | Size(n: nat)

  predicate Sorted(s: seq<int>) {
    forall i, j :: 0 <= i < j < |s| ==> s[i] < s[j]
  }

  ghost predicate Proper(e: Entries) {
    |e.keys| == |e.vals| && Distinct(e.keys)
  }

  /** The position of a key, or the length if it is absent. */
  function IndexOf(keys: seq<int>, k: int): (i: nat)
    ensures i <= |keys| && (i < |keys| ==> keys[i] == k)
    ensures i == |keys| <==> k !in keys
  {
    if |keys| == 0 then 0
    else if keys[0] == k then 0
    else assert keys == [keys[0]] + keys[1..]; 1 + IndexOf(keys[1..], k)
  }

  /** The number of leading keys below `k`. */
  function LowerBound(keys: seq<int>, k: int): (i: nat)
    ensures i <= |keys|
  {
    if |keys| == 0 || keys[0] >= k then 0 else 1 + LowerBound(keys[1..], k)
  }

  predicate IsLowerBound(keys: seq<int>, k: int, i: int) {
    && 0 <= i <= |keys|
    && (forall j :: 0 <= j < i ==> keys[j] < k)
    && (forall j :: i <= j < |keys| ==> k <= keys[j])
  }

  function ToMap(e: Entries): map<int, int>
    requires |e.keys| == |e.vals|
  {
    map k | k in e.keys :: e.vals[IndexOf(e.keys, k)]
  }

  // ----- the operations -----

  function LookUp(e: Entries, i: nat, k: int): Answer
    requires |e.keys| == |e.vals|
  {
    if i < |e.keys| && e.keys[i] == k then Got(true, e.vals[i]) else Got(false, 0)
  }

  /** `ox_hmap_set`: replace in place, or append. */
  function HashSet(e: Entries, k: int, v: int): Entries
    requires |e.keys| == |e.vals|
  {
    var i := IndexOf(e.keys, k);
    if i < |e.keys| then Entries(e.keys, e.vals[i := v]) else Entries(e.keys + [k], e.vals + [v])
  }

  function RemoveSwap(s: seq<int>, i: nat): (r: seq<int>)
    requires i < |s|
    ensures |r| == |s| - 1
  {
    s[i := s[|s| - 1]][..|s| - 1]
  }

  function RemoveAt(s: seq<int>, i: nat): (r: seq<int>)
    requires i < |s|
    ensures |r| == |s| - 1
  {
    s[..i] + s[i + 1..]
  }

  function InsertAt(s: seq<int>, i: nat, x: int): (r: seq<int>)
    requires i <= |s|
    ensures |r| == |s| + 1
  {
    s[..i] + [x] + s[i..]
  }

  /** `ox_hmap_delete`: the last entry takes the deleted one's place. */
  function HashDelete(e: Entries, k: int): Entries
    requires |e.keys| == |e.vals|
  {
    var i := IndexOf(e.keys, k);
    if i < |e.keys| then Entries(RemoveSwap(e.keys, i), RemoveSwap(e.vals, i)) else e
  }

  /** `ox_map_set`: replace in place, or insert at the lower bound. */
  function SortedSet(e: Entries, k: int, v: int): Entries
    requires |e.keys| == |e.vals|
  {
    var i := LowerBound(e.keys, k);
    if i < |e.keys| && e.keys[i] == k then Entries(e.keys, e.vals[i := v])
    else Entries(InsertAt(e.keys, i, k), InsertAt(e.vals, i, v))
  }

  /** `ox_map_delete` */
  function SortedDelete(e: Entries, k: int): Entries
    requires |e.keys| == |e.vals|
  {
    var i := LowerBound(e.keys, k);
    if i < |e.keys| && e.keys[i] == k then Entries(RemoveAt(e.keys, i), RemoveAt(e.vals, i)) else e
  }

  function HashApply(e: Entries, op: Op): (Entries, Answer)
    requires |e.keys| == |e.vals|
  {
    match op
    case Set(k, v) => (HashSet(e, k, v), Done)
    case Get(k) => (e, LookUp(e, IndexOf(e.keys, k), k))
    case Contains(k) => (e, Is(IndexOf(e.keys, k) < |e.keys|))
    case Delete(k) => (HashDelete(e, k), Done)
    case Clear => (Entries([], []), Done)
    case Len => (e, Size(|e.keys|))
  }

  function SortedApply(e: Entries, op: Op): (Entries, Answer)
    requires |e.keys| == |e.vals|
  {
    match op
    case Set(k, v) => (SortedSet(e, k, v), Done)
    case Get(k) => (e, LookUp(e, LowerBound(e.keys, k), k))
    case Contains(k) => var i := LowerBound(e.keys, k); (e, Is(i < |e.keys| && e.keys[i] == k))
    case Delete(k) => (SortedDelete(e, k), Done)
    case Clear => (Entries([], []), Done)
    case Len => (e, Size(|e.keys|))
  }

  /** The mathematical map both stand for. */
  function MapApply(m: map<int, int>, op: Op): (map<int, int>, Answer) {
    match op
    case Set(k, v) => (m[k := v], Done)
    case Get(k) => (m, if k in m then Got(true, m[k]) else Got(false, 0))
    case Contains(k) => (m, Is(k in m))
    case Delete(k) => (m - {k}, Done)
    case Clear => (map[], Done)
    case Len => (m, Size(|m|))
  }

  // ----- each operation acts as the map's -----

  lemma {:induction false} IndexIs(keys: seq<int>, i: nat)
    requires Distinct(keys) && i < |keys|
    ensures IndexOf(keys, keys[i]) == i
  {
    var j := IndexOf(keys, keys[i]);
    assert keys[j] == keys[i];
  }

  /** Entries and a map agree when they hold the same pairs. */
  lemma {:induction false} MapIs(e: Entries, m: map<int, int>)
    requires Proper(e)
    requires forall i :: 0 <= i < |e.keys| ==> e.keys[i] in m && m[e.keys[i]] == e.vals[i]
    requires forall k :: k in m ==> k in e.keys
    ensures ToMap(e) == m
  {
  }

  lemma {:induction false} MapAt(e: Entries, i: nat)
    requires Proper(e) && i < |e.keys|
    ensures e.keys[i] in ToMap(e) && ToMap(e)[e.keys[i]] == e.vals[i]
  {
    IndexIs(e.keys, i);
  }

  lemma {:induction false} DistinctCount(s: seq<int>)
    requires Distinct(s)
    ensures |set x | x in s| == |s|
    decreases |s|
  {
    if |s| > 0 {
      var n := |s| - 1;
      DistinctCount(s[..n]);
      assert (set x | x in s) == (set x | x in s[..n]) + {s[n]} by { assert s == s[..n] + [s[n]]; }
    }
  }

  lemma {:induction false} MapSize(e: Entries)
    requires Proper(e)
    ensures |ToMap(e)| == |e.keys|
  {
    DistinctCount(e.keys);
    assert ToMap(e).Keys == set x | x in e.keys;
    assert |ToMap(e).Keys| == |ToMap(e)|;
  }

  lemma {:induction false} HashSetIsMap(e: Entries, k: int, v: int)
    requires Proper(e)
    ensures Proper(HashSet(e, k, v)) && ToMap(HashSet(e, k, v)) == ToMap(e)[k := v]
  {
    var e', i := HashSet(e, k, v), IndexOf(e.keys, k);
    forall j | 0 <= j < |e.keys|
      ensures ToMap(e)[e.keys[j]] == e.vals[j] && (e.keys[j] == k <==> j == i)
    {
      MapAt(e, j);
    }
    assert e'.keys == if i < |e.keys| then e.keys else e.keys + [k];
    MapIs(e', ToMap(e)[k := v]);
  }

  /** Where each position of a shorter or longer sequence came from. */
  function SwapSource(last: nat, i: nat, j: nat): nat { if j == i then last else j }
  function ShiftSource(i: nat, j: nat): nat { if j < i then j else j + 1 }

  lemma {:induction false} RemoveSwapIs(s: seq<int>, i: nat)
    requires i < |s|
    ensures forall j :: 0 <= j < |s| - 1 ==> RemoveSwap(s, i)[j] == s[SwapSource(|s| - 1, i, j)]
  {
  }

  lemma {:induction false} RemoveAtIs(s: seq<int>, i: nat)
    requires i < |s|
    ensures forall j :: 0 <= j < |s| - 1 ==> RemoveAt(s, i)[j] == s[ShiftSource(i, j)]
  {
  }

  lemma {:induction false} RemoveSwapKeys(s: seq<int>, i: nat)
    requires Distinct(s) && i < |s|
    ensures Distinct(RemoveSwap(s, i)) && forall x :: x in RemoveSwap(s, i) <==> x in s && x != s[i]
  {
    RemoveSwapIs(s, i);
    forall x | x in s && x != s[i] ensures x in RemoveSwap(s, i) {
      var j := IndexOf(s, x);
      assert RemoveSwap(s, i)[if j == |s| - 1 then i else j] == x;
    }
  }

  lemma {:induction false} RemoveAtKeys(s: seq<int>, i: nat)
    requires Sorted(s) && i < |s|
    ensures Sorted(RemoveAt(s, i)) && forall x :: x in RemoveAt(s, i) <==> x in s && x != s[i]
  {
    RemoveAtIs(s, i);
    forall x | x in s && x != s[i] ensures x in RemoveAt(s, i) {
      var j := IndexOf(s, x);
      assert RemoveAt(s, i)[if j < i then j else j - 1] == x;
    }
  }

  lemma {:induction false} InsertAtIs(s: seq<int>, i: nat, x: int)
    requires i <= |s|
    ensures forall j :: 0 <= j < |s| ==> InsertAt(s, i, x)[ShiftSource(i, j)] == s[j]
    ensures InsertAt(s, i, x)[i] == x
  {
  }

  lemma {:induction false} InsertAtKeys(s: seq<int>, i: nat, x: int)
    requires Sorted(s) && IsLowerBound(s, x, i) && x !in s
    ensures Sorted(InsertAt(s, i, x)) && forall y :: y in InsertAt(s, i, x) <==> y in s || y == x
  {
    InsertAtIs(s, i, x);
    var r := InsertAt(s, i, x);
    assert forall j :: 0 <= j < |r| ==> r[j] == if j < i then s[j] else if j == i then x else s[j - 1];
    forall j | i <= j < |s| ensures x < s[j] {}
  }

  lemma {:induction false} HashDeleteIsMap(e: Entries, k: int)
    requires Proper(e)
    ensures Proper(HashDelete(e, k)) && ToMap(HashDelete(e, k)) == ToMap(e) - {k}
  {
    var e', i := HashDelete(e, k), IndexOf(e.keys, k);
    if i < |e.keys| {
      RemoveSwapKeys(e.keys, i);
      RemoveSwapIs(e.keys, i); RemoveSwapIs(e.vals, i);
      var m := ToMap(e) - {k};
      forall j | 0 <= j < |e'.keys| ensures e'.keys[j] in m && m[e'.keys[j]] == e'.vals[j] {
        assert e'.keys[j] in e'.keys;
        var from := SwapSource(|e.keys| - 1, i, j);
        assert e'.keys[j] == e.keys[from] && e'.vals[j] == e.vals[from];
        MapAt(e, from);
      }
      MapIs(e', m);
    }
  }

  lemma {:induction false} LowerBoundIs(keys: seq<int>, k: int, i: int)
    requires Sorted(keys)
    ensures IsLowerBound(keys, k, i) <==> i == LowerBound(keys, k)
    decreases |keys|
  {
    if |keys| > 0 {
      LowerBoundIs(keys[1..], k, i - 1);
      LowerBoundIs(keys[1..], k, LowerBound(keys[1..], k));
      if IsLowerBound(keys, k, i) && i > 0 {
        assert forall j :: 0 <= j < |keys[1..]| ==> keys[1..][j] == keys[j + 1];
        assert IsLowerBound(keys[1..], k, i - 1);
      }
      if i == LowerBound(keys, k) && i > 0 {
        forall j | 0 <= j < |keys| ensures if j < i then keys[j] < k else k <= keys[j] {
          if j > 0 { assert keys[j] == keys[1..][j - 1]; }
        }
      }
    }
  }

  /** In sorted keys the lower bound finds a key where it is. */
  lemma {:induction false} LowerBoundFinds(keys: seq<int>, k: int)
    requires Sorted(keys)
    ensures var i := LowerBound(keys, k);
            (i < |keys| && keys[i] == k <==> k in keys) && (k in keys ==> i == IndexOf(keys, k))
  {
    var i := LowerBound(keys, k);
    LowerBoundIs(keys, k, i);
    if k in keys {
      var j := IndexOf(keys, k);
      assert keys[j] == k && i <= j;
    }
  }

  lemma {:induction false} SortedSetIsMap(e: Entries, k: int, v: int)
    requires Proper(e) && Sorted(e.keys)
    ensures Proper(SortedSet(e, k, v)) && Sorted(SortedSet(e, k, v).keys)
    ensures ToMap(SortedSet(e, k, v)) == ToMap(e)[k := v]
  {
    var e', i := SortedSet(e, k, v), LowerBound(e.keys, k);
    LowerBoundIs(e.keys, k, i);
    LowerBoundFinds(e.keys, k);
    if k in e.keys {
      assert e' == HashSet(e, k, v);
      HashSetIsMap(e, k, v);
    } else {
      InsertAtKeys(e.keys, i, k);
      InsertAtIs(e.keys, i, k); InsertAtIs(e.vals, i, v);
      var m := ToMap(e)[k := v];
      forall j | 0 <= j < |e'.keys| ensures e'.keys[j] in m && m[e'.keys[j]] == e'.vals[j] {
        if j != i {
          var from := if j < i then j else j - 1;
          assert ShiftSource(i, from) == j;
          MapAt(e, from);
        }
      }
      MapIs(e', m);
    }
  }

  lemma {:induction false} SortedDeleteIsMap(e: Entries, k: int)
    requires Proper(e) && Sorted(e.keys)
    ensures Proper(SortedDelete(e, k)) && Sorted(SortedDelete(e, k).keys) && ToMap(SortedDelete(e, k)) == ToMap(e) - {k}
  {
    var e', i := SortedDelete(e, k), LowerBound(e.keys, k);
    LowerBoundFinds(e.keys, k);
    if k in e.keys {
      RemoveAtKeys(e.keys, i);
      SortedDistinct(e'.keys);
      forall j | 0 <= j < |e'.keys|
        ensures e'.keys[j] in ToMap(e) - {k} && (ToMap(e) - {k})[e'.keys[j]] == e'.vals[j]
      {
        assert e'.keys[j] in e'.keys;
        RemoveAtIs(e.keys, i); RemoveAtIs(e.vals, i);
        MapAt(e, ShiftSource(i, j));
      }
      MapIs(e', ToMap(e) - {k});
    }
  }

  lemma SortedDistinct(s: seq<int>)
    requires Sorted(s)
    ensures Distinct(s)
  {
  }

  lemma {:induction false} HashStep(e: Entries, op: Op)
    requires Proper(e)
    ensures var (e', a) := HashApply(e, op);
            Proper(e') && (ToMap(e'), a) == MapApply(ToMap(e), op)
  {
    match op
    case Set(k, v) => HashSetIsMap(e, k, v);
    case Delete(k) => HashDeleteIsMap(e, k);
    case Len => MapSize(e);
    case _ =>
  }

  lemma {:induction false} SortedStep(e: Entries, op: Op)
    requires Proper(e) && Sorted(e.keys)
    ensures var (e', a) := SortedApply(e, op);
            Proper(e') && Sorted(e'.keys) && (ToMap(e'), a) == MapApply(ToMap(e), op)
  {
    match op
    case Set(k, v) => SortedSetIsMap(e, k, v);
    case Delete(k) => SortedDeleteIsMap(e, k);
    case Len => MapSize(e);
    case Get(k) => LowerBoundFinds(e.keys, k);
    case Contains(k) => LowerBoundFinds(e.keys, k);
    case Clear =>
  }

  // ----- whole runs -----

  /** The final entries and all answers of a sequence of operations. */
  function HashRun(e: Entries, ops: seq<Op>): (r: (Entries, seq<Answer>))
    requires Proper(e)
    ensures Proper(r.0)
    decreases |ops|
  {
    if |ops| == 0 then (e, [])
    else
      HashStep(e, ops[0]);
      var (e1, a) := HashApply(e, ops[0]);
      var (e2, rest) := HashRun(e1, ops[1..]);
      (e2, [a] + rest)
  }

  function SortedRun(e: Entries, ops: seq<Op>): (r: (Entries, seq<Answer>))
    requires Proper(e) && Sorted(e.keys)
    ensures Proper(r.0)
    decreases |ops|
  {
    if |ops| == 0 then (e, [])
    else
      SortedStep(e, ops[0]);
      var (e1, a) := SortedApply(e, ops[0]);
      var (e2, rest) := SortedRun(e1, ops[1..]);
      (e2, [a] + rest)
  }

  function MapRun(m: map<int, int>, ops: seq<Op>): (map<int, int>, seq<Answer>)
    decreases |ops|
  {
    if |ops| == 0 then (m, [])
    else
      var (m1, a) := MapApply(m, ops[0]);
      var (m2, rest) := MapRun(m1, ops[1..]);
      (m2, [a] + rest)
  }

  lemma {:induction false} HashRefinesMap(e: Entries, ops: seq<Op>)
    requires Proper(e)
    ensures var (e', answers) := HashRun(e, ops);
            Proper(e') && (ToMap(e'), answers) == MapRun(ToMap(e), ops)
    decreases |ops|
  {
    if |ops| > 0 {
      HashStep(e, ops[0]);
      HashRefinesMap(HashApply(e, ops[0]).0, ops[1..]);
    }
  }

  lemma {:induction false} SortedRefinesMap(e: Entries, ops: seq<Op>)
    requires Proper(e) && Sorted(e.keys)
    ensures var (e', answers) := SortedRun(e, ops);
            Proper(e') && Sorted(e'.keys) && (ToMap(e'), answers) == MapRun(ToMap(e), ops)
    decreases |ops|
  {
    if |ops| > 0 {
      SortedStep(e, ops[0]);
      SortedRefinesMap(SortedApply(e, ops[0]).0, ops[1..]);
    }
  }

  lemma {:induction false} DistinctMultiset(s: seq<int>)
    requires Distinct(s)
    ensures forall x :: multiset(s)[x] == if x in s then 1 else 0
    decreases |s|
  {
    if |s| > 0 {
      var n := |s| - 1;
      DistinctMultiset(s[..n]);
      assert s == s[..n] + [s[n]];
    }
  }

  /** One sequence of operations gets the same answers from the hashed and the
      sorted container, and leaves them with the same entries up to order. */
  lemma {:induction false} ContainersAgree(ops: seq<Op>)
    ensures HashRun(Entries([], []), ops).1 == SortedRun(Entries([], []), ops).1
    ensures ToMap(HashRun(Entries([], []), ops).0) == ToMap(SortedRun(Entries([], []), ops).0)
    ensures multiset(HashRun(Entries([], []), ops).0.keys) == multiset(SortedRun(Entries([], []), ops).0.keys)
  {
    var none := Entries([], []);
    HashRefinesMap(none, ops);
    SortedRefinesMap(none, ops);
    var h, s := HashRun(none, ops).0, SortedRun(none, ops).0;
    DistinctMultiset(h.keys);
    DistinctMultiset(s.keys);
    assert forall x :: x in h.keys <==> x in ToMap(h);
    assert forall x :: x in s.keys <==> x in ToMap(s);
    assert forall x :: multiset(h.keys)[x] == multiset(s.keys)[x];
  }

  /** Deletion keeps the survivors in insertion order exactly when the deleted
      entry is the last or the one before it. */
  lemma {:induction false} DeleteKeepsOrder(keys: seq<int>, i: nat)
    requires Distinct(keys) && i < |keys|
    ensures RemoveSwap(keys, i) == RemoveAt(keys, i) <==> i + 2 >= |keys|
  {
    if i + 2 < |keys| {
      assert RemoveSwap(keys, i)[i] == keys[|keys| - 1] && RemoveAt(keys, i)[i] == keys[i + 1];
    }
  }

  /** A key is looked up as the map has it, and a missing one reads as zero. */
  lemma {:induction false} GetExact(e: Entries, k: int)
    requires Proper(e)
    ensures HashApply(e, Get(k)).1 == if k in ToMap(e) then Got(true, ToMap(e)[k]) else Got(false, 0)
    ensures Sorted(e.keys) ==> SortedApply(e, Get(k)).1 == HashApply(e, Get(k)).1
  {
    HashStep(e, Get(k));
    if Sorted(e.keys) { SortedStep(e, Get(k)); }
  }
}
