/** A client that drives a container through a sequence of operations, one call
    after the other, whatever growth, rehashing and moving they cause. */
module ContainerRuns {
  import opened AssocSpec
  import opened HashMap
  import opened SortedMap

  method StepHash(m: OxHmap, op: Op) returns (a: Answer)
    requires m.Valid()
    modifies m, m.Arrays()
    ensures m.Valid() && fresh(m.Arrays() - old(m.Arrays()))
    ensures (m.Contents(), a) == HashApply(old(m.Contents()), op)
  {
    match op
    case Set(k, v) => m.Set(k, v); a := Done;
    case Get(k) => var found, v := m.Get(k); a := Got(found, v);
    case Contains(k) => var present := m.Contains(k); a := Is(present);
    case Delete(k) => m.Delete(k); a := Done;
    case Clear => m.Clear(); a := Done;
    case Len => a := Size(m.len);
  }

  method RunHash(m: OxHmap, ops: seq<Op>) returns (answers: seq<Answer>)
    requires m.Valid()
    modifies m, m.Arrays()
    ensures m.Valid() && fresh(m.Arrays() - old(m.Arrays()))
    ensures (m.Contents(), answers) == HashRun(old(m.Contents()), ops)
    decreases |ops|
  {
    if |ops| == 0 { return []; }
    var a := StepHash(m, ops[0]);
    var rest := RunHash(m, ops[1..]);
    answers := [a] + rest;
  }

  method StepSorted(m: OxMap, op: Op) returns (a: Answer)
    requires m.Valid()
    modifies m, m.Arrays()
    ensures m.Valid() && fresh(m.Arrays() - old(m.Arrays()))
    ensures (m.Contents(), a) == SortedApply(old(m.Contents()), op)
  {
    match op
    case Set(k, v) => m.Set(k, v); a := Done;
    case Get(k) => var found, v := m.Get(k); a := Got(found, v);
    case Contains(k) => var present := m.Contains(k); a := Is(present);
    case Delete(k) => m.Delete(k); a := Done;
    case Clear => m.Clear(); a := Done;
    case Len => a := Size(m.len);
  }

  method RunSorted(m: OxMap, ops: seq<Op>) returns (answers: seq<Answer>)
    requires m.Valid()
    modifies m, m.Arrays()
    ensures m.Valid() && fresh(m.Arrays() - old(m.Arrays()))
    ensures (m.Contents(), answers) == SortedRun(old(m.Contents()), ops)
    decreases |ops|
  {
    if |ops| == 0 { return []; }
    var a := StepSorted(m, ops[0]);
    var rest := RunSorted(m, ops[1..]);
    answers := [a] + rest;
  }

  /** From empty containers, both answer any sequence of operations as the
      mathematical map does, and end with the same entries up to order. */
  method RunBoth(hash: int -> nat, ops: seq<Op>) returns (hashed: seq<Answer>, sorted: seq<Answer>)
    ensures hashed == sorted == MapRun(map[], ops).1
  {
    var h := new OxHmap(hash);
    var s := new OxMap();
    ghost var none := Entries([], []);
    assert ToMap(none) == map[];
    HashRefinesMap(none, ops);
    SortedRefinesMap(none, ops);
    hashed := RunHash(h, ops);
    sorted := RunSorted(s, ops);
  }
}
