/** The channel's ring of slots, and the class that updates it under the lock. */
module ChannelRing {

  const SLOTS: int := 256

  datatype Ring = Ring(slots: seq<int>, head: int, tail: int, count: int, cap: int)

  /** Indices in range, and `tail` just past the occupied slots. */
  predicate WellFormed(r: Ring) {
    && |r.slots| == SLOTS && 0 <= r.head < SLOTS && 0 <= r.count <= SLOTS
    && r.tail == (r.head + r.count) % SLOTS && 0 <= r.cap <= SLOTS
  }

  /** The occupied slots, read from `head`. */
  function Contents(r: Ring): (c: seq<int>)
    requires |r.slots| == SLOTS && r.count >= 0
    ensures |c| == r.count
  {
    seq(r.count, i requires 0 <= i < r.count => r.slots[Slot(r.head, i)])
  }

  predicate Full(r: Ring) {
    r.cap > 0 && r.count == r.cap
  }

  predicate Empty(r: Ring) {
    r.count == 0
  }

  function Put(r: Ring, v: int): Ring
    requires 0 <= r.tail < |r.slots|
  {
    r.(slots := r.slots[r.tail := v], tail := (r.tail + 1) % SLOTS, count := r.count + 1)
  }

  function Head(r: Ring): int
    requires 0 <= r.head < |r.slots|
  {
    r.slots[r.head]
  }

  function Take(r: Ring): Ring {
    r.(head := (r.head + 1) % SLOTS, count := r.count - 1)
  }

  /** The slot `i` places after `h`. */
  function Slot(h: int, i: int): int {
    (h + i) % SLOTS
  }

  lemma SlotIs(h: int, i: int)
    requires 0 <= h < SLOTS && 0 <= i <= SLOTS
    ensures Slot(h, i) == if h + i < SLOTS then h + i else h + i - SLOTS
  {
  }

  /** A put appends exactly when a slot is free, or when the value that would be
      lost is the one being sent. */
  lemma PutAppends(r: Ring, v: int)
    requires WellFormed(r)
    ensures Contents(Put(r, v)) == Contents(r) + [v] <==> r.count < SLOTS || r.slots[r.tail] == v
    ensures r.count < SLOTS ==> WellFormed(Put(r, v))
  {
    var before, after := Contents(r) + [v], Contents(Put(r, v));
    forall i | 0 <= i < r.count ensures after[i] == if i == 0 && r.count == SLOTS then v else before[i] {
      SlotIs(r.head, i); SlotIs(r.head, r.count);
      assert Slot(r.head, i) == r.tail <==> i == 0 && r.count == SLOTS;
    }
    assert after[r.count] == v == before[r.count];
    SlotIs(r.head, r.count);
    if r.count == SLOTS {
      SlotIs(r.head, 0);
      assert after[0] == v && before[0] == r.slots[r.tail];
      if before[0] == v { assert after == before; }
    } else {
      SlotIs(r.head, r.count + 1);
      assert after == before;
    }
  }

  lemma TakeRemovesFirst(r: Ring)
    requires WellFormed(r) && r.count > 0
    ensures Contents(r) == [Head(r)] + Contents(Take(r)) && WellFormed(Take(r))
  {
    var rest := Contents(Take(r));
    SlotIs(r.head, 1); SlotIs(r.head, 0); SlotIs(r.head, r.count);
    forall i | 0 <= i < |rest| ensures rest[i] == Contents(r)[i + 1] {
      SlotIs(Slot(r.head, 1), i); SlotIs(r.head, i + 1);
    }
    SlotIs(Slot(r.head, 1), r.count - 1);
  }

  /** A ring has 256 slots, and all of them can be occupied. */
  lemma SlotCount(r: Ring)
    ensures WellFormed(r) ==> |r.slots| == 256 && 0 <= r.count <= 256
    ensures WellFormed(Ring(seq(256, _ => 0), 0, 0, 256, 0))
  {
  }

  /** A channel of capacity 0 never makes its sender wait, so the 257th message
      overwrites the first. */
  lemma UnbufferedOverwrites(r: Ring, v: int)
    requires WellFormed(r) && r.cap == 0 && r.count == SLOTS && Head(r) != v
    ensures !Full(r) && Contents(Put(r, v)) != Contents(r) + [v]
  {
    PutAppends(r, v);
  }

  /** The record the runtime allocates. The methods are the parts of send and
      receive that run while the lock is held. */
  class OxChannel {
    const ival: array<int>
    const cap: int
    var head: int
    var tail: int
    var count: int

    /** What the code itself relies on: both indices name a slot. */
    ghost predicate InRange()
      reads this
    {
      ival.Length == SLOTS && 0 <= head < SLOTS && 0 <= tail < SLOTS
    }

    ghost predicate Valid()
      reads this, ival
    {
      InRange() && WellFormed(State()) && (cap > 0 ==> count <= cap)
    }

    ghost function State(): Ring
      reads this, ival
    {
      Ring(ival[..], head, tail, count, cap)
    }

    constructor (bufcap: int)
      requires 0 <= bufcap <= SLOTS
      ensures Valid() && fresh(ival) && cap == bufcap && Contents(State()) == []
    {
      ival := new int[SLOTS](_ => 0);
      cap := bufcap;
      head, tail, count := 0, 0, 0;
    }

    /** The guard of the send loop and, when it does not wait, the store. A put
        keeps the channel valid and appends, unless a channel of capacity 0
        has no slot left. */
    method TrySend(v: int) returns (sent: bool)
      requires InRange()
      modifies this, ival
      ensures InRange() && sent == !Full(old(State()))
      ensures State() == if sent then Put(old(State()), v) else old(State())
      ensures old(Valid()) && (cap > 0 || old(count) < SLOTS) ==>
        Valid() && Contents(State()) == if sent then Contents(old(State())) + [v] else Contents(old(State()))
    {
      sent := !(cap > 0 && count == cap);
      if sent {
        ghost var before := State();
        if WellFormed(before) { PutAppends(before, v); }
        ival[tail] := v;
        tail := (tail + 1) % SLOTS;
        count := count + 1;
        assert State() == Put(before, v);
      }
    }

    /** The guard of the receive loop and, when it does not wait, the load. */
    method TryReceive() returns (taken: bool, v: int)
      requires InRange()
      modifies this
      ensures InRange() && taken == !Empty(old(State()))
      ensures State() == if taken then Take(old(State())) else old(State())
      ensures taken ==> v == Head(old(State()))
      ensures old(Valid()) ==> Valid() && (taken ==> Contents(old(State())) == [v] + Contents(State()))
    {
      taken, v := count != 0, 0;
      if taken {
        if WellFormed(State()) && count > 0 { TakeRemovesFirst(State()); }
        v := ival[head];
        head := (head + 1) % SLOTS;
        count := count - 1;
      }
    }
  }
}
