/** The values of the calls: what a send is given is what it puts, and what a
    receive returns is the oldest message when it took it. */
module ChannelValues {
  import opened Options
  import opened ChannelRing
  import opened ChannelRuns

  /** The value of the last send that thread `i` started. */
  function GivenTo(acts: seq<Action>, i: nat): Option<int> {
    if |acts| == 0 then None
    else
      var a := acts[|acts| - 1];
      if a.StartSend? && a.i == i then Some(a.v) else GivenTo(acts[..|acts| - 1], i)
  }

  /** Thread `i` finds a place for its message, or a message for itself. */
  predicate Puts(s: State, a: Action, i: nat) {
    a == Check(i) && i < |s.threads| && s.threads[i].SCheck? && !Full(s.ring)
  }

  predicate Takes(s: State, a: Action, i: nat) {
    a == Check(i) && i < |s.threads| && s.threads[i].RCheck? && !Empty(s.ring)
  }

  function Oldest(r: Ring): Option<int> {
    if |r.slots| == SLOTS && r.count > 0 then Some(Contents(r)[0]) else None
  }

  /** The oldest message when thread `i` last took one. */
  function TakenBy(states: seq<State>, acts: seq<Action>, n: nat, i: nat): Option<int>
    requires n <= |acts| < |states|
  {
    if n == 0 then None
    else if Takes(states[n - 1], acts[n - 1], i) then Oldest(states[n - 1].ring)
    else TakenBy(states, acts, n - 1, i)
  }

  predicate Sending(pc: Pc) {
    pc.SWant? || pc.SCheck? || pc.SAsleep?
  }

  predicate Holding(pc: Pc) {
    pc.RTaken? || pc.RWake?
  }

  /** A call on its way has the value it was given or has taken. */
  predicate CarriedBy(states: seq<State>, acts: seq<Action>, n: nat, i: nat)
    requires n <= |acts| < |states| && i < |states[n].threads|
  {
    var pc := states[n].threads[i];
    && (Sending(pc) ==> GivenTo(acts[..n], i) == Some(pc.v))
    && (Holding(pc) ==> TakenBy(states, acts, n, i) == Some(pc.v))
  }

  predicate Carried(states: seq<State>, acts: seq<Action>, n: nat)
    requires n <= |acts| < |states|
  {
    forall i :: 0 <= i < |states[n].threads| ==> CarriedBy(states, acts, n, i)
  }

  lemma HeadIsOldest(r: Ring)
    requires WellFormed(r) && r.count > 0
    ensures Oldest(r) == Some(Head(r))
  {
    SlotIs(r.head, 0);
  }

  lemma {:induction false} CarriedOn(states: seq<State>, acts: seq<Action>, n: nat)
    requires IsRun(states, acts) && n < |acts| && Inv(states[n]) && Carried(states, acts, n)
    ensures Carried(states, acts, n + 1)
  {
    var s, a := states[n], acts[n];
    assert acts[..n + 1][..n] == acts[..n] && acts[..n + 1][n] == a;
    if s.ring.count > 0 { HeadIsOldest(s.ring); }
    var m := n + 1;
    forall i | 0 <= i < |states[m].threads| ensures CarriedBy(states, acts, m, i) {
      assert CarriedBy(states, acts, n, i);
    }
  }

  /** A call keeps its value, asleep or awake, however often it looks again. */
  lemma {:induction false} ValuesAreCarried(states: seq<State>, acts: seq<Action>, n: nat)
    requires IsRun(states, acts) && Init(states[0]) && n <= |acts|
    ensures Carried(states, acts, n)
    decreases n
  {
    if n > 0 {
      ValuesAreCarried(states, acts, n - 1);
      InitInv(states[0]);
      RunsKeepInv(states, acts, n - 1);
      CarriedOn(states, acts, n - 1);
    }
  }

  /** A call that puts appends the value its send was given. */
  lemma {:induction false} PutsWhatWasGiven(states: seq<State>, acts: seq<Action>, n: nat, i: nat)
    requires IsRun(states, acts) && Init(states[0]) && n < |acts| && Puts(states[n], acts[n], i)
    ensures Inv(states[n]) && Inv(states[n + 1]) && GivenTo(acts[..n], i).Some?
    ensures states[n + 1].sent == states[n].sent + [GivenTo(acts[..n], i).value]
    ensures Contents(states[n + 1].ring) == Contents(states[n].ring) + [GivenTo(acts[..n], i).value]
  {
    ValuesAreCarried(states, acts, n);
    assert CarriedBy(states, acts, n, i);
    InitInv(states[0]);
    RunsKeepInv(states, acts, n);
    RunsKeepInv(states, acts, n + 1);
    PutAppends(states[n].ring, states[n].threads[i].v);
  }

  /** A call that takes gets the oldest message, and still has it when it
      returns. */
  lemma {:induction false} ReturnsWhatWasTaken(states: seq<State>, acts: seq<Action>, n: nat, i: nat)
    requires IsRun(states, acts) && Init(states[0]) && n < |acts| && i < |states[n].threads|
    ensures Inv(states[n]) && Inv(states[n + 1])
    ensures Takes(states[n], acts[n], i) ==>
              && Oldest(states[n].ring).Some? && states[n + 1].threads[i] == RTaken(Oldest(states[n].ring).value)
              && states[n + 1].received == states[n].received + [Oldest(states[n].ring).value]
              && Contents(states[n].ring) == [Oldest(states[n].ring).value] + Contents(states[n + 1].ring)
    ensures acts[n].Wake? && acts[n].i == i && states[n].threads[i].RWake? ==>
              TakenBy(states, acts, n, i) == Some(states[n].threads[i].v)
  {
    ValuesAreCarried(states, acts, n);
    assert CarriedBy(states, acts, n, i);
    InitInv(states[0]);
    RunsKeepInv(states, acts, n);
    RunsKeepInv(states, acts, n + 1);
    if Takes(states[n], acts[n], i) {
      HeadIsOldest(states[n].ring);
      TakeRemovesFirst(states[n].ring);
    }
  }

  /** The values given to the sends that have put, in the order of their puts. */
  function ValuesPut(states: seq<State>, acts: seq<Action>, n: nat): seq<int>
    requires n <= |acts| < |states|
  {
    if n == 0 then []
    else
      var before := ValuesPut(states, acts, n - 1);
      var i := acts[n - 1].i;
      if Puts(states[n - 1], acts[n - 1], i) && GivenTo(acts[..n - 1], i).Some?
      then before + [GivenTo(acts[..n - 1], i).value] else before
  }

  /** The values the receives that have taken return, in the order of their
      takes. */
  function ValuesTaken(states: seq<State>, acts: seq<Action>, n: nat): seq<int>
    requires n <= |acts| < |states|
  {
    if n == 0 then []
    else
      var before := ValuesTaken(states, acts, n - 1);
      var i := acts[n - 1].i;
      if Takes(states[n - 1], acts[n - 1], i) && i < |states[n].threads| && states[n].threads[i].RTaken?
      then before + [states[n].threads[i].v] else before
  }

  /** From call to call: the values returned are the first of the values given, in
      order, and the rest is in the ring. */
  lemma {:induction false} DeliveredInOrder(states: seq<State>, acts: seq<Action>, n: nat)
    requires IsRun(states, acts) && Init(states[0]) && n <= |acts|
    ensures Inv(states[n]) && ValuesPut(states, acts, n) == ValuesTaken(states, acts, n) + Contents(states[n].ring)
  {
    InitInv(states[0]);
    RunsKeepInv(states, acts, n);
    LogsAreValues(states, acts, n);
  }

  lemma {:induction false} LogsAreValues(states: seq<State>, acts: seq<Action>, n: nat)
    requires IsRun(states, acts) && Init(states[0]) && n <= |acts|
    ensures states[n].sent == ValuesPut(states, acts, n) && states[n].received == ValuesTaken(states, acts, n)
    decreases n
  {
    if n > 0 {
      var m, i := n - 1, acts[n - 1].i;
      LogsAreValues(states, acts, m);
      InitInv(states[0]);
      RunsKeepInv(states, acts, m);
      ReturnsWhatWasTaken(states, acts, m, i);
      if Puts(states[m], acts[m], i) { PutsWhatWasGiven(states, acts, m, i); }
    }
  }
}
