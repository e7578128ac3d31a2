/** Runs of any number of threads over one channel: the lock, the two condition
    variables, and the order of the wake-ups. */
module ChannelRuns {
  import opened Options
  import opened ChannelRing

  /** Where a thread stands in its call. */
  datatype Pc =
    | Idle
    | SWant(v: int) | SCheck(v: int) | SAsleep(v: int) | SPut | SWake
    | RWant | RCheck | RAsleep | RTaken(v: int) | RWake(v: int)

  datatype State = State(threads: seq<Pc>, holder: Option<nat>, ring: Ring, sent: seq<int>, received: seq<int>)

  /** Acquire, Check, Release and Wake are steps of calls in progress. A wake
      takes a sleeper if there is one. Which waiting thread gets the lock and
      which sleeper is woken is arbitrary. */
  datatype Action =
    | StartSend(i: nat, v: int)
    | StartReceive(i: nat)
    | Acquire(i: nat)
    | Check(i: nat)
    | Release(i: nat)
    | Wake(i: nat, sleeper: Option<nat>)
    | Spurious(i: nat)

  predicate InProgress(a: Action) {
    a.Acquire? || a.Check? || a.Release? || a.Wake?
  }

  predicate AllInProgress(acts: seq<Action>) {
    forall i :: 0 <= i < |acts| ==> InProgress(acts[i])
  }

  predicate HoldsLock(pc: Pc) {
    pc.SCheck? || pc.SPut? || pc.RCheck? || pc.RTaken?
  }

  predicate Asleep(pc: Pc) {
    pc.SAsleep? || pc.RAsleep?
  }

  function Awake(pc: Pc): Pc {
    if pc.SAsleep? then SWant(pc.v) else RWant
  }

  /** `pc` sleeps on the condition variable that `waker` signals. */
  predicate SleepsFor(waker: Pc, pc: Pc) {
    (waker.SWake? && pc.RAsleep?) || (waker.RWake? && pc.SAsleep?)
  }

  predicate Enabled(s: State, a: Action) {
    && a.i < |s.threads|
    && var pc := s.threads[a.i];
       match a
       case StartSend(_, _) => pc.Idle?
       case StartReceive(_) => pc.Idle?
       case Acquire(_) => s.holder.None? && (pc.SWant? || pc.RWant?)
       case Check(_) => s.holder == Some(a.i) && (pc.SCheck? || pc.RCheck?)
       case Release(_) => s.holder == Some(a.i) && (pc.SPut? || pc.RTaken?)
       case Wake(_, sleeper) =>
         && (pc.SWake? || pc.RWake?)
         && (sleeper.Some? ==> sleeper.value < |s.threads| && SleepsFor(pc, s.threads[sleeper.value]))
         && (sleeper.None? ==> forall j :: 0 <= j < |s.threads| ==> !SleepsFor(pc, s.threads[j]))
       case Spurious(_) => Asleep(pc)
  }

  predicate RingInRange(r: Ring) {
    |r.slots| == SLOTS && 0 <= r.head < SLOTS && 0 <= r.tail < SLOTS
  }

  function Next(s: State, a: Action): State
    requires Enabled(s, a) && RingInRange(s.ring)
  {
    var pc := s.threads[a.i];
    match a
    case StartSend(i, v) => s.(threads := s.threads[i := SWant(v)])
    case StartReceive(i) => s.(threads := s.threads[i := RWant])
    case Acquire(i) =>
      s.(threads := s.threads[i := if pc.SWant? then SCheck(pc.v) else RCheck], holder := Some(i))
    case Check(i) =>
      if pc.SCheck? then
        if Full(s.ring) then s.(threads := s.threads[i := SAsleep(pc.v)], holder := None)
        else s.(threads := s.threads[i := SPut], ring := Put(s.ring, pc.v), sent := s.sent + [pc.v])
      else
        if Empty(s.ring) then s.(threads := s.threads[i := RAsleep], holder := None)
        else s.(threads := s.threads[i := RTaken(Head(s.ring))], ring := Take(s.ring),
                received := s.received + [Head(s.ring)])
    case Release(i) =>
      s.(threads := s.threads[i := if pc.SPut? then SWake else RWake(pc.v)], holder := None)
    case Wake(i, sleeper) =>
      var ts := s.threads[i := Idle];
      s.(threads := if sleeper.None? then ts else ts[sleeper.value := Awake(s.threads[sleeper.value])])
    case Spurious(i) => s.(threads := s.threads[i := Awake(pc)])
  }

  predicate Init(s: State) {
    && (forall i :: 0 <= i < |s.threads| ==> s.threads[i].Idle?) && s.holder.None?
    && WellFormed(s.ring) && s.ring.head == 0 && s.ring.tail == 0 && s.ring.count == 0
    && s.sent == [] && s.received == []
  }

  // ----- counting threads -----

  function Sum(ts: seq<Pc>, w: Pc -> nat): nat {
    if |ts| == 0 then 0 else w(ts[0]) + Sum(ts[1..], w)
  }

  lemma {:induction false} SumUpdate(ts: seq<Pc>, w: Pc -> nat, i: nat, pc: Pc)
    requires i < |ts|
    ensures Sum(ts[i := pc], w) == Sum(ts, w) - w(ts[i]) + w(pc)
    decreases |ts|
  {
    var ts' := ts[i := pc];
    if i == 0 {
      assert ts'[1..] == ts[1..];
    } else {
      assert ts'[1..] == ts[1..][i - 1 := pc];
      SumUpdate(ts[1..], w, i - 1, pc);
    }
  }

  lemma {:induction false} SumAtLeast(ts: seq<Pc>, w: Pc -> nat, i: nat)
    requires i < |ts|
    ensures Sum(ts, w) >= w(ts[i])
    decreases |ts|
  {
    if i > 0 { SumAtLeast(ts[1..], w, i - 1); }
  }

  lemma {:induction false} SumZero(ts: seq<Pc>, w: Pc -> nat)
    requires forall i :: 0 <= i < |ts| ==> w(ts[i]) == 0
    ensures Sum(ts, w) == 0
    decreases |ts|
  {
    if |ts| > 0 { SumZero(ts[1..], w); }
  }

  lemma {:induction false} SumBound(ts: seq<Pc>, w: Pc -> nat, k: nat)
    requires forall pc :: w(pc) <= k
    ensures Sum(ts, w) <= k * |ts|
    decreases |ts|
  {
    if |ts| > 0 { SumBound(ts[1..], w, k); }
  }

  function Bit(b: bool): nat { if b then 1 else 0 }

  /** Receivers asleep, wakes owed to them, and receivers about to look. */
  function RSleeping(pc: Pc): nat { Bit(pc.RAsleep?) }
  function ROwed(pc: Pc): nat { Bit(pc.SPut? || pc.SWake? || pc.RWant? || pc.RCheck?) }
  function SSleeping(pc: Pc): nat { Bit(pc.SAsleep?) }
  function SOwed(pc: Pc): nat { Bit(pc.RTaken? || pc.RWake? || pc.SWant? || pc.SCheck?) }

  /** Calls that have not yet taken or put. */
  function RPending(pc: Pc): nat { Bit(pc.RWant? || pc.RCheck? || pc.RAsleep?) }
  function SPending(pc: Pc): nat { Bit(pc.SWant? || pc.SCheck? || pc.SAsleep?) }

  // ----- what every step keeps -----

  /** One holder at most, and it is the thread that stands inside the lock. */
  predicate LockHeldByOne(s: State) {
    && (s.holder.Some? ==> s.holder.value < |s.threads|)
    && forall i :: 0 <= i < |s.threads| ==> (HoldsLock(s.threads[i]) <==> s.holder == Some(i))
  }

  /** The values sent, in lock order, are those received and then those in the
      ring. */
  predicate Fifo(s: State) {
    && WellFormed(s.ring) && (s.ring.cap > 0 ==> s.ring.count <= s.ring.cap)
    && s.sent == s.received + Contents(s.ring)
  }

  /** A receiver sleeps only while every message in the ring is accounted for by
      a wake still owed or a receiver about to look; dually for senders and
      free places. */
  predicate NoLostWake(s: State) {
    && (Sum(s.threads, RSleeping) > 0 ==> s.ring.count <= Sum(s.threads, ROwed))
    && (Sum(s.threads, SSleeping) > 0 ==> s.ring.cap > 0 && s.ring.cap - s.ring.count <= Sum(s.threads, SOwed))
  }

  predicate Inv(s: State) {
    LockHeldByOne(s) && Fifo(s) && NoLostWake(s)
  }

  /** With capacity 0 a put needs a free slot; otherwise the guard sees to it. */
  predicate Fits(s: State, a: Action) {
    s.ring.cap == 0 && a.Check? && a.i < |s.threads| && s.threads[a.i].SCheck? ==> s.ring.count < SLOTS
  }

  lemma {:induction false} InitInv(s: State)
    requires Init(s)
    ensures Inv(s)
  {
    forall i | 0 <= i < |s.threads| ensures RSleeping(s.threads[i]) == 0 && SSleeping(s.threads[i]) == 0 {}
    SumZero(s.threads, RSleeping);
    SumZero(s.threads, SSleeping);
  }

  lemma {:induction false} StepLock(s: State, a: Action)
    requires Inv(s) && Enabled(s, a)
    ensures LockHeldByOne(Next(s, a))
  {
  }

  lemma {:induction false} StepFifo(s: State, a: Action)
    requires Inv(s) && Enabled(s, a) && Fits(s, a)
    ensures Fifo(Next(s, a))
  {
    if a.Check? {
      var pc := s.threads[a.i];
      if pc.SCheck? && !Full(s.ring) { PutAppends(s.ring, pc.v); }
      if pc.RCheck? && !Empty(s.ring) { TakeRemovesFirst(s.ring); }
    }
  }

  /** How a step moves any count of threads. */
  lemma {:induction false} SumNext(s: State, a: Action, w: Pc -> nat)
    requires Enabled(s, a) && RingInRange(s.ring)
    ensures var ts' := Next(s, a).threads;
            Sum(ts', w) == Sum(s.threads, w) - w(s.threads[a.i])
              + (if a.Wake? then w(Idle) else w(ts'[a.i]))
              + (if a.Wake? && a.sleeper.Some? then
                   w(Awake(s.threads[a.sleeper.value])) - w(s.threads[a.sleeper.value])
                 else 0)
  {
    if a.Wake? {
      SumUpdate(s.threads, w, a.i, Idle);
      if a.sleeper.Some? {
        SumUpdate(s.threads[a.i := Idle], w, a.sleeper.value, Awake(s.threads[a.sleeper.value]));
      }
    } else {
      SumUpdate(s.threads, w, a.i, Next(s, a).threads[a.i]);
    }
  }

  lemma {:induction false} StepWake(s: State, a: Action)
    requires Inv(s) && Enabled(s, a)
    ensures NoLostWake(Next(s, a))
  {
    StepReceivers(s, a);
    StepSenders(s, a);
  }

  lemma {:induction false} StepReceivers(s: State, a: Action)
    requires Inv(s) && Enabled(s, a)
    ensures Sum(Next(s, a).threads, RSleeping) > 0 ==> Next(s, a).ring.count <= Sum(Next(s, a).threads, ROwed)
  {
    SumNext(s, a, RSleeping); SumNext(s, a, ROwed);
    if a.Wake? && a.sleeper.None? && s.threads[a.i].SWake? { SumZero(s.threads, RSleeping); }
  }

  lemma {:induction false} StepSenders(s: State, a: Action)
    requires Inv(s) && Enabled(s, a)
    ensures var s' := Next(s, a);
            Sum(s'.threads, SSleeping) > 0 ==> s'.ring.cap > 0 && s'.ring.cap - s'.ring.count <= Sum(s'.threads, SOwed)
  {
    SumNext(s, a, SSleeping); SumNext(s, a, SOwed);
    if a.Wake? && a.sleeper.None? && s.threads[a.i].RWake? { SumZero(s.threads, SSleeping); }
  }

  // ----- runs -----

  predicate IsRun(states: seq<State>, acts: seq<Action>) {
    && |states| == |acts| + 1
    && forall i :: 0 <= i < |acts| ==>
         && Enabled(states[i], acts[i]) && RingInRange(states[i].ring) && Fits(states[i], acts[i])
         && states[i + 1] == Next(states[i], acts[i])
  }

  /** In every state of every run the lock has one holder, messages are neither
      lost, made up, duplicated nor reordered, and no wake-up is lost. */
  lemma {:induction false} RunsKeepInv(states: seq<State>, acts: seq<Action>, n: nat)
    requires IsRun(states, acts) && Inv(states[0]) && n < |states|
    ensures Inv(states[n])
    decreases n
  {
    if n > 0 {
      RunsKeepInv(states, acts, n - 1);
      StepLock(states[n - 1], acts[n - 1]);
      StepFifo(states[n - 1], acts[n - 1]);
      StepWake(states[n - 1], acts[n - 1]);
    }
  }

  /** Seen from one sleeper in a reachable state: a receiver asleep next to
      messages, or a sender asleep next to free places, always has at least that
      many wakes or awake competitors coming. */
  lemma {:induction false} SleeperIsAccountedFor(states: seq<State>, acts: seq<Action>, n: nat, i: nat)
    requires IsRun(states, acts) && Init(states[0]) && n < |states| && i < |states[n].threads|
    ensures states[n].threads[i].RAsleep? ==> states[n].ring.count <= Sum(states[n].threads, ROwed)
    ensures states[n].threads[i].SAsleep? ==>
      states[n].ring.cap > 0 && states[n].ring.cap - states[n].ring.count <= Sum(states[n].threads, SOwed)
  {
    InitInv(states[0]);
    RunsKeepInv(states, acts, n);
    SumAtLeast(states[n].threads, RSleeping, i);
    SumAtLeast(states[n].threads, SSleeping, i);
  }

  predicate AtRest(s: State) {
    forall i :: 0 <= i < |s.threads| ==> s.threads[i].Idle? || Asleep(s.threads[i])
  }

  /** If no call is moving, only receivers sleep and the channel is empty, or
      only senders sleep and it is full. */
  lemma {:induction false} RestIsJustified(s: State)
    requires Inv(s) && AtRest(s)
    ensures (exists i :: 0 <= i < |s.threads| && s.threads[i].RAsleep?) ==> Empty(s.ring)
    ensures (exists i :: 0 <= i < |s.threads| && s.threads[i].SAsleep?) ==> Full(s.ring)
    ensures (forall i :: 0 <= i < |s.threads| ==> !s.threads[i].RAsleep?)
        || (forall i :: 0 <= i < |s.threads| ==> !s.threads[i].SAsleep?)
  {
    SumZero(s.threads, ROwed);
    SumZero(s.threads, SOwed);
    forall i | 0 <= i < |s.threads|
      ensures s.threads[i].RAsleep? ==> Empty(s.ring)
      ensures s.threads[i].SAsleep? ==> Full(s.ring)
    {
      SumAtLeast(s.threads, RSleeping, i);
      SumAtLeast(s.threads, SSleeping, i);
    }
  }

  /** No internal step is possible exactly when every thread is idle or asleep:
      calls in progress never deadlock on the lock. */
  lemma {:induction false} StuckIffAtRest(s: State)
    requires Inv(s)
    ensures AtRest(s) <==> forall a :: InProgress(a) ==> !Enabled(s, a)
  {
    if !AtRest(s) {
      var i :| 0 <= i < |s.threads| && !s.threads[i].Idle? && !Asleep(s.threads[i]);
      var a := PossibleStep(s, i);
    }
  }

  lemma {:induction false} PossibleStep(s: State, i: nat) returns (a: Action)
    requires Inv(s) && i < |s.threads| && !s.threads[i].Idle? && !Asleep(s.threads[i])
    ensures InProgress(a) && Enabled(s, a)
  {
    var pc := s.threads[i];
    if pc.SWake? || pc.RWake? {
      if j :| 0 <= j < |s.threads| && SleepsFor(pc, s.threads[j]) {
        a := Wake(i, Some(j));
      } else {
        a := Wake(i, None);
      }
    } else {
      var h := if s.holder.Some? then s.holder.value else i;
      var at := s.threads[h];
      a := if at.SCheck? || at.RCheck? then Check(h) else if at.SPut? || at.RTaken? then Release(h) else Acquire(h);
    }
  }

  /** How far a thread is from coming to rest; a sleeper may be woken. */
  function Distance(pc: Pc): nat {
    match pc
    case Idle => 0
    case SWake => 3 case RWake(_) => 3
    case SPut => 4 case RTaken(_) => 4
    case SAsleep(_) => 4 case RAsleep => 4
    case SCheck(_) => 5 case RCheck => 5
    case SWant(_) => 6 case RWant => 6
  }

  /** Without new calls and spurious wakes, every run ends. */
  lemma {:induction false} QuietRunsEnd(states: seq<State>, acts: seq<Action>)
    requires IsRun(states, acts) && AllInProgress(acts)
    ensures |acts| <= 6 * |states[0].threads|
  {
    ShrinkingRun(states, acts, |acts|);
    SumBound(states[0].threads, Distance, 6);
  }

  lemma {:induction false} ShrinkingRun(states: seq<State>, acts: seq<Action>, n: nat)
    requires IsRun(states, acts) && AllInProgress(acts) && n <= |acts|
    ensures Sum(states[n].threads, Distance) + n <= Sum(states[0].threads, Distance)
    decreases n
  {
    if n > 0 {
      ShrinkingRun(states, acts, n - 1);
      SumNext(states[n - 1], acts[n - 1], Distance);
    }
  }

  // ----- how a run comes out -----

  /** Free places; a channel of capacity `c` holds at most `c` messages. */
  function Room(r: Ring): int { r.cap - r.count }

  /** Calls still to put, less calls still to take, plus messages held. */
  function Balance(s: State): int {
    Sum(s.threads, SPending) - Sum(s.threads, RPending) + s.ring.count
  }

  lemma {:induction false} BalanceStep(s: State, a: Action)
    requires Enabled(s, a) && RingInRange(s.ring) && InProgress(a)
    ensures Balance(Next(s, a)) == Balance(s) && Next(s, a).ring.cap == s.ring.cap
  {
    SumNext(s, a, SPending);
    SumNext(s, a, RPending);
  }

  lemma {:induction false} BalanceKept(states: seq<State>, acts: seq<Action>, n: nat)
    requires IsRun(states, acts) && AllInProgress(acts) && n <= |acts|
    ensures Balance(states[n]) == Balance(states[0]) && states[n].ring.cap == states[0].ring.cap
    decreases n
  {
    if n > 0 {
      BalanceKept(states, acts, n - 1);
      BalanceStep(states[n - 1], acts[n - 1]);
    }
  }

  /** Whatever the schedule, once calls come to rest the ones still blocked are
      exactly the surplus: receivers beyond the messages there are, or senders
      beyond the room there is. (Capacity at least 1.) */
  lemma {:induction false} BlockedAreTheSurplus(states: seq<State>, acts: seq<Action>)
    requires IsRun(states, acts) && Inv(states[0]) && states[0].ring.cap > 0
    requires AllInProgress(acts)
    requires AtRest(states[|acts|])
    ensures var first, last := states[0], states[|acts|];
            var (s, r) := (Sum(first.threads, SPending), Sum(first.threads, RPending));
            && Sum(last.threads, RPending) == (if r > s + first.ring.count then r - s - first.ring.count else 0)
            && Sum(last.threads, SPending) == (if s > r + Room(first.ring) then s - r - Room(first.ring) else 0)
  {
    var last := states[|acts|];
    RunsKeepInv(states, acts, |acts|);
    BalanceKept(states, acts, |acts|);
    RestIsJustified(last);
    if i :| 0 <= i < |last.threads| && last.threads[i].RAsleep? {
      SumZero(last.threads, SPending);
    } else {
      SumZero(last.threads, RPending);
      if forall i :: 0 <= i < |last.threads| ==> !last.threads[i].SAsleep? { SumZero(last.threads, SPending); }
    }
  }
}
