/**
 The semaphore built from two mutexes, a condition variable and a counter, as a step system of
 any number of threads. A timed wait may time out at any moment; a blocked wait may wake up
 without a signal.
 */
module AppleSemaphore {
  import opened Wrappers
  import opened Counting

  datatype Pc =
    | Idle
    // wait
    | WaitLock(timed: bool)                // about to lock the counter
    | WaitTest(timed: bool)
    | WaitStore(seen: int)                 // read a positive counter, about to store it less one
    | WaitTaken                            // stored, about to unlock and return true
    | WaitEmpty(timed: bool)               // read zero, about to unlock
    | CondLock(timed: bool)                // counter unlocked, about to lock the wait mutex
    | CondEnter(timed: bool)               // about to wait on the condition
    | CondBlocked(timed: bool)
    | CondWake(expired: bool)              // about to lock the wait mutex again
    | CondHeld(expired: bool)
    | AgainLock
    | AgainTest
    | AgainEmpty                           // about to unlock and return false
    // notify; `left` increments still to do, the current one included
    | NotifyLock(left: nat)
    | NotifyRead(left: nat)
    | NotifyStore(left: nat, seen: int)
    | NotifyUnlock(left: nat)
    | NotifySignal(left: nat)
    // value
    | ValueLock
    | ValueRead
    | ValueUnlock(seen: int)

  /** Counter and mutexes, then the history: increments and decrements stored, waits returned. */
  datatype State = State(
    pcs: seq<Pc>,
    count: int,
    countOwner: Option<nat>,
    waitOwner: Option<nat>,
    incs: nat,
    decs: nat,
    succeeded: nat,
    failed: nat)

  datatype Action =
    | StartWait(timed: bool)
    | StartNotify(increment: int)
    | StartValue
    | Continue
    | Wake                   // a blocked wait wakes up without a signal
    | Expire                 // a blocked timed wait times out
    | Signal(woken: nat)     // a notify signals and this blocked wait wakes up

  function Init(value: int, threads: nat): State {
    State(seq(threads, _ => Idle), value, None, None, 0, 0, 0, 0)
  }

  function Goto(s: State, t: nat, pc: Pc): State
    requires t < |s.pcs|
  {
    s.(pcs := s.pcs[t := pc])
  }

  function LockCount(s: State, t: nat, pc: Pc): Option<State>
    requires t < |s.pcs|
  {
    if s.countOwner.None? then Some(Goto(s, t, pc).(countOwner := Some(t))) else None
  }

  function UnlockCount(s: State, t: nat, pc: Pc): State
    requires t < |s.pcs|
  {
    Goto(s, t, pc).(countOwner := None)
  }

  function LockWait(s: State, t: nat, pc: Pc): Option<State>
    requires t < |s.pcs|
  {
    if s.waitOwner.None? then Some(Goto(s, t, pc).(waitOwner := Some(t))) else None
  }

  predicate SomeoneBlocked(s: State) {
    exists u :: 0 <= u < |s.pcs| && s.pcs[u].CondBlocked?
  }

  /** The rest of a notify with `left` increments still to do. */
  function NotifyFrom(left: int): Pc {
    if left <= 0 then Idle else NotifyLock(left)
  }

  function Advance(s: State, t: nat): Option<State>
    requires t < |s.pcs|
  {
    match s.pcs[t]
    case Idle => None
    case WaitLock(timed) => LockCount(s, t, WaitTest(timed))
    case WaitTest(timed) =>
      Some(Goto(s, t, if s.count > 0 then WaitStore(s.count)
                      else WaitEmpty(timed)))
    case WaitStore(seen) => Some(Goto(s, t, WaitTaken).(count := seen - 1, decs := s.decs + 1))
    case WaitTaken => Some(UnlockCount(s, t, Idle).(succeeded := s.succeeded + 1))
    case WaitEmpty(timed) => Some(UnlockCount(s, t, CondLock(timed)))
    case CondLock(timed) => LockWait(s, t, CondEnter(timed))
    case CondEnter(timed) => Some(Goto(s, t, CondBlocked(timed)).(waitOwner := None))
    case CondBlocked(_) => None
    case CondWake(expired) => LockWait(s, t, CondHeld(expired))
    case CondHeld(expired) =>
      var s' := Goto(s, t, if expired then Idle else AgainLock).(waitOwner := None);
      Some(if expired then s'.(failed := s.failed + 1) else s')
    case AgainLock => LockCount(s, t, AgainTest)
    case AgainTest => Some(Goto(s, t, if s.count > 0 then WaitStore(s.count) else AgainEmpty))
    case AgainEmpty => Some(UnlockCount(s, t, Idle).(failed := s.failed + 1))
    case NotifyLock(left) => LockCount(s, t, NotifyRead(left))
    case NotifyRead(left) => Some(Goto(s, t, NotifyStore(left, s.count)))
    case NotifyStore(left, seen) =>
      Some(Goto(s, t, NotifyUnlock(left)).(count := seen + 1, incs := s.incs + 1))
    case NotifyUnlock(left) => Some(UnlockCount(s, t, NotifySignal(left)))
    case NotifySignal(left) =>
      if SomeoneBlocked(s) then None
      else Some(Goto(s, t, NotifyFrom(left - 1)))
    case ValueLock => LockCount(s, t, ValueRead)
    case ValueRead => Some(Goto(s, t, ValueUnlock(s.count)))
    case ValueUnlock(_) => Some(UnlockCount(s, t, Idle))
  }

  function Next(s: State, t: nat, a: Action): Option<State>
    requires t < |s.pcs|
  {
    match a
    case Continue => Advance(s, t)
    case StartWait(timed) => if s.pcs[t].Idle? then Some(Goto(s, t, WaitLock(timed))) else None
    case StartNotify(n) => if s.pcs[t].Idle? then Some(Goto(s, t, NotifyFrom(n))) else None
    case StartValue => if s.pcs[t].Idle? then Some(Goto(s, t, ValueLock)) else None
    case Wake => if s.pcs[t].CondBlocked? then Some(Goto(s, t, CondWake(false))) else None
    case Expire =>
      if s.pcs[t].CondBlocked? && s.pcs[t].timed then Some(Goto(s, t, CondWake(true))) else None
    case Signal(u) =>
      if s.pcs[t].NotifySignal? && u < |s.pcs| && s.pcs[u].CondBlocked?
      then Some(Goto(Goto(s, t, NotifyFrom(s.pcs[t].left - 1)), u, CondWake(false)))
      else None
  }

  datatype Event = Event(thread: nat, action: Action)

  function Run(s: State, events: seq<Event>): Option<State>
    decreases |events|
  {
    if events == [] then Some(s)
    else if events[0].thread >= |s.pcs| then None
    else
      match Next(s, events[0].thread, events[0].action)
      case None => None
      case Some(s') => Run(s', events[1..])
  }

  // ---- invariant -----------------------------------------------------------

  predicate HoldsCount(pc: Pc) {
    pc.WaitTest? || pc.WaitStore? || pc.WaitTaken? || pc.WaitEmpty? || pc.AgainTest?
    || pc.AgainEmpty? || pc.NotifyRead? || pc.NotifyStore? || pc.NotifyUnlock? || pc.ValueRead?
    || pc.ValueUnlock?
  }

  predicate HoldsWait(pc: Pc) {
    pc.CondEnter? || pc.CondHeld?
  }

  function Taken(pc: Pc): nat {
    if pc.WaitTaken? then 1 else 0
  }

  /** What a thread has read or remembers is still so. */
  predicate Remembers(s: State, pc: Pc) {
    match pc
    case WaitStore(seen) => seen == s.count > 0
    case NotifyStore(_, seen) => seen == s.count
    case ValueUnlock(seen) => seen == s.count
    case WaitEmpty(_) => s.count == 0
    case AgainEmpty => s.count == 0
    case _ => true
  }

  /** At most one thread at a time holds each mutex. */
  predicate Exclusive(s: State) {
    && (s.countOwner.Some? ==> s.countOwner.value < |s.pcs|)
    && (s.waitOwner.Some? ==> s.waitOwner.value < |s.pcs|)
    && forall t | 0 <= t < |s.pcs| ::
      && (HoldsCount(s.pcs[t]) <==> s.countOwner == Some(t))
      && (HoldsWait(s.pcs[t]) <==> s.waitOwner == Some(t))
  }

  predicate Inv(value: int, s: State) {
    && Exclusive(s)
    && s.count >= 0
    && s.count == value + s.incs - s.decs
    && s.decs == s.succeeded + Sum(Taken, s.pcs)
    && forall t | 0 <= t < |s.pcs| :: Remembers(s, s.pcs[t])
  }

  /** A step moves one thread, and a signal also the thread it wakes. */
  predicate Moves(s: State, t: nat, a: Action, s': State)
    requires t < |s.pcs|
  {
    && |s'.pcs| == |s.pcs|
    && forall u | 0 <= u < |s.pcs| ::
         u == t || s'.pcs[u] == s.pcs[u]
         || (a == Signal(u) && s.pcs[u].CondBlocked? && s'.pcs[u] == CondWake(false))
  }

  lemma NextMoves(s: State, t: nat, a: Action)
    requires t < |s.pcs| && Next(s, t, a).Some?
    ensures Moves(s, t, a, Next(s, t, a).value)
  {
  }

  lemma NextOwners(s: State, t: nat, a: Action)
    requires t < |s.pcs| && Next(s, t, a).Some?
    requires HoldsCount(s.pcs[t]) <==> s.countOwner == Some(t)
    requires HoldsWait(s.pcs[t]) <==> s.waitOwner == Some(t)
    ensures var s' := Next(s, t, a).value;
            && |s'.pcs| == |s.pcs|
            && (HoldsCount(s'.pcs[t]) <==> s'.countOwner == Some(t))
            && (HoldsWait(s'.pcs[t]) <==> s'.waitOwner == Some(t))
            && (s'.countOwner == s.countOwner || (s.countOwner == None && s'.countOwner == Some(t))
                || (s.countOwner == Some(t) && s'.countOwner == None))
            && (s'.waitOwner == s.waitOwner || (s.waitOwner == None && s'.waitOwner == Some(t))
                || (s.waitOwner == Some(t) && s'.waitOwner == None))
  {
  }

  lemma NextKeepsExclusive(s: State, t: nat, a: Action)
    requires Exclusive(s) && t < |s.pcs| && Next(s, t, a).Some?
    ensures Exclusive(Next(s, t, a).value)
  {
    NextPcs(s, t, a);
    NextOwners(s, t, a);
    hide Next;
  }

  /** How the step of one thread changes the counter, the history and its own memory. */
  lemma NextCounts(value: int, s: State, t: nat, a: Action)
    requires t < |s.pcs| && Next(s, t, a).Some?
    requires s.count >= 0 && s.count == value + s.incs - s.decs
    requires Remembers(s, s.pcs[t])
    ensures var s' := Next(s, t, a).value;
            && |s'.pcs| == |s.pcs|
            && s'.count >= 0
            && s'.count == value + s'.incs - s'.decs
            && s'.decs - s.decs
               == (s'.succeeded - s.succeeded) + Taken(s'.pcs[t]) - Taken(s.pcs[t])
            && (s'.count == s.count || HoldsCount(s.pcs[t]))
            && Remembers(s', s'.pcs[t])
  {
  }

  /** A step changes the place of one thread, a signal then also that of the thread it wakes. */
  lemma NextPcs(s: State, t: nat, a: Action)
    requires t < |s.pcs| && Next(s, t, a).Some?
    ensures var s' := Next(s, t, a).value;
            && |s'.pcs| == |s.pcs|
            && (!a.Signal? ==> s'.pcs == s.pcs[t := s'.pcs[t]])
            && (a.Signal? ==>
                 && a.woken < |s.pcs| && a.woken != t
                 && s.pcs[t].NotifySignal? && s.pcs[a.woken].CondBlocked?
                 && s'.pcs == s.pcs[t := s'.pcs[t]][a.woken := CondWake(false)])
  {
  }

  lemma NextKeepsSum(s: State, t: nat, a: Action)
    requires t < |s.pcs| && Next(s, t, a).Some?
    ensures var s' := Next(s, t, a).value;
            && t < |s'.pcs|
            && Sum(Taken, s'.pcs) == Sum(Taken, s.pcs) - Taken(s.pcs[t]) + Taken(s'.pcs[t])
  {
    var s' := Next(s, t, a).value;
    NextPcs(s, t, a);
    hide Next, Sum;
    SumUpdate(Taken, s.pcs, t, s'.pcs[t]);
    if a.Signal? {
      SumUpdate(Taken, s.pcs[t := s'.pcs[t]], a.woken, CondWake(false));
    }
  }

  lemma NextKeepsInv(value: int, s: State, t: nat, a: Action)
    requires Inv(value, s) && t < |s.pcs| && Next(s, t, a).Some?
    ensures Inv(value, Next(s, t, a).value)
  {
    NextMoves(s, t, a);
    NextKeepsExclusive(s, t, a);
    NextCounts(value, s, t, a);
    NextKeepsSum(s, t, a);
    hide Next;
    var s' := Next(s, t, a).value;
    forall u | 0 <= u < |s'.pcs|
      ensures Remembers(s', s'.pcs[u])
    {
      assert Remembers(s, s.pcs[u]);
    }
  }

  lemma {:induction false} RunKeepsInv(value: int, s: State, events: seq<Event>)
    requires Inv(value, s) && Run(s, events).Some?
    ensures Inv(value, Run(s, events).value)
    decreases |events|
  {
    hide Next, Inv;
    if events != [] {
      NextKeepsInv(value, s, events[0].thread, events[0].action);
      RunKeepsInv(value, Next(s, events[0].thread, events[0].action).value, events[1..]);
    }
  }

  lemma InitInv(value: nat, threads: nat)
    ensures Inv(value, Init(value, threads))
  {
    SumZero(Taken, Init(value, threads).pcs);
  }

  /**
   From a non-negative initial value the counter never becomes negative, and it is the initial
   value plus the increments stored less the waits that returned true or are about to.
   */
  lemma Conservation(value: nat, threads: nat, events: seq<Event>)
    requires Run(Init(value, threads), events).Some?
    ensures var s := Run(Init(value, threads), events).value;
            && s.count >= 0
            && s.count == value + s.incs - s.succeeded - Sum(Taken, s.pcs)
            && ((forall t | 0 <= t < |s.pcs| :: s.pcs[t].Idle?) ==>
                 s.count == value + s.incs - s.succeeded)
  {
    InitInv(value, threads);
    RunKeepsInv(value, Init(value, threads), events);
    SumZero(Taken, Run(Init(value, threads), events).value.pcs);
  }

  // ---- every call counts once ----------------------------------------------

  /** The thread is inside a wait. */
  function Waiting(pc: Pc): nat {
    if pc.WaitLock? || pc.WaitTest? || pc.WaitStore? || pc.WaitTaken? || pc.WaitEmpty? || pc.CondLock?
      || pc.CondEnter? || pc.CondBlocked? || pc.CondWake? || pc.CondHeld? || pc.AgainLock? || pc.AgainTest?
      || pc.AgainEmpty?
    then 1 else 0
  }

  /** Increments that a notify has still to store. */
  function ToStore(pc: Pc): nat {
    match pc
    case NotifyLock(left) => left
    case NotifyRead(left) => left
    case NotifyStore(left, _) => left
    case NotifyUnlock(left) => if left > 0 then left - 1 else 0
    case NotifySignal(left) => if left > 0 then left - 1 else 0
    case _ => 0
  }

  function WaitsStarted(events: seq<Event>): nat
    decreases |events|
  {
    if events == [] then 0 else (if events[0].action.StartWait? then 1 else 0) + WaitsStarted(events[1..])
  }

  /** Increments asked for; a notify with none or fewer asks for none. */
  function IncrementsAsked(events: seq<Event>): nat
    decreases |events|
  {
    if events == [] then 0
    else
      (match events[0].action
       case StartNotify(n) => if n > 0 then n else 0
       case _ => 0)
      + IncrementsAsked(events[1..])
  }

  predicate Started(pc: Pc) {
    match pc
    case NotifyLock(left) => left > 0
    case NotifyRead(left) => left > 0
    case NotifyStore(left, _) => left > 0
    case NotifyUnlock(left) => left > 0
    case NotifySignal(left) => left > 0
    case _ => true
  }

  predicate AllStarted(s: State) {
    forall t | 0 <= t < |s.pcs| :: Started(s.pcs[t])
  }

  lemma NextCalls(s: State, t: nat, a: Action)
    requires t < |s.pcs| && Next(s, t, a).Some? && Started(s.pcs[t])
    ensures var s' := Next(s, t, a).value;
            && |s'.pcs| == |s.pcs| && Started(s'.pcs[t])
            && s'.succeeded + s'.failed + Waiting(s'.pcs[t])
            == s.succeeded + s.failed + Waiting(s.pcs[t]) + (if a.StartWait? then 1 else 0)
            && s'.incs + ToStore(s'.pcs[t])
            == s.incs + ToStore(s.pcs[t]) + (if a.StartNotify? && a.increment > 0 then a.increment else 0)
  {
  }

  lemma NextCallSums(f: Pc -> nat, s: State, t: nat, a: Action)
    requires t < |s.pcs| && Next(s, t, a).Some?
    requires forall pc: Pc | pc.CondBlocked? :: f(pc) == f(CondWake(false))
    ensures var s' := Next(s, t, a).value;
            |s'.pcs| == |s.pcs| && Sum(f, s'.pcs) == Sum(f, s.pcs) - f(s.pcs[t]) + f(s'.pcs[t])
  {
    var s' := Next(s, t, a).value;
    NextPcs(s, t, a);
    hide Next, Sum;
    SumUpdate(f, s.pcs, t, s'.pcs[t]);
    if a.Signal? {
      SumUpdate(f, s.pcs[t := s'.pcs[t]], a.woken, CondWake(false));
    }
  }

  lemma NextKeepsStarted(s: State, t: nat, a: Action)
    requires t < |s.pcs| && Next(s, t, a).Some? && AllStarted(s)
    ensures AllStarted(Next(s, t, a).value)
  {
    NextPcs(s, t, a);
    NextCalls(s, t, a);
    hide Next;
  }

  lemma {:induction false} RunCalls(s: State, events: seq<Event>)
    requires AllStarted(s) && Run(s, events).Some?
    ensures var s' := Run(s, events).value;
            && s'.succeeded + s'.failed + Sum(Waiting, s'.pcs)
            == s.succeeded + s.failed + Sum(Waiting, s.pcs) + WaitsStarted(events)
            && s'.incs + Sum(ToStore, s'.pcs) == s.incs + Sum(ToStore, s.pcs) + IncrementsAsked(events)
    decreases |events|
  {
    if events != [] {
      var t, a := events[0].thread, events[0].action;
      assert Started(s.pcs[t]);
      NextCalls(s, t, a);
      NextCallSums(Waiting, s, t, a);
      NextCallSums(ToStore, s, t, a);
      NextKeepsStarted(s, t, a);
      hide Next, Sum, Waiting, ToStore, AllStarted;
      RunCalls(Next(s, t, a).value, events[1..]);
    }
  }

  /**
   In every run each wait has returned once, true or false, or is still inside, and each increment
   asked for has been stored once or is still to be stored.
   */
  lemma EveryCallCounts(value: nat, threads: nat, events: seq<Event>)
    requires Run(Init(value, threads), events).Some?
    ensures var s := Run(Init(value, threads), events).value;
            && WaitsStarted(events) == s.succeeded + s.failed + Sum(Waiting, s.pcs)
            && IncrementsAsked(events) == s.incs + Sum(ToStore, s.pcs)
  {
    RunCalls(Init(value, threads), events);
    SumZero(Waiting, Init(value, threads).pcs);
    SumZero(ToStore, Init(value, threads).pcs);
  }

  // ---- signals --------------------------------------------------------------

  function Asleep(pc: Pc): nat {
    if pc.CondBlocked? then 1 else 0
  }

  lemma {:induction false} SomeoneAsleep(pcs: seq<Pc>)
    ensures Sum(Asleep, pcs) > 0 <==> exists u :: 0 <= u < |pcs| && pcs[u].CondBlocked?
  {
    SumZero(Asleep, pcs);
  }

  /** A notify that signals while some wait sleeps wakes exactly one; otherwise the signal is lost. */
  lemma SignalWakesOne(s: State, t: nat, a: Action)
    requires t < |s.pcs| && s.pcs[t].NotifySignal? && Next(s, t, a).Some?
    ensures var asleep := Sum(Asleep, s.pcs);
            Sum(Asleep, Next(s, t, a).value.pcs) == if asleep > 0 then asleep - 1 else 0
  {
    var s' := Next(s, t, a).value;
    NextPcs(s, t, a);
    SomeoneAsleep(s.pcs);
    assert a.Signal? || !SomeoneBlocked(s);
    assert !s'.pcs[t].CondBlocked?;
    hide Next, Sum;
    SumUpdate(Asleep, s.pcs, t, s'.pcs[t]);
    if a.Signal? {
      assert s.pcs[t := s'.pcs[t]][a.woken].CondBlocked?;
      SumUpdate(Asleep, s.pcs[t := s'.pcs[t]], a.woken, CondWake(false));
    }
  }

  // ---- a lost wakeup -------------------------------------------------------

  lemma RunThen(s: State, events: seq<Event>, s': State, e: Event, s'': State)
    requires Run(s, events) == Some(s')
    requires e.thread < |s'.pcs| && Next(s', e.thread, e.action) == Some(s'')
    ensures Run(s, events + [e]) == Some(s'')
    decreases |events|
  {
    hide Next;
    if events == [] {
      assert [e][1..] == [];
    } else {
      assert (events + [e])[1..] == events[1..] + [e];
      RunThen(Next(s, events[0].thread, events[0].action).value, events[1..], s', e, s'');
    }
  }

  /**
   Thread 0 tests an empty counter and gets ready to sleep; thread 1 increments the counter and
   signals, but wakes nobody; then thread 0 goes to sleep.
   */
  function LostWakeup(k: nat): Event
    requires k < 12
  {
    if k == 0 then Event(0, StartWait(false))
    else if k == 5 then Event(1, StartNotify(1))
    else Event(if 5 < k < 11 then 1 else 0, Continue)
  }

  /** The state before event `k`. */
  function Lost(k: nat): State
    requires k <= 12
  {
    var waiter :=
      if k == 0 then Idle else if k == 1 then WaitLock(false) else if k == 2 then WaitTest(false)
      else if k == 3 then WaitEmpty(false) else if k == 4 then CondLock(false)
      else if k < 12 then CondEnter(false) else CondBlocked(false);
    var notifier :=
      if k < 6 || k > 10 then Idle else if k == 6 then NotifyLock(1)
      else if k == 7 then NotifyRead(1) else if k == 8 then NotifyStore(1, 0)
      else if k == 9 then NotifyUnlock(1) else NotifySignal(1);
    var done := if k < 9 then 0 else 1;
    var countOwner := if 2 <= k < 4 then Some(0) else if 7 <= k < 10 then Some(1) else None;
    State([waiter, notifier], done, countOwner, if 5 <= k < 12 then Some(0) else None, done, 0, 0, 0)
  }

  lemma LostStep(k: nat)
    requires k < 12
    ensures Next(Lost(k), LostWakeup(k).thread, LostWakeup(k).action) == Some(Lost(k + 1))
  {
    var t := LostWakeup(k).thread;
    assert Lost(k).pcs[t := Lost(k + 1).pcs[t]] == Lost(k + 1).pcs;
  }

  lemma {:induction false} LostRun(k: nat)
    requires k <= 12
    ensures Run(Lost(0), seq(k, i requires 0 <= i < 12 => LostWakeup(i))) == Some(Lost(k))
  {
    if k > 0 {
      var es := seq(k - 1, i requires 0 <= i < 12 => LostWakeup(i));
      LostRun(k - 1);
      LostStep(k - 1);
      hide Next, Lost, LostWakeup;
      RunThen(Lost(0), es, Lost(k - 1), LostWakeup(k - 1), Lost(k));
      assert seq(k, i requires 0 <= i < 12 => LostWakeup(i)) == es + [LostWakeup(k - 1)];
    }
  }

  /**
   The documentation says a wait blocks when the counter is zero. There is a run in which a wait
   without timeout sleeps on a positive counter while no other call is in progress.
   */
  lemma WaitSleepsOnPositiveCounter()
    ensures exists events: seq<Event> ::
              Run(Init(0, 2), events) == Some(State([CondBlocked(false), Idle], 1, None, None, 1, 0, 0, 0))
  {
    LostRun(12);
    assert Init(0, 2).pcs == Lost(0).pcs;
  }
}
