/**
 The semaphore of the Apple branch as an object, called without interruption: each statement of a
 method is a step of the step system, so the method is one of its runs.
 */
module AppleSemaphoreObject {
  import opened Wrappers
  import opened AppleSemaphore

  /** Only thread `me` acts in these events, except for being woken. */
  predicate By(me: nat, events: seq<Event>) {
    forall k | 0 <= k < |events| :: events[k].thread == me
  }

  class Semaphore {
    var m_count: int
    var m_countMutex: Option<nat>
    var m_waitMutex: Option<nat>

    /** The initial value and the state of the step system this object is the shared part of. */
    ghost const value: nat
    ghost var m_state: State

    ghost predicate Valid()
      reads this
    {
      && Inv(value, m_state)
      && m_count == m_state.count
      && m_countMutex == m_state.countOwner
      && m_waitMutex == m_state.waitOwner
    }

    /** Thread `t` is between calls and no mutex is held. */
    ghost predicate Ready(t: nat)
      reads this
    {
      && Valid() && t < |m_state.pcs| && m_state.pcs[t].Idle?
      && m_countMutex.None? && m_waitMutex.None?
    }

    constructor (value: nat, ghost threads: nat)
      ensures Valid() && m_count == value && m_countMutex.None? && m_waitMutex.None?
      ensures m_state == Init(value, threads) && this.value == value
    {
      m_count, m_countMutex, m_waitMutex := value, None, None;
      this.value, m_state := value, Init(value, threads);
      InitInv(value, threads);
    }

    /**
     The ghost state takes the step that a statement has just made on the shared fields, and the
     thread comes to stand at `pc`.
     */
    ghost method Go(me: nat, a: Action, pc: Pc, from: State, events: seq<Event>) returns (events': seq<Event>)
      requires Inv(value, m_state) && me < |m_state.pcs| && Next(m_state, me, a).Some?
      requires var s' := Next(m_state, me, a).value;
               && m_count == s'.count && m_countMutex == s'.countOwner && m_waitMutex == s'.waitOwner
               && me < |s'.pcs| && s'.pcs[me] == pc
      requires Run(from, events) == Some(m_state) && By(me, events)
      modifies this`m_state
      ensures Valid() && me < |m_state.pcs| && m_state.pcs[me] == pc
      ensures m_state.succeeded == Next(old(m_state), me, a).value.succeeded
      ensures Run(from, events') == Some(m_state) && By(me, events')
    {
      events' := events + [Event(me, a)];
      RunThen(from, events, m_state, Event(me, a), Next(m_state, me, a).value);
      NextKeepsInv(value, m_state, me, a);
      m_state := Next(m_state, me, a).value;
    }

    /**
     Takes one from a positive counter. From zero the call goes to sleep. It gives up when its time is
     over or when it wakes up for no reason and still finds zero; otherwise it stays asleep.
     */
    method Wait(me: nat, timed: bool) returns (ok: Option<bool>, ghost events: seq<Event>)
      requires Ready(me)
      modifies this
      ensures Valid() && me < |m_state.pcs| && m_countMutex.None? && m_waitMutex.None?
      ensures old(m_count) > 0 <==> ok == Some(true)
      ensures m_count == old(m_count) - (if ok == Some(true) then 1 else 0)
      ensures m_state.succeeded == old(m_state).succeeded + (if ok == Some(true) then 1 else 0)
      ensures m_state.pcs[me] == if ok.Some? then Idle else CondBlocked(timed)
      ensures timed ==> ok.Some?
      ensures Run(old(m_state), events) == Some(m_state) && By(me, events)
    {
      ghost var s := m_state;
      events := [];
      assert Run(s, events) == Some(s);
      assert m_count >= 0;
      hide Run, Inv, By;
      events := Go(me, StartWait(timed), WaitLock(timed), s, events);
      m_countMutex := Some(me);
      events := Go(me, Continue, WaitTest(timed), s, events);
      if m_count > 0 {
        events := Take(me, WaitStore(m_count), s, events);
        return Some(true), events;
      }
      events := FallAsleep(me, timed, s, events);
      if * {
        events := WakeUp(me, true, s, events);
        events := FindNothing(me, s, events);
        return Some(false), events;
      } else if timed {
        events := WakeUp(me, false, s, events);
        return Some(false), events;
      } else {
        return None, events;
      }
    }

    /** A thread that woke up by itself finds the counter at zero again. */
    method FindNothing(me: nat, ghost from: State, ghost events: seq<Event>) returns (ghost events': seq<Event>)
      requires Valid() && me < |m_state.pcs| && m_state.pcs[me] == AgainLock
      requires m_countMutex.None? && m_count == 0
      requires Run(from, events) == Some(m_state) && By(me, events)
      modifies this`m_countMutex, this`m_state
      ensures Valid() && me < |m_state.pcs| && m_state.pcs[me].Idle? && m_countMutex.None?
      ensures m_state.succeeded == old(m_state).succeeded
      ensures Run(from, events') == Some(m_state) && By(me, events')
    {
      hide Run, Inv, By;
      m_countMutex := Some(me);
      events' := Go(me, Continue, AgainTest, from, events);
      events' := Go(me, Continue, AgainEmpty, from, events');
      m_countMutex := None;
      events' := Go(me, Continue, Idle, from, events');
    }

    /** The part of a wait that has found a positive counter. */
    method Take(me: nat, ghost pc: Pc, ghost from: State, ghost events: seq<Event>) returns (ghost events': seq<Event>)
      requires Valid() && me < |m_state.pcs| && m_count > 0 && pc == WaitStore(m_count)
      requires m_state.pcs[me].WaitTest? || m_state.pcs[me].AgainTest?
      requires m_countMutex == Some(me)
      requires Run(from, events) == Some(m_state) && By(me, events)
      modifies this`m_count, this`m_countMutex, this`m_state
      ensures Valid() && me < |m_state.pcs| && m_state.pcs[me].Idle? && m_countMutex.None?
      ensures m_count == old(m_count) - 1 && m_state.succeeded == old(m_state).succeeded + 1
      ensures Run(from, events') == Some(m_state) && By(me, events')
    {
      hide Run, Inv, By;
      events' := Go(me, Continue, pc, from, events);
      m_count := m_count - 1;
      events' := Go(me, Continue, WaitTaken, from, events');
      m_countMutex := None;
      events' := Go(me, Continue, Idle, from, events');
    }

    /** From a counter read as zero to sleeping on the condition. */
    method FallAsleep(me: nat, timed: bool, ghost from: State, ghost events: seq<Event>)
      returns (ghost events': seq<Event>)
      requires Valid() && me < |m_state.pcs| && m_state.pcs[me] == WaitTest(timed) && m_count == 0
      requires m_waitMutex.None?
      requires Run(from, events) == Some(m_state) && By(me, events)
      modifies this`m_countMutex, this`m_waitMutex, this`m_state
      ensures Valid() && me < |m_state.pcs| && m_countMutex.None? && m_waitMutex.None?
      ensures m_state.pcs[me] == CondBlocked(timed) && m_state.succeeded == old(m_state).succeeded
      ensures Run(from, events') == Some(m_state) && By(me, events')
    {
      hide Run, Inv, By;
      events' := Go(me, Continue, WaitEmpty(timed), from, events);
      m_countMutex := None;
      events' := Go(me, Continue, CondLock(timed), from, events');
      m_waitMutex := Some(me);
      events' := Go(me, Continue, CondEnter(timed), from, events');
      m_waitMutex := None;
      events' := Go(me, Continue, CondBlocked(timed), from, events');
    }

    /** The end of the sleep: the time is over, or the thread wakes up by itself. */
    method WakeUp(me: nat, woken: bool, ghost from: State, ghost events: seq<Event>) returns (ghost events': seq<Event>)
      requires Valid() && me < |m_state.pcs| && m_state.pcs[me].CondBlocked? && m_waitMutex.None?
      requires woken || m_state.pcs[me].timed
      requires Run(from, events) == Some(m_state) && By(me, events)
      modifies this`m_waitMutex, this`m_state
      ensures Valid() && me < |m_state.pcs| && m_waitMutex.None?
      ensures m_state.pcs[me] == if woken then AgainLock else Idle
      ensures m_state.succeeded == old(m_state).succeeded
      ensures Run(from, events') == Some(m_state) && By(me, events')
    {
      hide Run, Inv, By;
      events' := Go(me, if woken then Wake else Expire, CondWake(!woken), from, events);
      m_waitMutex := Some(me);
      events' := Go(me, Continue, CondHeld(!woken), from, events');
      m_waitMutex := None;
      events' := Go(me, Continue, if woken then AgainLock else Idle, from, events');
    }

    method Value(me: nat) returns (cnt: int, ghost events: seq<Event>)
      requires Ready(me)
      modifies this
      ensures Ready(me) && cnt == m_count == old(m_count)
      ensures Run(old(m_state), events) == Some(m_state) && By(me, events)
    {
      ghost var s := m_state;
      events := [];
      assert Run(s, events) == Some(s);
      hide Run, Inv, By;
      events := Go(me, StartValue, ValueLock, s, events);
      m_countMutex := Some(me);
      events := Go(me, Continue, ValueRead, s, events);
      cnt := m_count;
      events := Go(me, Continue, ValueUnlock(cnt), s, events);
      m_countMutex := None;
      events := Go(me, Continue, Idle, s, events);
    }

    /** Adds `increment` to the counter, nothing if that is not positive, one signal each. */
    method Notify(me: nat, increment: int) returns (ghost events: seq<Event>)
      requires Ready(me)
      modifies this
      ensures Ready(me)
      ensures m_count == old(m_count) + if increment > 0 then increment else 0
      ensures Run(old(m_state), events) == Some(m_state) && By(me, events)
    {
      ghost var s := m_state;
      events := [];
      assert Run(s, events) == Some(s);
      hide Run, Inv, By;
      events := Go(me, StartNotify(increment), NotifyFrom(increment), s, events);
      var i := 0;
      while i < increment
        invariant Valid() && me < |m_state.pcs| && m_state.pcs[me] == NotifyFrom(increment - i)
        invariant m_countMutex.None? && m_waitMutex.None?
        invariant 0 <= i && (i <= increment || i == 0) && m_count == old(m_count) + i
        invariant Run(s, events) == Some(m_state) && By(me, events)
      {
        events := Increment(me, increment - i, s, events);
        i := i + 1;
      }
    }

    /** One round of a notify; a signal wakes a sleeping wait if there is one. */
    method Increment(me: nat, ghost left: nat, ghost from: State, ghost events: seq<Event>)
      returns (ghost events': seq<Event>)
      requires Valid() && me < |m_state.pcs| && left > 0 && m_state.pcs[me] == NotifyLock(left)
      requires m_countMutex.None?
      requires Run(from, events) == Some(m_state) && By(me, events)
      modifies this`m_count, this`m_countMutex, this`m_state
      ensures Valid() && me < |m_state.pcs| && m_state.pcs[me] == NotifyFrom(left - 1)
      ensures m_countMutex.None? && m_count == old(m_count) + 1
      ensures Run(from, events') == Some(m_state) && By(me, events')
    {
      hide Run, Inv, By;
      m_countMutex := Some(me);
      events' := Go(me, Continue, NotifyRead(left), from, events);
      events' := Go(me, Continue, NotifyStore(left, m_count), from, events');
      m_count := m_count + 1;
      events' := Go(me, Continue, NotifyUnlock(left), from, events');
      events' := UnlockAndSignal(me, left, from, events');
    }

    method UnlockAndSignal(me: nat, ghost left: nat, ghost from: State, ghost events: seq<Event>)
      returns (ghost events': seq<Event>)
      requires Valid() && me < |m_state.pcs| && left > 0 && m_state.pcs[me] == NotifyUnlock(left)
      requires Run(from, events) == Some(m_state) && By(me, events)
      modifies this`m_countMutex, this`m_state
      ensures Valid() && me < |m_state.pcs| && m_state.pcs[me] == NotifyFrom(left - 1)
      ensures m_countMutex.None?
      ensures Run(from, events') == Some(m_state) && By(me, events')
    {
      hide Run, Inv, By;
      m_countMutex := None;
      events' := Go(me, Continue, NotifySignal(left), from, events);
      if SomeoneBlocked(m_state) {
        ghost var u: nat :| u < |m_state.pcs| && m_state.pcs[u].CondBlocked?;
        events' := Go(me, Signal(u), NotifyFrom(left - 1), from, events');
      } else {
        events' := Go(me, Continue, NotifyFrom(left - 1), from, events');
      }
    }
  }
}
