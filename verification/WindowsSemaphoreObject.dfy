/**
 The semaphore of the Windows branch as an object, called without interruption: each statement of
 a method is a step of the step system, so the method is one of its runs.
 */
module WindowsSemaphoreObject {
  import opened Wrappers
  import opened WindowsSemaphore

  /** Only thread `me` acts in these events. */
  predicate By(me: nat, events: seq<Event>) {
    forall k | 0 <= k < |events| :: events[k].thread == me
  }

  class Semaphore {
    var m_kernel: nat                // the counter of the system semaphore
    var m_count: int
    var m_mutex: Option<nat>

    /** The state of the step system that this object is the shared part of. */
    ghost var m_state: State

    ghost predicate Valid()
      reads this
    {
      && Inv(m_state)
      && m_kernel == m_state.kernel
      && m_count == m_state.count
      && m_mutex == m_state.owner
    }

    /** Thread `t` is between calls and the mutex is free. */
    ghost predicate Ready(t: nat)
      reads this
    {
      Valid() && t < |m_state.pcs| && m_state.pcs[t].Idle? && m_mutex.None?
    }

    constructor (value: nat, ghost threads: nat)
      ensures Valid() && m_count == m_kernel == value && m_mutex.None?
      ensures m_state == Init(value, threads)
    {
      m_kernel, m_count, m_mutex := value, value, None;
      m_state := Init(value, threads);
      InitInv(value, threads);
    }

    /**
     The ghost state takes the step that a statement has just made on the shared fields, and the
     thread comes to stand at `pc`.
     */
    ghost method Go(me: nat, a: Action, pc: Pc, from: State, events: seq<Event>) returns (events': seq<Event>)
      requires Inv(m_state) && me < |m_state.pcs| && Next(m_state, me, a).Some?
      requires var s' := Next(m_state, me, a).value;
               && m_kernel == s'.kernel && m_count == s'.count && m_mutex == s'.owner
               && me < |s'.pcs| && s'.pcs[me] == pc
      requires Run(from, events) == Some(m_state) && By(me, events)
      modifies this`m_state
      ensures Valid() && me < |m_state.pcs| && m_state.pcs[me] == pc
      ensures Run(from, events') == Some(m_state) && By(me, events')
    {
      events' := events + [Event(me, a)];
      RunThen(from, events, m_state, Event(me, a), Next(m_state, me, a).value);
      NextKeepsInv(m_state, me, a);
      m_state := Next(m_state, me, a).value;
    }

    /** Takes a token if there is one; without one a timed wait gives up and any other one waits on. */
    method Wait(me: nat, timed: bool) returns (ok: Option<bool>, ghost events: seq<Event>)
      requires Ready(me)
      modifies this
      ensures Valid() && me < |m_state.pcs| && m_mutex.None?
      ensures ok == if old(m_kernel) > 0 then Some(true) else if timed then Some(false) else None
      ensures m_kernel == old(m_kernel) - (if ok == Some(true) then 1 else 0)
      ensures m_count == old(m_count) - (if ok == Some(true) then 1 else 0)
      ensures m_state.pcs[me] == if ok.Some? then Idle else WaitKernel(timed)
      ensures Run(old(m_state), events) == Some(m_state) && By(me, events)
    {
      ghost var s := m_state;
      events := [];
      assert Run(s, events) == Some(s);
      hide Run, Inv, By;
      events := Go(me, StartWait(timed), WaitKernel(timed), s, events);
      if m_kernel == 0 {
        if timed {
          events := Go(me, Expire, Idle, s, events);
          return Some(false), events;
        }
        return None, events;
      }
      ghost var acq := m_state.releases;
      m_kernel := m_kernel - 1;
      events := Go(me, Continue, WaitLock(acq), s, events);
      events := Decrement(me, acq, s, events);
      return Some(true), events;
    }

    /** The part of a wait that has its token. */
    method Decrement(me: nat, ghost acq: nat, ghost from: State, ghost events: seq<Event>)
      returns (ghost events': seq<Event>)
      requires Valid() && me < |m_state.pcs| && m_state.pcs[me] == WaitLock(acq) && m_mutex.None?
      requires Run(from, events) == Some(m_state) && By(me, events)
      modifies this`m_count, this`m_mutex, this`m_state
      ensures Valid() && me < |m_state.pcs| && m_state.pcs[me].Idle? && m_mutex.None?
      ensures m_count == old(m_count) - 1
      ensures Run(from, events') == Some(m_state) && By(me, events')
    {
      hide Run, Inv, By;
      m_mutex := Some(me);
      events' := Go(me, Continue, WaitDecrement(acq), from, events);
      m_count := m_count - 1;
      events' := Go(me, Continue, WaitUnlock, from, events');
      m_mutex := None;
      events' := Go(me, Continue, Idle, from, events');
    }

    method Value(me: nat) returns (cnt: int, ghost events: seq<Event>)
      requires Ready(me)
      modifies this
      ensures Ready(me) && cnt == m_count == old(m_count) && m_kernel == old(m_kernel)
      ensures Run(old(m_state), events) == Some(m_state) && By(me, events)
    {
      ghost var s := m_state;
      events := [];
      assert Run(s, events) == Some(s);
      hide Run, Inv, By;
      events := Go(me, StartValue, ValueLock, s, events);
      m_mutex := Some(me);
      events := Go(me, Continue, ValueRead, s, events);
      cnt := m_count;
      events := Go(me, Continue, ValueUnlock(cnt), s, events);
      m_mutex := None;
      events := Go(me, Continue, Idle, s, events);
    }

    /** Adds to the kernel counter and makes the copy right, whatever it was before. */
    method Notify(me: nat, increment: nat) returns (ghost events: seq<Event>)
      requires Ready(me) && increment > 0
      modifies this
      ensures Ready(me)
      ensures m_kernel == old(m_kernel) + increment && m_count == m_kernel
      ensures Run(old(m_state), events) == Some(m_state) && By(me, events)
    {
      ghost var s := m_state;
      events := [];
      assert Run(s, events) == Some(s);
      hide Run, Inv, By;
      events := Go(me, StartNotify(increment), NotifyLock(increment), s, events);
      m_mutex := Some(me);
      events := Go(me, Continue, NotifyRelease(increment), s, events);
      events := Release(me, increment, s, events);
    }

    /** The part of a notify with the mutex held. */
    method Release(me: nat, increment: nat, ghost from: State, ghost events: seq<Event>)
      returns (ghost events': seq<Event>)
      requires Valid() && me < |m_state.pcs| && m_state.pcs[me] == NotifyRelease(increment)
      requires Run(from, events) == Some(m_state) && By(me, events)
      modifies this`m_kernel, this`m_count, this`m_mutex, this`m_state
      ensures Valid() && me < |m_state.pcs| && m_state.pcs[me].Idle? && m_mutex.None?
      ensures m_kernel == old(m_kernel) + increment && m_count == m_kernel
      ensures Run(from, events') == Some(m_state) && By(me, events')
    {
      hide Run, Inv, By;
      var cnt := m_kernel;
      m_kernel := m_kernel + increment;
      events' := Go(me, Continue, NotifyStore(increment, cnt), from, events);
      m_count := cnt + increment;
      events' := Go(me, Continue, NotifyUnlock, from, events');
      m_mutex := None;
      events' := Go(me, Continue, Idle, from, events');
    }
  }
}
