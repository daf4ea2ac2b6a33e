/**
 The queue as an object, called without interruption: each statement of a method is a step of
 the step system, so the method is one of its runs.
 */
module SharedQueue {
  import opened Wrappers
  import opened Counting
  import opened ThreadQueue
  import opened QueueProgress

  class Queue<T> {
    var m_queue: seq<T>
    var m_semaphore: nat
    var m_mutex: Option<nat>       // the thread that holds it

    /** The state of the step system that this object is the shared part of. */
    ghost var m_state: State<T>

    ghost predicate Valid()
      reads this
    {
      && Inv(m_state)
      && m_queue == m_state.queue
      && m_semaphore == m_state.sem
      && m_mutex == m_state.owner
    }

    /** Thread `t` is between calls and will not have to wait for the mutex. */
    ghost predicate Ready(t: nat)
      reads this
    {
      Valid() && t < |m_state.pcs| && m_state.pcs[t].Idle? && m_mutex.None?
    }

    constructor (ghost threads: nat)
      ensures Valid() && m_queue == [] && m_semaphore == 0 && m_mutex.None?
      ensures m_state == Init<T>(threads)
    {
      m_queue, m_semaphore, m_mutex := [], 0, None;
      m_state := Init<T>(threads);
      InitInv<T>(threads);
    }

    ghost method Begin(me: nat, a: Action<T>)
      requires Valid() && me < |m_state.pcs| && m_state.pcs[me].Idle? && !a.Continue?
      modifies this`m_state
      ensures Valid() && m_state == Next(old(m_state), me, a).value
      ensures Run(old(m_state), Call(me, a, 0)) == Some(m_state)
    {
      BeginRun(m_state, me, a);
      NextKeepsInv(m_state, me, a);
      m_state := Next(m_state, me, a).value;
    }

    /** The ghost state takes the step that a statement has just made on the shared fields. */
    ghost method Go(me: nat, from: State<T>, a: Action<T>, k: nat)
      requires Inv(m_state) && me < |m_state.pcs| && Advance(m_state, me).Some?
      requires var s' := Advance(m_state, me).value;
               m_queue == s'.queue && m_semaphore == s'.sem && m_mutex == s'.owner
      requires Run(from, Call(me, a, k)) == Some(m_state)
      modifies this`m_state
      ensures Valid() && m_state == Advance(old(m_state), me).value
      ensures Run(from, Call(me, a, k + 1)) == Some(m_state)
    {
      RunThen(from, Call(me, a, k), m_state, Event(me, Continue), Advance(m_state, me).value);
      CallStep(me, a, k);
      NextKeepsInv(m_state, me, Continue);
      m_state := Advance(m_state, me).value;
    }

    method Enqueue(me: nat, t: T)
      requires Ready(me)
      modifies this
      ensures Ready(me)
      ensures m_queue == old(m_queue) + [t] && m_semaphore == old(m_semaphore) + 1
      ensures Run(old(m_state), Call(me, StartEnqueue(t), 4)) == Some(m_state)
    {
      hide Run, Call, Inv;
      ghost var s, a := m_state, StartEnqueue(t);
      Begin(me, a);
      m_mutex := Some(me);
      Go(me, s, a, 0);
      m_queue := m_queue + [t];
      Go(me, s, a, 1);
      m_semaphore := m_semaphore + 1;
      Go(me, s, a, 2);
      m_mutex := None;
      Go(me, s, a, 3);
    }

    /** Takes the oldest item if the semaphore has a token; otherwise the call stays in its wait. */
    method Dequeue(me: nat) returns (element: Option<T>)
      requires Ready(me)
      modifies this
      ensures Valid() && me < |m_state.pcs| && m_mutex.None?
      ensures element.Some? <==> old(m_semaphore) > 0
      ensures match element
              case Some(e) =>
                && Ready(me) && [e] + m_queue == old(m_queue) && m_semaphore == old(m_semaphore) - 1
                && Run(old(m_state), Call(me, StartDequeue, 4)) == Some(m_state)
              case None =>
                && m_state.pcs[me].DeqWait? && m_queue == old(m_queue) && m_semaphore == 0
                && Run(old(m_state), Call(me, StartDequeue, 0)) == Some(m_state)
    {
      hide Run, Call, Sum;
      ghost var s, a := m_state, StartDequeue;
      Begin(me, a);
      if m_semaphore == 0 {
        return None;
      }
      m_semaphore := m_semaphore - 1;
      Go(me, s, a, 0);
      m_mutex := Some(me);
      Go(me, s, a, 1);
      Weights(m_state, me, Idle);
      hide Inv;
      var e := m_queue[0];
      element := Some(e);
      m_queue := m_queue[1..];
      Go(me, s, a, 2);
      m_mutex := None;
      Go(me, s, a, 3);
    }

    method Count(me: nat) returns (size: nat)
      requires Ready(me)
      modifies this
      ensures Ready(me)
      ensures size == |m_queue| && m_queue == old(m_queue) && m_semaphore == old(m_semaphore)
      ensures Run(old(m_state), Call(me, StartCount, 3)) == Some(m_state)
    {
      hide Run, Call, Inv;
      ghost var s, a := m_state, StartCount;
      Begin(me, a);
      m_mutex := Some(me);
      Go(me, s, a, 0);
      size := |m_queue|;
      Go(me, s, a, 1);
      m_mutex := None;
      Go(me, s, a, 2);
    }

    method Head(me: nat) returns (first: T)
      requires Ready(me) && m_queue != []
      modifies this
      ensures Ready(me)
      ensures m_queue == old(m_queue) && m_semaphore == old(m_semaphore)
      ensures m_queue != [] && first == m_queue[0]
      ensures Run(old(m_state), Call(me, StartHead, 3)) == Some(m_state)
    {
      hide Run, Call, Inv;
      ghost var s, a := m_state, StartHead;
      Begin(me, a);
      m_mutex := Some(me);
      Go(me, s, a, 0);
      first := m_queue[0];
      Go(me, s, a, 1);
      m_mutex := None;
      Go(me, s, a, 2);
    }

    /**
     Finishes if no dequeue stands between its wait and its lock. Otherwise the call stays in its
     loop with the mutex held and no token left, which is for ever.
     */
    method Clear(me: nat) returns (finished: bool)
      requires Ready(me)
      modifies this
      ensures Valid() && me < |m_state.pcs|
      ensures finished == old(NoneInFlight(m_state)) && m_semaphore == 0
      ensures finished ==> Ready(me) && m_queue == []
      ensures finished ==> Run(old(m_state), Call(me, StartClear, |old(m_queue)| + 3)) == Some(m_state)
      ensures !finished ==> m_queue == old(m_queue) && exists d :: Doomed(m_state, me, d)
      ensures !finished ==> Run(old(m_state), Call(me, StartClear, old(m_semaphore) + 1)) == Some(m_state)
    {
      hide Run, Call, Inv, NoneInFlight, Next, Advance;
      ghost var s, a := m_state, StartClear;
      ClearBegins(s, me);
      Begin(me, a);
      m_mutex := Some(me);
      Go(me, s, a, 0);
      var i := 0;
      while i < |m_queue|
        invariant Valid() && i <= |m_queue| && m_queue == old(m_queue)
        invariant me < |m_state.pcs| && m_state.pcs[me] == ClearLoop(s.calls, i)
        invariant NoneInFlight(m_state) == NoneInFlight(s)
        invariant m_semaphore + i == old(m_semaphore)
        invariant Run(s, Call(me, a, i + 1)) == Some(m_state)
      {
        if m_semaphore == 0 {
          ClearBlocks(m_state, me);
          return false;
        }
        ClearDrains(m_state, me);
        m_semaphore := m_semaphore - 1;
        Go(me, s, a, i + 1);
        i := i + 1;
      }
      ClearEnds(m_state, me);
      m_queue := [];
      Go(me, s, a, i + 1);
      m_mutex := None;
      Go(me, s, a, i + 2);
      return true;
    }
  }

  lemma ClearBegins<T>(s: State<T>, me: nat)
    requires Inv(s) && me < |s.pcs| && s.pcs[me].Idle? && s.owner.None?
    ensures Next(s, me, StartClear).Some?
    ensures var s1 := Next(s, me, StartClear).value;
            && me < |s1.pcs| && Advance(s1, me).Some?
            && s1.queue == s.queue && s1.sem == s.sem && s1.owner == s.owner
    ensures var s2 := Advance(Next(s, me, StartClear).value, me).value;
            && me < |s2.pcs| && s2.pcs[me] == ClearLoop(s.calls, 0)
            && NoneInFlight(s2) == NoneInFlight(s)
            && s2.queue == s.queue && s2.sem == s.sem && s2.owner == Some(me)
  {
    hide Inv;
    OtherDequeues(s, Goto(s, me, ClearLock(s.calls)), me);
    var s1 := Next(s, me, StartClear).value;
    OtherDequeues(s1, Advance(s1, me).value, me);
  }

  /** A step that neither puts a dequeue in flight nor ends one. */
  lemma OtherDequeues<T>(s: State<T>, s': State<T>, me: nat)
    requires me < |s.pcs| && |s'.pcs| == |s.pcs| && s'.pcs == s.pcs[me := s'.pcs[me]]
    requires !s.pcs[me].DeqLock? && !s'.pcs[me].DeqLock?
    ensures NoneInFlight(s') == NoneInFlight(s)
  {
    if !NoneInFlight(s) {
      var d :| 0 <= d < |s.pcs| && s.pcs[d].DeqLock?;
      assert s'.pcs[d].DeqLock?;
    }
    if !NoneInFlight(s') {
      var d :| 0 <= d < |s'.pcs| && s'.pcs[d].DeqLock?;
      assert s.pcs[d].DeqLock?;
    }
  }

  lemma ClearDrains<T>(s: State<T>, me: nat)
    requires Inv(s) && me < |s.pcs| && s.pcs[me].ClearLoop? && s.pcs[me].i < |s.queue| && s.sem > 0
    ensures Advance(s, me).Some?
    ensures var s' := Advance(s, me).value;
            && me < |s'.pcs| && s'.pcs[me] == ClearLoop(s.pcs[me].call, s.pcs[me].i + 1)
            && NoneInFlight(s') == NoneInFlight(s)
            && s'.queue == s.queue && s'.sem == s.sem - 1 && s'.owner == s.owner
  {
    hide Inv;
    OtherDequeues(s, Advance(s, me).value, me);
  }

  lemma ClearBlocks<T>(s: State<T>, me: nat)
    requires Inv(s) && me < |s.pcs| && s.pcs[me].ClearLoop? && s.pcs[me].i < |s.queue| && s.sem == 0
    ensures !NoneInFlight(s) && exists d :: Doomed(s, me, d)
  {
    InFlightWhileClearing(s, me);
    var d :| 0 <= d < |s.pcs| && s.pcs[d].DeqLock?;
    assert Doomed(s, me, d);
  }

  lemma ClearEnds<T>(s: State<T>, me: nat)
    requires Inv(s) && me < |s.pcs| && s.pcs[me].ClearLoop? && s.pcs[me].i == |s.queue|
    ensures Advance(s, me).Some? && NoneInFlight(s)
    ensures var s1 := Advance(s, me).value;
            && me < |s1.pcs| && Advance(s1, me).Some?
            && s1.queue == [] && s1.sem == s.sem == 0 && s1.owner == s.owner
    ensures var s2 := Advance(Advance(s, me).value, me).value;
            && me < |s2.pcs| && s2.pcs[me].Idle?
            && s2.queue == [] && s2.sem == 0 && s2.owner == None
  {
    InFlightWhileClearing(s, me);
    hide Inv, NoneInFlight;
  }

  /** A call by one thread: how it starts and `n` further steps. */
  function Call<T>(me: nat, a: Action<T>, n: nat): seq<Event<T>> {
    [Event(me, a)] + seq(n, _ => Event(me, Continue))
  }

  lemma CallStep<T>(me: nat, a: Action<T>, n: nat)
    ensures Call(me, a, n + 1) == Call(me, a, n) + [Event(me, Continue)]
  {
  }

  lemma BeginRun<T>(s: State<T>, me: nat, a: Action<T>)
    requires me < |s.pcs| && Next(s, me, a).Some?
    ensures Run(s, Call(me, a, 0)) == Next(s, me, a)
  {
    assert Call(me, a, 0) == [Event(me, a)];
    RunThen(s, [], s, Event(me, a), Next(s, me, a).value);
    assert [] + [Event(me, a)] == [Event(me, a)];
  }
}
