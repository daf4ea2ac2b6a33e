/** Runs of the queue over the semaphore in AppleSemaphore that its callers would not expect. */
module AppleQueueRuns {
  import opened Wrappers
  import A = AppleSemaphore
  import opened AppleQueue
  import opened AppleQueueProgress

  predicate StepsTo(s: State, e: Event, s': State) {
    e.thread < |s.pcs| == |s.sem.pcs| && Next(s, e.thread, e.action) == Some(s')
  }

  lemma {:induction false} RunThen(s: State, events: seq<Event>, s': State, e: Event, s'': State)
    requires Run(s, events) == Some(s') && StepsTo(s', e, s'')
    ensures Run(s, events + [e]) == Some(s'')
    decreases |events|
  {
    hide Next;
    if events == [] {
      assert [e][1..] == [];
    } else {
      assert (events + [e])[1..] == events[1..] + [e];
      RunThen(Next(s, events[0].thread, events[0].action).value, events[1..], s', e, s'');
    }
  }

  function FirstOf(event: nat -> Event, n: nat): (es: seq<Event>)
    ensures |es| == n && forall k: nat | k < n :: es[k] == event(k)
  {
    if n == 0 then [] else FirstOf(event, n - 1) + [event(n - 1)]
  }

  /** A run written down as what happens `k` steps from its start and the state then. */
  lemma {:induction false} RunAlong(event: nat -> Event, state: nat -> State, n: nat)
    requires forall k: nat | k < n :: StepsTo(state(k), event(k), state(k + 1))
    ensures Run(state(0), FirstOf(event, n)) == Some(state(n))
  {
    if n > 0 {
      RunAlong(event, state, n - 1);
      assert StepsTo(state(n - 1), event(n - 1), state(n - 1 + 1));
      hide StepsTo;
      RunThen(state(0), FirstOf(event, n - 1), state(n - 1), event(n - 1), state(n));
    }
  }

  // ---- one wait that finds zero, sleeps, wakes up and gives up --------------

  /** Where it stands after `j` steps of its own. */
  function Waiter(j: nat): A.Pc {
    if j == 1 then A.WaitLock(false) else if j == 2 then A.WaitTest(false)
    else if j == 3 then A.WaitEmpty(false) else if j == 4 then A.CondLock(false)
    else if j == 5 then A.CondEnter(false) else if j == 6 then A.CondBlocked(false)
    else if j == 7 then A.CondWake(false) else if j == 8 then A.CondHeld(false)
    else if j == 9 then A.AgainLock else if j == 10 then A.AgainTest
    else if j == 11 then A.AgainEmpty else A.Idle
  }

  function WaiterStep(j: nat): Action {
    if j == 0 then StartDequeue else if j == 6 then Inside(A.Wake) else Inside(A.Continue)
  }

  predicate WaiterHasCounter(j: nat) {
    2 <= j < 4 || 10 <= j < 12
  }

  predicate WaiterHasMutex(j: nat) {
    j == 5 || j == 8
  }

  // ---- a dequeue that meets an empty queue ---------------------------------

  /** One thread dequeues from an empty queue, wakes up for no reason, finds zero, and goes on. */
  function Hasty(k: nat): Event {
    Event(0, if k < 12 then WaiterStep(k) else Continue)
  }

  function Haste(k: nat): State {
    var call := if k == 0 then Idle else if k < 13 then DeqWait else if k == 13 then DeqLock
                else if k == 14 then DeqIn else Broken;
    State(
      A.State([Waiter(k)], 0, if WaiterHasCounter(k) then Some(0) else None,
        if WaiterHasMutex(k) then Some(0) else None, 0, 0, 0, if k < 12 then 0 else 1),
      [call], [], if k < 14 then None else Some(0), [], [], map[])
  }

  lemma HasteStep(k: nat)
    requires k < 15
    ensures StepsTo(Haste(k), Hasty(k), Haste(k + 1))
  {
    assert Haste(k).sem.pcs[0 := Haste(k + 1).sem.pcs[0]] == Haste(k + 1).sem.pcs;
    assert Haste(k).pcs[0 := Haste(k + 1).pcs[0]] == Haste(k + 1).pcs;
  }

  lemma HasteRun()
    ensures Run(Init(1), FirstOf(Hasty, 15)) == Some(Haste(15))
  {
    assert Init(1).pcs == Haste(0).pcs && Init(1).sem.pcs == Haste(0).sem.pcs;
    assert Init(1) == Haste(0);
    hide *;
    forall k: nat | k < 15
      ensures StepsTo(Haste(k), Hasty(k), Haste(k + 1))
    {
      HasteStep(k);
    }
    RunAlong(Hasty, Haste, 15);
  }

  /** A run of one thread that ends in taking the front of an empty queue, no enqueue ever made. */
  lemma DequeueMeetsEmptyQueue()
    ensures exists events: seq<Event> ::
              && Run(Init(1), events).Some?
              && Run(Init(1), events).value.pcs == [Broken] && Run(Init(1), events).value.queue == []
  {
    HasteRun();
    assert Haste(15).pcs == [Broken] && Haste(15).queue == [];
  }

  // ---- a dequeue that sleeps on an item ------------------------------------

  /** Thread 0 finds zero and gets ready to sleep, thread 1 enqueues an item, then thread 0 goes to sleep. */
  function Drowsy(k: nat): Event {
    if k < 5 then Event(0, WaiterStep(k))
    else if k == 5 then Event(1, StartEnqueue(7))
    else if k < 15 then Event(1, if 8 <= k < 13 then Inside(A.Continue) else Continue)
    else Event(0, Inside(A.Continue))
  }

  function Doze(k: nat): State {
    var j := if k <= 5 then k else if k < 16 then 5 else 6;
    var call := if k < 6 || k > 14 then Idle else if k == 6 then EnqLock(7) else if k == 7 then EnqPush(7)
                else if k < 14 then EnqNotify else EnqUnlock;
    var notifier :=
      if k == 8 then A.NotifyLock(1) else if k == 9 then A.NotifyRead(1)
      else if k == 10 then A.NotifyStore(1, 0) else if k == 11 then A.NotifyUnlock(1)
      else if k == 12 then A.NotifySignal(1) else A.Idle;
    var stored := if k < 11 then 0 else 1;
    State(
      A.State([Waiter(j), notifier], stored,
        if WaiterHasCounter(j) then Some(0) else if 9 <= k < 12 then Some(1) else None,
        if WaiterHasMutex(j) then Some(0) else None, stored, 0, 0, 0),
      [if k == 0 then Idle else DeqWait, call], if k < 8 then [] else [7],
      if 7 <= k < 15 then Some(1) else None, if k < 8 then [] else [7], [], map[])
  }

  lemma DozeStep(k: nat)
    requires k < 16
    ensures StepsTo(Doze(k), Drowsy(k), Doze(k + 1))
  {
    var t := Drowsy(k).thread;
    assert k == 7 ==> Doze(k).queue + [7] == Doze(k + 1).queue;
    assert Doze(k).sem.pcs[t := Doze(k + 1).sem.pcs[t]] == Doze(k + 1).sem.pcs;
    assert Doze(k).pcs[t := Doze(k + 1).pcs[t]] == Doze(k + 1).pcs;
  }

  lemma DozeRun()
    ensures Run(Init(2), FirstOf(Drowsy, 16)) == Some(Doze(16))
  {
    assert Init(2).pcs == Doze(0).pcs && Init(2).sem.pcs == Doze(0).sem.pcs;
    assert Init(2) == Doze(0);
    hide *;
    forall k: nat | k < 16
      ensures StepsTo(Doze(k), Drowsy(k), Doze(k + 1))
    {
      DozeStep(k);
    }
    RunAlong(Drowsy, Doze, 16);
  }

  /** A run that ends in a deadlock with an item in the queue: the dequeue sleeps and nobody is left to wake it. */
  lemma DequeueSleepsOnItem()
    ensures exists events: seq<Event> ::
              && Run(Init(2), events).Some?
              && var s := Run(Init(2), events).value;
                 && s.pcs == [DeqWait, Idle] && s.queue == [7] && s.sem.count == 1
                 && |s.sem.pcs| == 2 && Deadlocked(s)
  {
    DozeRun();
    DozeEnds();
    hide *;
    DeadlockedIffAsleep(2, FirstOf(Drowsy, 16));
  }

  lemma DozeEnds()
    ensures var s := Doze(16);
            && s.pcs == [DeqWait, Idle] && s.queue == [7] && s.sem.count == 1
            && |s.sem.pcs| == 2 && AllAsleep(s) && !AnyBroken(s)
  {
    var s := Doze(16);
    assert !s.pcs[0].Idle? && Asleep(Places(s)[0]);
  }

  // ---- a false return and an enqueue in each other's way -------------------

  /**
   Thread 0 has returned false, thread 1 has woken up and found the counter at zero, and thread 2 has
   locked the queue to enqueue.
   */
  function Crossing(k: nat): Event {
    if k < 12 then Event(0, WaiterStep(k))
    else if k < 22 then Event(1, WaiterStep(k - 12))
    else Event(2, if k == 22 then StartEnqueue(7) else Continue)
  }

  function Crossed(k: nat): State {
    var i := if k < 12 then k else 12;
    var j := if k < 12 then 0 else if k < 22 then k - 12 else 10;
    State(
      A.State([Waiter(i), Waiter(j), A.Idle], 0,
        if WaiterHasCounter(i) then Some(0) else if WaiterHasCounter(j) then Some(1) else None,
        if WaiterHasMutex(i) then Some(0) else if WaiterHasMutex(j) then Some(1) else None,
        0, 0, 0, if k < 12 then 0 else 1),
      [if k == 0 then Idle else DeqWait, if k < 13 then Idle else DeqWait,
       if k < 23 then Idle else if k == 23 then EnqLock(7) else EnqPush(7)],
      [], if k < 24 then None else Some(2), [], [], map[])
  }

  lemma CrossedStep(k: nat)
    requires k < 24
    ensures StepsTo(Crossed(k), Crossing(k), Crossed(k + 1))
  {
    var t := Crossing(k).thread;
    assert Crossed(k).sem.pcs[t := Crossed(k + 1).sem.pcs[t]] == Crossed(k + 1).sem.pcs;
    assert Crossed(k).pcs[t := Crossed(k + 1).pcs[t]] == Crossed(k + 1).pcs;
  }

  lemma CrossedRun()
    ensures Run(Init(3), FirstOf(Crossing, 24)) == Some(Crossed(24))
  {
    assert Init(3).pcs == Crossed(0).pcs && Init(3).sem.pcs == Crossed(0).sem.pcs;
    assert Init(3) == Crossed(0);
    hide *;
    forall k: nat | k < 24
      ensures StepsTo(Crossed(k), Crossing(k), Crossed(k + 1))
    {
      CrossedStep(k);
    }
    RunAlong(Crossing, Crossed, 24);
  }

  /** A run after which, although a wait has returned false, no dequeue meets an empty queue before another does. */
  lemma BlockedIsReachable()
    ensures exists events: seq<Event> ::
              && Run(Init(3), events).Some?
              && var s := Run(Init(3), events).value;
                 |s.pcs| == |s.sem.pcs| && s.sem.failed > 0 && Blocked(s)
  {
    CrossedRun();
    assert Opposed(Crossed(24), 1, 2);
    assert Crossed(24).sem.failed > 0 && |Crossed(24).pcs| == |Crossed(24).sem.pcs|;
  }
}
