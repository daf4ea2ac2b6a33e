/**
 When a clear of the thread-safe queue finishes, when it blocks for ever, and which states of
 the queue are deadlocked.
 */
module QueueProgress {
  import opened Wrappers
  import opened Counting
  import opened ThreadQueue

  /** Clear holds the mutex while a dequeue has its token but not yet the mutex. */
  predicate Doomed<T>(s: State<T>, c: nat, d: nat) {
    c < |s.pcs| && d < |s.pcs| && s.pcs[c].ClearLoop? && s.pcs[d].DeqLock?
  }

  predicate NoneInFlight<T>(s: State<T>) {
    forall d | 0 <= d < |s.pcs| :: !s.pcs[d].DeqLock?
  }

  /** While a clear is in its loop, only dequeues waiting for the mutex hold tokens elsewhere. */
  lemma InFlightWhileClearing<T>(s: State<T>, c: nat)
    requires Inv(s) && c < |s.pcs| && s.pcs[c].ClearLoop?
    ensures s.sem + Sum(InFlight, s.pcs) + s.pcs[c].i == |s.queue|
    ensures Sum(InFlight, s.pcs) == 0 <==> NoneInFlight(s)
  {
    SumZero(InFlight, s.pcs);
    SumZero(Notifying, s.pcs);
    var rest := s.pcs[c := Idle];
    SumUpdate(Drained, s.pcs, c, Idle);
    SumZero(Drained, rest);
  }

  // ---- a doomed clear ------------------------------------------------------

  lemma NextKeepsDoomed<T>(s: State<T>, c: nat, d: nat, t: nat, a: Action<T>)
    requires Inv(s) && Doomed(s, c, d)
    requires t < |s.pcs| && Next(s, t, a).Some?
    ensures Doomed(Next(s, t, a).value, c, d)
    ensures Next(s, t, a).value.owner == Some(c)
  {
    InFlightWhileClearing(s, c);
    assert !NoneInFlight(s);
    NextMovesOne(s, t, a);
    hide Sum;
  }

  /** The mutex is never released again, whatever the threads do. */
  lemma {:induction false} DoomedForEver<T>(s: State<T>, c: nat, d: nat, events: seq<Event<T>>)
    requires Inv(s) && Doomed(s, c, d) && Run(s, events).Some?
    ensures var s' := Run(s, events).value;
            Doomed(s', c, d) && s'.owner == Some(c)
    decreases |events|
  {
    if events != [] {
      var t, a := events[0].thread, events[0].action;
      NextKeepsInv(s, t, a);
      NextKeepsDoomed(s, c, d, t, a);
      DoomedForEver(Next(s, t, a).value, c, d, events[1..]);
    }
  }

  lemma RunStep<T>(s: State<T>, e: Event<T>, events: seq<Event<T>>)
    requires e.thread < |s.pcs| && Next(s, e.thread, e.action).Some?
    ensures Run(s, [e] + events) == Run(Next(s, e.thread, e.action).value, events)
  {
    assert ([e] + events)[1..] == events;
  }

  lemma RunNothing<T>(s: State<T>)
    ensures Run(s, []) == Some(s)
  {
  }

  lemma RunThen<T>(s: State<T>, events: seq<Event<T>>, s': State<T>, e: Event<T>, s'': State<T>)
    requires Run(s, events) == Some(s')
    requires e.thread < |s'.pcs| && Next(s', e.thread, e.action) == Some(s'')
    ensures Run(s, events + [e]) == Some(s'')
  {
    RunConcat(s, events, [e]);
    RunStep(s', e, []);
    assert [e] + [] == [e];
  }

  /**
   Thread 0 enqueues an item; thread 1 passes the wait of a dequeue; thread 2 locks before it, to
   clear the queue.
   */
  function DoomedSchedule<T>(item: T, k: nat): Event<T>
    requires k < 9
  {
    if k == 0 then Event(0, StartEnqueue(item))
    else if k == 5 then Event(1, StartDequeue)
    else if k == 7 then Event(2, StartClear)
    else Event(if k < 5 then 0 else if k < 7 then 1 else 2, Continue)
  }

  /** The state before event `k`. */
  function DoomedTrace<T>(item: T, k: nat): State<T>
    requires k <= 9
  {
    var producer :=
      if k == 1 then EnqLock(item) else if k == 2 then EnqPush(item)
      else if k == 3 then EnqNotify else if k == 4 then EnqUnlock else Idle;
    var consumer := if k < 6 then Idle else if k == 6 then DeqWait(0) else DeqLock(0);
    var cleaner := if k < 8 then Idle else if k == 8 then ClearLock(1) else ClearLoop(1, 0);
    var items := if k < 3 then [] else [item];
    State(
      [producer, consumer, cleaner], items, if 4 <= k < 7 then 1 else 0,
      if 2 <= k < 5 then Some(0) else if k == 9 then Some(2) else None,
      items, [], if k < 6 then 0 else if k < 8 then 1 else 2, map[])
  }

  lemma DoomedStep<T>(item: T, k: nat)
    requires k < 9
    ensures var e := DoomedSchedule(item, k);
            Next(DoomedTrace(item, k), e.thread, e.action) == Some(DoomedTrace(item, k + 1))
  {
    var t, s, s' := DoomedSchedule(item, k).thread, DoomedTrace(item, k), DoomedTrace(item, k + 1);
    assert s.pcs[t := s'.pcs[t]] == s'.pcs && [] + [item] == [item];
  }

  lemma {:induction false} DoomedRun<T>(item: T, k: nat)
    requires k <= 9
    ensures Run(DoomedTrace(item, 0), seq(k, i requires 0 <= i < 9 => DoomedSchedule(item, i)))
         == Some(DoomedTrace(item, k))
  {
    if k > 0 {
      var es := seq(k - 1, i requires 0 <= i < 9 => DoomedSchedule(item, i));
      var e, s := DoomedSchedule(item, k - 1), DoomedTrace(item, k - 1);
      DoomedRun(item, k - 1);
      DoomedStep(item, k - 1);
      assert e.thread < |s.pcs|;
      hide Next, DoomedTrace, DoomedSchedule;
      RunThen(DoomedTrace(item, 0), es, s, e, DoomedTrace(item, k));
      assert seq(k, i requires 0 <= i < 9 => DoomedSchedule(item, i)) == es + [e];
    }
  }

  /** A doomed state is reachable with three threads and one item. */
  lemma DoomedIsReachable<T>(item: T)
    ensures exists events: seq<Event<T>> ::
              Run(Init<T>(3), events).Some? && Doomed(Run(Init<T>(3), events).value, 2, 1)
  {
    DoomedRun(item, 9);
    assert Init<T>(3).pcs == DoomedTrace(item, 0).pcs;
    assert Doomed(DoomedTrace(item, 9), 2, 1);
  }

  // ---- a clear that finishes -----------------------------------------------

  /** A thread that passes its wait takes one of the tokens clear is counting on. */
  predicate TakesToken<T>(s: State<T>, e: Event<T>)
    requires e.thread < |s.pcs|
  {
    s.pcs[e.thread].DeqWait? && e.action.Continue?
  }

  predicate NobodyTakes<T>(s: State<T>, events: seq<Event<T>>)
    decreases |events|
  {
    events == [] ||
    (events[0].thread < |s.pcs| && !TakesToken(s, events[0]) &&
     match Next(s, events[0].thread, events[0].action)
     case None => false
     case Some(s') => NobodyTakes(s', events[1..]))
  }

  function StepsOf<T>(c: nat, events: seq<Event<T>>): nat
    decreases |events|
  {
    if events == [] then 0
    else (if events[0].thread == c then 1 else 0) + StepsOf(c, events[1..])
  }

  /** With no dequeue in flight the next token of a clear is there. */
  lemma ClearIsEnabled<T>(s: State<T>, c: nat)
    requires Inv(s) && c < |s.pcs| && s.pcs[c].ClearLoop? && NoneInFlight(s)
    ensures Advance(s, c).Some?
    ensures Advance(s, c).value.pcs[c]
         == (if s.pcs[c].i < |s.queue| then ClearLoop(s.pcs[c].call, s.pcs[c].i + 1) else ClearUnlock)
    ensures NoneInFlight(Advance(s, c).value)
    ensures s.pcs[c].i < |s.queue| ==> Advance(s, c).value.queue == s.queue
  {
    InFlightWhileClearing(s, c);
  }

  lemma OthersWhileClearing<T>(s: State<T>, c: nat, e: Event<T>)
    requires Inv(s) && c < |s.pcs| && s.pcs[c].ClearLoop? && NoneInFlight(s)
    requires e.thread < |s.pcs| && e.thread != c && !TakesToken(s, e)
    requires Next(s, e.thread, e.action).Some?
    ensures var s' := Next(s, e.thread, e.action).value;
            |s'.pcs| == |s.pcs| && s'.pcs[c] == s.pcs[c] && NoneInFlight(s') && s'.queue == s.queue
  {
    NextMovesOne(s, e.thread, e.action);
    hide Sum;
  }

  /**
   As long as no dequeue passes its wait, each of its own steps brings a clear one token
   further, the token for the step is always there, and `|queue| - i + 1` steps end the loop.
   */
  lemma {:induction false} ClearProceeds<T>(s: State<T>, c: nat, events: seq<Event<T>>)
    requires Inv(s) && c < |s.pcs| && s.pcs[c].ClearLoop? && NoneInFlight(s)
    requires NobodyTakes(s, events) && StepsOf(c, events) <= |s.queue| - s.pcs[c].i
    ensures Run(s, events).Some?
    ensures var s' := Run(s, events).value;
            && |s'.pcs| == |s.pcs| && s'.queue == s.queue
            && s'.pcs[c] == ClearLoop(s.pcs[c].call, s.pcs[c].i + StepsOf(c, events))
            && Advance(s', c).Some?
            && (StepsOf(c, events) == |s.queue| - s.pcs[c].i ==> Advance(s', c).value.pcs[c] == ClearUnlock)
    decreases |events|
  {
    ClearIsEnabled(s, c);
    if events != [] {
      var e := events[0];
      var s' := Next(s, e.thread, e.action).value;
      NextKeepsInv(s, e.thread, e.action);
      NextMovesOne(s, e.thread, e.action);
      if e.thread != c {
        OthersWhileClearing(s, c, e);
      }
      hide Next, Advance;
      ClearProceeds(s', c, events[1..]);
    }
  }

  /** The clear runs on alone. */
  function Alone<T>(c: nat, n: nat): seq<Event<T>> {
    if n == 0 then [] else [Event(c, Continue)] + Alone(c, n - 1)
  }

  lemma {:induction false} ClearFinishesAlone<T>(s: State<T>, c: nat)
    requires Inv(s) && c < |s.pcs| && s.pcs[c].ClearLoop? && NoneInFlight(s)
    requires s.pcs[c].i <= |s.queue|
    ensures var events := Alone<T>(c, |s.queue| - s.pcs[c].i + 1);
            && Run(s, events).Some?
            && c < |Run(s, events).value.pcs|
            && Run(s, events).value.pcs[c].ClearUnlock?
    decreases |s.queue| - s.pcs[c].i
  {
    var n := |s.queue| - s.pcs[c].i;
    ClearIsEnabled(s, c);
    var s' := Advance(s, c).value;
    NextKeepsInv(s, c, Continue);
    NextMovesOne<T>(s, c, Continue);
    RunStep(s, Event(c, Continue), Alone<T>(c, n));
    if n == 0 {
      RunNothing(s');
    } else {
      ClearFinishesAlone(s', c);
    }
  }

  /**
   A clear in its loop can get out of it if and only if no dequeue stands between its wait and
   its lock.
   */
  lemma ClearCanFinish<T>(s: State<T>, c: nat)
    requires Inv(s) && c < |s.pcs| && s.pcs[c].ClearLoop?
    ensures NoneInFlight(s) <==>
            exists events: seq<Event<T>> ::
              && Run(s, events).Some?
              && c < |Run(s, events).value.pcs|
              && !Run(s, events).value.pcs[c].ClearLoop?
  {
    InFlightWhileClearing(s, c);
    if NoneInFlight(s) {
      ClearFinishesAlone(s, c);
    } else {
      var d :| 0 <= d < |s.pcs| && s.pcs[d].DeqLock?;
      forall events: seq<Event<T>> | Run(s, events).Some?
        ensures Doomed(Run(s, events).value, c, d)
      {
        DoomedForEver(s, c, d, events);
      }
    }
  }

  // ---- deadlock ------------------------------------------------------------

  /** No call in progress can go on. */
  predicate Stuck<T>(s: State<T>) {
    forall t | 0 <= t < |s.pcs| :: Advance(s, t).None?
  }

  /** Every call in progress is a dequeue waiting for an item that is not there. */
  predicate WaitingForItems<T>(s: State<T>) {
    && s.queue == [] && s.sem == 0 && s.owner.None?
    && forall t | 0 <= t < |s.pcs| :: s.pcs[t].Idle? || s.pcs[t].DeqWait?
  }

  predicate Pending<T>(s: State<T>) {
    exists t :: 0 <= t < |s.pcs| && !s.pcs[t].Idle?
  }

  predicate NoClearInLoop<T>(s: State<T>) {
    forall t | 0 <= t < |s.pcs| :: !s.pcs[t].ClearLoop?
  }

  lemma StuckOutside<T>(s: State<T>)
    requires Inv(s) && Pending(s) && Stuck(s) && s.owner.None?
    ensures WaitingForItems(s)
  {
    forall t | 0 <= t < |s.pcs|
      ensures s.pcs[t].Idle? || s.pcs[t].DeqWait?
    {
      assert Advance(s, t).None?;
    }
    SumZero(InFlight, s.pcs);
    SumZero(Notifying, s.pcs);
    SumZero(Drained, s.pcs);
    var t :| 0 <= t < |s.pcs| && !s.pcs[t].Idle?;
    assert Advance(s, t).None?;
  }

  /** Whoever holds the mutex can go on, except a clear that finds no token. */
  lemma OwnerAdvances<T>(s: State<T>, t: nat)
    requires Inv(s) && t < |s.pcs| && s.owner == Some(t) && !s.pcs[t].ClearLoop?
    ensures Advance(s, t).Some?
  {
  }

  /**
   Unless a clear is in its loop, a queue with calls in progress none of which can go on has
   only dequeues that wait for an item, and no item for them.
   */
  lemma DeadlockedIffWaiting<T>(s: State<T>)
    requires Inv(s) && Pending(s)
    ensures Stuck(s) && NoClearInLoop(s) <==> WaitingForItems(s)
  {
    if Stuck(s) && NoClearInLoop(s) {
      if s.owner.Some? {
        OwnerAdvances(s, s.owner.value);
      } else {
        StuckOutside(s);
      }
    }
  }

  /** In every deadlock with a clear in its loop a dequeue in flight is the reason. */
  lemma StuckClearIsDoomed<T>(s: State<T>, c: nat)
    requires Inv(s) && Stuck(s) && c < |s.pcs| && s.pcs[c].ClearLoop?
    ensures exists d :: Doomed(s, c, d)
  {
    InFlightWhileClearing(s, c);
    assert Advance(s, c).None?;
    var d :| 0 <= d < |s.pcs| && s.pcs[d].DeqLock?;
    assert Doomed(s, c, d);
  }
}
