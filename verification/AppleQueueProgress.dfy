/**
 What can still happen to the queue over the semaphore in AppleSemaphore: from which states a dequeue
 can come to an empty queue without another wait returning false, and which deadlocks there are.
 */
module AppleQueueProgress {
  import opened Wrappers
  import opened Counting
  import A = AppleSemaphore
  import opened AppleQueue

  // ---- who is going to return false ----------------------------------------

  /** The wait has the counter locked at zero after waking up: nothing but returning false is left to it. */
  predicate Failing(sem: A.State, t: nat)
    requires t < |sem.pcs|
  {
    sem.pcs[t].AgainEmpty? || (sem.pcs[t].AgainTest? && sem.count <= 0)
  }

  /** The enqueue holds the queue mutex and has still to lock the counter. */
  predicate Pushing(p: Place) {
    p.call.EnqPush? || (p.call.EnqNotify? && p.inside.NotifyLock?)
  }

  /**
   The failing wait holds the counter, which the enqueue needs, and the enqueue holds the queue, which
   every dequeue needs.
   */
  predicate Opposed(s: State, t: nat, u: nat)
    requires |s.pcs| == |s.sem.pcs|
  {
    t < |s.pcs| && u < |s.pcs| && Failing(s.sem, t) && s.owner == Some(u) && Pushing(Place(s.pcs[u], s.sem.pcs[u]))
  }

  ghost predicate Blocked(s: State)
    requires |s.pcs| == |s.sem.pcs|
  {
    exists t: nat, u: nat :: Opposed(s, t, u)
  }

  // ---- every step without a new item comes closer to the end ---------------

  function ToPush(p: Place): nat {
    if p.call.EnqLock? || p.call.EnqPush? then 1 else 0
  }

  /** Own steps until the thread has taken an item, at most. */
  function Distance(p: Place): nat {
    match p.call
    case EnqLock(_) => 29
    case EnqPush(_) => 28
    case EnqNotify =>
      (match p.inside
       case NotifyLock(_) => 27
       case NotifyRead(_) => 26
       case NotifyStore(_, _) => 25
       case NotifyUnlock(_) => 24
       case NotifySignal(_) => 23
       case _ => 22)
    case EnqUnlock => 21
    case DeqUnlock(_, _) => 21
    case Idle => 20
    case DeqWait =>
      (match p.inside
       case WaitLock(_) => 19
       case WaitTest(_) => 18
       case WaitEmpty(_) => 17
       case CondLock(_) => 16
       case CondEnter(_) => 15
       case CondBlocked(_) => 14
       case CondWake(_) => 13
       case CondHeld(_) => 12
       case AgainLock => 11
       case AgainTest => 10
       case WaitStore(_) => 9
       case WaitTaken => 8
       case AgainEmpty => 8
       case _ => 7)
    case DeqLock => 6
    case DeqIn => 5
    case Broken => 0
  }

  /** Items in the queue and about to be. */
  function Items(s: State): nat
    requires |s.pcs| == |s.sem.pcs|
  {
    |s.queue| + Sum(ToPush, Places(s))
  }

  function Way(s: State): nat
    requires |s.pcs| == |s.sem.pcs|
  {
    Sum(Distance, Places(s))
  }

  lemma MoverComesCloser(s: State, t: nat, a: Action)
    requires t < |s.pcs| == |s.sem.pcs| && Next(s, t, a).Some? && !a.StartEnqueue?
    requires Linked(Place(s.pcs[t], s.sem.pcs[t]))
    ensures var s' := Next(s, t, a).value;
            && t < |s'.pcs| && t < |s'.sem.pcs|
            && var p, p' := Place(s.pcs[t], s.sem.pcs[t]), Place(s'.pcs[t], s'.sem.pcs[t]);
               || |s'.queue| + ToPush(p') < |s.queue| + ToPush(p)
               || (|s'.queue| + ToPush(p') == |s.queue| + ToPush(p) && Distance(p') < Distance(p))
  {
  }

  /** Only a new enqueue can keep a run going for ever. */
  lemma NextComesCloser(s: State, t: nat, a: Action)
    requires Inv(s) && t < |s.pcs| && Next(s, t, a).Some? && !a.StartEnqueue?
    ensures var s' := Next(s, t, a).value;
            && |s'.pcs| == |s'.sem.pcs|
            && (Items(s') < Items(s) || (Items(s') == Items(s) && Way(s') < Way(s)))
  {
    hide Sum, Balanced, A.Inv, Exclusive;
    NextSum(ToPush, s, t, a);
    NextSum(Distance, s, t, a);
    assert Linked(Place(s.pcs[t], s.sem.pcs[t]));
    MoverComesCloser(s, t, a);
    if IsSignal(a) {
      NextPlaces(s, t, a);
      SleeperComesCloser(Place(s.pcs[a.a.woken], s.sem.pcs[a.a.woken]));
    }
  }

  lemma SleeperComesCloser(p: Place)
    requires Linked(p) && p.inside.CondBlocked?
    ensures ToPush(Place(p.call, A.CondWake(false))) == ToPush(p)
    ensures Distance(Place(p.call, A.CondWake(false))) < Distance(p)
  {
  }

  // ---- a step that brings a break closer -----------------------------------

  /** A step with no new item and no false return that puts no thread in front of one. */
  predicate Good(s: State, t: nat, a: Action)
    requires |s.pcs| == |s.sem.pcs|
  {
    && t < |s.pcs| && !a.StartEnqueue?
    && Next(s, t, a).Some? && Next(s, t, a).value.sem.failed == s.sem.failed
    && !(s.sem.pcs[t].AgainLock? && s.sem.count <= 0)
    && !Failing(s.sem, t)
    && (s.pcs[t].EnqLock? ==> s.sem.countOwner.None?)
  }

  lemma GoodKeepsUnblocked(s: State, t: nat, a: Action)
    requires Inv(s) && !Blocked(s) && Good(s, t, a)
    ensures |Next(s, t, a).value.pcs| == |Next(s, t, a).value.sem.pcs| && !Blocked(Next(s, t, a).value)
  {
    var s' := Next(s, t, a).value;
    NextPlaces(s, t, a);
    if Blocked(s') {
      var u: nat, v: nat :| Opposed(s', u, v);
      FailingStays(s, t, a, u);
      PushingStays(s, t, a, u, v);
      assert Opposed(s, u, v);
    }
  }

  /** Nobody else moves the thread that holds the counter, or changes the counter. */
  lemma CounterIsKept(s: State, t: nat, a: Action, u: nat)
    requires Inv(s) && t < |s.pcs| && Next(s, t, a).Some?
    requires u < |s.pcs| && u != t && A.HoldsCount(s.sem.pcs[u])
    ensures var s' := Next(s, t, a).value;
            && |s'.pcs| == |s'.sem.pcs| == |s.pcs|
            && s'.pcs[u] == s.pcs[u] && s'.sem.pcs[u] == s.sem.pcs[u] && s'.sem.count == s.sem.count
  {
    var s' := Next(s, t, a).value;
    NextPlaces(s, t, a);
    NextInside(s, t, a);
    assert !A.HoldsCount(s.sem.pcs[t]) && A.Remembers(s.sem, s.sem.pcs[t]);
    hide Next, A.Next, Sum, Balanced, AllLinked, Exclusive;
    assert Places(s')[u] == Places(s)[u];
    if s'.sem != s.sem {
      var b := if s.pcs[t].Idle? then A.StartWait(false) else if s.pcs[t].EnqPush? then A.StartNotify(1) else a.a;
      A.NextCounts(0, s.sem, t, b);
    }
  }

  lemma FailingStays(s: State, t: nat, a: Action, u: nat)
    requires Inv(s) && Good(s, t, a) && u < |s.pcs|
    requires |Next(s, t, a).value.sem.pcs| == |s.pcs| && Failing(Next(s, t, a).value.sem, u)
    ensures u != t && Failing(s.sem, u)
  {
    MoverDoesNotFail(s, t, a);
    assert A.Inv(0, s.sem) && A.Exclusive(s.sem);
    var s' := Next(s, t, a).value;
    NextPlaces(s, t, a);
    hide Next, Sum, Good, Inv;
    assert Places(s')[u] == Places(s)[u];
    assert A.HoldsCount(s.sem.pcs[u]);
    CounterIsKept(s, t, a, u);
  }

  lemma MoverDoesNotFail(s: State, t: nat, a: Action)
    requires |s.pcs| == |s.sem.pcs| && Good(s, t, a)
    ensures t < |Next(s, t, a).value.sem.pcs| && !Failing(Next(s, t, a).value.sem, t)
  {
    NextInside(s, t, a);
    var s' := Next(s, t, a).value;
    hide Next, A.Next;
    if s'.sem != s.sem {
      var b := if s.pcs[t].Idle? then A.StartWait(false) else if s.pcs[t].EnqPush? then A.StartNotify(1) else a.a;
      InsideDoesNotFail(s.sem, t, b);
    }
  }

  lemma InsideDoesNotFail(sem: A.State, t: nat, b: A.Action)
    requires t < |sem.pcs| && A.Next(sem, t, b).Some? && !Failing(sem, t)
    requires !(sem.pcs[t].AgainLock? && sem.count <= 0)
    ensures t < |A.Next(sem, t, b).value.pcs| && !Failing(A.Next(sem, t, b).value, t)
  {
  }

  lemma PushingStays(s: State, t: nat, a: Action, u: nat, v: nat)
    requires Inv(s) && Good(s, t, a) && u < |s.pcs| && v < |s.pcs| && u != t && Failing(s.sem, u)
    requires var s' := Next(s, t, a).value;
             && |s'.pcs| == |s'.sem.pcs| == |s.pcs|
             && s'.owner == Some(v) && Pushing(Place(s'.pcs[v], s'.sem.pcs[v]))
    ensures s.owner == Some(v) && Pushing(Place(s.pcs[v], s.sem.pcs[v]))
  {
    var s' := Next(s, t, a).value;
    NextPlaces(s, t, a);
    NextKeepsExclusive(s, t, a);
    assert A.HoldsCount(s.sem.pcs[u]) && A.Exclusive(s.sem);
    assert HoldsQueue(s'.pcs[v]) && Linked(Place(s.pcs[v], s.sem.pcs[v]));
    if v == t {
      PushingCameFrom(s, t, a);
    } else {
      hide Next, Sum, Balanced, A.Inv;
      assert Places(s')[v] == Place(s'.pcs[v], s'.sem.pcs[v]) && Places(s)[v] == Place(s.pcs[v], s.sem.pcs[v]);
    }
  }

  lemma PushingCameFrom(s: State, t: nat, a: Action)
    requires t < |s.pcs| == |s.sem.pcs| && Next(s, t, a).Some? && Linked(Place(s.pcs[t], s.sem.pcs[t]))
    requires var s' := Next(s, t, a).value;
             t < |s'.pcs| && t < |s'.sem.pcs| && Pushing(Place(s'.pcs[t], s'.sem.pcs[t]))
    ensures s.pcs[t].EnqLock? || Pushing(Place(s.pcs[t], s.sem.pcs[t]))
  {
  }

  /** The thread that holds the counter goes on. */
  lemma CountOwnerGoesOn(s: State, c: nat)
    requires Inv(s) && s.sem.countOwner == Some(c) && c < |s.pcs| && !Failing(s.sem, c)
    ensures Good(s, c, Inside(A.Continue))
  {
    assert A.HoldsCount(s.sem.pcs[c]);
    assert Linked(Place(s.pcs[c], s.sem.pcs[c]));
    hide Sum;
  }

  /** The thread that holds the queue goes on, or the one that holds the counter does. */
  lemma QueueOwnerGoesOn(s: State, o: nat) returns (t: nat, a: Action)
    requires Inv(s) && !Blocked(s) && !AnyBroken(s) && s.owner == Some(o)
    ensures |s.pcs| == |s.sem.pcs| && Good(s, t, a)
  {
    assert HoldsQueue(s.pcs[o]) && !s.pcs[o].Broken?;
    assert Linked(Place(s.pcs[o], s.sem.pcs[o]));
    hide Sum, Linked, Balanced;
    t, a := o, Continue;
    if s.pcs[o].EnqNotify? && !s.sem.pcs[o].Idle? {
      if s.sem.pcs[o].NotifyLock? && s.sem.countOwner.Some? {
        t, a := s.sem.countOwner.value, Inside(A.Continue);
        assert !Opposed(s, t, o);
        CountOwnerGoesOn(s, t);
      } else {
        a := InsideNotify(s, o);
      }
    }
  }

  lemma InsideNotify(s: State, o: nat) returns (a: Action)
    requires Inv(s) && o < |s.pcs| && s.pcs[o].EnqNotify? && !s.sem.pcs[o].Idle?
    requires s.sem.pcs[o].NotifyLock? ==> s.sem.countOwner.None?
    ensures |s.pcs| == |s.sem.pcs| && Good(s, o, a)
  {
    assert Linked(Place(s.pcs[o], s.sem.pcs[o]));
    hide Sum;
    a := Inside(A.Continue);
    if s.sem.pcs[o].NotifySignal? && A.SomeoneBlocked(s.sem) {
      var u: nat :| u < |s.sem.pcs| && s.sem.pcs[u].CondBlocked?;
      a := Inside(A.Signal(u));
    }
  }

  /** With the queue free and nobody to take from it, the counter is what is in it and the false returns. */
  lemma CounterOfQuietQueue(s: State)
    requires Inv(s) && s.owner.None?
    requires forall t | 0 <= t < |s.pcs| :: !IsTaker(Places(s)[t])
    ensures s.sem.count + Sum(A.Taken, s.sem.pcs) == |s.queue| + s.sem.failed
  {
    QueueLength(s);
    SumZero(Due, Places(s));
    hide Sum, A.Inv, Linked;
  }

  lemma NothingTaken(s: A.State)
    requires A.Inv(0, s)
    requires s.countOwner.None? || (s.countOwner.value < |s.pcs| && !s.pcs[s.countOwner.value].WaitTaken?)
    ensures Sum(A.Taken, s.pcs) == 0
  {
    SumZero(A.Taken, s.pcs);
    hide Sum;
  }

  /** Unless a failing wait and an enqueue block each other, something can go on without a false return. */
  lemma GoesOn(s: State) returns (t: nat, a: Action)
    requires Inv(s) && |s.pcs| > 0 && s.sem.failed > 0 && !Blocked(s) && !AnyBroken(s)
    ensures |s.pcs| == |s.sem.pcs| && Good(s, t, a)
  {
    hide Sum, Linked, Balanced, Failing, Good, Blocked, A.Inv;
    if s.owner.Some? {
      t, a := QueueOwnerGoesOn(s, s.owner.value);
    } else if u: nat :| u < |s.pcs| && IsTaker(Places(s)[u]) {
      t, a := u, Continue;
      TakerGoesOn(s, u);
    } else {
      CounterOfQuietQueue(s);
      t, a := QuietGoesOn(s);
    }
  }

  lemma TakerGoesOn(s: State, t: nat)
    requires Inv(s) && !AnyBroken(s) && s.owner.None? && t < |s.pcs| && IsTaker(Places(s)[t])
    ensures Good(s, t, Continue)
  {
    assert Linked(Place(s.pcs[t], s.sem.pcs[t]));
    hide Sum, A.Inv;
  }

  /** The queue is free and no wait has just returned. */
  lemma QuietGoesOn(s: State) returns (t: nat, a: Action)
    requires Inv(s) && |s.pcs| > 0 && s.sem.failed > 0 && s.owner.None?
    requires forall t | 0 <= t < |s.pcs| :: !IsTaker(Places(s)[t])
    requires s.sem.count + Sum(A.Taken, s.sem.pcs) == |s.queue| + s.sem.failed
    ensures |s.pcs| == |s.sem.pcs| && Good(s, t, a)
  {
    if s.sem.countOwner.Some? {
      t, a := s.sem.countOwner.value, Inside(A.Continue);
      NobodyFails(s, t);
      CountOwnerGoesOn(s, t);
    } else {
      NothingTaken(s.sem);
      if s.sem.waitOwner.Some? {
        t, a := s.sem.waitOwner.value, Inside(A.Continue);
        WaitOwnerGoesOn(s, t);
      } else {
        t := 0;
        a := AnyoneGoesOn(s, t);
      }
    }
  }

  lemma NobodyFails(s: State, c: nat)
    requires Inv(s) && s.sem.failed > 0 && s.sem.countOwner == Some(c)
    requires s.sem.count + Sum(A.Taken, s.sem.pcs) == |s.queue| + s.sem.failed
    ensures c < |s.sem.pcs| && !Failing(s.sem, c)
  {
    assert A.Remembers(s.sem, s.sem.pcs[c]) && s.sem.count >= 0;
    if !s.sem.pcs[c].WaitTaken? {
      NothingTaken(s.sem);
    }
    hide Sum;
  }

  lemma WaitOwnerGoesOn(s: State, t: nat)
    requires Inv(s) && s.sem.waitOwner == Some(t) && s.sem.countOwner.None?
    ensures t < |s.pcs| == |s.sem.pcs| && Good(s, t, Inside(A.Continue))
  {
    assert A.HoldsWait(s.sem.pcs[t]);
    assert Linked(Place(s.pcs[t], s.sem.pcs[t]));
    hide Sum;
  }

  /** All mutexes are free and the counter is positive. */
  lemma AnyoneGoesOn(s: State, t: nat) returns (a: Action)
    requires Inv(s) && t < |s.pcs| && !IsTaker(Places(s)[t])
    requires s.owner.None? && s.sem.countOwner.None? && s.sem.waitOwner.None? && s.sem.count > 0
    ensures |s.pcs| == |s.sem.pcs| && Good(s, t, a)
  {
    assert Linked(Place(s.pcs[t], s.sem.pcs[t]));
    assert !A.HoldsCount(s.sem.pcs[t]) && !A.HoldsWait(s.sem.pcs[t]) && !HoldsQueue(s.pcs[t]);
    hide Sum, Balanced, A.Inv;
    a := if s.pcs[t].Idle? then StartDequeue
         else if s.pcs[t].EnqLock? then Continue
         else if s.sem.pcs[t].CondBlocked? then Inside(A.Wake)
         else Inside(A.Continue);
  }

  // ---- an empty queue is met -----------------------------------------------

  lemma RunCons(s: State, e: Event, events: seq<Event>)
    requires e.thread < |s.pcs| == |s.sem.pcs| && Next(s, e.thread, e.action).Some?
    ensures Run(s, [e] + events) == Run(Next(s, e.thread, e.action).value, events)
  {
    hide Next;
    assert ([e] + events)[1..] == events;
  }

  /** In this continuation a dequeue takes the front of an empty queue. */
  predicate Breaks(s: State, events: seq<Event>) {
    Run(s, events).Some? && AnyBroken(Run(s, events).value)
  }

  /** The same, and no wait returns false in it. */
  predicate BreaksAtOnce(s: State, events: seq<Event>) {
    Breaks(s, events) && Run(s, events).value.sem.failed == s.sem.failed
  }

  lemma {:induction false} DriveToBreak(s: State) returns (events: seq<Event>)
    requires Inv(s) && |s.pcs| > 0 && s.sem.failed > 0 && !Blocked(s)
    ensures BreaksAtOnce(s, events)
    decreases Items(s), Way(s)
  {
    hide Next, Inv, AnyBroken, Blocked, Items, Way;
    events := [];
    if !AnyBroken(s) {
      var t, a := GoesOn(s);
      NextKeepsInv(s, t, a);
      GoodKeepsUnblocked(s, t, a);
      NextComesCloser(s, t, a);
      var rest := DriveToBreak(Next(s, t, a).value);
      RunCons(s, Event(t, a), rest);
      events := [Event(t, a)] + rest;
    }
  }

  /** A failing wait and an enqueue that block each other do so until the wait has returned false. */
  lemma NextKeepsBlocked(s: State, t: nat, a: Action)
    requires Inv(s) && Blocked(s) && t < |s.pcs| && Next(s, t, a).Some?
    requires Next(s, t, a).value.sem.failed == s.sem.failed
    ensures |Next(s, t, a).value.pcs| == |Next(s, t, a).value.sem.pcs| && Blocked(Next(s, t, a).value)
  {
    var s' := Next(s, t, a).value;
    NextPlaces(s, t, a);
    var u: nat, v: nat :| Opposed(s, u, v);
    BothStay(s, t, a, u, v);
  }

  lemma BothStay(s: State, t: nat, a: Action, u: nat, v: nat)
    requires Inv(s) && t < |s.pcs| && Next(s, t, a).Some?
    requires Next(s, t, a).value.sem.failed == s.sem.failed
    requires Opposed(s, u, v)
    ensures var s' := Next(s, t, a).value;
            |s'.pcs| == |s'.sem.pcs| == |s.pcs| && Opposed(s', u, v)
  {
    NextPlaces(s, t, a);
    assert A.HoldsCount(s.sem.pcs[u]) && u != v;
    assert Linked(Place(s.pcs[t], s.sem.pcs[t])) && Linked(Place(s.pcs[u], s.sem.pcs[u]));
    if t == u {
      FailingStandsStill(s, t, a);
    } else {
      CounterIsKept(s, t, a, u);
    }
    if t == v {
      PusherStandsStill(s, t, a);
    } else {
      OwnerIsKept(s, t, a, v);
    }
  }

  /** The failing wait can only give up. */
  lemma FailingStandsStill(s: State, t: nat, a: Action)
    requires t < |s.pcs| == |s.sem.pcs| && Next(s, t, a).Some? && Failing(s.sem, t)
    requires Next(s, t, a).value.sem.failed == s.sem.failed && Linked(Place(s.pcs[t], s.sem.pcs[t]))
    ensures t < |Next(s, t, a).value.sem.pcs| && Failing(Next(s, t, a).value.sem, t)
  {
  }

  /** The enqueue can push, but not lock the counter. */
  lemma PusherStandsStill(s: State, t: nat, a: Action)
    requires t < |s.pcs| == |s.sem.pcs| && Next(s, t, a).Some? && Linked(Place(s.pcs[t], s.sem.pcs[t]))
    requires Pushing(Place(s.pcs[t], s.sem.pcs[t])) && s.sem.countOwner.Some? && s.owner == Some(t)
    ensures var s' := Next(s, t, a).value;
            && |s'.pcs| == |s'.sem.pcs| == |s.pcs|
            && s'.owner == Some(t) && Pushing(Place(s'.pcs[t], s'.sem.pcs[t]))
  {
  }

  lemma OwnerIsKept(s: State, t: nat, a: Action, v: nat)
    requires Inv(s) && t < |s.pcs| && Next(s, t, a).Some? && v < |s.pcs| && v != t
    requires s.owner == Some(v) && Pushing(Place(s.pcs[v], s.sem.pcs[v]))
    ensures var s' := Next(s, t, a).value;
            && |s'.pcs| == |s'.sem.pcs| == |s.pcs|
            && s'.owner == Some(v) && Pushing(Place(s'.pcs[v], s'.sem.pcs[v]))
  {
    var s' := Next(s, t, a).value;
    NextPlaces(s, t, a);
    assert !HoldsQueue(s.pcs[t]) && Linked(Place(s.pcs[v], s.sem.pcs[v]));
    hide Sum, Balanced, A.Inv, A.Next;
    assert Places(s')[v] == Places(s)[v];
  }

  lemma BlockedIsNotBroken(s: State)
    requires Inv(s) && Blocked(s)
    ensures !AnyBroken(s)
  {
    hide Sum, Balanced, A.Inv, Linked, Failing;
  }

  lemma {:induction false} BlockedDoesNotBreak(s: State, events: seq<Event>)
    requires Inv(s) && Blocked(s)
    ensures !BreaksAtOnce(s, events)
    decreases |events|
  {
    hide Next, Inv, AnyBroken, Blocked;
    BlockedIsNotBroken(s);
    if BreaksAtOnce(s, events) && events != [] {
      var s' := Next(s, events[0].thread, events[0].action).value;
      NextKeepsInv(s, events[0].thread, events[0].action);
      RunKeepsInv(s', events[1..]);
      NextKeepsBlocked(s, events[0].thread, events[0].action);
      BlockedDoesNotBreak(s', events[1..]);
    }
  }

  /** Without a false return so far there is no broken thread. */
  lemma BrokenNeedsFalseReturn(s: State, events: seq<Event>)
    requires Inv(s) && BreaksAtOnce(s, events)
    ensures s.sem.failed > 0
  {
    RunKeepsInv(s, events);
    hide Run, A.Inv, Balanced, AnyBroken;
  }

  /**
   In every run, some continuation in which no further wait returns false takes the front of an empty
   queue if and only if some wait has returned false already, and no wait is failing while an enqueue
   holds the queue mutex and has still to lock the counter.
   */
  lemma BreaksAtOnceIff(threads: nat, before: seq<Event>)
    requires Run(Init(threads), before).Some?
    ensures var s := Run(Init(threads), before).value;
            && |s.pcs| == |s.sem.pcs|
            && ((exists events: seq<Event> :: BreaksAtOnce(s, events)) <==> s.sem.failed > 0 && !Blocked(s))
  {
    InitInv(threads);
    RunKeepsInv(Init(threads), before);
    var s := Run(Init(threads), before).value;
    assert Init(threads).sem.failed == 0;
    hide Inv, Run, Blocked, BreaksAtOnce, Init;
    SameLength(s);
    if s.sem.failed > 0 && !Blocked(s) {
      SomebodyFailed(Init(threads), before);
      var events := DriveToBreak(s);
      assert BreaksAtOnce(s, events);
    } else {
      forall events: seq<Event>
        ensures !BreaksAtOnce(s, events)
      {
        if s.sem.failed > 0 {
          BlockedDoesNotBreak(s, events);
        } else if BreaksAtOnce(s, events) {
          BrokenNeedsFalseReturn(s, events);
        }
      }
    }
  }

  lemma SameLength(s: State)
    requires Inv(s)
    ensures |s.pcs| == |s.sem.pcs|
  {
  }

  lemma SomebodyFailed(s: State, events: seq<Event>)
    requires s.sem.failed == 0 && Run(s, events).Some? && Run(s, events).value.sem.failed > 0
    ensures |s.pcs| > 0
  {
    hide Next;
  }

  // ---- somebody can always go on -------------------------------------------

  predicate Asleep(p: Place) {
    p.call.DeqWait? && p.inside.CondBlocked?
  }

  /** A step that needs no luck and starts nothing, except a dequeue of thread `x`. */
  predicate Ordinary(s: State, t: nat, a: Action, x: nat)
    requires |s.pcs| == |s.sem.pcs|
  {
    && t < |s.pcs| && Next(s, t, a).Some?
    && a != Inside(A.Wake) && !a.StartEnqueue? && (s.pcs[t].Idle? ==> t == x)
  }

  lemma CounterOwnerSteps(s: State, c: nat, x: nat)
    requires Inv(s) && s.sem.countOwner == Some(c) && c < |s.pcs|
    ensures Ordinary(s, c, Inside(A.Continue), x)
  {
    assert A.HoldsCount(s.sem.pcs[c]) && Linked(Place(s.pcs[c], s.sem.pcs[c]));
    hide Sum;
  }

  lemma WaitOwnerSteps(s: State, c: nat, x: nat)
    requires Inv(s) && s.sem.waitOwner == Some(c) && c < |s.pcs| && s.sem.countOwner.None?
    ensures Ordinary(s, c, Inside(A.Continue), x)
  {
    assert A.HoldsWait(s.sem.pcs[c]) && Linked(Place(s.pcs[c], s.sem.pcs[c]));
    hide Sum;
  }

  lemma QueueOwnerSteps(s: State, o: nat, x: nat) returns (a: Action)
    requires Inv(s) && !AnyBroken(s) && s.owner == Some(o) && s.sem.countOwner.None?
    ensures |s.pcs| == |s.sem.pcs| && Ordinary(s, o, a, x)
  {
    assert HoldsQueue(s.pcs[o]) && !s.pcs[o].Broken?;
    assert Linked(Place(s.pcs[o], s.sem.pcs[o]));
    hide Sum, Balanced, A.Inv;
    a := Continue;
    if s.pcs[o].EnqNotify? && !s.sem.pcs[o].Idle? {
      a := InsideNotify(s, o);
    }
  }

  /** With all mutexes free a thread that is not asleep can go on. */
  lemma AwakeSteps(s: State, x: nat) returns (a: Action)
    requires Inv(s) && !AnyBroken(s) && x < |s.pcs| && !Asleep(Places(s)[x])
    requires s.owner.None? && s.sem.countOwner.None? && s.sem.waitOwner.None?
    ensures |s.pcs| == |s.sem.pcs| && Ordinary(s, x, a, x)
  {
    assert Linked(Place(s.pcs[x], s.sem.pcs[x]));
    assert !A.HoldsCount(s.sem.pcs[x]) && !A.HoldsWait(s.sem.pcs[x]) && !HoldsQueue(s.pcs[x]);
    hide Sum, Balanced, A.Inv;
    a := if s.pcs[x].Idle? then StartDequeue
         else if s.pcs[x].DeqWait? && !s.sem.pcs[x].Idle? then Inside(A.Continue)
         else Continue;
  }

  /** Unless all are asleep somebody can go on. */
  lemma SomebodySteps(s: State, x: nat) returns (t: nat, a: Action)
    requires Inv(s) && !AnyBroken(s) && x < |s.pcs| && !Asleep(Places(s)[x])
    ensures |s.pcs| == |s.sem.pcs| && Ordinary(s, t, a, x)
  {
    hide Linked, Sum, Balanced, Asleep, Ordinary;
    if s.sem.countOwner.Some? {
      t, a := s.sem.countOwner.value, Inside(A.Continue);
      CounterOwnerSteps(s, t, x);
    } else if s.sem.waitOwner.Some? {
      t, a := s.sem.waitOwner.value, Inside(A.Continue);
      WaitOwnerSteps(s, t, x);
    } else if s.owner.Some? {
      t := s.owner.value;
      a := QueueOwnerSteps(s, t, x);
    } else {
      t := x;
      a := AwakeSteps(s, x);
    }
  }

  lemma {:induction false} DriveOn(s: State) returns (events: seq<Event>)
    requires Inv(s) && |s.pcs| > 0
    ensures Breaks(s, events)
    decreases Items(s), Way(s)
  {
    SameLength(s);
    hide Next, Inv, AnyBroken, Items, Way;
    events := [];
    if !AnyBroken(s) {
      var t, a := 0, Inside(A.Wake);
      if Asleep(Places(s)[0]) {
        SleeperCanWake(s, 0);
      } else {
        t, a := SomebodySteps(s, 0);
      }
      NextKeepsInv(s, t, a);
      NextComesCloser(s, t, a);
      var rest := DriveOn(Next(s, t, a).value);
      RunCons(s, Event(t, a), rest);
      events := [Event(t, a)] + rest;
    }
  }

  lemma SleeperCanWake(s: State, t: nat)
    requires t < |s.pcs| == |s.sem.pcs| && Asleep(Places(s)[t])
    ensures Next(s, t, Inside(A.Wake)).Some?
  {
  }

  /** After every run of at least one thread some continuation takes the front of an empty queue. */
  lemma SomeContinuationBreaks(threads: nat, before: seq<Event>)
    requires threads > 0 && Run(Init(threads), before).Some?
    ensures exists events: seq<Event> :: Breaks(Run(Init(threads), before).value, events)
  {
    InitInv(threads);
    RunKeepsInv(Init(threads), before);
    hide Inv, Run, Breaks;
    var events := DriveOn(Run(Init(threads), before).value);
    assert Breaks(Run(Init(threads), before).value, events);
  }

  // ---- deadlocks -----------------------------------------------------------

  /** Some call is in progress and none can go on, unless a wait wakes up without a signal. */
  ghost predicate Deadlocked(s: State)
    requires |s.pcs| == |s.sem.pcs|
  {
    && (exists t :: 0 <= t < |s.pcs| && !s.pcs[t].Idle?)
    && forall t: nat, a: Action | t < |s.pcs| && !s.pcs[t].Idle? && Next(s, t, a).Some? :: a == Inside(A.Wake)
  }

  /** Some call is in progress and all calls in progress are dequeues asleep in their wait. */
  predicate AllAsleep(s: State)
    requires |s.pcs| == |s.sem.pcs|
  {
    && (exists t :: 0 <= t < |s.pcs| && !s.pcs[t].Idle?)
    && forall t | 0 <= t < |s.pcs| && !s.pcs[t].Idle? :: Asleep(Places(s)[t])
  }

  lemma SleeperNeedsWake(s: State, t: nat, a: Action)
    requires t < |s.pcs| == |s.sem.pcs| && Asleep(Places(s)[t]) && Next(s, t, a).Some?
    requires Linked(Place(s.pcs[t], s.sem.pcs[t]))
    ensures a == Inside(A.Wake)
  {
  }

  /** Nobody at all is at a place that counts. */
  lemma SleepersLeaveTheCounter(s: State)
    requires Inv(s) && AllAsleep(s)
    ensures s.sem.count == |s.queue| + s.sem.failed
  {
    QueueLength(s);
    assert forall t | 0 <= t < |s.pcs| :: Linked(Place(s.pcs[t], s.sem.pcs[t]));
    SumZero(Due, Places(s));
    SumZero(A.Taken, s.sem.pcs);
    hide Sum, A.Inv, Next;
  }

  /**
   As long as no dequeue has met an empty queue the queue is deadlocked if and only if all calls in
   progress are dequeues asleep in their wait. The items then in the queue are as many as the counter
   exceeds the false returns.
   */
  lemma DeadlockedIffAsleep(threads: nat, events: seq<Event>)
    requires Run(Init(threads), events).Some? && !AnyBroken(Run(Init(threads), events).value)
    ensures var s := Run(Init(threads), events).value;
            && |s.pcs| == |s.sem.pcs|
            && (Deadlocked(s) <==> AllAsleep(s))
            && (Deadlocked(s) ==> |s.queue| == s.sem.count - s.sem.failed)
  {
    InitInv(threads);
    RunKeepsInv(Init(threads), events);
    var s := Run(Init(threads), events).value;
    SameLength(s);
    assert AllLinked(s);
    hide Run, Next, Inv, AnyBroken, Linked, Init;
    if AllAsleep(s) {
      SleepersLeaveTheCounter(s);
      forall t: nat, a: Action | t < |s.pcs| && !s.pcs[t].Idle? && Next(s, t, a).Some?
        ensures a == Inside(A.Wake)
      {
        SleeperNeedsWake(s, t, a);
      }
    } else if Deadlocked(s) {
      var x :| 0 <= x < |s.pcs| && !s.pcs[x].Idle? && !Asleep(Places(s)[x]);
      var t, a := SomebodySteps(s, x);
      assert false;
    }
  }
}
