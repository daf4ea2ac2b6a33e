/**
 When a wait of the semaphore in AppleSemaphore sleeps although the counter is positive, and when
 it returns false without a timeout.
 */
module AppleWakeups {
  import opened Wrappers
  import opened Counting
  import opened AppleSemaphore

  // ---- over schedules ------------------------------------------------------

  predicate StoresIncrement(s: State, e: Event)
    requires e.thread < |s.pcs|
  {
    e.action.Continue? && s.pcs[e.thread].NotifyStore?
  }

  predicate StoresDecrement(s: State, e: Event)
    requires e.thread < |s.pcs|
  {
    e.action.Continue? && s.pcs[e.thread].WaitStore?
  }

  /** Steps of the run that store an incremented counter. */
  function Increments(s: State, events: seq<Event>): nat
    requires Run(s, events).Some?
    decreases |events|
  {
    if events == [] then 0
    else
      (if StoresIncrement(s, events[0]) then 1 else 0)
      + Increments(Next(s, events[0].thread, events[0].action).value, events[1..])
  }

  /** Steps of the run that store a decremented counter. */
  function Decrements(s: State, events: seq<Event>): nat
    requires Run(s, events).Some?
    decreases |events|
  {
    if events == [] then 0
    else
      (if StoresDecrement(s, events[0]) then 1 else 0)
      + Decrements(Next(s, events[0].thread, events[0].action).value, events[1..])
  }

  lemma NextBalance(value: int, s: State, e: Event)
    requires Inv(value, s) && e.thread < |s.pcs| && Next(s, e.thread, e.action).Some?
    ensures Next(s, e.thread, e.action).value.count
         == s.count + (if StoresIncrement(s, e) then 1 else 0) - (if StoresDecrement(s, e) then 1 else 0)
  {
    assert Remembers(s, s.pcs[e.thread]);
    hide Sum, Exclusive;
  }

  lemma {:induction false} RunBalance(value: int, s: State, events: seq<Event>)
    requires Inv(value, s) && Run(s, events).Some?
    ensures Run(s, events).value.count == s.count + Increments(s, events) - Decrements(s, events)
    decreases |events|
  {
    hide Next, Inv, StoresIncrement, StoresDecrement;
    if events != [] {
      NextBalance(value, s, events[0]);
      NextKeepsInv(value, s, events[0].thread, events[0].action);
      RunBalance(value, Next(s, events[0].thread, events[0].action).value, events[1..]);
    }
  }

  /**
   A wait reads zero at the start of a schedule. When it is about to sleep it goes to sleep on a
   positive counter if and only if the schedule stored more increments than decrements; when it
   tests again after waking up it gives up, without a timeout, if and only if it did not.
   */
  lemma ScheduleDecides(value: nat, threads: nat, before: seq<Event>, t: nat, events: seq<Event>)
    requires Run(Init(value, threads), before).Some?
    requires var s := Run(Init(value, threads), before).value;
             && t < |s.pcs| && s.pcs[t].WaitTest? && s.count <= 0
             && Run(s, events).Some?
             && t < |Run(s, events).value.pcs|
    ensures var s := Run(Init(value, threads), before).value;
            var s' := Run(s, events).value;
            && (s'.pcs[t].CondEnter? ==>
                 && Advance(s', t) == Some(Goto(s', t, CondBlocked(s'.pcs[t].timed)).(waitOwner := None))
                 && (s'.count > 0 <==> Increments(s, events) > Decrements(s, events)))
            && (s'.pcs[t].AgainTest? ==>
                 && Advance(s', t).Some?
                 && (Advance(s', t).value.pcs[t] == AgainEmpty <==> Increments(s, events) <= Decrements(s, events)))
  {
    InitInv(value, threads);
    RunKeepsInv(value, Init(value, threads), before);
    var s := Run(Init(value, threads), before).value;
    RunBalance(value, s, events);
    hide Run, Increments, Decrements, Sum, Exclusive;
  }

  // ---- over states ---------------------------------------------------------

  /** The wait has read zero and has not gone to sleep yet. */
  predicate FallingAsleep(pc: Pc) {
    pc.WaitEmpty? || pc.CondLock? || pc.CondEnter?
  }

  /** Own steps until the wait is about to sleep. */
  function StepsLeft(pc: Pc): nat
    requires FallingAsleep(pc)
  {
    if pc.WaitEmpty? then 2 else if pc.CondLock? then 1 else 0
  }

  function StepsOf(t: nat, events: seq<Event>): nat
    decreases |events|
  {
    if events == [] then 0
    else (if events[0].thread == t then 1 else 0) + StepsOf(t, events[1..])
  }

  /** After this schedule the wait is about to sleep on a positive counter. */
  predicate SleepsPositive(s: State, t: nat, events: seq<Event>)
    requires t < |s.pcs| && FallingAsleep(s.pcs[t])
  {
    && StepsOf(t, events) == StepsLeft(s.pcs[t])
    && Run(s, events).Some?
    && t < |Run(s, events).value.pcs|
    && Run(s, events).value.pcs[t].CondEnter? && Run(s, events).value.count > 0
  }

  /** From here a thread can store an increment without the wait mutex, even if the counter stays zero. */
  predicate CanStore(pc: Pc) {
    pc.Idle? || pc.WaitStore? || pc.WaitTaken? || pc.AgainLock? || pc.AgainTest? || pc.AgainEmpty?
    || pc.NotifyLock? || pc.NotifyRead? || pc.NotifyStore? || pc.NotifyUnlock? || pc.NotifySignal?
    || pc.ValueLock? || pc.ValueRead? || pc.ValueUnlock?
  }

  /** Before the wait has the wait mutex any other thread is enough; after that it must be one that does without it. */
  predicate Endangered(s: State, t: nat)
    requires t < |s.pcs|
  {
    || s.count > 0
    || (if s.pcs[t].CondEnter? then exists u :: 0 <= u < |s.pcs| && u != t && CanStore(s.pcs[u])
        else |s.pcs| > 1)
  }

  // ---- nobody can store an increment ---------------------------------------

  /** The wait holds the wait mutex and no other thread can do without it. */
  predicate Calm(s: State, t: nat) {
    && t < |s.pcs| && s.pcs[t].CondEnter? && s.count == 0
    && forall u | 0 <= u < |s.pcs| && u != t :: !CanStore(s.pcs[u])
  }

  lemma NextKeepsCalm(value: int, s: State, t: nat, e: Event)
    requires Inv(value, s) && Calm(s, t) && e.thread != t
    requires e.thread < |s.pcs| && Next(s, e.thread, e.action).Some?
    ensures Calm(Next(s, e.thread, e.action).value, t)
  {
    NextMoves(s, e.thread, e.action);
    assert !HoldsWait(s.pcs[e.thread]);
    hide Sum;
  }

  lemma {:induction false} RunKeepsCalm(value: int, s: State, t: nat, events: seq<Event>)
    requires Inv(value, s) && Calm(s, t) && StepsOf(t, events) == 0 && Run(s, events).Some?
    ensures Calm(Run(s, events).value, t)
    decreases |events|
  {
    hide Next, Inv, Calm;
    if events != [] {
      NextKeepsCalm(value, s, t, events[0]);
      NextKeepsInv(value, s, events[0].thread, events[0].action);
      RunKeepsCalm(value, Next(s, events[0].thread, events[0].action).value, t, events[1..]);
    }
  }

  /** A thread alone falls asleep on zero. */
  lemma {:induction false} AloneSleepsOnZero(s: State, t: nat, events: seq<Event>)
    requires |s.pcs| == 1 && t == 0 && FallingAsleep(s.pcs[t]) && s.count <= 0
    requires StepsOf(t, events) == StepsLeft(s.pcs[t]) && Run(s, events).Some?
    ensures Run(s, events).value.count <= 0
    decreases |events|
  {
    if events != [] {
      AloneSleepsOnZero(Next(s, t, events[0].action).value, t, events[1..]);
    }
  }

  // ---- driving another thread to the store ---------------------------------

  /** The counter is positive and the wait can go on. */
  predicate Reached(s: State, t: nat) {
    s.count > 0 && (s.waitOwner.None? || s.waitOwner == Some(t))
  }

  /** No third thread holds a mutex, and `u` can do without one that `t` holds. */
  predicate Free(s: State, t: nat, u: nat) {
    && t < |s.pcs| && u < |s.pcs| && u != t && FallingAsleep(s.pcs[t]) && !s.pcs[t].WaitEmpty?
    && (s.countOwner.None? || s.countOwner == Some(u))
    && (s.waitOwner.None? || s.waitOwner == Some(u) || (s.waitOwner == Some(t) && CanStore(s.pcs[u])))
  }

  /** Own steps of a thread until it has stored an increment, at most, while the counter is zero. */
  function Distance(pc: Pc): nat {
    match pc
    case NotifyStore(_, _) => 1
    case NotifyRead(_) => 2
    case NotifyLock(_) => 3
    case Idle => 4
    case NotifySignal(_) => 5
    case NotifyUnlock(_) => 6
    case ValueUnlock(_) => 5
    case ValueRead => 6
    case ValueLock => 7
    case WaitTaken => 5
    case WaitStore(_) => 6
    case AgainEmpty => 5
    case AgainTest => 6
    case AgainLock => 7
    case CondHeld(_) => 8
    case CondWake(_) => 9
    case CondBlocked(_) => 10
    case CondEnter(_) => 11
    case CondLock(_) => 12
    case WaitEmpty(_) => 13
    case WaitTest(_) => 14
    case WaitLock(_) => 15
  }

  /** What the thread does next; a notify with nobody asleep goes on without waking anyone. */
  function Choice(s: State, u: nat, sleeper: nat): Action
    requires u < |s.pcs|
  {
    match s.pcs[u]
    case Idle => StartNotify(1)
    case CondBlocked(_) => Wake
    case NotifySignal(_) => if SomeoneBlocked(s) then Signal(sleeper) else Continue
    case _ => Continue
  }

  lemma ChoiceIsEnabled(value: int, s: State, t: nat, u: nat, sleeper: nat)
    requires Inv(value, s) && Free(s, t, u) && !Reached(s, t)
    requires SomeoneBlocked(s) ==> sleeper < |s.pcs| && s.pcs[sleeper].CondBlocked?
    ensures Next(s, u, Choice(s, u, sleeper)).Some?
    ensures var s' := Next(s, u, Choice(s, u, sleeper)).value;
            |s'.pcs| == |s.pcs| && s'.pcs[t] == s.pcs[t]
  {
    assert HoldsCount(s.pcs[u]) <==> s.countOwner == Some(u);
    assert HoldsWait(s.pcs[u]) <==> s.waitOwner == Some(u);
    hide Sum, Inv, Exclusive;
  }

  predicate InWait(pc: Pc) {
    pc.WaitLock? || pc.WaitTest? || pc.WaitStore? || pc.WaitTaken? || pc.WaitEmpty? || pc.CondLock? || pc.CondEnter?
    || pc.CondBlocked? || pc.CondWake?
  }

  lemma WaitComesCloser(value: int, s: State, t: nat, u: nat, sleeper: nat)
    requires Inv(value, s) && Free(s, t, u) && s.count == 0
    requires SomeoneBlocked(s) ==> sleeper < |s.pcs| && s.pcs[sleeper].CondBlocked?
    requires Next(s, u, Choice(s, u, sleeper)).Some?
    requires u < |Next(s, u, Choice(s, u, sleeper)).value.pcs|
    requires InWait(s.pcs[u])
    ensures var s' := Next(s, u, Choice(s, u, sleeper)).value;
            s'.count > 0 || (s'.count == 0 && Distance(s'.pcs[u]) < Distance(s.pcs[u]))
  {
    assert Remembers(s, s.pcs[u]);
    hide Sum, Inv, Exclusive, SomeoneBlocked, CanStore, HoldsCount, HoldsWait;
  }

  lemma OtherComesCloser(value: int, s: State, t: nat, u: nat, sleeper: nat)
    requires Inv(value, s) && Free(s, t, u) && s.count == 0
    requires SomeoneBlocked(s) ==> sleeper < |s.pcs| && s.pcs[sleeper].CondBlocked?
    requires Next(s, u, Choice(s, u, sleeper)).Some?
    requires u < |Next(s, u, Choice(s, u, sleeper)).value.pcs|
    requires !InWait(s.pcs[u])
    ensures var s' := Next(s, u, Choice(s, u, sleeper)).value;
            s'.count > 0 || (s'.count == 0 && Distance(s'.pcs[u]) < Distance(s.pcs[u]))
  {
    assert Remembers(s, s.pcs[u]);
    hide Sum, Inv, Exclusive, SomeoneBlocked, CanStore, HoldsCount, HoldsWait;
  }

  /** With the counter at zero the chosen step brings the thread closer to its store, or is it. */
  lemma ChoiceComesCloser(value: int, s: State, t: nat, u: nat, sleeper: nat)
    requires Inv(value, s) && Free(s, t, u) && s.count == 0
    requires SomeoneBlocked(s) ==> sleeper < |s.pcs| && s.pcs[sleeper].CondBlocked?
    requires Next(s, u, Choice(s, u, sleeper)).Some?
    requires u < |Next(s, u, Choice(s, u, sleeper)).value.pcs|
    ensures var s' := Next(s, u, Choice(s, u, sleeper)).value;
            s'.count > 0 || (s'.count == 0 && Distance(s'.pcs[u]) < Distance(s.pcs[u]))
  {
    if InWait(s.pcs[u]) {
      WaitComesCloser(value, s, t, u, sleeper);
    } else {
      OtherComesCloser(value, s, t, u, sleeper);
    }
  }

  lemma ChoiceKeepsOwners(value: int, s: State, t: nat, u: nat, sleeper: nat)
    requires Inv(value, s) && Free(s, t, u) && s.count == 0
    requires SomeoneBlocked(s) ==> sleeper < |s.pcs| && s.pcs[sleeper].CondBlocked?
    requires Next(s, u, Choice(s, u, sleeper)).Some?
    requires u < |Next(s, u, Choice(s, u, sleeper)).value.pcs|
    ensures var s' := Next(s, u, Choice(s, u, sleeper)).value;
            && (s'.countOwner.None? || s'.countOwner == Some(u))
            && (s'.waitOwner.None? || s'.waitOwner == Some(u) || (s'.waitOwner == Some(t) && CanStore(s'.pcs[u])))
            && (s'.count > 0 ==> s'.waitOwner != Some(u))
  {
    assert Remembers(s, s.pcs[u]);
    assert HoldsWait(s.pcs[u]) <==> s.waitOwner == Some(u);
    hide Sum, Inv, Exclusive, SomeoneBlocked;
  }

  /** With the counter positive it gives up the wait mutex. */
  lemma ChoiceLetsGo(value: int, s: State, t: nat, u: nat, sleeper: nat)
    requires Inv(value, s) && Free(s, t, u) && s.count > 0 && !Reached(s, t)
    ensures Next(s, u, Choice(s, u, sleeper)).Some?
    ensures Reached(Next(s, u, Choice(s, u, sleeper)).value, t)
  {
    assert s.waitOwner == Some(u) && HoldsWait(s.pcs[u]);
    hide Sum, Inv, Exclusive, SomeoneBlocked;
  }

  lemma StillFree(s: State, s': State, t: nat, u: nat)
    requires Free(s, t, u) && |s'.pcs| == |s.pcs| && s'.pcs[t] == s.pcs[t]
    requires s'.countOwner.None? || s'.countOwner == Some(u)
    requires s'.waitOwner.None? || s'.waitOwner == Some(u) || (s'.waitOwner == Some(t) && CanStore(s'.pcs[u]))
    requires s'.count >= 0 && (s'.count > 0 ==> s'.waitOwner != Some(u))
    ensures s'.count > 0 ==> Reached(s', t)
    ensures s'.count == 0 ==> Free(s', t, u)
  {
  }

  lemma CounterIsNatural(value: int, s: State)
    requires Inv(value, s)
    ensures s.count >= 0
  {
  }

  lemma RunCons(s: State, e: Event, events: seq<Event>, t: nat)
    requires e.thread < |s.pcs| && Next(s, e.thread, e.action).Some?
    ensures Run(s, [e] + events) == Run(Next(s, e.thread, e.action).value, events)
    ensures StepsOf(t, [e] + events) == (if e.thread == t then 1 else 0) + StepsOf(t, events)
  {
    hide Next;
    assert ([e] + events)[1..] == events;
  }

  /** The other thread runs alone until the counter is positive. */
  lemma {:induction false} Drive(value: int, s: State, t: nat, u: nat) returns (events: seq<Event>)
    requires Inv(value, s) && (Reached(s, t) || Free(s, t, u))
    requires t < |s.pcs| && u < |s.pcs| && u != t
    ensures Run(s, events).Some? && StepsOf(t, events) == 0
    ensures var s' := Run(s, events).value;
            Inv(value, s') && Reached(s', t) && |s'.pcs| == |s.pcs| && s'.pcs[t] == s.pcs[t]
    decreases if Reached(s, t) then 0 else 1 + Distance(s.pcs[u])
  {
    hide Next, Inv, Free, Reached, Choice, Distance;
    events := [];
    if !Reached(s, t) {
      var sleeper := 0;
      if SomeoneBlocked(s) {
        sleeper :| 0 <= sleeper < |s.pcs| && s.pcs[sleeper].CondBlocked?;
      }
      var e := Event(u, Choice(s, u, sleeper));
      ChoiceIsEnabled(value, s, t, u, sleeper);
      if s.count == 0 {
        ChoiceComesCloser(value, s, t, u, sleeper);
        ChoiceKeepsOwners(value, s, t, u, sleeper);
        StillFree(s, Next(s, u, e.action).value, t, u);
      } else {
        CounterIsNatural(value, s);
        ChoiceLetsGo(value, s, t, u, sleeper);
      }
      NextKeepsInv(value, s, u, e.action);
      var s' := Next(s, u, e.action).value;
      var rest := Drive(value, s', t, u);
      RunCons(s, e, rest, t);
      events := [e] + rest;
    }
  }

  lemma {:induction false} RunAppend(s: State, es: seq<Event>, fs: seq<Event>, t: nat)
    requires Run(s, es).Some?
    ensures Run(s, es + fs) == Run(Run(s, es).value, fs)
    ensures StepsOf(t, es + fs) == StepsOf(t, es) + StepsOf(t, fs)
    decreases |es|
  {
    hide Next;
    if es == [] {
      assert es + fs == fs;
    } else {
      assert (es + fs)[1..] == es[1..] + fs;
      RunAppend(Next(s, es[0].thread, es[0].action).value, es[1..], fs, t);
    }
  }

  lemma RunOne(s: State, e: Event, t: nat)
    requires e.thread < |s.pcs| && Next(s, e.thread, e.action).Some?
    ensures Run(s, [e]) == Next(s, e.thread, e.action)
    ensures StepsOf(t, [e]) == if e.thread == t then 1 else 0
  {
    assert [e] + [] == [e];
    RunCons(s, e, [], t);
  }

  /** Whoever holds the wait mutex without sleeping lets go of it in one step. */
  lemma LetGo(value: int, s: State, t: nat, w: nat)
    requires Inv(value, s) && t < |s.pcs| && w < |s.pcs| && w != t && s.waitOwner == Some(w)
    ensures Next(s, w, Continue).Some?
    ensures var s' := Next(s, w, Continue).value;
            && |s'.pcs| == |s.pcs| && s'.waitOwner.None? && s'.countOwner == s.countOwner && s'.count == s.count
            && forall u | 0 <= u < |s.pcs| && u != w :: s'.pcs[u] == s.pcs[u]
  {
    assert HoldsWait(s.pcs[w]);
    hide Sum, Exclusive;
  }

  /** A wait that has the counter and finds zero lets go of it. */
  lemma LetGoOfCounter(value: int, s: State, t: nat, v: nat) returns (events: seq<Event>)
    requires Inv(value, s) && t < |s.pcs| && v < |s.pcs| && v != t && s.countOwner == Some(v)
    requires s.count == 0 && !CanStore(s.pcs[v])
    ensures Run(s, events).Some? && StepsOf(t, events) == 0
    ensures var s' := Run(s, events).value;
            && Inv(value, s') && |s'.pcs| == |s.pcs|
            && s'.countOwner.None? && s'.waitOwner == s.waitOwner && s'.count == s.count
            && forall u | 0 <= u < |s.pcs| && u != v :: s'.pcs[u] == s.pcs[u]
  {
    assert HoldsCount(s.pcs[v]);
    var e := Event(v, Continue);
    var s1 := Next(s, v, Continue).value;
    RunOne(s, e, t);
    NextKeepsInv(value, s, v, Continue);
    events := [e];
    if s.pcs[v].WaitTest? {
      assert s1.pcs[v].WaitEmpty?;
      RunOne(s1, e, t);
      NextKeepsInv(value, s1, v, Continue);
      RunAppend(s, [e], [e], t);
      events := [e] + [e];
    }
  }

  // ---- the schedules -------------------------------------------------------

  /** With the wait mutex held, a thread that does without it stores an increment first. */
  lemma StoreBeforeSleep(value: int, s: State, t: nat) returns (events: seq<Event>)
    requires Inv(value, s) && t < |s.pcs| && s.pcs[t].CondEnter? && Endangered(s, t)
    ensures SleepsPositive(s, t, events)
  {
    assert s.waitOwner == Some(t) by { assert HoldsWait(s.pcs[t]); }
    events := [];
    if s.count == 0 {
      var u :| 0 <= u < |s.pcs| && u != t && CanStore(s.pcs[u]);
      var first := [];
      var s1 := s;
      if s.countOwner.Some? && s.countOwner != Some(u) {
        var v := s.countOwner.value;
        OwnerIsInside(value, s, t);
        if CanStore(s.pcs[v]) {
          u := v;
        } else {
          first := LetGoOfCounter(value, s, t, v);
          s1 := Run(s, first).value;
        }
      }
      var rest := Drive(value, s1, t, u);
      RunAppend(s, first, rest, t);
      events := first + rest;
    }
  }

  lemma OwnerIsInside(value: int, s: State, t: nat)
    requires Inv(value, s) && t < |s.pcs| && !HoldsCount(s.pcs[t])
    ensures s.countOwner != Some(t)
  {
  }

  /** At least two threads. */
  lemma AnotherThread(s: State, t: nat) returns (u: nat)
    requires |s.pcs| > 1 && t < |s.pcs|
    ensures u < |s.pcs| && u != t
  {
    u := if t == 0 then 1 else 0;
  }

  /** Behind its test, any other thread stores an increment before the wait locks the wait mutex. */
  lemma StoreBeforeLock(value: int, s: State, t: nat) returns (events: seq<Event>)
    requires Inv(value, s) && t < |s.pcs| && s.pcs[t].CondLock? && Endangered(s, t)
    ensures SleepsPositive(s, t, events)
  {
    assert !HoldsCount(s.pcs[t]) && !HoldsWait(s.pcs[t]);
    var first := [];
    var s1 := s;
    if |s.pcs| > 1 {
      var u := AnotherThread(s, t);
      if s.countOwner.Some? {
        u := s.countOwner.value;
      } else if s.waitOwner.Some? {
        u := s.waitOwner.value;
      }
      if s.waitOwner.Some? && s.waitOwner != Some(u) {
        var e := Event(s.waitOwner.value, Continue);
        LetGo(value, s, t, e.thread);
        RunOne(s, e, t);
        NextKeepsInv(value, s, e.thread, Continue);
        first := [e];
        s1 := Next(s, e.thread, Continue).value;
      }
      var rest := Drive(value, s1, t, u);
      RunAppend(s, first, rest, t);
      first := first + rest;
      s1 := Run(s, first).value;
    }
    LastStep(value, s, t, first);
    events := first + [Event(t, Continue)];
  }

  lemma LastStep(value: int, s: State, t: nat, first: seq<Event>)
    requires t < |s.pcs| && s.pcs[t].CondLock? && Run(s, first).Some? && StepsOf(t, first) == 0
    requires var s' := Run(s, first).value;
             Inv(value, s') && |s'.pcs| == |s.pcs| && s'.pcs[t] == s.pcs[t] && Reached(s', t)
    ensures SleepsPositive(s, t, first + [Event(t, Continue)])
  {
    var s', e := Run(s, first).value, Event(t, Continue);
    assert !HoldsWait(s'.pcs[t]);
    RunOne(s', e, t);
    RunAppend(s, first, [e], t);
  }

  /**
   A wait that has read zero and not gone to sleep can still go to sleep on a positive counter if
   and only if the counter is positive already, or the wait has not got the wait mutex and there is
   any other thread, or it has and some other thread can store an increment without that mutex.
   */
  lemma EndangeredIffSleepsPositive(value: int, s: State, t: nat)
    requires Inv(value, s) && t < |s.pcs| && FallingAsleep(s.pcs[t])
    ensures Endangered(s, t) <==> exists events: seq<Event> :: SleepsPositive(s, t, events)
  {
    if Endangered(s, t) {
      var events := StoreInTime(value, s, t);
      assert SleepsPositive(s, t, events);
    } else {
      forall events: seq<Event>
        ensures !SleepsPositive(s, t, events)
      {
        if StepsOf(t, events) == StepsLeft(s.pcs[t]) && Run(s, events).Some? {
          NeverInTime(value, s, t, events);
        }
      }
    }
  }

  lemma NeverInTime(value: int, s: State, t: nat, events: seq<Event>)
    requires Inv(value, s) && t < |s.pcs| && FallingAsleep(s.pcs[t]) && !Endangered(s, t)
    requires StepsOf(t, events) == StepsLeft(s.pcs[t]) && Run(s, events).Some?
    ensures Run(s, events).value.count <= 0
  {
    CounterIsNatural(value, s);
    hide Inv, Run;
    if s.pcs[t].CondEnter? {
      RunKeepsCalm(value, s, t, events);
    } else {
      AloneSleepsOnZero(s, t, events);
    }
  }

  lemma StoreInTime(value: int, s: State, t: nat) returns (events: seq<Event>)
    requires Inv(value, s) && t < |s.pcs| && FallingAsleep(s.pcs[t]) && Endangered(s, t)
    ensures SleepsPositive(s, t, events)
  {
    if s.pcs[t].CondEnter? {
      events := StoreBeforeSleep(value, s, t);
    } else if s.pcs[t].CondLock? {
      events := StoreBeforeLock(value, s, t);
    } else {
      var e := Event(t, Continue);
      var s1 := Next(s, t, Continue).value;
      NextKeepsInv(value, s, t, Continue);
      assert s1.pcs[t].CondLock? && s1.count == s.count && |s1.pcs| == |s.pcs|;
      hide Inv, Next;
      var rest := StoreBeforeLock(value, s1, t);
      RunCons(s, e, rest, t);
      events := [e] + rest;
    }
  }
}
