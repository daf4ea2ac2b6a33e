/** When a clear of the thread-safe queue returns under every schedule. */
module ClearTermination {
  import opened Wrappers
  import opened Counting
  import opened ThreadQueue
  import opened QueueProgress
  import opened QueueHistory

  /** The clear with this number is in its loop and a dequeue is in flight: it will never return. */
  predicate DoomedCall<T>(s: State<T>, c: nat, call: nat) {
    c < |s.pcs| && s.pcs[c].ClearLoop? && s.pcs[c].call == call && !NoneInFlight(s)
  }

  /** No dequeue is in flight, and none can get there: no token is left, or nobody to take one. */
  predicate OutOfReach<T>(s: State<T>, c: nat) {
    NoneInFlight(s)
    && (s.sem == 0 || forall t | 0 <= t < |s.pcs| && t != c :: !s.pcs[t].Idle? && !s.pcs[t].DeqWait?)
  }

  /** The call with this number was made and is over. */
  predicate Over<T>(s: State<T>, c: nat, call: nat) {
    c < |s.pcs| && CallOf(s.pcs[c]) != Some(call) && call < s.calls
  }

  /** The clear is in its loop and out of reach, or it is over. */
  predicate Settled<T>(s: State<T>, c: nat, call: nat) {
    c < |s.pcs| &&
    if s.pcs[c].ClearLoop? && s.pcs[c].call == call then OutOfReach(s, c) else Over(s, c, call)
  }

  lemma OwnStepSettles<T>(s: State<T>, c: nat, a: Action<T>, call: nat)
    requires Inv(s) && c < |s.pcs| && s.pcs[c].ClearLoop? && s.pcs[c].call == call < s.calls && OutOfReach(s, c)
    requires Next(s, c, a).Some?
    ensures Settled(Next(s, c, a).value, c, call)
    ensures s.pcs[c].i < |s.queue| ==>
              && Next(s, c, a).value.pcs[c] == ClearLoop(call, s.pcs[c].i + 1)
              && Next(s, c, a).value.queue == s.queue
    ensures s.pcs[c].i >= |s.queue| ==> Next(s, c, a).value.pcs[c] == ClearUnlock
  {
    InFlightWhileClearing(s, c);
    hide Sum;
  }

  lemma OtherStepSettles<T>(s: State<T>, c: nat, t: nat, a: Action<T>, call: nat)
    requires Inv(s) && c < |s.pcs| && s.pcs[c].ClearLoop? && s.pcs[c].call == call && OutOfReach(s, c)
    requires t < |s.pcs| && t != c && Next(s, t, a).Some?
    ensures Settled(Next(s, t, a).value, c, call)
    ensures Next(s, t, a).value.pcs[c] == s.pcs[c] && Next(s, t, a).value.queue == s.queue
  {
    NextMovesOne(s, t, a);
    hide Sum;
  }

  /** A call that is over stays over, as later calls have later numbers. */
  lemma OverStaysOver<T>(s: State<T>, c: nat, t: nat, a: Action<T>, call: nat)
    requires Over(s, c, call)
    requires t < |s.pcs| && Next(s, t, a).Some?
    ensures Over(Next(s, t, a).value, c, call)
  {
    NextCall(s, t, a);
    NextMovesOne(s, t, a);
    hide Next;
  }

  lemma NextSettles<T>(s: State<T>, c: nat, t: nat, a: Action<T>, call: nat)
    requires Inv(s) && Settled(s, c, call) && call < s.calls
    requires t < |s.pcs| && Next(s, t, a).Some?
    ensures Settled(Next(s, t, a).value, c, call) && call < Next(s, t, a).value.calls
  {
    NextCall(s, t, a);
    if s.pcs[c].ClearLoop? && s.pcs[c].call == call {
      if t == c {
        OwnStepSettles(s, c, a, call);
      } else {
        OtherStepSettles(s, c, t, a, call);
      }
    } else {
      OverStaysOver(s, c, t, a, call);
    }
  }

  lemma {:induction false} RunSettles<T>(s: State<T>, c: nat, call: nat, events: seq<Event<T>>)
    requires Inv(s) && Settled(s, c, call) && call < s.calls && Run(s, events).Some?
    ensures Inv(Run(s, events).value) && Settled(Run(s, events).value, c, call)
    decreases |events|
  {
    hide Next, Inv, Settled;
    if events != [] {
      var t, a := events[0].thread, events[0].action;
      NextKeepsInv(s, t, a);
      NextSettles(s, c, t, a, call);
      RunSettles(Next(s, t, a).value, c, call, events[1..]);
    }
  }

  lemma {:induction false} RunStaysOver<T>(s: State<T>, c: nat, call: nat, events: seq<Event<T>>)
    requires Over(s, c, call) && Run(s, events).Some?
    ensures Over(Run(s, events).value, c, call)
    decreases |events|
  {
    hide Next, Over;
    if events != [] {
      OverStaysOver(s, c, events[0].thread, events[0].action, call);
      RunStaysOver(Next(s, events[0].thread, events[0].action).value, c, call, events[1..]);
    }
  }

  /** A thread that can take a token dooms the clear. */
  lemma InReachIsDoomed<T>(s: State<T>, c: nat, call: nat, t: nat) returns (events: seq<Event<T>>)
    requires Inv(s) && c < |s.pcs| && s.pcs[c].ClearLoop? && s.pcs[c].call == call && s.sem > 0
    requires t < |s.pcs| && t != c && (s.pcs[t].Idle? || s.pcs[t].DeqWait?)
    ensures Run(s, events).Some? && DoomedCall(Run(s, events).value, c, call)
  {
    hide Inv;
    var s1 := if s.pcs[t].Idle? then Next(s, t, StartDequeue).value else s;
    var s2 := Next(s1, t, Continue).value;
    assert s2.pcs[t].DeqLock?;
    RunNothing(s1);
    var take: Event<T> := Event(t, Continue);
    RunStep(s1, take, []);
    assert [take] + [] == [take];
    RunNothing(s2);
    events := [take];
    if s.pcs[t].Idle? {
      var start: Event<T> := Event(t, StartDequeue);
      RunStep(s, start, [take]);
      events := [start] + [take];
    }
  }

  /**
   No schedule whatever dooms the clear if and only if no dequeue is in flight and, as long as
   tokens are left, no other thread is between calls or waiting for one.
   */
  lemma ClearIsSafe<T>(s: State<T>, c: nat)
    requires Inv(s) && Numbered(s) && c < |s.pcs| && s.pcs[c].ClearLoop?
    ensures OutOfReach(s, c) <==>
            forall events: seq<Event<T>> ::
              Run(s, events).Some? ==> !DoomedCall(Run(s, events).value, c, s.pcs[c].call)
  {
    var call := s.pcs[c].call;
    assert CallOf(s.pcs[c]).Some?;
    if OutOfReach(s, c) {
      forall events: seq<Event<T>> | Run(s, events).Some?
        ensures !DoomedCall(Run(s, events).value, c, call)
      {
        RunSettles(s, c, call, events);
      }
    } else if !NoneInFlight(s) {
      RunNothing(s);
      assert Run(s, []).Some? && DoomedCall(Run(s, []).value, c, call);
    } else {
      var t :| 0 <= t < |s.pcs| && t != c && (s.pcs[t].Idle? || s.pcs[t].DeqWait?);
      var events := InReachIsDoomed(s, c, call, t);
      assert Run(s, events).Some? && DoomedCall(Run(s, events).value, c, call);
    }
  }

  /**
   Out of reach, a clear returns under every schedule: its next step is always enabled, and after
   as many steps of its own as there are items left, and one more, the call is over.
   */
  lemma {:induction false} ClearReturns<T>(s: State<T>, c: nat, events: seq<Event<T>>)
    requires Inv(s) && Numbered(s) && c < |s.pcs| && s.pcs[c].ClearLoop? && OutOfReach(s, c)
    requires Run(s, events).Some?
    ensures var s', call := Run(s, events).value, s.pcs[c].call;
            && c < |s'.pcs|
            && (s'.pcs[c].ClearLoop? && s'.pcs[c].call == call ==> Advance(s', c).Some?)
            && (StepsOf(c, events) > |s.queue| - s.pcs[c].i ==> Over(s', c, call))
    decreases |events|
  {
    var call := s.pcs[c].call;
    assert CallOf(s.pcs[c]) == Some(call);
    ClearIsEnabled(s, c);
    InFlightWhileClearing(s, c);
    if events != [] {
      var t, a := events[0].thread, events[0].action;
      var s1 := Next(s, t, a).value;
      NextKeepsInv(s, t, a);
      NextKeepsNumbered(s, t, a);
      NextCall(s, t, a);
      if t == c {
        OwnStepSettles(s, c, a, call);
        hide Next, Advance, Inv, Numbered, OutOfReach, NoneInFlight, Sum;
        if s1.pcs[c].ClearUnlock? {
          RunStaysOver(s1, c, call, events[1..]);
        } else {
          ClearReturns(s1, c, events[1..]);
        }
      } else {
        OtherStepSettles(s, c, t, a, call);
        hide Next, Advance, Inv, Numbered, OutOfReach, NoneInFlight, Sum;
        ClearReturns(s1, c, events[1..]);
      }
    }
  }

  // ---- a clear that has not locked the mutex yet ---------------------------

  /** This clear is not over, and some clear holds the mutex for ever. */
  ghost predicate Stranded<T>(s: State<T>, c: nat, call: nat) {
    c < |s.pcs| && CallOf(s.pcs[c]) == Some(call) && exists k: nat, d: nat :: Doomed(s, k, d)
  }

  /** There is no other thread, or all of them are dequeues waiting for a token and there is none. */
  predicate OthersWait<T>(s: State<T>, c: nat) {
    (s.sem == 0 || |s.pcs| == 1) && forall t | 0 <= t < |s.pcs| && t != c :: s.pcs[t].DeqWait?
  }

  predicate Undisturbed<T>(s: State<T>, c: nat, call: nat) {
    || Over(s, c, call)
    || (c < |s.pcs| && OthersWait(s, c) && (s.pcs[c].ClearLock? || s.pcs[c].ClearLoop?) && s.pcs[c].call == call)
  }

  lemma {:induction false} RunUndisturbed<T>(s: State<T>, c: nat, call: nat, events: seq<Event<T>>)
    requires Undisturbed(s, c, call) && call < s.calls && Run(s, events).Some?
    ensures Undisturbed(Run(s, events).value, c, call)
    decreases |events|
  {
    if events != [] {
      var t, a := events[0].thread, events[0].action;
      NextCall(s, t, a);
      NextUndisturbed(s, c, call, t, a);
      hide Next, Undisturbed;
      RunUndisturbed(Next(s, t, a).value, c, call, events[1..]);
    }
  }

  lemma NextUndisturbed<T>(s: State<T>, c: nat, call: nat, t: nat, a: Action<T>)
    requires Undisturbed(s, c, call) && call < s.calls
    requires t < |s.pcs| && Next(s, t, a).Some?
    ensures Undisturbed(Next(s, t, a).value, c, call)
  {
    NextMovesOne(s, t, a);
    if Over(s, c, call) {
      OverStaysOver(s, c, t, a, call);
    }
  }

  predicate InClear<T>(pc: Pc<T>) {
    pc.ClearLock? || pc.ClearLoop? || pc.ClearUnlock?
  }

  /** How far a thread is from taking a token, which it may have to provide itself. */
  function Far<T>(s: State<T>, u: nat): nat
    requires u < |s.pcs|
  {
    match s.pcs[u]
    case ClearLock(_) => 3
    case ClearLoop(_, _) => 2
    case ClearUnlock => 1
    case CountLock | HeadLock => 13
    case CountIn | HeadIn | DeqIn(_) => 12
    case CountUnlock(_) | HeadUnlock(_) | DeqUnlock(_, _) => 11
    case Idle => if s.sem > 0 then 4 else 9
    case EnqLock(_) => 8
    case EnqPush(_) => 7
    case EnqNotify => 6
    case EnqUnlock => if s.sem > 0 then 5 else 10
    case DeqWait(_) => 3
    case _ => 0
  }

  function Stage<T>(s: State<T>, u: nat): nat
    requires u < |s.pcs|
  {
    if InClear(s.pcs[u]) then 2 else if s.sem == 0 && !s.pcs[u].DeqLock? then 1 else 0
  }

  function LoopLeft<T>(s: State<T>, u: nat): int
    requires u < |s.pcs|
  {
    if s.pcs[u].ClearLoop? then |s.queue| - s.pcs[u].i else 0
  }

  function ChoiceOf<T>(s: State<T>, u: nat, item: T): Action<T>
    requires u < |s.pcs|
  {
    if !s.pcs[u].Idle? then Continue else if s.sem > 0 then StartDequeue else StartEnqueue(item)
  }

  ghost predicate Closer<T>(s: State<T>, u: nat, s': State<T>) {
    && u < |s.pcs| == |s'.pcs| && s'.pcs == s.pcs[u := s'.pcs[u]]
    && (s'.owner.None? || s'.owner == Some(u)) && (s'.pcs[u].DeqWait? ==> s'.sem > 0)
    && LoopLeft(s, u) >= 0
    && (|| Stage(s', u) < Stage(s, u)
        || (Stage(s', u) == Stage(s, u) && Far(s', u) < Far(s, u))
        || (Stage(s', u) == Stage(s, u) && Far(s', u) == Far(s, u) && LoopLeft(s', u) < LoopLeft(s, u)))
  }

  /** With the mutex at hand and no clear doomed the thread comes closer to taking a token. */
  lemma ComesCloser<T>(s: State<T>, u: nat, item: T)
    requires Inv(s) && u < |s.pcs| && (s.owner.None? || s.owner == Some(u))
    requires !s.pcs[u].DeqLock? && (s.pcs[u].DeqWait? ==> s.sem > 0) && (s.pcs[u].ClearLoop? ==> NoneInFlight(s))
    ensures Next(s, u, ChoiceOf(s, u, item)).Some? && Closer(s, u, Next(s, u, ChoiceOf(s, u, item)).value)
  {
    if InClear(s.pcs[u]) {
      ClearComesCloser(s, u);
    } else {
      assert !s.pcs[u].Broken?;
      hide Inv;
      OtherComesCloser(s, u, item);
    }
  }

  lemma ClearComesCloser<T>(s: State<T>, u: nat)
    requires Inv(s) && u < |s.pcs| && (s.owner.None? || s.owner == Some(u))
    requires InClear(s.pcs[u]) && (s.pcs[u].ClearLoop? ==> NoneInFlight(s))
    ensures Next(s, u, Continue).Some? && Closer(s, u, Next(s, u, Continue).value)
  {
    assert Inside(s.pcs[u]) <==> s.owner == Some(u);
    if s.pcs[u].ClearLoop? {
      InFlightWhileClearing(s, u);
      ClearIsEnabled(s, u);
    }
    hide Sum, Inv;
  }

  lemma OtherComesCloser<T>(s: State<T>, u: nat, item: T)
    requires u < |s.pcs| && (s.owner.None? || s.owner == Some(u)) && !s.pcs[u].Broken?
    requires Inside(s.pcs[u]) <==> s.owner == Some(u)
    requires !InClear(s.pcs[u]) && !s.pcs[u].DeqLock? && (s.pcs[u].DeqWait? ==> s.sem > 0)
    ensures Next(s, u, ChoiceOf(s, u, item)).Some? && Closer(s, u, Next(s, u, ChoiceOf(s, u, item)).value)
  {
  }

  /** A thread with the mutex at hand takes a token and lets the clear lock the mutex. */
  lemma {:induction false} DriveToStranded<T>(s: State<T>, c: nat, call: nat, u: nat, item: T)
    returns (events: seq<Event<T>>)
    requires Inv(s) && c < |s.pcs| && u < |s.pcs| && u != c && s.pcs[c] == ClearLock(call)
    requires (s.owner.None? || s.owner == Some(u)) && (s.pcs[u].DeqWait? ==> s.sem > 0)
    ensures Run(s, events).Some? && Stranded(Run(s, events).value, c, call)
    decreases Stage(s, u), Far(s, u), LoopLeft(s, u)
  {
    var e: Event<T> := if s.pcs[u].DeqLock? then Event(c, Continue) else Event(u, ChoiceOf(s, u, item));
    if s.pcs[u].ClearLoop? && !NoneInFlight(s) {
      var d :| 0 <= d < |s.pcs| && s.pcs[d].DeqLock?;
      assert Doomed(s, u, d);
      RunNothing(s);
      events := [];
    } else if s.pcs[u].DeqLock? {
      var s' := Next(s, c, Continue).value;
      assert Doomed(s', c, u);
      RunStep(s, e, []);
      RunNothing(s');
      assert [e] + [] == [e];
      events := [e];
    } else {
      ComesCloser(s, u, item);
      NextKeepsInv(s, u, e.action);
      hide Next, Inv, Far, Stage, LoopLeft, ChoiceOf, NoneInFlight, Doomed, Stranded;
      var rest := DriveToStranded(Next(s, u, e.action).value, c, call, u, item);
      RunStep(s, e, rest);
      events := [e] + rest;
    }
  }

  lemma OtherThread<T>(s: State<T>, c: nat) returns (u: nat)
    requires c < |s.pcs| && !OthersWait(s, c)
    ensures u < |s.pcs| && u != c && (s.pcs[u].DeqWait? ==> s.sem > 0)
  {
    if s.sem == 0 {
      u :| u < |s.pcs| && u != c && !s.pcs[u].DeqWait?;
    } else {
      u := if c == 0 then 1 else 0;
    }
  }

  /**
   A clear about to lock the mutex is never stranded, whatever the schedule, if and only if all other
   threads, if there are any, are dequeues waiting for a token and there is none.
   */
  lemma ClearIsSafeFromTheStart<T>(s: State<T>, c: nat, item: T)
    requires Inv(s) && Numbered(s) && c < |s.pcs| && s.pcs[c].ClearLock?
    ensures OthersWait(s, c) <==>
            forall events: seq<Event<T>> ::
              Run(s, events).Some? ==> !Stranded(Run(s, events).value, c, s.pcs[c].call)
  {
    var call := s.pcs[c].call;
    assert CallOf(s.pcs[c]) == Some(call);
    if OthersWait(s, c) {
      forall events: seq<Event<T>> | Run(s, events).Some?
        ensures !Stranded(Run(s, events).value, c, call)
      {
        RunUndisturbed(s, c, call, events);
      }
    } else {
      assert !Inside(s.pcs[c]);
      var u: nat := if s.owner.Some? then s.owner.value else c;
      if s.owner.None? {
        u := OtherThread(s, c);
      }
      var events := DriveToStranded(s, c, call, u, item);
      assert Run(s, events).Some? && Stranded(Run(s, events).value, c, call);
    }
  }
}
