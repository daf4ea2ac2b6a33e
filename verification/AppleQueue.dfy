/**
 The thread-safe queue over the semaphore in AppleSemaphore. `dequeue` ignores what `wait` returns,
 and this `wait` can return false without a timeout.
 */
module AppleQueue {
  import opened Wrappers
  import opened Counting
  import A = AppleSemaphore

  /** Where a thread stands in a call of the queue. */
  datatype Pc =
    | Idle
    | DeqWait                      // inside wait
    | DeqLock                      // wait has returned, about to lock
    | DeqIn
    | DeqUnlock(elem: int, place: nat)   // took `elem`, the item removed in this place
    | EnqLock(item: int)
    | EnqPush(item: int)
    | EnqNotify                    // inside notify, with the mutex held
    | EnqUnlock
    | Broken                       // took the front of an empty queue

  /** Shared state, then the history: pushes, removals, and what was returned for each removal. */
  datatype State = State(
    sem: A.State,
    pcs: seq<Pc>,
    queue: seq<int>,
    owner: Option<nat>,
    pushed: seq<int>,
    removed: seq<int>,
    returned: map<nat, int>)

  datatype Action =
    | StartDequeue
    | StartEnqueue(item: int)
    | Continue
    | Inside(a: A.Action)          // a step inside wait or notify

  function Init(threads: nat): State {
    State(A.Init(0, threads), seq(threads, _ => Idle), [], None, [], [], map[])
  }

  function Goto(s: State, t: nat, pc: Pc): State
    requires t < |s.pcs|
  {
    s.(pcs := s.pcs[t := pc])
  }

  function Lock(s: State, t: nat, pc: Pc): Option<State>
    requires t < |s.pcs|
  {
    if s.owner.None? then Some(Goto(s, t, pc).(owner := Some(t))) else None
  }

  /** A step of the semaphore, together with a new place in the queue. */
  function WithSemaphore(s: State, t: nat, a: A.Action, pc: Pc): Option<State>
    requires t < |s.pcs| == |s.sem.pcs|
  {
    match A.Next(s.sem, t, a)
    case None => None
    case Some(sem) => Some(Goto(s, t, pc).(sem := sem))
  }

  function Next(s: State, t: nat, a: Action): Option<State>
    requires t < |s.pcs| == |s.sem.pcs|
  {
    match (s.pcs[t], a)
    case (Idle, StartDequeue) => WithSemaphore(s, t, A.StartWait(false), DeqWait)
    case (DeqWait, Inside(b)) => if s.sem.pcs[t].Idle? then None else WithSemaphore(s, t, b, DeqWait)
    case (DeqWait, Continue) => if s.sem.pcs[t].Idle? then Some(Goto(s, t, DeqLock)) else None
    case (DeqLock, Continue) => Lock(s, t, DeqIn)
    case (DeqIn, Continue) =>
      if s.queue == [] then Some(Goto(s, t, Broken))
      else
        Some(Goto(s, t, DeqUnlock(s.queue[0], |s.removed|)).(
             queue := s.queue[1..],
             removed := s.removed + [s.queue[0]]))
    case (DeqUnlock(x, k), Continue) => Some(Goto(s, t, Idle).(owner := None, returned := s.returned[k := x]))
    case (Idle, StartEnqueue(x)) => Some(Goto(s, t, EnqLock(x)))
    case (EnqLock(x), Continue) => Lock(s, t, EnqPush(x))
    case (EnqPush(x), Continue) =>
      WithSemaphore(s.(queue := s.queue + [x], pushed := s.pushed + [x]), t, A.StartNotify(1), EnqNotify)
    case (EnqNotify, Inside(b)) => if s.sem.pcs[t].Idle? then None else WithSemaphore(s, t, b, EnqNotify)
    case (EnqNotify, Continue) => if s.sem.pcs[t].Idle? then Some(Goto(s, t, EnqUnlock)) else None
    case (EnqUnlock, Continue) => Some(Goto(s, t, Idle).(owner := None))
    case _ => None
  }

  datatype Event = Event(thread: nat, action: Action)

  function Run(s: State, events: seq<Event>): Option<State>
    decreases |events|
  {
    if events == [] then Some(s)
    else if events[0].thread >= |s.pcs| || |s.pcs| != |s.sem.pcs| then None
    else
      match Next(s, events[0].thread, events[0].action)
      case None => None
      case Some(s') => Run(s', events[1..])
  }

  // ---- invariant -----------------------------------------------------------

  /** Where a thread stands in the queue and in the semaphore. */
  datatype Place = Place(call: Pc, inside: A.Pc)

  function Places(s: State): (ps: seq<Place>)
    requires |s.pcs| == |s.sem.pcs|
    ensures |ps| == |s.pcs|
    ensures forall t | 0 <= t < |s.pcs| :: ps[t] == Place(s.pcs[t], s.sem.pcs[t])
  {
    seq(|s.pcs|, t requires 0 <= t < |s.pcs| == |s.sem.pcs| => Place(s.pcs[t], s.sem.pcs[t]))
  }

  /** A call is inside the semaphore exactly while it waits or notifies, once and without a timeout. */
  predicate Linked(p: Place) {
    match p.call
    case DeqWait =>
      (match p.inside
       case Idle | WaitStore(_) | WaitTaken | AgainLock | AgainTest | AgainEmpty => true
       case WaitLock(timed) => !timed
       case WaitTest(timed) => !timed
       case WaitEmpty(timed) => !timed
       case CondLock(timed) => !timed
       case CondEnter(timed) => !timed
       case CondBlocked(timed) => !timed
       case CondWake(expired) => !expired
       case CondHeld(expired) => !expired
       case _ => false)
    case EnqNotify =>
      (match p.inside
       case Idle => true
       case NotifyLock(left) => left == 1
       case NotifyRead(left) => left == 1
       case NotifyStore(left, _) => left == 1
       case NotifyUnlock(left) => left == 1
       case NotifySignal(left) => left == 1
       case _ => false)
    case _ => p.inside.Idle?
  }

  predicate HoldsQueue(pc: Pc) {
    pc.DeqIn? || pc.DeqUnlock? || pc.EnqPush? || pc.EnqNotify? || pc.EnqUnlock? || pc.Broken?
  }

  /** The wait has returned, whatever it returned, and no item has been taken for it. */
  predicate IsTaker(p: Place) {
    p.call.DeqLock? || p.call.DeqIn? || p.call.Broken? || (p.call.DeqWait? && p.inside.Idle?)
  }

  /** The item is in the queue and its increment has not been stored. */
  predicate IsAhead(p: Place) {
    p.call.EnqNotify? && (p.inside.NotifyLock? || p.inside.NotifyRead? || p.inside.NotifyStore?)
  }

  function Due(p: Place): nat {
    if IsTaker(p) || IsAhead(p) then 1 else 0
  }

  predicate Exclusive(s: State) {
    && (s.owner.Some? ==> s.owner.value < |s.pcs|)
    && forall t | 0 <= t < |s.pcs| :: HoldsQueue(s.pcs[t]) <==> s.owner == Some(t)
  }

  /** Items and waits that have returned are as many as increments and what is due. */
  predicate Balanced(s: State)
    requires |s.pcs| == |s.sem.pcs|
  {
    |s.queue| + s.sem.succeeded + s.sem.failed == s.sem.incs + Sum(Due, Places(s))
  }

  predicate AnyBroken(s: State) {
    exists t :: 0 <= t < |s.pcs| && s.pcs[t].Broken?
  }

  predicate AllLinked(s: State)
    requires |s.pcs| == |s.sem.pcs|
  {
    forall t | 0 <= t < |s.pcs| :: Linked(Place(s.pcs[t], s.sem.pcs[t]))
  }

  predicate Inv(s: State) {
    && |s.pcs| == |s.sem.pcs|
    && A.Inv(0, s.sem)
    && Exclusive(s)
    && AllLinked(s)
    && Balanced(s)
    && (AnyBroken(s) ==> s.sem.failed > 0)
  }

  /** The semaphore makes a step of its own, or none. */
  lemma NextInside(s: State, t: nat, a: Action)
    requires t < |s.pcs| == |s.sem.pcs| && Next(s, t, a).Some?
    ensures var s' := Next(s, t, a).value;
            && |s'.pcs| == |s.pcs| && s'.pcs == s.pcs[t := s'.pcs[t]]
            && (s'.sem == s.sem
                || (s.pcs[t].Idle? && A.Next(s.sem, t, A.StartWait(false)) == Some(s'.sem))
                || (s.pcs[t].EnqPush? && A.Next(s.sem, t, A.StartNotify(1)) == Some(s'.sem))
                || (a.Inside? && A.Next(s.sem, t, a.a) == Some(s'.sem)))
  {
    hide A.Next;
  }

  predicate IsSignal(a: Action) {
    a.Inside? && a.a.Signal?
  }

  /** A step moves one thread, and a signal also the thread it wakes. */
  lemma NextPlaces(s: State, t: nat, a: Action)
    requires t < |s.pcs| == |s.sem.pcs| && Next(s, t, a).Some?
    ensures var s' := Next(s, t, a).value;
            |s'.pcs| == |s.pcs| == |s'.sem.pcs|
    ensures var s' := Next(s, t, a).value;
            Places(s')
            == if IsSignal(a) && a.a.woken < |s.pcs|
               then Places(s)[t := Places(s')[t]][a.a.woken := Place(s.pcs[a.a.woken], A.CondWake(false))]
               else Places(s)[t := Places(s')[t]]
    ensures IsSignal(a) ==>
              a.a.woken < |s.pcs| && a.a.woken != t && s.sem.pcs[a.a.woken].CondBlocked?
  {
    NextInside(s, t, a);
    var s' := Next(s, t, a).value;
    hide Next, A.Next;
    if s'.sem != s.sem {
      var b := if s.pcs[t].Idle? then A.StartWait(false) else if s.pcs[t].EnqPush? then A.StartNotify(1) else a.a;
      A.NextPcs(s.sem, t, b);
    }
  }

  /** What a step does to a sum over all threads. */
  lemma NextSum(f: Place -> nat, s: State, t: nat, a: Action)
    requires t < |s.pcs| == |s.sem.pcs| && Next(s, t, a).Some?
    ensures var s' := Next(s, t, a).value;
            && |s'.pcs| == |s.pcs| == |s'.sem.pcs|
            && Sum(f, Places(s'))
            == Sum(f, Places(s)) - f(Places(s)[t]) + f(Places(s')[t])
               + if IsSignal(a) && a.a.woken < |s.pcs|
                 then f(Place(s.pcs[a.a.woken], A.CondWake(false))) - f(Places(s)[a.a.woken])
                 else 0
    ensures f(Places(s)[t]) <= Sum(f, Places(s))
  {
    NextPlaces(s, t, a);
    hide Next, Sum;
    var p := Places(Next(s, t, a).value)[t];
    SumUpdate(f, Places(s), t, p);
    if IsSignal(a) {
      SumUpdate(f, Places(s)[t := p], a.a.woken, Place(s.pcs[a.a.woken], A.CondWake(false)));
    }
  }

  lemma NextKeepsSemaphore(s: State, t: nat, a: Action)
    requires t < |s.pcs| == |s.sem.pcs| && Next(s, t, a).Some? && A.Inv(0, s.sem)
    ensures A.Inv(0, Next(s, t, a).value.sem)
  {
    NextInside(s, t, a);
    hide Next, A.Next, A.Inv;
    var s' := Next(s, t, a).value;
    if s.pcs[t].Idle? && A.Next(s.sem, t, A.StartWait(false)) == Some(s'.sem) {
      A.NextKeepsInv(0, s.sem, t, A.StartWait(false));
    } else if s.pcs[t].EnqPush? && A.Next(s.sem, t, A.StartNotify(1)) == Some(s'.sem) {
      A.NextKeepsInv(0, s.sem, t, A.StartNotify(1));
    } else if a.Inside? && A.Next(s.sem, t, a.a) == Some(s'.sem) {
      A.NextKeepsInv(0, s.sem, t, a.a);
    }
  }

  lemma NextKeepsExclusive(s: State, t: nat, a: Action)
    requires t < |s.pcs| == |s.sem.pcs| && Next(s, t, a).Some? && Exclusive(s)
    ensures Exclusive(Next(s, t, a).value)
  {
    hide A.Next;
  }

  lemma NextKeepsLinked(s: State, t: nat, a: Action)
    requires t < |s.pcs| == |s.sem.pcs| && Next(s, t, a).Some? && AllLinked(s)
    ensures |s.pcs| == |Next(s, t, a).value.pcs| == |Next(s, t, a).value.sem.pcs|
    ensures AllLinked(Next(s, t, a).value)
  {
    var s' := Next(s, t, a).value;
    NextPlaces(s, t, a);
    assert Linked(Places(s)[t]);
    MoverStaysLinked(s, t, a);
    hide Next;
    forall u | 0 <= u < |s'.pcs|
      ensures Linked(Place(s'.pcs[u], s'.sem.pcs[u]))
    {
      assert Linked(Places(s)[u]) && Places(s')[u] == Place(s'.pcs[u], s'.sem.pcs[u]);
    }
  }

  lemma MoverStaysLinked(s: State, t: nat, a: Action)
    requires t < |s.pcs| == |s.sem.pcs| && Next(s, t, a).Some?
    requires Linked(Place(s.pcs[t], s.sem.pcs[t]))
    ensures t < |Next(s, t, a).value.pcs| && t < |Next(s, t, a).value.sem.pcs|
    ensures Linked(Place(Next(s, t, a).value.pcs[t], Next(s, t, a).value.sem.pcs[t]))
  {
  }

  /** What a step does to the balance. */
  lemma NextDue(s: State, t: nat, a: Action)
    requires t < |s.pcs| == |s.sem.pcs| && Next(s, t, a).Some?
    requires Linked(Place(s.pcs[t], s.sem.pcs[t]))
    ensures var s' := Next(s, t, a).value;
            && t < |s'.pcs| && t < |s'.sem.pcs|
            && (|s'.queue| - |s.queue|) + (s'.sem.succeeded - s.sem.succeeded) + (s'.sem.failed - s.sem.failed)
            == (s'.sem.incs - s.sem.incs) + Due(Place(s'.pcs[t], s'.sem.pcs[t])) - Due(Place(s.pcs[t], s.sem.pcs[t]))
            && s'.sem.failed >= s.sem.failed
            && (s'.pcs[t].Broken? ==> s.pcs[t].DeqIn? && s.queue == [])
  {
  }

  lemma NextKeepsBalance(s: State, t: nat, a: Action)
    requires t < |s.pcs| == |s.sem.pcs| && Next(s, t, a).Some? && AllLinked(s) && Balanced(s)
    ensures |Next(s, t, a).value.pcs| == |Next(s, t, a).value.sem.pcs| && Balanced(Next(s, t, a).value)
  {
    NextPlaces(s, t, a);
    NextSum(Due, s, t, a);
    NextDue(s, t, a);
    hide Next, Sum;
    if IsSignal(a) {
      assert Linked(Place(s.pcs[a.a.woken], s.sem.pcs[a.a.woken]));
    }
  }

  /** The length of the queue, from the semaphore and from what is due. */
  lemma QueueLength(s: State)
    requires Inv(s)
    ensures |s.queue| + s.sem.failed == s.sem.count + Sum(A.Taken, s.sem.pcs) + Sum(Due, Places(s))
  {
    hide Sum;
  }

  lemma NextKeepsInv(s: State, t: nat, a: Action)
    requires Inv(s) && t < |s.pcs| && Next(s, t, a).Some?
    ensures Inv(Next(s, t, a).value) && |Next(s, t, a).value.pcs| == |s.pcs|
    ensures Next(s, t, a).value.sem.failed >= s.sem.failed
  {
    NextKeepsSemaphore(s, t, a);
    NextKeepsExclusive(s, t, a);
    NextKeepsLinked(s, t, a);
    NextKeepsBalance(s, t, a);
    NextInside(s, t, a);
    NextDue(s, t, a);
    NextSum(Due, s, t, a);
    QueueLength(s);
    hide Next, A.Inv, A.Next, Sum, Linked;
    assert s.sem.count >= 0 by { CounterIsNatural(s.sem); }
    var s' := Next(s, t, a).value;
    if s'.pcs[t].Broken? {
      assert Due(Places(s)[t]) == 1;
    }
  }

  lemma CounterIsNatural(sem: A.State)
    requires A.Inv(0, sem)
    ensures sem.count >= 0
  {
  }

  lemma InitIsIdle(threads: nat)
    ensures var s := Init(threads);
            && |s.pcs| == |s.sem.pcs| && s.sem.succeeded == s.sem.failed == s.sem.incs == 0
            && forall t | 0 <= t < |s.pcs| :: Places(s)[t] == Place(Idle, A.Idle)
  {
  }

  lemma InitInv(threads: nat)
    ensures Inv(Init(threads))
  {
    hide A.Inv, A.Init, Sum;
    A.InitInv(0, threads);
    var s := Init(threads);
    InitIsIdle(threads);
    var ps := Places(s);
    SumZero(Due, ps);
    assert Balanced(s);
  }

  lemma {:induction false} RunKeepsInv(s: State, events: seq<Event>)
    requires Inv(s) && Run(s, events).Some?
    ensures Inv(Run(s, events).value) && |Run(s, events).value.pcs| == |s.pcs|
    ensures Run(s, events).value.sem.failed >= s.sem.failed
    decreases |events|
  {
    hide Next, Inv;
    if events != [] {
      NextKeepsInv(s, events[0].thread, events[0].action);
      RunKeepsInv(Next(s, events[0].thread, events[0].action).value, events[1..]);
    }
  }

  /**
   In every run a dequeue about to take the front meets an empty queue if and only if the waits that
   have returned false are as many as the counter, the waits about to return true, the threads that
   have still to take an item and the items pushed whose increment is still to be stored.
   */
  lemma MeetsEmptyQueueIff(threads: nat, events: seq<Event>, t: nat)
    requires Run(Init(threads), events).Some? && t < |Run(Init(threads), events).value.pcs|
    requires Run(Init(threads), events).value.pcs[t].DeqIn?
    ensures var s := Run(Init(threads), events).value;
            && |s.pcs| == |s.sem.pcs|
            && Next(s, t, Continue).Some?
            && (Next(s, t, Continue).value.pcs[t].Broken? <==>
                s.sem.failed == s.sem.count + Sum(A.Taken, s.sem.pcs) + Sum(Due, Places(s)))
  {
    InitInv(threads);
    RunKeepsInv(Init(threads), events);
    QueueLength(Run(Init(threads), events).value);
    hide Sum, Run, A.Inv, A.Next, Exclusive, AllLinked, Balanced;
  }

  /** As long as no wait has returned false, no dequeue meets an empty queue. */
  lemma NoFalseReturnNoBreak(threads: nat, events: seq<Event>)
    requires Run(Init(threads), events).Some?
    ensures var s := Run(Init(threads), events).value;
            && |s.pcs| == |s.sem.pcs|
            && (s.sem.failed == 0 ==> !AnyBroken(s) && |s.queue| >= Sum(Due, Places(s)))
  {
    InitInv(threads);
    RunKeepsInv(Init(threads), events);
    var s := Run(Init(threads), events).value;
    QueueLength(s);
    CounterIsNatural(s.sem);
    hide Sum, Run, A.Inv;
  }
}
