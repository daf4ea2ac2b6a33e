/**
 The thread-safe queue as a step system. Any number of threads call `enqueue`, `dequeue`,
 `count`, `head` and `clear`; a step of one thread is one operation on the mutex, on the
 semaphore or, with the mutex held, on the inner queue.
 */
module ThreadQueue {
  import opened Wrappers
  import opened Counting

  /** Where a thread stands; a dequeue or clear call carries the number of the call. */
  datatype Pc<T> =
    | Idle
    | DeqWait(call: nat)             // about to wait on the semaphore
    | DeqLock(call: nat)             // has a token, about to lock
    | DeqIn(call: nat)               // mutex held, about to take the front
    | DeqUnlock(call: nat, elem: T)
    | EnqLock(item: T)
    | EnqPush(item: T)
    | EnqNotify                      // pushed, about to notify
    | EnqUnlock
    | CountLock
    | CountIn
    | CountUnlock(size: nat)
    | HeadLock
    | HeadIn
    | HeadUnlock(first: Option<T>)
    | ClearLock(call: nat)
    | ClearLoop(call: nat, i: nat)   // mutex held, `i` tokens drained
    | ClearUnlock
    | Broken                         // took the front of an empty queue

  /** One removed item: which call removed it, and whether that was a clear. */
  datatype Removal<T> = Removal(item: T, call: nat, cleared: bool)

  /** Shared state, then the history: pushes, removals, calls started and dequeue results. */
  datatype State<T> = State(
    pcs: seq<Pc<T>>,
    queue: seq<T>,
    sem: nat,
    owner: Option<nat>,
    pushed: seq<T>,
    out: seq<Removal<T>>,
    calls: nat,
    returned: map<nat, T>)

  datatype Action<T> =
    | StartEnqueue(item: T)
    | StartDequeue
    | StartCount
    | StartHead
    | StartClear
    | Continue

  function Init<T>(threads: nat): State<T> {
    State(seq(threads, _ => Idle), [], 0, None, [], [], 0, map[])
  }

  /** The items of a queue thrown away by one clear. */
  function Dropped<T>(queue: seq<T>, call: nat): (out: seq<Removal<T>>)
    ensures |out| == |queue|
    ensures forall k | 0 <= k < |queue| :: out[k] == Removal(queue[k], call, true)
  {
    seq(|queue|, k requires 0 <= k < |queue| => Removal(queue[k], call, true))
  }

  function Goto<T>(s: State<T>, t: nat, pc: Pc<T>): State<T>
    requires t < |s.pcs|
  {
    s.(pcs := s.pcs[t := pc])
  }

  function Lock<T>(s: State<T>, t: nat, pc: Pc<T>): Option<State<T>>
    requires t < |s.pcs|
  {
    if s.owner.None? then Some(Goto(s, t, pc).(owner := Some(t))) else None
  }

  function Unlock<T>(s: State<T>, t: nat): Option<State<T>>
    requires t < |s.pcs|
  {
    Some(Goto(s, t, Idle).(owner := None))
  }

  /** The step of thread `t`, if it is not blocked. */
  function Advance<T>(s: State<T>, t: nat): Option<State<T>>
    requires t < |s.pcs|
  {
    match s.pcs[t]
    case Idle => None
    case Broken => None
    case DeqWait(c) => if s.sem == 0 then None else Some(Goto(s, t, DeqLock(c)).(sem := s.sem - 1))
    case DeqLock(c) => Lock(s, t, DeqIn(c))
    case DeqIn(c) =>
      if s.queue == [] then Some(Goto(s, t, Broken))
      else
        Some(Goto(s, t, DeqUnlock(c, s.queue[0])).(
             queue := s.queue[1..],
             out := s.out + [Removal(s.queue[0], c, false)]))
    case DeqUnlock(c, e) => Some(Unlock(s, t).value.(returned := s.returned[c := e]))
    case EnqLock(x) => Lock(s, t, EnqPush(x))
    case EnqPush(x) =>
      Some(Goto(s, t, EnqNotify).(queue := s.queue + [x], pushed := s.pushed + [x]))
    case EnqNotify => Some(Goto(s, t, EnqUnlock).(sem := s.sem + 1))
    case EnqUnlock => Unlock(s, t)
    case CountLock => Lock(s, t, CountIn)
    case CountIn => Some(Goto(s, t, CountUnlock(|s.queue|)))
    case CountUnlock(_) => Unlock(s, t)
    case HeadLock => Lock(s, t, HeadIn)
    case HeadIn => Some(Goto(s, t, HeadUnlock(if s.queue == [] then None else Some(s.queue[0]))))
    case HeadUnlock(_) => Unlock(s, t)
    case ClearLock(c) => Lock(s, t, ClearLoop(c, 0))
    case ClearLoop(c, i) =>
      if i < |s.queue| then
        if s.sem == 0 then None
        else Some(Goto(s, t, ClearLoop(c, i + 1)).(sem := s.sem - 1))
      else
        Some(Goto(s, t, ClearUnlock).(queue := [], out := s.out + Dropped(s.queue, c)))
    case ClearUnlock => Unlock(s, t)
  }

  /** A thread between calls may start any call; otherwise it can only go on. */
  function Next<T>(s: State<T>, t: nat, a: Action<T>): Option<State<T>>
    requires t < |s.pcs|
  {
    if a.Continue? then Advance(s, t)
    else if !s.pcs[t].Idle? then None
    else
      match a
      case StartEnqueue(x) => Some(Goto(s, t, EnqLock(x)))
      case StartCount => Some(Goto(s, t, CountLock))
      case StartHead => Some(Goto(s, t, HeadLock))
      case StartDequeue => Some(Goto(s, t, DeqWait(s.calls)).(calls := s.calls + 1))
      case StartClear => Some(Goto(s, t, ClearLock(s.calls)).(calls := s.calls + 1))
  }

  // ---- runs ----------------------------------------------------------------

  datatype Event<T> = Event(thread: nat, action: Action<T>)

  /** The state after a schedule, if every event of it was possible in its turn. */
  function Run<T>(s: State<T>, events: seq<Event<T>>): Option<State<T>>
    decreases |events|
  {
    if events == [] then Some(s)
    else
      var e := events[0];
      if e.thread >= |s.pcs| then None
      else
        match Next(s, e.thread, e.action)
        case None => None
        case Some(s') => Run(s', events[1..])
  }

  lemma {:induction false} RunConcat<T>(s: State<T>, es: seq<Event<T>>, fs: seq<Event<T>>)
    requires Run(s, es).Some?
    ensures Run(s, es + fs) == Run(Run(s, es).value, fs)
    decreases |es|
  {
    if es == [] {
      assert es + fs == fs;
    } else {
      assert (es + fs)[1..] == es[1..] + fs;
      RunConcat(Next(s, es[0].thread, es[0].action).value, es[1..], fs);
    }
  }

  // ---- the counting invariant ----------------------------------------------

  function InFlight<T>(pc: Pc<T>): nat {
    if pc.DeqLock? || pc.DeqIn? then 1 else 0
  }

  function Notifying<T>(pc: Pc<T>): nat {
    if pc.EnqNotify? then 1 else 0
  }

  function Drained<T>(pc: Pc<T>): nat {
    if pc.ClearLoop? then pc.i else 0
  }

  /** The mutex is held while the thread stands here. */
  predicate Inside<T>(pc: Pc<T>) {
    pc.DeqIn? || pc.DeqUnlock? || pc.EnqPush? || pc.EnqNotify? || pc.EnqUnlock? || pc.CountIn?
    || pc.CountUnlock? || pc.HeadIn? || pc.HeadUnlock? || pc.ClearLoop? || pc.ClearUnlock?
    || pc.Broken?
  }

  predicate Exclusive<T>(s: State<T>) {
    && (s.owner.Some? ==> s.owner.value < |s.pcs|)
    && forall t | 0 <= t < |s.pcs| :: Inside(s.pcs[t]) <==> s.owner == Some(t)
  }

  /** Every item of the queue is matched by exactly one token, wherever that token is. */
  predicate Balanced<T>(s: State<T>) {
    s.sem + Sum(InFlight, s.pcs) + Sum(Notifying, s.pcs) + Sum(Drained, s.pcs) == |s.queue|
  }

  predicate Inv<T>(s: State<T>) {
    && Exclusive(s)
    && Balanced(s)
    && forall t | 0 <= t < |s.pcs| ::
         !s.pcs[t].Broken? && (s.pcs[t].ClearUnlock? ==> s.queue == [])
  }

  /** A count and a head that hold the mutex have the size of the queue and its first item. */
  ghost predicate AnswersHold<T>(s: State<T>) {
    forall t | 0 <= t < |s.pcs| ::
      && (s.pcs[t].CountUnlock? ==> s.pcs[t].size == |s.queue|)
      && (s.pcs[t].HeadUnlock? && s.queue == [] ==> s.pcs[t].first == None)
      && (s.pcs[t].HeadUnlock? && s.queue != [] ==> s.pcs[t].first == Some(s.queue[0]))
  }

  lemma Weights<T>(s: State<T>, t: nat, pc: Pc<T>)
    requires t < |s.pcs|
    ensures var pcs := s.pcs[t := pc];
            && Sum(InFlight, pcs) == Sum(InFlight, s.pcs) - InFlight(s.pcs[t]) + InFlight(pc)
            && Sum(Notifying, pcs) == Sum(Notifying, s.pcs) - Notifying(s.pcs[t]) + Notifying(pc)
            && Sum(Drained, pcs) == Sum(Drained, s.pcs) - Drained(s.pcs[t]) + Drained(pc)
    ensures InFlight(s.pcs[t]) <= Sum(InFlight, s.pcs)
    ensures Drained(s.pcs[t]) <= Sum(Drained, s.pcs)
  {
    SumUpdate(InFlight, s.pcs, t, pc);
    SumUpdate(Notifying, s.pcs, t, pc);
    SumUpdate(Drained, s.pcs, t, pc);
  }

  /** A step moves one thread only. */
  lemma NextMovesOne<T>(s: State<T>, t: nat, a: Action<T>)
    requires t < |s.pcs| && Next(s, t, a).Some?
    ensures var s' := Next(s, t, a).value;
            |s'.pcs| == |s.pcs| && s'.pcs == s.pcs[t := s'.pcs[t]]
  {
  }

  /** How one step of thread `t` changes the mutex. */
  lemma NextMutex<T>(s: State<T>, t: nat, a: Action<T>)
    requires t < |s.pcs| && Next(s, t, a).Some?
    requires Inside(s.pcs[t]) <==> s.owner == Some(t)
    ensures var s' := Next(s, t, a).value;
            && |s'.pcs| == |s.pcs|
            && (Inside(s'.pcs[t]) <==> s'.owner == Some(t))
            && (s'.owner == s.owner || (s.owner == None && s'.owner == Some(t))
                || (s.owner == Some(t) && s'.owner == None))
  {
  }

  lemma NextKeepsExclusive<T>(s: State<T>, t: nat, a: Action<T>)
    requires Exclusive(s) && t < |s.pcs| && Next(s, t, a).Some?
    ensures Exclusive(Next(s, t, a).value)
  {
    NextMovesOne(s, t, a);
    NextMutex(s, t, a);
    hide Next, Inside;
  }

  /** Except at the end of a clear, a step moves a token or adds one with an item. */
  lemma NextTokens<T>(s: State<T>, t: nat, a: Action<T>)
    requires t < |s.pcs| && Next(s, t, a).Some?
    requires s.pcs[t].DeqIn? ==> s.queue != []
    requires s.pcs[t].ClearLoop? ==> s.pcs[t].i < |s.queue|
    ensures var s' := Next(s, t, a).value;
            && |s'.pcs| == |s.pcs|
            && !s'.pcs[t].Broken?
            && s'.sem + InFlight(s'.pcs[t]) + Notifying(s'.pcs[t]) + Drained(s'.pcs[t]) - |s'.queue|
               == s.sem + InFlight(s.pcs[t]) + Notifying(s.pcs[t]) + Drained(s.pcs[t]) - |s.queue|
  {
  }

  lemma NextKeepsBalanced<T>(s: State<T>, t: nat, a: Action<T>)
    requires Balanced(s) && t < |s.pcs| && Next(s, t, a).Some?
    ensures Balanced(Next(s, t, a).value)
    ensures !Next(s, t, a).value.pcs[t].Broken?
  {
    NextMovesOne(s, t, a);
    var s' := Next(s, t, a).value;
    Weights(s, t, s'.pcs[t]);
    if s.pcs[t].ClearLoop? && s.pcs[t].i >= |s.queue| {
      assert s' == Goto(s, t, ClearUnlock).(queue := [], out := s.out + Dropped(s.queue, s.pcs[t].call));
    } else {
      NextTokens(s, t, a);
      hide Next, Sum;
    }
  }

  lemma NextKeepsInv<T>(s: State<T>, t: nat, a: Action<T>)
    requires Inv(s) && t < |s.pcs| && Next(s, t, a).Some?
    ensures Inv(Next(s, t, a).value)
  {
    NextMovesOne(s, t, a);
    NextKeepsExclusive(s, t, a);
    NextKeepsBalanced(s, t, a);
    NextKeepsCleared(s, t, a);
    hide Next, Exclusive, Balanced;
  }

  lemma NextKeepsCleared<T>(s: State<T>, t: nat, a: Action<T>)
    requires Inv(s) && t < |s.pcs| && Next(s, t, a).Some?
    ensures var s' := Next(s, t, a).value;
            forall u | 0 <= u < |s'.pcs| :: s'.pcs[u].ClearUnlock? ==> s'.queue == []
  {
    hide Sum;
  }

  lemma {:induction false} RunKeepsInv<T>(s: State<T>, events: seq<Event<T>>)
    requires Inv(s) && Run(s, events).Some?
    ensures Inv(Run(s, events).value)
    decreases |events|
  {
    if events != [] {
      NextKeepsInv(s, events[0].thread, events[0].action);
      RunKeepsInv(Next(s, events[0].thread, events[0].action).value, events[1..]);
    }
  }

  lemma InitInv<T>(threads: nat)
    ensures Inv(Init<T>(threads))
  {
    var s := Init<T>(threads);
    SumZero(InFlight, s.pcs);
    SumZero(Notifying, s.pcs);
    SumZero(Drained, s.pcs);
  }

  /**
   In every reachable state the tokens, wherever they are, match the items; at most one thread
   is inside; no dequeue meets an empty queue; and behind the loop of a clear the queue and the
   semaphore are empty and no dequeue is between its wait and its pop.
   */
  lemma CountingInvariant<T>(threads: nat, events: seq<Event<T>>)
    requires Run(Init<T>(threads), events).Some?
    ensures var s := Run(Init<T>(threads), events).value;
            && Exclusive(s)
            && Balanced(s)
            && (forall t | 0 <= t < |s.pcs| ::
                 && !s.pcs[t].Broken?
                 && (s.pcs[t].DeqIn? ==> s.queue != [])
                 && (s.pcs[t].ClearUnlock? ==>
                      s.queue == [] && s.sem == 0 && Sum(InFlight, s.pcs) == 0))
  {
    InitInv<T>(threads);
    RunKeepsInv(Init<T>(threads), events);
    var s := Run(Init<T>(threads), events).value;
    forall t | 0 <= t < |s.pcs|
      ensures s.pcs[t].DeqIn? ==> s.queue != []
    {
      Weights(s, t, Idle);
    }
  }

  // ---- the answers of count and head ---------------------------------------

  lemma NextKeepsAnswers<T>(s: State<T>, t: nat, a: Action<T>)
    requires Inv(s) && AnswersHold(s) && t < |s.pcs| && Next(s, t, a).Some?
    ensures AnswersHold(Next(s, t, a).value)
  {
    NextMovesOne(s, t, a);
    hide Sum, Balanced;
    var s' := Next(s, t, a).value;
    forall u | 0 <= u < |s'.pcs| && (s'.pcs[u].CountUnlock? || s'.pcs[u].HeadUnlock?)
      ensures u != t ==> s'.queue == s.queue && s'.pcs[u] == s.pcs[u]
    {
      if u != t {
        assert Inside(s.pcs[u]) && !Inside(s.pcs[t]);
      }
    }
  }

  lemma {:induction false} RunKeepsAnswers<T>(s: State<T>, events: seq<Event<T>>)
    requires Inv(s) && AnswersHold(s) && Run(s, events).Some?
    ensures AnswersHold(Run(s, events).value)
    decreases |events|
  {
    hide Next, Inv, AnswersHold;
    if events != [] {
      NextKeepsInv(s, events[0].thread, events[0].action);
      NextKeepsAnswers(s, events[0].thread, events[0].action);
      RunKeepsAnswers(Next(s, events[0].thread, events[0].action).value, events[1..]);
    }
  }

  /** In every run a count about to return has the size of the queue, and a head its first item. */
  lemma AnswersAreExact<T>(threads: nat, events: seq<Event<T>>, t: nat)
    requires Run(Init<T>(threads), events).Some? && t < |Run(Init<T>(threads), events).value.pcs|
    ensures var s := Run(Init<T>(threads), events).value;
            && (s.pcs[t].CountUnlock? ==> s.pcs[t].size == |s.queue|)
            && (s.pcs[t].HeadUnlock? ==>
                 s.pcs[t].first == if s.queue == [] then None else Some(s.queue[0]))
  {
    InitInv<T>(threads);
    RunKeepsAnswers(Init<T>(threads), events);
  }

  // ---- a thread is in the call it started ----------------------------------

  /** The call a thread started last in a schedule; `before` is the one it was in at its start. */
  function LastStarted<T>(t: nat, events: seq<Event<T>>, before: Option<Action<T>>): Option<Action<T>>
    decreases |events|
  {
    if events == [] then before
    else
      LastStarted(t, events[1..],
        if events[0].thread == t && !events[0].action.Continue? then Some(events[0].action) else before)
  }

  /** The places of the code that belong to a call. */
  ghost predicate BelongsTo<T>(pc: Pc<T>, a: Option<Action<T>>) {
    match pc
    case Idle => true
    case DeqWait(_) | DeqLock(_) | DeqIn(_) | DeqUnlock(_, _) | Broken => a == Some(StartDequeue)
    case EnqLock(x) => a == Some(StartEnqueue(x))
    case EnqPush(x) => a == Some(StartEnqueue(x))
    case EnqNotify | EnqUnlock => a.Some? && a.value.StartEnqueue?
    case CountLock | CountIn | CountUnlock(_) => a == Some(StartCount)
    case HeadLock | HeadIn | HeadUnlock(_) => a == Some(StartHead)
    case ClearLock(_) | ClearLoop(_, _) | ClearUnlock => a == Some(StartClear)
  }

  lemma NextStaysInCall<T>(s: State<T>, t: nat, a: Action<T>, before: Option<Action<T>>)
    requires t < |s.pcs| && Next(s, t, a).Some? && BelongsTo(s.pcs[t], before)
    ensures t < |Next(s, t, a).value.pcs|
    ensures BelongsTo(Next(s, t, a).value.pcs[t], if a.Continue? then before else Some(a))
  {
  }

  lemma {:induction false} RunStaysInCall<T>(s: State<T>, t: nat, events: seq<Event<T>>, before: Option<Action<T>>)
    requires t < |s.pcs| && Run(s, events).Some? && BelongsTo(s.pcs[t], before)
    ensures t < |Run(s, events).value.pcs|
    ensures BelongsTo(Run(s, events).value.pcs[t], LastStarted(t, events, before))
    decreases |events|
  {
    if events != [] {
      var u, a := events[0].thread, events[0].action;
      NextMovesOne(s, u, a);
      if u == t {
        NextStaysInCall(s, t, a, before);
      }
      hide Next, BelongsTo;
      RunStaysInCall(Next(s, u, a).value, t, events[1..],
        if u == t && !a.Continue? then Some(a) else before);
    }
  }

  /** In every run a thread that is not between calls stands in the code of the call it started last. */
  lemma StandsInItsCall<T>(threads: nat, events: seq<Event<T>>, t: nat)
    requires Run(Init<T>(threads), events).Some? && t < threads
    ensures t < |Run(Init<T>(threads), events).value.pcs|
    ensures BelongsTo(Run(Init<T>(threads), events).value.pcs[t], LastStarted(t, events, None))
  {
    RunStaysInCall(Init<T>(threads), t, events, None);
  }
}
