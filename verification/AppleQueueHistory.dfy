/**
 What happens to each item of the queue over the semaphore in AppleSemaphore: whatever the waits
 return, items leave in the order they were pushed, each to one dequeue.
 */
module AppleQueueHistory {
  import opened Wrappers
  import opened Counting
  import A = AppleSemaphore
  import opened AppleQueue

  /** The thread is on its way out with the item removed in place `k`. */
  predicate Carries(pc: Pc, k: nat) {
    pc.DeqUnlock? && pc.place == k
  }

  /** First in, first out: what left the queue and what is in it, in order, is what was pushed. */
  predicate Fifo(s: State) {
    s.pushed == s.removed + s.queue
  }

  /** A dequeue on its way out has the item it removed, which has not been returned and nobody else has. */
  predicate Carried(s: State) {
    && (forall t | 0 <= t < |s.pcs| && s.pcs[t].DeqUnlock? ::
         && s.pcs[t].place < |s.removed| && s.pcs[t].elem == s.removed[s.pcs[t].place]
         && s.pcs[t].place !in s.returned)
    && (forall t, u | 0 <= t < u < |s.pcs| && s.pcs[t].DeqUnlock? && s.pcs[u].DeqUnlock? ::
         s.pcs[t].place != s.pcs[u].place)
  }

  /** What has been returned is what was removed in that place. */
  predicate GivenBack(s: State) {
    forall k | k in s.returned :: k < |s.removed| && s.returned[k] == s.removed[k]
  }

  predicate InHand(s: State, k: nat) {
    k in s.returned || exists t :: 0 <= t < |s.pcs| && Carries(s.pcs[t], k)
  }

  predicate NothingLost(s: State) {
    forall k: nat | k < |s.removed| :: InHand(s, k)
  }

  predicate History(s: State) {
    Fifo(s) && Carried(s) && GivenBack(s) && NothingLost(s)
  }

  // ---- one step ------------------------------------------------------------

  /** A step pushes an item, removes the first one, returns one, or leaves items and history alone. */
  lemma NextItems(s: State, t: nat, a: Action)
    requires t < |s.pcs| == |s.sem.pcs| && Next(s, t, a).Some?
    ensures var s' := Next(s, t, a).value;
            && |s'.pcs| == |s.pcs| && s'.pcs == s.pcs[t := s'.pcs[t]]
            && (if s.pcs[t].EnqPush? then
                  && s'.queue == s.queue + [s.pcs[t].item] && s'.pushed == s.pushed + [s.pcs[t].item]
                else
                  && s'.pushed == s.pushed
                  && (s'.removed == s.removed ==> s'.queue == s.queue))
            && (if s.pcs[t].DeqIn? && s.queue != [] then
                  && s.queue == [s.queue[0]] + s'.queue && s'.removed == s.removed + [s.queue[0]]
                  && s'.pcs[t] == DeqUnlock(s.queue[0], |s.removed|)
                else s'.removed == s.removed && !s'.pcs[t].DeqUnlock?)
            && (if s.pcs[t].DeqUnlock? then s'.returned == s.returned[s.pcs[t].place := s.pcs[t].elem]
                else s'.returned == s.returned)
  {
    hide A.Next;
  }

  lemma NextKeepsHistory(s: State, t: nat, a: Action)
    requires History(s) && t < |s.pcs| == |s.sem.pcs| && Next(s, t, a).Some?
    ensures History(Next(s, t, a).value)
  {
    NextItems(s, t, a);
    hide Next;
    var s' := Next(s, t, a).value;
    assert Fifo(s');
    if s.pcs[t].DeqIn? && s.queue != [] {
      assert Carries(s'.pcs[t], |s.removed|);
    }
    forall k: nat | k < |s'.removed|
      ensures InHand(s', k)
    {
      if k < |s.removed| {
        assert InHand(s, k);
        StillInHand(s, s', t, k);
      }
    }
  }

  lemma StillInHand(s: State, s': State, t: nat, k: nat)
    requires t < |s.pcs| && |s'.pcs| == |s.pcs| && s'.pcs == s.pcs[t := s'.pcs[t]] && InHand(s, k)
    requires if s.pcs[t].DeqUnlock? then s'.returned == s.returned[s.pcs[t].place := s.pcs[t].elem]
             else s'.returned == s.returned
    ensures InHand(s', k)
  {
    if k !in s.returned {
      var u :| 0 <= u < |s.pcs| && Carries(s.pcs[u], k);
      assert u != t ==> Carries(s'.pcs[u], k);
    }
  }

  // ---- all runs ------------------------------------------------------------

  lemma {:induction false} RunKeepsHistory(s: State, events: seq<Event>)
    requires History(s) && Run(s, events).Some?
    ensures History(Run(s, events).value)
    decreases |events|
  {
    hide History, Next;
    if events != [] {
      NextKeepsHistory(s, events[0].thread, events[0].action);
      RunKeepsHistory(Next(s, events[0].thread, events[0].action).value, events[1..]);
    }
  }

  /**
   Over every run items leave in the order they were pushed. The item removed in place `k` has been
   returned by the dequeue that removed it, or exactly one dequeue is on its way out with it, and a
   dequeue on its way out has the item it removed.
   */
  lemma ItemsLeaveOnce(threads: nat, events: seq<Event>)
    requires Run(Init(threads), events).Some?
    ensures var s := Run(Init(threads), events).value;
            && s.pushed == s.removed + s.queue
            && (forall t | 0 <= t < |s.pcs| && s.pcs[t].DeqUnlock? ::
                 s.pcs[t].place < |s.removed| && s.pcs[t].elem == s.removed[s.pcs[t].place])
            && (forall k | k in s.returned :: k < |s.removed| && s.returned[k] == s.removed[k])
            && (forall k: nat | k < |s.removed| ::
                 if k in s.returned then forall t | 0 <= t < |s.pcs| :: !Carries(s.pcs[t], k)
                 else exists t :: 0 <= t < |s.pcs| && Carries(s.pcs[t], k)
                        && forall u | 0 <= u < |s.pcs| && Carries(s.pcs[u], k) :: u == t)
  {
    RunKeepsHistory(Init(threads), events);
    hide Run, Next;
    var s := Run(Init(threads), events).value;
    forall k: nat | k < |s.removed| && k !in s.returned
      ensures exists t :: 0 <= t < |s.pcs| && Carries(s.pcs[t], k)
                && forall u | 0 <= u < |s.pcs| && Carries(s.pcs[u], k) :: u == t
    {
      assert InHand(s, k);
      var t :| 0 <= t < |s.pcs| && Carries(s.pcs[t], k);
      assert forall u | 0 <= u < |s.pcs| && Carries(s.pcs[u], k) :: u == t;
    }
  }

  // ---- what is pushed is what enqueue was called with -----------------------

  /** Enqueue calls with item `x` started in a schedule. */
  function Started(x: int, events: seq<Event>): nat
    decreases |events|
  {
    if events == [] then 0
    else (if events[0].action == StartEnqueue(x) then 1 else 0) + Started(x, events[1..])
  }

  /** Weight of an enqueue call with item `x` that has not pushed yet. */
  function ToPush(x: int): Pc -> nat {
    (pc: Pc) => if pc == EnqLock(x) || pc == EnqPush(x) then 1 else 0
  }

  lemma NextPushes(x: int, s: State, t: nat, a: Action)
    requires t < |s.pcs| == |s.sem.pcs| && Next(s, t, a).Some?
    ensures var s' := Next(s, t, a).value;
            && |s'.pcs| == |s.pcs|
            && multiset(s'.pushed)[x] + ToPush(x)(s'.pcs[t])
            == multiset(s.pushed)[x] + ToPush(x)(s.pcs[t]) + (if a == StartEnqueue(x) then 1 else 0)
  {
    NextItems(s, t, a);
    NextEnqueue(s, t, a);
    hide Next;
  }

  /** What a step does to the enqueue call of its thread. */
  lemma NextEnqueue(s: State, t: nat, a: Action)
    requires t < |s.pcs| == |s.sem.pcs| && Next(s, t, a).Some?
    ensures var s' := Next(s, t, a).value;
            && |s'.pcs| == |s.pcs|
            && (a.StartEnqueue? ==> s.pcs[t].Idle? && s'.pcs[t] == EnqLock(a.item))
            && (s.pcs[t].EnqLock? ==> s'.pcs[t] == EnqPush(s.pcs[t].item))
            && (!a.StartEnqueue? ==> !s'.pcs[t].EnqLock?)
            && (!s.pcs[t].EnqLock? ==> !s'.pcs[t].EnqPush?)
  {
    hide A.Next;
  }

  lemma {:induction false} RunPushes(x: int, s: State, events: seq<Event>)
    requires Run(s, events).Some?
    ensures var s' := Run(s, events).value;
            multiset(s'.pushed)[x] + Sum(ToPush(x), s'.pcs)
            == multiset(s.pushed)[x] + Sum(ToPush(x), s.pcs) + Started(x, events)
    decreases |events|
  {
    if events != [] {
      var t, a := events[0].thread, events[0].action;
      var s1 := Next(s, t, a).value;
      NextItems(s, t, a);
      NextPushes(x, s, t, a);
      hide Next, Sum, ToPush;
      SumUpdate(ToPush(x), s.pcs, t, s1.pcs[t]);
      RunPushes(x, s1, events[1..]);
    }
  }

  /** In every run an item has been pushed as often as enqueue was called with it, calls still to push apart. */
  lemma EnqueuesArePushed(threads: nat, events: seq<Event>, x: int)
    requires Run(Init(threads), events).Some?
    ensures var s := Run(Init(threads), events).value;
            multiset(s.pushed)[x] + Sum(ToPush(x), s.pcs) == Started(x, events)
  {
    RunPushes(x, Init(threads), events);
    SumZero(ToPush(x), Init(threads).pcs);
  }
}
