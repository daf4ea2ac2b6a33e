/** What happens to each item of the thread-safe queue over a whole run. */
module QueueHistory {
  import opened Wrappers
  import opened ThreadQueue

  function Items<T>(out: seq<Removal<T>>): (r: seq<T>)
    ensures |r| == |out|
    ensures forall k | 0 <= k < |out| :: r[k] == out[k].item
  {
    seq(|out|, k requires 0 <= k < |out| => out[k].item)
  }

  /** The number of the dequeue or clear call that the thread still has to remove items for. */
  function Removing<T>(pc: Pc<T>): Option<nat> {
    match pc
    case DeqWait(c) => Some(c)
    case DeqLock(c) => Some(c)
    case DeqIn(c) => Some(c)
    case ClearLock(c) => Some(c)
    case ClearLoop(c, _) => Some(c)
    case _ => None
  }

  /** The number of the dequeue or clear call the thread is in. */
  function CallOf<T>(pc: Pc<T>): Option<nat> {
    if pc.DeqUnlock? then Some(pc.call) else Removing(pc)
  }

  /** First in, first out: what left the queue and what is in it, in order, is what was pushed. */
  ghost predicate Fifo<T>(s: State<T>) {
    s.pushed == Items(s.out) + s.queue
  }

  /** Call numbers are given out once. */
  ghost predicate Numbered<T>(s: State<T>) {
    && (forall t | 0 <= t < |s.pcs| :: CallOf(s.pcs[t]).Some? ==> CallOf(s.pcs[t]).value < s.calls)
    && (forall t, u | 0 <= t < u < |s.pcs| ::
         CallOf(s.pcs[t]).Some? ==> CallOf(s.pcs[t]) != CallOf(s.pcs[u]))
    && (forall k | 0 <= k < |s.out| :: s.out[k].call < s.calls)
    && (forall c | c in s.returned :: c < s.calls)
  }

  /** A call still to remove something has not removed anything and has not returned. */
  ghost predicate NotYet<T>(s: State<T>) {
    && (forall t, k | 0 <= t < |s.pcs| && 0 <= k < |s.out| ::
         Removing(s.pcs[t]) != Some(s.out[k].call))
    && (forall t | 0 <= t < |s.pcs| ::
         CallOf(s.pcs[t]).Some? ==> CallOf(s.pcs[t]).value !in s.returned)
  }

  /** A call removes one item only, unless it is a clear. */
  ghost predicate OncePerDequeue<T>(s: State<T>) {
    forall j, k | 0 <= j < k < |s.out| ::
      s.out[j].call == s.out[k].call ==> s.out[j].cleared && s.out[k].cleared
  }

  /** Dequeues give back what they removed, and nothing else. */
  ghost predicate GivenBack<T>(s: State<T>) {
    && (forall t | 0 <= t < |s.pcs| ::
         s.pcs[t].DeqUnlock? ==> Removal(s.pcs[t].elem, s.pcs[t].call, false) in s.out)
    && (forall c | c in s.returned :: Removal(s.returned[c], c, false) in s.out)
  }

  ghost predicate InHand<T>(s: State<T>, r: Removal<T>) {
    || (r.call in s.returned && s.returned[r.call] == r.item)
    || exists t :: 0 <= t < |s.pcs| && s.pcs[t] == DeqUnlock(r.call, r.item)
  }

  /** What a dequeue removed is on its way back or was returned. */
  ghost predicate NothingLost<T>(s: State<T>) {
    forall k | 0 <= k < |s.out| :: !s.out[k].cleared ==> InHand(s, s.out[k])
  }

  ghost predicate History<T>(s: State<T>) {
    Fifo(s) && Numbered(s) && NotYet(s) && OncePerDequeue(s) && GivenBack(s) && NothingLost(s)
  }

  // ---- one step ------------------------------------------------------------

  /** What the next step of thread `t` removes. */
  function Removes<T>(s: State<T>, t: nat): seq<Removal<T>>
    requires t < |s.pcs|
  {
    match s.pcs[t]
    case DeqIn(c) => if s.queue == [] then [] else [Removal(s.queue[0], c, false)]
    case ClearLoop(c, i) => if i < |s.queue| then [] else Dropped(s.queue, c)
    case _ => []
  }

  lemma NextRemoves<T>(s: State<T>, t: nat, a: Action<T>)
    requires t < |s.pcs| && Next(s, t, a).Some?
    ensures var s' := Next(s, t, a).value;
            && |s'.pcs| == |s.pcs|
            && s'.out == s.out + (if a.Continue? then Removes(s, t) else [])
            && (a.Continue? && Removes(s, t) != [] ==>
                 s'.calls == s.calls && s'.returned == s.returned && Removing(s'.pcs[t]) == None)
  {
  }

  lemma NextQueue<T>(s: State<T>, t: nat, a: Action<T>)
    requires t < |s.pcs| && Next(s, t, a).Some?
    ensures var s' := Next(s, t, a).value;
            if a.Continue? && s.pcs[t].EnqPush? then
              s'.queue == s.queue + [s.pcs[t].item] && s'.pushed == s.pushed + [s.pcs[t].item]
            else
              s'.pushed == s.pushed
              && s.queue == Items(if a.Continue? then Removes(s, t) else []) + s'.queue
  {
  }

  lemma NextKeepsFifo<T>(s: State<T>, t: nat, a: Action<T>)
    requires Fifo(s) && t < |s.pcs| && Next(s, t, a).Some?
    ensures Fifo(Next(s, t, a).value)
  {
    NextRemoves(s, t, a);
    NextQueue(s, t, a);
    hide Next;
    var s', added := Next(s, t, a).value, if a.Continue? then Removes(s, t) else [];
    assert Items(s.out + added) == Items(s.out) + Items(added);
  }

  /** How a step changes the log of removals. */
  lemma NextOut<T>(s: State<T>, t: nat, a: Action<T>)
    requires t < |s.pcs| && Next(s, t, a).Some?
    ensures var s' := Next(s, t, a).value;
            && |s'.pcs| == |s.pcs|
            && s.out <= s'.out
            && (forall k | |s.out| <= k < |s'.out| ::
                 Removing(s.pcs[t]) == Some(s'.out[k].call) && Removing(s'.pcs[t]) == None)
            && (|s'.out| > |s.out| + 1 ==> s.pcs[t].ClearLoop?)
            && (|s'.out| > |s.out| ==> s'.calls == s.calls && s'.returned == s.returned)
            && (s.pcs[t].ClearLoop? ==> forall k | |s.out| <= k < |s'.out| :: s'.out[k].cleared)
  {
    NextRemoves(s, t, a);
    hide Next;
    var s' := Next(s, t, a).value;
    forall k | |s.out| <= k < |s'.out|
      ensures s'.out[k] == Removes(s, t)[k - |s.out|]
    {
    }
  }

  /** How a step changes the number of the call the thread is in. */
  lemma NextCall<T>(s: State<T>, t: nat, a: Action<T>)
    requires t < |s.pcs| && Next(s, t, a).Some?
    ensures var s' := Next(s, t, a).value;
            && |s'.pcs| == |s.pcs|
            && s.calls <= s'.calls
            && (CallOf(s'.pcs[t]) == None || CallOf(s'.pcs[t]) == CallOf(s.pcs[t])
                || (CallOf(s'.pcs[t]) == Some(s.calls) && s'.calls == s.calls + 1))
            && (Removing(s'.pcs[t]) == None || Removing(s'.pcs[t]) == CallOf(s'.pcs[t]))
            && (Removing(s'.pcs[t]).Some? ==> Removing(s'.pcs[t]) == Removing(s.pcs[t])
                                              || Removing(s'.pcs[t]) == Some(s.calls))
  {
  }

  /** How a step changes the results returned. */
  lemma NextReturned<T>(s: State<T>, t: nat, a: Action<T>)
    requires t < |s.pcs| && Next(s, t, a).Some?
    ensures var s' := Next(s, t, a).value;
            && |s'.pcs| == |s.pcs|
            && (s'.returned == s.returned
                || (s.pcs[t].DeqUnlock? && s'.pcs[t].Idle?
                    && s'.returned == s.returned[s.pcs[t].call := s.pcs[t].elem]))
  {
  }

  lemma NextKeepsNumbered<T>(s: State<T>, t: nat, a: Action<T>)
    requires Numbered(s) && t < |s.pcs| && Next(s, t, a).Some?
    ensures Numbered(Next(s, t, a).value)
  {
    NextMovesOne(s, t, a);
    NextOut(s, t, a);
    NextCall(s, t, a);
    NextReturned(s, t, a);
    hide Next;
  }

  lemma NextKeepsNotYet<T>(s: State<T>, t: nat, a: Action<T>)
    requires Numbered(s) && NotYet(s) && t < |s.pcs| && Next(s, t, a).Some?
    ensures NotYet(Next(s, t, a).value)
  {
    NextMovesOne(s, t, a);
    NextOut(s, t, a);
    NextCall(s, t, a);
    NextReturned(s, t, a);
    hide Next;
    var s' := Next(s, t, a).value;
    forall u, k | 0 <= u < |s'.pcs| && 0 <= k < |s'.out|
      ensures Removing(s'.pcs[u]) != Some(s'.out[k].call)
    {
      if u != t && k >= |s.out| {
        assert CallOf(s.pcs[t]) != CallOf(s.pcs[u]);
      } else if k < |s.out| {
        assert s'.out[k] == s.out[k];
        assert Removing(s.pcs[u]) != Some(s.out[k].call);
      }
    }
    forall u | 0 <= u < |s'.pcs| && CallOf(s'.pcs[u]).Some?
      ensures CallOf(s'.pcs[u]).value !in s'.returned
    {
      if u != t {
        assert CallOf(s.pcs[t]) == None || CallOf(s.pcs[t]) != CallOf(s.pcs[u]);
      }
    }
  }

  lemma NextKeepsOnce<T>(s: State<T>, t: nat, a: Action<T>)
    requires NotYet(s) && OncePerDequeue(s) && t < |s.pcs| && Next(s, t, a).Some?
    ensures OncePerDequeue(Next(s, t, a).value)
  {
    NextOut(s, t, a);
    hide Next;
    var s' := Next(s, t, a).value;
    assert forall k | 0 <= k < |s.out| :: s'.out[k] == s.out[k];
  }

  lemma NextKeepsGivenBack<T>(s: State<T>, t: nat, a: Action<T>)
    requires GivenBack(s) && t < |s.pcs| && Next(s, t, a).Some?
    ensures GivenBack(Next(s, t, a).value)
  {
    NextMovesOne(s, t, a);
    NextOut(s, t, a);
    NextCall(s, t, a);
    NextReturned(s, t, a);
    var s' := Next(s, t, a).value;
    assert s'.pcs[t].DeqUnlock? ==>
        Removal(s'.pcs[t].elem, s'.pcs[t].call, false) == s'.out[|s'.out| - 1];
    hide Next;
    assert forall r | r in s.out :: r in s'.out;
  }

  lemma NextKeepsNothingLost<T>(s: State<T>, t: nat, a: Action<T>)
    requires NotYet(s) && NothingLost(s) && t < |s.pcs| && Next(s, t, a).Some?
    ensures NothingLost(Next(s, t, a).value)
  {
    var s' := Next(s, t, a).value;
    NextMovesOne(s, t, a);
    NextOut(s, t, a);
    NextCall(s, t, a);
    NextReturned(s, t, a);
    assert |s'.out| > |s.out| && !s.pcs[t].ClearLoop? ==>
        s'.pcs[t] == DeqUnlock(s'.out[|s.out|].call, s'.out[|s.out|].item);
    assert s.pcs[t].DeqUnlock? ==> s'.returned == s.returned[s.pcs[t].call := s.pcs[t].elem];
    hide Next;
    forall k | 0 <= k < |s'.out| && !s'.out[k].cleared
      ensures InHand(s', s'.out[k])
    {
      var r := s'.out[k];
      if k < |s.out| {
        assert r == s.out[k];
        assert InHand(s, r);
        StillInHand(s, s', t, r);
      } else {
        assert s'.pcs[t] == DeqUnlock(r.call, r.item);
      }
    }
  }

  lemma StillInHand<T>(s: State<T>, s': State<T>, t: nat, r: Removal<T>)
    requires t < |s.pcs| && |s'.pcs| == |s.pcs| && s'.pcs == s.pcs[t := s'.pcs[t]]
    requires NotYet(s) && InHand(s, r)
    requires s'.returned == s.returned
          || (s.pcs[t].DeqUnlock? && s'.returned == s.returned[s.pcs[t].call := s.pcs[t].elem])
    requires s.pcs[t].DeqUnlock? ==> s'.returned == s.returned[s.pcs[t].call := s.pcs[t].elem]
    ensures InHand(s', r)
  {
    if r.call in s.returned && s.returned[r.call] == r.item {
      assert CallOf(s.pcs[t]).Some? ==> CallOf(s.pcs[t]).value != r.call;
    } else {
      var u :| 0 <= u < |s.pcs| && s.pcs[u] == DeqUnlock(r.call, r.item);
      if u != t {
        assert s'.pcs[u] == DeqUnlock(r.call, r.item);
      }
    }
  }

  lemma NextKeepsHistory<T>(s: State<T>, t: nat, a: Action<T>)
    requires History(s) && t < |s.pcs| && Next(s, t, a).Some?
    ensures History(Next(s, t, a).value)
  {
    NextKeepsFifo(s, t, a);
    NextKeepsNumbered(s, t, a);
    NextKeepsNotYet(s, t, a);
    NextKeepsOnce(s, t, a);
    NextKeepsGivenBack(s, t, a);
    NextKeepsNothingLost(s, t, a);
    hide Next, Fifo, Numbered, NotYet, OncePerDequeue, GivenBack, NothingLost;
  }

  // ---- all runs ------------------------------------------------------------

  lemma {:induction false} RunKeepsHistory<T>(s: State<T>, events: seq<Event<T>>)
    requires History(s) && Run(s, events).Some?
    ensures History(Run(s, events).value)
    decreases |events|
  {
    hide History, Next;
    if events != [] {
      NextKeepsHistory(s, events[0].thread, events[0].action);
      RunKeepsHistory(Next(s, events[0].thread, events[0].action).value, events[1..]);
    }
  }

  lemma InitHistory<T>(threads: nat)
    ensures History(Init<T>(threads))
  {
    assert [] + Init<T>(threads).queue == [];
  }

  /** Position `k` of the log of removals is the only one that belongs to call `c`. */
  ghost predicate OnlyRemoval<T>(out: seq<Removal<T>>, c: nat, k: nat) {
    k < |out| && out[k].call == c && forall j | 0 <= j < |out| :: out[j].call == c ==> j == k
  }

  /**
   Over every run items leave in the order they were pushed; the item in position `k` is the one
   removed in position `k`, by one dequeue or one clear; a dequeue that returned removed exactly
   one item, the one it returned; and once no dequeue is on its way out, each item a dequeue
   removed has been returned by that dequeue.
   */
  lemma ItemsLeaveOnce<T>(threads: nat, events: seq<Event<T>>)
    requires Run(Init<T>(threads), events).Some?
    ensures var s := Run(Init<T>(threads), events).value;
            && s.pushed == Items(s.out) + s.queue
            && (forall c | c in s.returned ::
                 exists k: nat :: OnlyRemoval(s.out, c, k) && s.out[k] == Removal(s.returned[c], c, false))
            && ((forall t | 0 <= t < |s.pcs| :: !s.pcs[t].DeqUnlock?) ==>
                 forall k | 0 <= k < |s.out| && !s.out[k].cleared ::
                   s.out[k].call in s.returned && s.returned[s.out[k].call] == s.out[k].item)
  {
    InitHistory<T>(threads);
    RunKeepsHistory(Init<T>(threads), events);
    var s := Run(Init<T>(threads), events).value;
    forall c | c in s.returned
      ensures exists k: nat :: OnlyRemoval(s.out, c, k) && s.out[k] == Removal(s.returned[c], c, false)
    {
      var k :| 0 <= k < |s.out| && s.out[k] == Removal(s.returned[c], c, false);
      assert OnlyRemoval(s.out, c, k);
    }
    assert forall k | 0 <= k < |s.out| && !s.out[k].cleared :: InHand(s, s.out[k]);
  }
}
