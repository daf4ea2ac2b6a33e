/**
 The semaphore that keeps its own copy of the kernel semaphore's counter. A wait first takes
 from the kernel semaphore and later decrements the copy; a notify overwrites the copy with what
 the kernel reported. `ReleaseSemaphore` is assumed to succeed.
 */
module WindowsSemaphore {
  import opened Wrappers
  import opened Counting

  /** `acq` is the number of releases that had happened when the wait took its token. */
  datatype Pc =
    | Idle
    | WaitKernel(timed: bool)
    | WaitLock(acq: nat)
    | WaitDecrement(acq: nat)
    | WaitUnlock
    | NotifyLock(increment: nat)
    | NotifyRelease(increment: nat)
    | NotifyStore(increment: nat, previous: nat)
    | NotifyUnlock
    | ValueLock
    | ValueRead
    | ValueUnlock(value: int)

  /** A decrement of the copy: releases before the token was taken, releases before the decrement. */
  datatype Decrement = Decrement(acq: nat, at: nat)

  datatype State = State(
    pcs: seq<Pc>,
    kernel: nat,
    count: int,
    owner: Option<nat>,
    releases: nat,
    decs: seq<Decrement>)

  datatype Action =
    | StartWait(timed: bool)
    | StartNotify(increment: nat)
    | StartValue
    | Continue
    | Expire

  function Init(value: nat, threads: nat): State {
    State(seq(threads, _ => Idle), value, value, None, 0, [])
  }

  function Goto(s: State, t: nat, pc: Pc): State
    requires t < |s.pcs|
  {
    s.(pcs := s.pcs[t := pc])
  }

  function Lock(s: State, t: nat, pc: Pc): Option<State>
    requires t < |s.pcs|
  {
    if s.owner.None? then Some(Goto(s, t, pc).(owner := Some(t))) else None
  }

  function Unlock(s: State, t: nat): Option<State>
    requires t < |s.pcs|
  {
    Some(Goto(s, t, Idle).(owner := None))
  }

  function Advance(s: State, t: nat): Option<State>
    requires t < |s.pcs|
  {
    match s.pcs[t]
    case Idle => None
    case WaitKernel(_) =>
      if s.kernel == 0 then None
      else Some(Goto(s, t, WaitLock(s.releases)).(kernel := s.kernel - 1))
    case WaitLock(acq) => Lock(s, t, WaitDecrement(acq))
    case WaitDecrement(acq) =>
      Some(Goto(s, t, WaitUnlock).(
           count := s.count - 1,
           decs := s.decs + [Decrement(acq, s.releases)]))
    case WaitUnlock => Unlock(s, t)
    case NotifyLock(n) => Lock(s, t, NotifyRelease(n))
    case NotifyRelease(n) =>
      Some(Goto(s, t, NotifyStore(n, s.kernel)).(
           kernel := s.kernel + n,
           releases := s.releases + 1))
    case NotifyStore(n, previous) => Some(Goto(s, t, NotifyUnlock).(count := previous + n))
    case NotifyUnlock => Unlock(s, t)
    case ValueLock => Lock(s, t, ValueRead)
    case ValueRead => Some(Goto(s, t, ValueUnlock(s.count)))
    case ValueUnlock(_) => Unlock(s, t)
  }

  function Next(s: State, t: nat, a: Action): Option<State>
    requires t < |s.pcs|
  {
    match a
    case Continue => Advance(s, t)
    case StartWait(timed) => if s.pcs[t].Idle? then Some(Goto(s, t, WaitKernel(timed))) else None
    case StartNotify(n) =>
      if s.pcs[t].Idle? && n > 0 then Some(Goto(s, t, NotifyLock(n))) else None
    case StartValue => if s.pcs[t].Idle? then Some(Goto(s, t, ValueLock)) else None
    case Expire =>
      if s.pcs[t].WaitKernel? && s.pcs[t].timed then Some(Goto(s, t, Idle)) else None
  }

  datatype Event = Event(thread: nat, action: Action)

  function Run(s: State, events: seq<Event>): Option<State>
    decreases |events|
  {
    if events == [] then Some(s)
    else if events[0].thread >= |s.pcs| then None
    else
      match Next(s, events[0].thread, events[0].action)
      case None => None
      case Some(s') => Run(s', events[1..])
  }

  lemma {:induction false} RunThen(s: State, events: seq<Event>, s': State, e: Event, s'': State)
    requires Run(s, events) == Some(s')
    requires e.thread < |s'.pcs| && Next(s', e.thread, e.action) == Some(s'')
    ensures Run(s, events + [e]) == Some(s'')
    decreases |events|
  {
    hide Next;
    if events == [] {
      assert [e][1..] == [];
    } else {
      assert (events + [e])[1..] == events[1..] + [e];
      RunThen(Next(s, events[0].thread, events[0].action).value, events[1..], s', e, s'');
    }
  }

  // ---- what the copy is off by ---------------------------------------------

  /** Waits that took their token after `releases` releases and have not decremented the copy. */
  function Fresh(releases: nat): Pc -> nat {
    (pc: Pc) => if (pc.WaitLock? || pc.WaitDecrement?) && pc.acq == releases then 1 else 0
  }

  /** Decrements since the last release by waits that took their token before it. */
  function Late(decs: seq<Decrement>, releases: nat): nat {
    if decs == [] then 0
    else
      var d := decs[|decs| - 1];
      Late(decs[..|decs| - 1], releases) + (if d.at == releases && d.acq < releases then 1 else 0)
  }

  predicate Inside(pc: Pc) {
    pc.WaitDecrement? || pc.WaitUnlock? || pc.NotifyRelease? || pc.NotifyStore?
    || pc.NotifyUnlock? || pc.ValueRead? || pc.ValueUnlock?
  }

  predicate Exclusive(s: State) {
    forall t | 0 <= t < |s.pcs| :: Inside(s.pcs[t]) <==> s.owner == Some(t)
  }

  /** Nothing in the history lies in the future. */
  predicate Past(s: State) {
    && (forall t | 0 <= t < |s.pcs| ::
         s.pcs[t].WaitLock? || s.pcs[t].WaitDecrement? ==> s.pcs[t].acq <= s.releases)
    && (forall k | 0 <= k < |s.decs| :: s.decs[k].acq <= s.decs[k].at <= s.releases)
  }

  /** The value the copy has, or is about to get from the notify that has released already. */
  function Copy(s: State): int {
    if s.owner.Some? && s.owner.value < |s.pcs| && s.pcs[s.owner.value].NotifyStore?
    then s.pcs[s.owner.value].previous + s.pcs[s.owner.value].increment
    else s.count
  }

  predicate Drift(s: State) {
    Copy(s) - s.kernel == Sum(Fresh(s.releases), s.pcs) - Late(s.decs, s.releases)
  }

  predicate Inv(s: State) {
    && Exclusive(s)
    && Past(s)
    && Drift(s)
    && (forall t | 0 <= t < |s.pcs| :: s.pcs[t].NotifyStore? ==> Late(s.decs, s.releases) == 0)
    && Remembers(s)
  }

  /** What `value` has read under the mutex is still so. */
  predicate Remembers(s: State) {
    forall t | 0 <= t < |s.pcs| :: s.pcs[t].ValueUnlock? ==> s.pcs[t].value == s.count
  }

  lemma NextKeepsRemembers(s: State, t: nat, a: Action)
    requires Exclusive(s) && Remembers(s) && t < |s.pcs| && Next(s, t, a).Some?
    ensures Remembers(Next(s, t, a).value)
  {
    NextMovesOne(s, t, a);
    assert Inside(s.pcs[t]) <==> s.owner == Some(t);
  }

  lemma {:induction false} LateZero(decs: seq<Decrement>, releases: nat)
    ensures Late(decs, releases) == 0 <==>
            forall k | 0 <= k < |decs| :: !(decs[k].acq < releases == decs[k].at)
  {
    if decs != [] {
      LateZero(decs[..|decs| - 1], releases);
    }
  }

  lemma NextMovesOne(s: State, t: nat, a: Action)
    requires t < |s.pcs| && Next(s, t, a).Some?
    ensures var s' := Next(s, t, a).value;
            |s'.pcs| == |s.pcs| && s'.pcs == s.pcs[t := s'.pcs[t]]
  {
  }

  lemma NextMutex(s: State, t: nat, a: Action)
    requires t < |s.pcs| && Next(s, t, a).Some?
    requires Inside(s.pcs[t]) <==> s.owner == Some(t)
    ensures var s' := Next(s, t, a).value;
            && |s'.pcs| == |s.pcs|
            && (Inside(s'.pcs[t]) <==> s'.owner == Some(t))
            && (s'.owner == s.owner || (s.owner == None && s'.owner == Some(t))
                || (s.owner == Some(t) && s'.owner == None))
  {
  }

  lemma NextKeepsExclusive(s: State, t: nat, a: Action)
    requires Exclusive(s) && t < |s.pcs| && Next(s, t, a).Some?
    ensures Exclusive(Next(s, t, a).value)
  {
    NextMovesOne(s, t, a);
    NextMutex(s, t, a);
    hide Next;
  }

  lemma NextKeepsPast(s: State, t: nat, a: Action)
    requires Past(s) && t < |s.pcs| && Next(s, t, a).Some?
    ensures Past(Next(s, t, a).value)
  {
  }

  lemma LateSnoc(decs: seq<Decrement>, d: Decrement, releases: nat)
    ensures Late(decs + [d], releases)
         == Late(decs, releases) + (if d.at == releases && d.acq < releases then 1 else 0)
  {
    assert (decs + [d])[..|decs|] == decs;
  }

  /** A release starts afresh: no token was taken and no decrement made since. */
  lemma NothingSinceRelease(s: State)
    requires Past(s)
    ensures Sum(Fresh(s.releases + 1), s.pcs) == 0
    ensures Late(s.decs, s.releases + 1) == 0
  {
    SumZero(Fresh(s.releases + 1), s.pcs);
    LateZero(s.decs, s.releases + 1);
  }

  lemma ReleaseKeepsDrift(s: State, t: nat)
    requires Inv(s) && t < |s.pcs| && s.pcs[t].NotifyRelease?
    ensures Drift(Advance(s, t).value)
    ensures Late(Advance(s, t).value.decs, Advance(s, t).value.releases) == 0
  {
    var s' := Advance(s, t).value;
    NothingSinceRelease(s);
    SumUpdate(Fresh(s'.releases), s.pcs, t, s'.pcs[t]);
  }

  lemma DecrementKeepsDrift(s: State, t: nat)
    requires Inv(s) && t < |s.pcs| && s.pcs[t].WaitDecrement?
    ensures Drift(Advance(s, t).value)
  {
    var s' := Advance(s, t).value;
    SumUpdate(Fresh(s.releases), s.pcs, t, s'.pcs[t]);
    LateSnoc(s.decs, Decrement(s.pcs[t].acq, s.releases), s.releases);
    hide Late;
  }

  lemma OtherKeepsDrift(s: State, t: nat, a: Action)
    requires Inv(s) && t < |s.pcs| && Next(s, t, a).Some?
    requires a.Continue? ==> !s.pcs[t].NotifyRelease? && !s.pcs[t].WaitDecrement?
    ensures Drift(Next(s, t, a).value)
  {
    var s' := Next(s, t, a).value;
    NextMovesOne(s, t, a);
    SumUpdate(Fresh(s.releases), s.pcs, t, s'.pcs[t]);
    hide Late, Past;
  }

  lemma NextKeepsDrift(s: State, t: nat, a: Action)
    requires Inv(s) && t < |s.pcs| && Next(s, t, a).Some?
    ensures Drift(Next(s, t, a).value)
    ensures s.pcs[t].NotifyRelease? && a.Continue? ==>
            Late(Next(s, t, a).value.decs, Next(s, t, a).value.releases) == 0
  {
    if a.Continue? && s.pcs[t].NotifyRelease? {
      ReleaseKeepsDrift(s, t);
    } else if a.Continue? && s.pcs[t].WaitDecrement? {
      DecrementKeepsDrift(s, t);
    } else {
      OtherKeepsDrift(s, t, a);
    }
    hide Drift, Inv, Late;
  }

  lemma NextKeepsInv(s: State, t: nat, a: Action)
    requires Inv(s) && t < |s.pcs| && Next(s, t, a).Some?
    ensures Inv(Next(s, t, a).value)
  {
    NextMovesOne(s, t, a);
    NextKeepsExclusive(s, t, a);
    NextKeepsPast(s, t, a);
    NextKeepsDrift(s, t, a);
    NextKeepsStore(s, t, a);
    NextKeepsRemembers(s, t, a);
    hide Next, Exclusive, Past, Drift, Remembers;
  }

  lemma NextKeepsStore(s: State, t: nat, a: Action)
    requires Inv(s) && t < |s.pcs| && Next(s, t, a).Some?
    ensures var s' := Next(s, t, a).value;
            forall u | 0 <= u < |s'.pcs| :: s'.pcs[u].NotifyStore? ==> Late(s'.decs, s'.releases) == 0
  {
    NextKeepsDrift(s, t, a);
    NextMovesOne(s, t, a);
    hide Late, Drift, Sum;
  }

  lemma {:induction false} RunKeepsInv(s: State, events: seq<Event>)
    requires Inv(s) && Run(s, events).Some?
    ensures Inv(Run(s, events).value)
    decreases |events|
  {
    hide Next, Inv;
    if events != [] {
      NextKeepsInv(s, events[0].thread, events[0].action);
      RunKeepsInv(Next(s, events[0].thread, events[0].action).value, events[1..]);
    }
  }

  lemma InitInv(value: nat, threads: nat)
    ensures Inv(Init(value, threads))
  {
    SumZero(Fresh(0), Init(value, threads).pcs);
  }

  // ---- no token is made up or lost -----------------------------------------

  /** The wait has its token and has not decremented the copy. */
  function HasToken(pc: Pc): nat {
    if pc.WaitLock? || pc.WaitDecrement? then 1 else 0
  }

  /** Tokens that a notify has still to release. */
  function ToRelease(pc: Pc): nat {
    match pc
    case NotifyLock(n) => n
    case NotifyRelease(n) => n
    case _ => 0
  }

  function TokensAsked(events: seq<Event>): nat
    decreases |events|
  {
    if events == [] then 0
    else (if events[0].action.StartNotify? then events[0].action.increment else 0) + TokensAsked(events[1..])
  }

  lemma {:induction false} RunTokens(s: State, events: seq<Event>)
    requires Run(s, events).Some?
    ensures var s' := Run(s, events).value;
            s'.kernel + |s'.decs| + Sum(HasToken, s'.pcs) + Sum(ToRelease, s'.pcs)
            == s.kernel + |s.decs| + Sum(HasToken, s.pcs) + Sum(ToRelease, s.pcs) + TokensAsked(events)
    decreases |events|
  {
    if events != [] {
      var t, a := events[0].thread, events[0].action;
      var s1 := Next(s, t, a).value;
      NextMovesOne(s, t, a);
      NextTokens(s, t, a);
      hide Next, Sum, HasToken, ToRelease;
      SumUpdate(HasToken, s.pcs, t, s1.pcs[t]);
      SumUpdate(ToRelease, s.pcs, t, s1.pcs[t]);
      RunTokens(s1, events[1..]);
    }
  }

  lemma NextTokens(s: State, t: nat, a: Action)
    requires t < |s.pcs| && Next(s, t, a).Some?
    ensures var s' := Next(s, t, a).value;
            && |s'.pcs| == |s.pcs|
            && s'.kernel + |s'.decs| + HasToken(s'.pcs[t]) + ToRelease(s'.pcs[t])
            == s.kernel + |s.decs| + HasToken(s.pcs[t]) + ToRelease(s.pcs[t])
               + (if a.StartNotify? then a.increment else 0)
  {
  }

  /**
   In every run the kernel counter and the tokens that waits have taken are the initial value and
   the tokens that notifies were asked for, those still to be released apart.
   */
  lemma TokensAreConserved(value: nat, threads: nat, events: seq<Event>)
    requires Run(Init(value, threads), events).Some?
    ensures var s := Run(Init(value, threads), events).value;
            s.kernel + |s.decs| + Sum(HasToken, s.pcs) + Sum(ToRelease, s.pcs) == value + TokensAsked(events)
  {
    RunTokens(Init(value, threads), events);
    SumZero(HasToken, Init(value, threads).pcs);
    SumZero(ToRelease, Init(value, threads).pcs);
  }

  // ---- a wait without timeout does not give up ------------------------------

  function AtKernel(pc: Pc): nat {
    if pc.WaitKernel? then 1 else 0
  }

  function WaitsStarted(events: seq<Event>): nat
    decreases |events|
  {
    if events == [] then 0 else (if events[0].action.StartWait? then 1 else 0) + WaitsStarted(events[1..])
  }

  /** Waits that timed out. */
  function GivenUp(events: seq<Event>): nat
    decreases |events|
  {
    if events == [] then 0 else (if events[0].action.Expire? then 1 else 0) + GivenUp(events[1..])
  }

  predicate NoneTimed(events: seq<Event>) {
    forall k | 0 <= k < |events| :: events[k].action.StartWait? ==> !events[k].action.timed
  }

  predicate AllUntimed(s: State) {
    forall t | 0 <= t < |s.pcs| :: s.pcs[t].WaitKernel? ==> !s.pcs[t].timed
  }

  lemma NextWaits(s: State, t: nat, a: Action)
    requires t < |s.pcs| && Next(s, t, a).Some?
    ensures var s' := Next(s, t, a).value;
            && |s'.pcs| == |s.pcs|
            && |s'.decs| + HasToken(s'.pcs[t]) + AtKernel(s'.pcs[t]) + (if a.Expire? then 1 else 0)
            == |s.decs| + HasToken(s.pcs[t]) + AtKernel(s.pcs[t]) + (if a.StartWait? then 1 else 0)
            && (AllUntimed(s) && (a.StartWait? ==> !a.timed) ==> !a.Expire? && AllUntimed(s'))
  {
  }

  lemma {:induction false} RunWaits(s: State, events: seq<Event>)
    requires Run(s, events).Some?
    ensures var s' := Run(s, events).value;
            |s'.decs| + Sum(HasToken, s'.pcs) + Sum(AtKernel, s'.pcs) + GivenUp(events)
            == |s.decs| + Sum(HasToken, s.pcs) + Sum(AtKernel, s.pcs) + WaitsStarted(events)
    ensures AllUntimed(s) && NoneTimed(events) ==> GivenUp(events) == 0
    decreases |events|
  {
    if events != [] {
      var t, a := events[0].thread, events[0].action;
      var s1 := Next(s, t, a).value;
      NextMovesOne(s, t, a);
      NextWaits(s, t, a);
      assert NoneTimed(events) ==> NoneTimed(events[1..]) && (a.StartWait? ==> !a.timed);
      hide Next, Sum, HasToken, AtKernel, NoneTimed, AllUntimed;
      SumUpdate(HasToken, s.pcs, t, s1.pcs[t]);
      SumUpdate(AtKernel, s.pcs, t, s1.pcs[t]);
      RunWaits(s1, events[1..]);
    }
  }

  /**
   In every run each wait has taken its token, timed out, or is still waiting for one, and without a
   timeout none gives up.
   */
  lemma WaitsTakeTokens(value: nat, threads: nat, events: seq<Event>)
    requires Run(Init(value, threads), events).Some?
    ensures var s := Run(Init(value, threads), events).value;
            WaitsStarted(events) == |s.decs| + Sum(HasToken, s.pcs) + Sum(AtKernel, s.pcs) + GivenUp(events)
    ensures NoneTimed(events) ==> GivenUp(events) == 0
  {
    RunWaits(Init(value, threads), events);
    SumZero(HasToken, Init(value, threads).pcs);
    SumZero(AtKernel, Init(value, threads).pcs);
  }

  /**
   Whenever the mutex is free, the copy exceeds the kernel counter by the waits that took their
   token since the last release and have not decremented, less those that took it before and
   decremented after.
   */
  lemma CounterDrift(value: nat, threads: nat, events: seq<Event>)
    requires Run(Init(value, threads), events).Some?
    requires Run(Init(value, threads), events).value.owner.None?
    ensures var s := Run(Init(value, threads), events).value;
            s.count - s.kernel == Sum(Fresh(s.releases), s.pcs) - Late(s.decs, s.releases)
  {
    InitInv(value, threads);
    RunKeepsInv(Init(value, threads), events);
  }

  /** At rest the copy is right if and only if no wait straddled the last release. */
  lemma ExactAtRest(value: nat, threads: nat, events: seq<Event>)
    requires Run(Init(value, threads), events).Some?
    requires forall t | 0 <= t < |Run(Init(value, threads), events).value.pcs| ::
               Run(Init(value, threads), events).value.pcs[t].Idle?
    ensures var s := Run(Init(value, threads), events).value;
            s.count == s.kernel <==>
            forall k | 0 <= k < |s.decs| :: !(s.decs[k].acq < s.releases == s.decs[k].at)
  {
    InitInv(value, threads);
    RunKeepsInv(Init(value, threads), events);
    var s := Run(Init(value, threads), events).value;
    SumZero(Fresh(s.releases), s.pcs);
    LateZero(s.decs, s.releases);
  }

  // ---- a copy that is wrong at rest ----------------------------------------

  /** Thread 0 takes the only token; thread 1 notifies; then thread 0 decrements the copy. */
  function Straddling(k: nat): Event
    requires k < 10
  {
    if k == 0 then Event(0, StartWait(false))
    else if k == 2 then Event(1, StartNotify(1))
    else Event(if 2 < k < 7 then 1 else 0, Continue)
  }

  /** The state before event `k`. */
  function Straddled(k: nat): State
    requires k <= 10
  {
    var waiter :=
      if k == 0 then Idle else if k == 1 then WaitKernel(false) else if k < 8 then WaitLock(0)
      else if k == 8 then WaitDecrement(0) else if k == 9 then WaitUnlock else Idle;
    var notifier :=
      if k < 3 || k > 6 then Idle else if k == 3 then NotifyLock(1) else if k == 4 then NotifyRelease(1)
      else if k == 5 then NotifyStore(1, 0) else NotifyUnlock;
    State(
      [waiter, notifier], if 2 <= k < 5 then 0 else 1, if k < 9 then 1 else 0,
      if 4 <= k < 7 then Some(1) else if 8 <= k < 10 then Some(0) else None,
      if k < 5 then 0 else 1, if k < 9 then [] else [Decrement(0, 1)])
  }

  lemma StraddledStep(k: nat)
    requires k < 10
    ensures Next(Straddled(k), Straddling(k).thread, Straddling(k).action) == Some(Straddled(k + 1))
  {
    var t := Straddling(k).thread;
    assert Straddled(k).pcs[t := Straddled(k + 1).pcs[t]] == Straddled(k + 1).pcs;
    assert [] + [Decrement(0, 1)] == [Decrement(0, 1)];
  }

  lemma {:induction false} StraddledRun(k: nat)
    requires k <= 10
    ensures Run(Straddled(0), seq(k, i requires 0 <= i < 10 => Straddling(i))) == Some(Straddled(k))
  {
    if k > 0 {
      var es := seq(k - 1, i requires 0 <= i < 10 => Straddling(i));
      StraddledRun(k - 1);
      StraddledStep(k - 1);
      hide Next, Straddled, Straddling;
      RunThen(Straddled(0), es, Straddled(k - 1), Straddling(k - 1), Straddled(k));
      assert seq(k, i requires 0 <= i < 10 => Straddling(i)) == es + [Straddling(k - 1)];
    }
  }

  /** A run that ends with nobody active, the kernel counter at 1 and the copy at 0. */
  lemma CopyIsWrongAtRest()
    ensures exists events: seq<Event> ::
              Run(Init(1, 2), events) == Some(State([Idle, Idle], 1, 0, None, 1, [Decrement(0, 1)]))
  {
    StraddledRun(10);
    assert Init(1, 2).pcs == Straddled(0).pcs;
  }
}
