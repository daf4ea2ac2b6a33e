/** Any run of calls on one serializer behaves like a replayable first-in first-out log of values. */
module Replay {
  import opened Bytes
  import opened VariantValue
  import opened Codec
  import opened CodecTheorems
  import opened Serializer

  datatype Op = Push(v: Value) | Pop | Reset

  datatype Reply = Accepted | Popped(v: Value) | Nothing

  // ---- the serializer ------------------------------------------------------

  /** Buffer and read index. */
  datatype Store = Store(data: seq<Byte>, index: nat) {
    predicate Valid() {
      index <= |data|
    }
  }

  function StoreStep(s: Store, op: Op): (r: (Store, Reply))
    requires s.Valid()
    ensures r.0.Valid()
  {
    match op
    case Push(v) => (Store(s.data + Enc(v), s.index), Accepted)
    case Reset => (Store(s.data, 0), Accepted)
    case Pop =>
      match Dec(s.data, s.index)
      case Done(v, j) => (Store(s.data, j), Popped(v))
      case Fail(j) => (Store(s.data, j), Nothing)
  }

  function StoreRun(s: Store, ops: seq<Op>): (r: (Store, seq<Reply>))
    requires s.Valid()
    ensures r.0.Valid()
    decreases ops
  {
    if ops == [] then (s, [])
    else
      var (t, reply) := StoreStep(s, ops[0]);
      var (u, replies) := StoreRun(t, ops[1..]);
      (u, [reply] + replies)
  }

  /** A call on the object is one step of the run. */
  method Call(ser: ByteArraySerializer, op: Op) returns (reply: Reply)
    requires ser.Valid() && (op.Pop? ==> Dec(ser.m_byteArray.m_data, ser.m_index).next < TWO_32)
    modifies ser, ser.m_byteArray
    ensures ser.Valid()
    ensures var s := old(Store(ser.m_byteArray.m_data, ser.m_index));
            && Store(ser.m_byteArray.m_data, ser.m_index) == StoreStep(s, op).0
            && reply == StoreStep(s, op).1
  {
    hide Enc;
    match op {
      case Push(v) =>
        ser.PushValue(v);
        reply := Accepted;
      case Reset =>
        ser.Reset();
        reply := Accepted;
      case Pop =>
        var ok, v, _, _ := ser.PopValue(Invalid);
        reply := if ok then Popped(v) else Nothing;
    }
  }

  // ---- the log -------------------------------------------------------------

  /** All values pushed so far and how many of them were popped since the last reset. */
  datatype Log = Log(values: seq<Value>, cursor: nat) {
    predicate Valid() {
      cursor <= |values|
    }
  }

  function LogStep(l: Log, op: Op): (r: (Log, Reply))
    requires l.Valid()
    ensures r.0.Valid()
  {
    match op
    case Push(v) => (Log(l.values + [v], l.cursor), Accepted)
    case Reset => (Log(l.values, 0), Accepted)
    case Pop =>
      if l.cursor == |l.values| then (l, Nothing)
      else (Log(l.values, l.cursor + 1), Popped(l.values[l.cursor]))
  }

  function LogRun(l: Log, ops: seq<Op>): (r: (Log, seq<Reply>))
    requires l.Valid()
    ensures r.0.Valid()
    decreases ops
  {
    if ops == [] then (l, [])
    else
      var (m, reply) := LogStep(l, ops[0]);
      var (n, replies) := LogRun(m, ops[1..]);
      (n, [reply] + replies)
  }

  // ---- refinement ----------------------------------------------------------

  predicate Encodable(v: Value) {
    Ordered(v) && Fits(v)
  }

  predicate EncodablePushes(ops: seq<Op>) {
    forall k | 0 <= k < |ops| :: ops[k].Push? ==> Encodable(ops[k].v)
  }

  /** The buffer spells the log, and the index stands where the next value of the log starts. */
  ghost predicate Represents(s: Store, l: Log) {
    && l.Valid()
    && (forall k | 0 <= k < |l.values| :: Encodable(l.values[k]))
    && s.data == EncItems(l.values)
    && s.index == |EncItems(l.values[..l.cursor])|
  }

  lemma {:induction false} EncItemsConcat(vs: seq<Value>, us: seq<Value>)
    ensures EncItems(vs + us) == EncItems(vs) + EncItems(us)
  {
    hide Enc;
    if vs == [] {
      assert vs + us == us;
    } else {
      assert (vs + us)[1..] == vs[1..] + us;
      assert EncItems(vs + us) == Enc(vs[0]) + EncItems(vs[1..] + us);
      EncItemsConcat(vs[1..], us);
      assert EncItems(vs) == Enc(vs[0]) + EncItems(vs[1..]);
    }
  }

  /** From the index on, the buffer holds the encodings of the values not popped yet. */
  lemma Remaining(s: Store, l: Log)
    requires Represents(s, l)
    ensures s.Valid()
    ensures s.data[s.index..] == EncItems(l.values[l.cursor..])
  {
    EncItemsConcat(l.values[..l.cursor], l.values[l.cursor..]);
    assert l.values == l.values[..l.cursor] + l.values[l.cursor..];
  }

  lemma PopRefines(s: Store, l: Log)
    requires Represents(s, l)
    ensures s.Valid()
    ensures Represents(StoreStep(s, Pop).0, LogStep(l, Pop).0)
    ensures StoreStep(s, Pop).1 == LogStep(l, Pop).1
  {
    Remaining(s, l);
    var rest := l.values[l.cursor..];
    if rest != [] {
      var v := l.values[l.cursor];
      assert EncItems(rest) == Enc(v) + EncItems(rest[1..]);
      assert At(s.data, s.index, Enc(v)) by {
        assert s.data[s.index..][..|Enc(v)|] == Enc(v);
      }
      DecEnc(s.data, s.index, v);
      EncItemsConcat(l.values[..l.cursor], [v]);
      assert EncItems([v]) == Enc(v) by { EncItemsOne(v); }
      assert l.values[..l.cursor + 1] == l.values[..l.cursor] + [v];
    }
  }

  lemma EncItemsOne(v: Value)
    ensures EncItems([v]) == Enc(v)
  {
    hide Enc;
    assert [v][1..] == [];
    assert EncItems([v]) == Enc(v) + EncItems([]);
  }

  lemma StepRefines(s: Store, l: Log, op: Op)
    requires Represents(s, l) && (op.Push? ==> Encodable(op.v))
    ensures s.Valid()
    ensures Represents(StoreStep(s, op).0, LogStep(l, op).0)
    ensures StoreStep(s, op).1 == LogStep(l, op).1
  {
    Remaining(s, l);
    match op {
      case Push(v) =>
        EncItemsConcat(l.values, [v]);
        EncItemsOne(v);
        assert (l.values + [v])[..l.cursor] == l.values[..l.cursor];
      case Reset =>
      case Pop => PopRefines(s, l);
    }
  }

  lemma {:induction false} RunRefines(s: Store, l: Log, ops: seq<Op>)
    requires Represents(s, l) && EncodablePushes(ops)
    ensures s.Valid()
    ensures Represents(StoreRun(s, ops).0, LogRun(l, ops).0)
    ensures StoreRun(s, ops).1 == LogRun(l, ops).1
    decreases ops
  {
    Remaining(s, l);
    if ops != [] {
      assert ops[0].Push? ==> Encodable(ops[0].v);
      StepRefines(s, l, ops[0]);
      RunRefines(StoreStep(s, ops[0]).0, LogStep(l, ops[0]).0, ops[1..]);
    }
  }

  /**
   A serializer that starts empty gives the replies of the log: every pop returns the oldest
   value not popped since the last reset, and fails exactly when there is none.
   */
  lemma SerializerIsReplayableQueue(ops: seq<Op>)
    requires EncodablePushes(ops)
    ensures StoreRun(Store([], 0), ops).1 == LogRun(Log([], 0), ops).1
    ensures Represents(StoreRun(Store([], 0), ops).0, LogRun(Log([], 0), ops).0)
  {
    RunRefines(Store([], 0), Log([], 0), ops);
  }

  // ---- every single reply --------------------------------------------------

  /** The values pushed, in order. */
  function Pushed(ops: seq<Op>): seq<Value> {
    if ops == [] then []
    else Pushed(ops[..|ops| - 1]) + (if ops[|ops| - 1].Push? then [ops[|ops| - 1].v] else [])
  }

  /** Successful pops after the last reset. */
  function PopsSinceReset(ops: seq<Op>, replies: seq<Reply>): nat
    requires |ops| == |replies|
  {
    if ops == [] || ops[|ops| - 1].Reset? then 0
    else
      PopsSinceReset(ops[..|ops| - 1], replies[..|ops| - 1])
      + (if replies[|ops| - 1].Popped? then 1 else 0)
  }

  lemma LogFirst(l: Log, ops: seq<Op>)
    requires l.Valid() && ops != []
    ensures var (m, reply) := LogStep(l, ops[0]);
            LogRun(l, ops) == (LogRun(m, ops[1..]).0, [reply] + LogRun(m, ops[1..]).1)
  {
    hide LogStep;
  }

  lemma LogOne(l: Log, op: Op)
    requires l.Valid()
    ensures LogRun(l, [op]) == (LogStep(l, op).0, [LogStep(l, op).1])
  {
    hide LogStep;
    LogFirst(l, [op]);
    assert [op][1..] == [];
    assert [LogStep(l, op).1] + [] == [LogStep(l, op).1];
  }

  lemma {:induction false} LogConcat(l: Log, ops: seq<Op>, more: seq<Op>)
    requires l.Valid()
    ensures |LogRun(l, ops).1| == |ops|
    ensures LogRun(l, ops + more).0 == LogRun(LogRun(l, ops).0, more).0
    ensures LogRun(l, ops + more).1 == LogRun(l, ops).1 + LogRun(LogRun(l, ops).0, more).1
    decreases ops
  {
    hide LogStep;
    if ops == [] {
      assert ops + more == more;
      assert [] + LogRun(l, more).1 == LogRun(l, more).1;
    } else {
      LogFirst(l, ops);
      LogFirst(l, ops + more);
      assert (ops + more)[1..] == ops[1..] + more;
      LogConcat(LogStep(l, ops[0]).0, ops[1..], more);
    }
  }

  lemma {:induction false} LogAfter(ops: seq<Op>)
    ensures var (l, replies) := LogRun(Log([], 0), ops);
            |replies| == |ops| && l == Log(Pushed(ops), PopsSinceReset(ops, replies))
    decreases |ops|
  {
    if ops != [] {
      var init, op := ops[..|ops| - 1], ops[|ops| - 1];
      assert ops == init + [op];
      LogAfter(init);
      LogConcat(Log([], 0), init, [op]);
      var (l, replies) := LogRun(Log([], 0), init);
      LogOne(l, op);
      hide LogRun;
      assert (replies + [LogStep(l, op).1])[..|init|] == replies;
    }
  }

  /**
   Every reply in a run from an empty serializer: a pop gives, of all values pushed before, the one
   behind as many as were popped since the last reset, or nothing if there is none.
   */
  lemma EveryReply(ops: seq<Op>, k: nat)
    requires EncodablePushes(ops) && k < |ops|
    ensures var replies := StoreRun(Store([], 0), ops).1;
            && |replies| == |ops|
            && var vs, popped := Pushed(ops[..k]), PopsSinceReset(ops[..k], replies[..k]);
               replies[k] == if !ops[k].Pop? then Accepted
                             else if popped < |vs| then Popped(vs[popped])
                             else Nothing
  {
    var front := ops[..k];
    SerializerIsReplayableQueue(ops);
    LogReply(Log([], 0), ops, k);
    LogAfter(front);
    hide LogRun, StoreRun, EncodablePushes, Pushed, PopsSinceReset;
  }

  /** The reply to one operation comes from the log after those before it. */
  lemma LogReply(l: Log, ops: seq<Op>, k: nat)
    requires l.Valid() && k < |ops|
    ensures |LogRun(l, ops).1| == |ops|
    ensures LogRun(l, ops).1[..k] == LogRun(l, ops[..k]).1
    ensures LogRun(l, ops).1[k] == LogStep(LogRun(l, ops[..k]).0, ops[k]).1
  {
    var front, back := ops[..k], ops[k + 1..];
    assert ops == front + ([ops[k]] + back);
    LogConcat(l, front, [ops[k]] + back);
    LogConcat(LogRun(l, front).0, [ops[k]], back);
    LogConcat(l, ops, []);
    LogOne(LogRun(l, front).0, ops[k]);
    hide LogRun, LogStep;
  }

  /** A failing pop on such a run leaves the index where it was. */
  lemma FailedPopKeepsIndex(s: Store, l: Log)
    requires Represents(s, l)
    ensures s.Valid() && (StoreStep(s, Pop).1 == Nothing ==> StoreStep(s, Pop).0 == s)
  {
    PopRefines(s, l);
  }

  // ---- runs on the object --------------------------------------------------

  /** No operation takes bytes away. */
  lemma {:induction false} RunGrows(s: Store, ops: seq<Op>)
    requires s.Valid()
    ensures |s.data| <= |StoreRun(s, ops).0.data|
    decreases ops
  {
    hide Enc, Dec;
    if ops != [] {
      RunGrows(StoreStep(s, ops[0]).0, ops[1..]);
    }
  }

  lemma RunStep(s: Store, ops: seq<Op>)
    requires s.Valid() && ops != []
    ensures var (t, reply) := StoreStep(s, ops[0]);
            StoreRun(s, ops) == (StoreRun(t, ops[1..]).0, [reply] + StoreRun(t, ops[1..]).1)
  {
    hide StoreStep;
  }

  ghost function StoreOf(ser: ByteArraySerializer): Store
    reads ser, ser.m_byteArray
  {
    Store(ser.m_byteArray.m_data, ser.m_index)
  }

  /** The index type can count every place the read index comes to. */
  predicate Countable(s: Store, ops: seq<Op>)
    requires s.Valid()
    decreases ops
  {
    ops == [] || (StoreStep(s, ops[0]).0.index < TWO_32 && Countable(StoreStep(s, ops[0]).0, ops[1..]))
  }

  lemma {:induction false} SmallBufferIsCountable(s: Store, ops: seq<Op>)
    requires s.Valid() && |StoreRun(s, ops).0.data| < TWO_32
    ensures Countable(s, ops)
    decreases ops
  {
    if ops != [] {
      var t := StoreStep(s, ops[0]).0;
      RunStep(s, ops);
      RunGrows(t, ops[1..]);
      hide StoreRun, StoreStep;
      SmallBufferIsCountable(t, ops[1..]);
    }
  }

  lemma PopIsCountable(s: Store, ops: seq<Op>)
    requires s.Valid() && ops != [] && Countable(s, ops)
    ensures ops[0].Pop? ==> Dec(s.data, s.index).next < TWO_32
  {
  }

  /** Executes the operations one after another. */
  method Execute(ser: ByteArraySerializer, ops: seq<Op>) returns (replies: seq<Reply>)
    requires ser.Valid() && Countable(StoreOf(ser), ops)
    modifies ser, ser.m_byteArray
    ensures ser.Valid()
    ensures (StoreOf(ser), replies) == StoreRun(old(StoreOf(ser)), ops)
    decreases |ops|
  {
    ghost var s := StoreOf(ser);
    if ops == [] {
      replies := [];
    } else {
      RunStep(s, ops);
      PopIsCountable(s, ops);
      hide StoreRun, StoreStep, Dec;
      var reply := Call(ser, ops[0]);
      var rest := Execute(ser, ops[1..]);
      replies := [reply] + rest;
    }
  }

  /** A new serializer, used for any such run, is a replayable queue. */
  method ExecuteFromEmpty(ops: seq<Op>) returns (ser: ByteArraySerializer, replies: seq<Reply>)
    requires EncodablePushes(ops) && Countable(Store([], 0), ops)
    ensures ser.Valid()
    ensures replies == LogRun(Log([], 0), ops).1
    ensures Represents(StoreOf(ser), LogRun(Log([], 0), ops).0)
  {
    SerializerIsReplayableQueue(ops);
    ser := new ByteArraySerializer();
    replies := Execute(ser, ops);
  }
}
