/**
 Any number of variants and any run of constructors, operations and destructors on them, against
 a sequence of independent values.
 */
module VariantRuns {
  import opened Wrappers
  import opened Bytes
  import opened VariantValue
  import opened VariantHeap
  import opened VariantMutation
  import opened VariantOwnership

  // ---- the reference -------------------------------------------------------

  /**
   One line of a program. A variable is named by its position, a variant inside it by the path to it;
   `j` and `from` say what an operation or a constructor reads, if it reads another variant.
   */
  datatype Step =
    | Declare(t: Type)                               // Variant(Type), and Variant() for Type_Invalid
    | DeclareScalar(t: Type, d: Data)                // Variant(bool), (int), (double)
    | DeclareText(s: seq<Byte>)                      // Variant(const std::string&)
    | DeclareContents(j: nat, from: seq<nat>)        // Variant of another's string(), list() or map()
    | DeclareCopy(j: nat, from: seq<nat>)            // Variant(const Variant&)
    | Do(i: nat, path: seq<nat>, op: Op, j: nat, from: seq<nat>)  // an operation on a variable or inside it
    | Leave(i: nat)                                  // ~Variant()

  predicate IsPlace(vs: seq<Value>, j: nat, from: seq<nat>) {
    j < |vs| && IsPath(vs[j], from)
  }

  /** What an operation reads. */
  function SourceOf(vs: seq<Value>, op: Op, j: nat, from: seq<nat>): Value
    requires UsesSource(op) ==> IsPlace(vs, j, from)
  {
    if UsesSource(op) then ValueAt(vs[j], from) else Invalid
  }

  predicate Legal(vs: seq<Value>, s: Step) {
    match s
    case Declare(_) => true
    case DeclareScalar(t, d) => d != Zero && !d.AsPtr? && ScalarOf(t, d).Some?
    case DeclareText(_) => true
    case DeclareContents(j, from) =>
      IsPlace(vs, j, from) && var v := ValueAt(vs[j], from); v.String? || v.List? || v.Map?
    case DeclareCopy(j, from) => IsPlace(vs, j, from)
    case Do(i, path, op, j, from) =>
      && IsPlace(vs, i, path)
      && (UsesSource(op) ==> IsPlace(vs, j, from) && (i == j ==> Compatible(op, path, from)))
      && Allowed(op, ValueAt(vs[i], path), SourceOf(vs, op, j, from))
    case Leave(i) => i < |vs|
  }

  function After(vs: seq<Value>, s: Step): seq<Value>
    requires Legal(vs, s)
  {
    match s
    case Declare(t) => vs + [DefaultOf(t)]
    case DeclareScalar(t, d) => vs + [ScalarOf(t, d).value]
    case DeclareText(text) => vs + [String(text)]
    case DeclareContents(j, from) => vs + [ValueAt(vs[j], from)]
    case DeclareCopy(j, from) => vs + [ValueAt(vs[j], from)]
    case Do(i, path, op, j, from) =>
      vs[i := ReplaceAt(vs[i], path, Effect(op, ValueAt(vs[i], path), SourceOf(vs, op, j, from)))]
    case Leave(i) => vs[..i] + vs[i + 1..]
  }

  /** The values after a run; none if some step is not allowed where it stands. */
  function AfterAll(vs: seq<Value>, steps: seq<Step>): Option<seq<Value>>
    decreases |steps|
  {
    if steps == [] then Some(vs)
    else if Legal(vs, steps[0]) then AfterAll(After(vs, steps[0]), steps[1..])
    else None
  }

  // ---- several variants ----------------------------------------------------

  function CellsOf(vars: seq<Variant>): (cs: seq<Cell>)
    reads vars
    ensures |cs| == |vars|
  {
    if vars == [] then [] else CellsOf(vars[..|vars| - 1]) + [vars[|vars| - 1].ToCell()]
  }

  lemma {:induction false} CellsConcat(xs: seq<Variant>, ys: seq<Variant>)
    ensures CellsOf(xs + ys) == CellsOf(xs) + CellsOf(ys)
  {
    if ys == [] {
      assert xs + ys == xs;
    } else {
      var init := ys[..|ys| - 1];
      assert (xs + ys)[..|xs + ys| - 1] == xs + init;
      CellsConcat(xs, init);
    }
  }

  lemma CellsAround(xs: seq<Variant>, x: Variant, ys: seq<Variant>)
    ensures CellsOf(xs + [x] + ys) == CellsOf(xs) + [x.ToCell()] + CellsOf(ys)
  {
    CellsConcat(xs, [x]);
    CellsConcat(xs + [x], ys);
    assert [x][..0] == [];
  }

  predicate Distinct(vars: seq<Variant>) {
    forall i, j :: 0 <= i < j < |vars| ==> vars[i] != vars[j]
  }

  /** Several variants that share nothing own exactly `own` and have the values `vs`. */
  ghost predicate Hold(vars: seq<Variant>, own: set<Payload>, vs: seq<Value>)
    reads vars, own
  {
    RowHolds(CellsOf(vars), own, vs)
  }

  lemma HoldAround(xs: seq<Variant>, x: Variant, ys: seq<Variant>, own: set<Payload>, all: seq<Value>)
    returns (front: set<Payload>, vs: seq<Value>, mid: set<Payload>, v: Value, back: set<Payload>, us: seq<Value>)
    requires Hold(xs + [x] + ys, own, all)
    ensures Hold(xs, front, vs) && x.Holds(mid, v) && Hold(ys, back, us)
    ensures front !! mid && front + mid !! back && own == front + mid + back
    ensures all == vs + [v] + us && |vs| == |xs| && |us| == |ys|
  {
    CellsAround(xs, x, ys);
    hide RowHolds, CellHolds;
    front, vs, mid, v, back, us := RowAround(CellsOf(xs), x.ToCell(), CellsOf(ys), own, all);
  }

  lemma HoldTogether(xs: seq<Variant>, front: set<Payload>, vs: seq<Value>, x: Variant, mid: set<Payload>, v: Value,
    ys: seq<Variant>, back: set<Payload>, us: seq<Value>)
    requires Hold(xs, front, vs) && x.Holds(mid, v) && Hold(ys, back, us)
    requires front !! mid && front + mid !! back
    ensures Hold(xs + [x] + ys, front + mid + back, vs + [v] + us)
  {
    CellsAround(xs, x, ys);
    hide RowHolds, CellHolds;
    RowTogether(CellsOf(xs), front, vs, x.ToCell(), mid, v, CellsOf(ys), back, us);
  }

  lemma HoldBack(xs: seq<Variant>, own: set<Payload>, vs: seq<Value>, x: Variant, more: set<Payload>, v: Value)
    requires Hold(xs, own, vs) && x.Holds(more, v) && own !! more
    ensures Hold(xs + [x], own + more, vs + [v])
  {
    CellsConcat(xs, [x]);
    assert [x][..0] == [] && CellsOf([x]) == [x.ToCell()];
    hide RowHolds, CellHolds;
    RowBack(CellsOf(xs), own, vs, x.ToCell(), more, v);
  }

  lemma HoldWithout(xs: seq<Variant>, front: set<Payload>, vs: seq<Value>,
    ys: seq<Variant>, back: set<Payload>, us: seq<Value>)
    requires Hold(xs, front, vs) && Hold(ys, back, us) && front !! back
    ensures Hold(xs + ys, front + back, vs + us)
  {
    CellsConcat(xs, ys);
    hide RowHolds;
    RowJoin(CellsOf(xs), front, vs, CellsOf(ys), back, us);
  }

  lemma {:induction false} CellsAt(vars: seq<Variant>, i: nat)
    requires i < |vars|
    ensures CellsOf(vars)[i] == vars[i].ToCell()
  {
    if i < |vars| - 1 {
      CellsAt(vars[..|vars| - 1], i);
    }
  }

  /** The allocations of several variants are as many as their values have strings, lists and maps. */
  lemma AllocationBalance(vars: seq<Variant>, own: set<Payload>, vs: seq<Value>)
    requires Hold(vars, own, vs)
    ensures |own| == NodesOfItems(vs) && OrderedItems(vs)
  {
    RowAllocations(CellsOf(vars));
    RowOrdered(CellsOf(vars));
  }

  /** Two of several variants share nothing. */
  lemma HoldPickTwo(vars: seq<Variant>, own: set<Payload>, vs: seq<Value>, i: nat, j: nat)
    returns (mine: set<Payload>, theirs: set<Payload>)
    requires Hold(vars, own, vs) && i < |vars| && j < |vars|
    ensures |vs| == |vars| && mine + theirs <= own
    ensures vars[i].Holds(mine, vs[i]) && vars[j].Holds(theirs, vs[j])
    ensures if i == j then mine == theirs else mine !! theirs
  {
    CellsAt(vars, i);
    CellsAt(vars, j);
    hide RowHolds, CellHolds;
    mine, theirs := RowPickTwo(CellsOf(vars), own, vs, i, j);
  }

  // ---- operations on one of them -------------------------------------------

  /** An operation leaves all variants alone that share nothing with its target. */
  method PerformApart(xs: seq<Variant>, ghost front: set<Payload>, ghost vs: seq<Value>,
    x: Variant, ghost own: set<Payload>, ghost v: Value, path: seq<nat>, op: Op,
    w: Variant, ghost theirs: set<Payload>, ghost u: Value,
    ys: seq<Variant>, ghost back: set<Payload>, ghost us: seq<Value>, ghost heap: Heap)
    returns (ghost own': set<Payload>)
    requires x !in xs && x !in ys && own !! front && own !! back && front + own + back <= heap.live
    requires Hold(xs, front, vs) && x.Holds(own, v) && Hold(ys, back, us)
    requires IsPath(v, path) && Allowed(op, ValueAt(v, path), u)
    requires UsesSource(op) ==> w.Holds(theirs, u) && theirs <= heap.live && own !! theirs
    modifies x, own, heap
    ensures Hold(xs, front, vs) && Hold(ys, back, us)
    ensures x.Holds(own', ReplaceAt(v, path, Effect(op, ValueAt(v, path), u)))
    ensures Exchanged(old(heap.live), heap.live, own, own') && fresh(own' - own)
  {
    hide *;
    own' := PerformAt(x, own, v, path, op, w, theirs, u, heap);
  }

  /** So does one that reads its own target. */
  method WithinApart(xs: seq<Variant>, ghost front: set<Payload>, ghost vs: seq<Value>,
    x: Variant, ghost own: set<Payload>, ghost v: Value, path: seq<nat>, op: Op, from: seq<nat>,
    ys: seq<Variant>, ghost back: set<Payload>, ghost us: seq<Value>, ghost heap: Heap)
    returns (ghost own': set<Payload>)
    requires x !in xs && x !in ys && own !! front && own !! back && front + own + back <= heap.live
    requires Hold(xs, front, vs) && x.Holds(own, v) && Hold(ys, back, us)
    requires UsesSource(op) && IsPath(v, path) && IsPath(v, from) && Compatible(op, path, from)
    requires Allowed(op, ValueAt(v, path), ValueAt(v, from))
    modifies x, own, heap
    ensures Hold(xs, front, vs) && Hold(ys, back, us)
    ensures x.Holds(own', ReplaceAt(v, path, Effect(op, ValueAt(v, path), ValueAt(v, from))))
    ensures Exchanged(old(heap.live), heap.live, own, own') && fresh(own' - own)
  {
    hide *;
    own' := PerformWithin(x, own, v, path, op, from, heap);
  }

  lemma ExchangedAll(live: set<Payload>, live': set<Payload>, rest: set<Payload>, before: set<Payload>,
    after: set<Payload>)
    requires Exchanged(live, live', before, after) && live == rest + before && rest !! before
    ensures live' == rest + after && rest !! after
  {
  }

  /** An operation on one of all variants; `within` says that it reads the same one. */
  method PerformBetween(xs: seq<Variant>, x: Variant, ys: seq<Variant>, ghost vs: seq<Value>,
    path: seq<nat>, op: Op, within: bool, from: seq<nat>,
    w: Variant, ghost mine: set<Payload>, ghost theirs: set<Payload>, ghost u: Value, ghost heap: Heap)
    requires x !in xs && x !in ys && |vs| == |xs| + 1 + |ys|
    requires Hold(xs + [x] + ys, heap.live, vs) && x.Holds(mine, vs[|xs|])
    requires IsPath(vs[|xs|], path) && Allowed(op, ValueAt(vs[|xs|], path), u)
    requires within ==>
               && UsesSource(op) && IsPath(vs[|xs|], from)
               && Compatible(op, path, from) && u == ValueAt(vs[|xs|], from)
    requires UsesSource(op) && !within ==> w.Holds(theirs, u) && theirs <= heap.live && mine !! theirs
    modifies x, mine, heap
    ensures Hold(xs + [x] + ys, heap.live,
              vs[|xs| := ReplaceAt(vs[|xs|], path, Effect(op, ValueAt(vs[|xs|], path), u))])
    ensures fresh(heap.live - old(heap.live))
  {
    hide *;
    ghost var live := heap.live;
    ghost var front, us, own, v, back, ws := HoldAround(xs, x, ys, live, vs);
    HoldsOnce(x, own, v, mine, vs[|xs|]);
    ghost var own';
    if within {
      own' := WithinApart(xs, front, us, x, own, v, path, op, from, ys, back, ws, heap);
    } else {
      own' := PerformApart(xs, front, us, x, own, v, path, op, w, theirs, u, ys, back, ws, heap);
    }
    ExchangedAll(live, heap.live, front + back, own, own');
    ghost var v' := ReplaceAt(v, path, Effect(op, ValueAt(v, path), u));
    HoldTogether(xs, front, us, x, own', v', ys, back, ws);
    assert vs[|xs| := v'] == us + [v'] + ws;
    assert front + own' + back == front + back + own';
  }

  /** The variants a program has in scope, and the heap. */
  class Variables {
    var m_vars: seq<Variant>
    ghost const heap: Heap
    ghost var m_values: seq<Value>

    /** What is allocated is exactly what the variants own, each allocation once. */
    ghost predicate Valid()
      reads this, m_vars, heap, heap.live
    {
      Distinct(m_vars) && Hold(m_vars, heap.live, m_values) && |m_values| == |m_vars|
    }

    constructor ()
      ensures Valid() && m_vars == [] && m_values == []
      ensures fresh(heap) && heap.live == {}
    {
      heap := new Heap();
      m_vars, m_values := [], [];
    }

    /** A variant just constructed comes into scope. */
    method Join(x: Variant, ghost own: set<Payload>, ghost v: Value, ghost live: set<Payload>)
      requires Distinct(m_vars) && Hold(m_vars, live, m_values) && |m_values| == |m_vars|
      requires x !in m_vars && x.Holds(own, v) && Added(live, heap.live, own)
      modifies this
      ensures Valid() && m_vars == old(m_vars) + [x] && m_values == old(m_values) + [v]
    {
      hide Hold, CellHolds;
      HoldBack(m_vars, live, m_values, x, own, v);
      m_vars, m_values := m_vars + [x], m_values + [v];
    }

    method DeclareOfType(t: Type)
      requires Valid()
      modifies this, heap
      ensures Valid() && m_values == After(old(m_values), Declare(t))
      ensures fresh(heap.live - old(heap.live))
      ensures forall x :: x in m_vars ==> x in old(m_vars) || fresh(x)
    {
      hide Hold, CellHolds;
      var x := new Variant.OfType(t, heap);
      Join(x, x.Own(), DefaultOf(t), old(heap.live));
    }

    method DeclareOfScalar(t: Type, d: Data)
      requires Valid() && Legal(m_values, DeclareScalar(t, d))
      modifies this, heap
      ensures Valid() && m_values == After(old(m_values), DeclareScalar(t, d))
      ensures fresh(heap.live - old(heap.live))
      ensures forall x :: x in m_vars ==> x in old(m_vars) || fresh(x)
    {
      hide Hold, CellHolds;
      var x := new Variant.OfScalar(t, d);
      Join(x, {}, ScalarOf(t, d).value, old(heap.live));
    }

    method DeclareOfText(s: seq<Byte>)
      requires Valid()
      modifies this, heap
      ensures Valid() && m_values == After(old(m_values), DeclareText(s))
      ensures fresh(heap.live - old(heap.live))
      ensures forall x :: x in m_vars ==> x in old(m_vars) || fresh(x)
    {
      hide Hold, CellHolds, ContentsHold;
      ContentsOfText(s);
      var x := new Variant.OfContents(Text(s), {}, [], String(s), heap);
      Join(x, x.Own(), String(s), old(heap.live));
    }

    /** The variant a constructor or an operation reads. */
    method Find(j: nat, from: seq<nat>) returns (w: Variant, ghost theirs: set<Payload>)
      requires Valid() && IsPlace(m_values, j, from)
      ensures fresh(w) && w.Holds(theirs, ValueAt(m_values[j], from)) && theirs <= heap.live
    {
      hide Hold, CellHolds;
      ghost var own, _ := HoldPickTwo(m_vars, heap.live, m_values, j, j);
      var d;
      d, theirs := Nested(m_vars[j].ToCell(), own, m_values[j], from);
      w := new Variant.At(d);
    }

    method DeclareOfContents(j: nat, from: seq<nat>)
      requires Valid() && Legal(m_values, DeclareContents(j, from))
      modifies this, heap
      ensures Valid() && m_values == After(old(m_values), DeclareContents(j, from))
      ensures fresh(heap.live - old(heap.live))
      ensures forall x :: x in m_vars ==> x in old(m_vars) || fresh(x)
    {
      hide Hold, CellHolds, ContentsHold, PayloadHolds;
      ghost var v := ValueAt(m_values[j], from);
      var w;
      ghost var theirs;
      w, theirs := Find(j, from);
      Container(w.ToCell(), theirs, v);
      var p := w.m_data.p;
      ghost var below, ws := Inside(p, theirs, v);
      var x := new Variant.OfContents(p.contents, below, ws, v, heap);
      Join(x, x.Own(), v, old(heap.live));
    }

    method DeclareCopyOf(j: nat, from: seq<nat>)
      requires Valid() && Legal(m_values, DeclareCopy(j, from))
      modifies this, heap
      ensures Valid() && m_values == After(old(m_values), DeclareCopy(j, from))
      ensures fresh(heap.live - old(heap.live))
      ensures forall x :: x in m_vars ==> x in old(m_vars) || fresh(x)
    {
      hide Hold, CellHolds;
      ghost var v := ValueAt(m_values[j], from);
      var w;
      ghost var theirs;
      w, theirs := Find(j, from);
      var x := new Variant.Copy(w, theirs, v, heap);
      Join(x, x.Own(), v, old(heap.live));
    }

    method Change(i: nat, path: seq<nat>, op: Op, j: nat, from: seq<nat>)
      requires Valid() && Legal(m_values, Do(i, path, op, j, from))
      modifies this`m_values, heap, m_vars, heap.live
      ensures Valid() && m_values == After(old(m_values), Do(i, path, op, j, from)) && m_vars == old(m_vars)
      ensures fresh(heap.live - old(heap.live))
      ensures forall x :: x in m_vars ==> x in old(m_vars) || fresh(x)
    {
      hide Hold, CellHolds, Allowed, Effect, IsPath, Compatible;
      ghost var u := SourceOf(m_values, op, j, from);
      var w := m_vars[i];
      ghost var mine, theirs := HoldPickTwo(m_vars, heap.live, m_values, i, if UsesSource(op) then j else i);
      var within := UsesSource(op) && i == j;
      if UsesSource(op) && i != j {
        var d;
        ghost var sub;
        d, sub := Nested(m_vars[j].ToCell(), theirs, m_values[j], from);
        w := new Variant.At(d);
        theirs := sub;
      }
      SplitAround(m_vars, i, i + 1);
      var xs, x, ys := m_vars[..i], m_vars[i], m_vars[i + 1..];
      PerformBetween(xs, x, ys, m_values, path, op, within, from, w, mine, theirs, u, heap);
      m_values := After(m_values, Do(i, path, op, j, from));
    }

    method LeaveOne(i: nat)
      requires Valid() && Legal(m_values, Leave(i))
      modifies this, heap, m_vars
      ensures Valid() && m_values == After(old(m_values), Leave(i))
      ensures fresh(heap.live - old(heap.live))
      ensures forall x :: x in m_vars ==> x in old(m_vars) || fresh(x)
    {
      SplitAround(m_vars, i, i + 1);
      var xs, x, ys := m_vars[..i], m_vars[i], m_vars[i + 1..];
      assert Distinct(xs + ys) && x !in xs && x !in ys;
      LeaveBetween(xs, x, ys);
    }

    method LeaveBetween(xs: seq<Variant>, x: Variant, ys: seq<Variant>)
      requires Valid() && m_vars == xs + [x] + ys
      requires Distinct(xs + ys) && x !in xs && x !in ys
      modifies this, heap, m_vars
      ensures Valid() && m_vars == xs + ys
      ensures m_values == After(old(m_values), Leave(|xs|))
      ensures heap.live <= old(heap.live)
    {
      hide Hold, CellHolds, Distinct;
      ghost var front, vs, own, v, back, us := HoldAround(xs, x, ys, heap.live, m_values);
      assert m_values[..|xs|] + m_values[|xs| + 1..] == vs + us && m_vars[|xs|] == x;
      x.Clear(own, v, heap);
      assert heap.live == front + back;
      HoldWithout(xs, front, vs, ys, back, us);
      m_vars, m_values := xs + ys, vs + us;
    }

    method Execute(s: Step)
      requires Valid() && Legal(m_values, s)
      modifies this, heap, m_vars, heap.live
      ensures Valid() && m_values == After(old(m_values), s)
      ensures fresh(heap.live - old(heap.live))
      ensures forall x :: x in m_vars ==> x in old(m_vars) || fresh(x)
    {
      hide *;
      match s {
        case Declare(t) => DeclareOfType(t);
        case DeclareScalar(t, d) => DeclareOfScalar(t, d);
        case DeclareText(text) => DeclareOfText(text);
        case DeclareContents(j, from) => DeclareOfContents(j, from);
        case DeclareCopy(j, from) => DeclareCopyOf(j, from);
        case Do(i, path, op, j, from) => Change(i, path, op, j, from);
        case Leave(i) => LeaveOne(i);
      }
    }

    /** Every run: the variants have the values of the reference, and nothing else is allocated. */
    method Run(steps: seq<Step>)
      requires Valid() && AfterAll(m_values, steps).Some?
      modifies this, heap, m_vars, heap.live
      ensures Valid() && Some(m_values) == AfterAll(old(m_values), steps)
      ensures fresh(heap.live - old(heap.live))
      ensures forall x :: x in m_vars ==> x in old(m_vars) || fresh(x)
    {
      hide Valid, After, Legal;
      var k := 0;
      while k < |steps|
        invariant k <= |steps| && Valid()
        invariant AfterAll(m_values, steps[k..]).Some?
        invariant AfterAll(m_values, steps[k..]) == AfterAll(old(m_values), steps)
        invariant forall p :: p in heap.live ==> p in old(heap.live) || fresh(p)
        invariant forall i :: 0 <= i < |m_vars| ==> m_vars[i] in old(m_vars) || fresh(m_vars[i])
      {
        assert forall x :: x in m_vars ==> x in old(m_vars) || fresh(x);
        Execute(steps[k]);
        k := k + 1;
      }
    }
  }
}
