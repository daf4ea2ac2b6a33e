/** Adding up a weight over all threads. */
module Counting {

  function Sum<P>(f: P -> nat, ps: seq<P>): nat {
    if ps == [] then 0 else f(ps[0]) + Sum(f, ps[1..])
  }

  lemma {:induction false} SumUpdate<P>(f: P -> nat, ps: seq<P>, t: nat, p: P)
    requires t < |ps|
    ensures Sum(f, ps[t := p]) == Sum(f, ps) - f(ps[t]) + f(p)
    ensures f(ps[t]) <= Sum(f, ps)
  {
    if t == 0 {
      assert ps[0 := p][1..] == ps[1..];
    } else {
      SumUpdate(f, ps[1..], t - 1, p);
      assert ps[t := p][1..] == ps[1..][t - 1 := p];
    }
  }

  lemma {:induction false} SumZero<P>(f: P -> nat, ps: seq<P>)
    ensures Sum(f, ps) == 0 <==> forall t | 0 <= t < |ps| :: f(ps[t]) == 0
  {
    if ps != [] {
      SumZero(f, ps[1..]);
      assert forall t | 0 < t < |ps| :: ps[t] == ps[1..][t - 1];
    }
  }
}
