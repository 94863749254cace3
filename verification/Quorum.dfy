/**
 Stake-weighted committees: voting power of a set of members, the quorum rule, and
 the intersection of two quorums.
 */
module Quorum {

  /** Power of the committee members whose index is in `voters`. */
  function Power(weights: seq<nat>, voters: set<nat>): nat {
    if weights == [] then 0
    else
      var last := |weights| - 1;
      Power(weights[..last], voters) + if last in voters then weights[last] else 0
  }

  function TotalPower(weights: seq<nat>): nat {
    if weights == [] then 0
    else TotalPower(weights[..|weights| - 1]) + weights[|weights| - 1]
  }

  /** More than two thirds of the total. */
  predicate HasQuorum(power: nat, total: nat) {
    power * 3 > total * 2
  }

  lemma {:induction false} PowerOfUnion(weights: seq<nat>, a: set<nat>, b: set<nat>)
    ensures Power(weights, a) + Power(weights, b) == Power(weights, a + b) + Power(weights, a * b)
    decreases |weights|
  {
    if weights != [] {
      PowerOfUnion(weights[..|weights| - 1], a, b);
    }
  }

  lemma {:induction false} PowerIsMonotone(weights: seq<nat>, a: set<nat>, b: set<nat>)
    requires forall i :: i in a && i < |weights| ==> i in b
    ensures Power(weights, a) <= Power(weights, b)
    decreases |weights|
  {
    if weights != [] {
      PowerIsMonotone(weights[..|weights| - 1], a, b);
    }
  }

  lemma {:induction false} PowerAtMostTotal(weights: seq<nat>, a: set<nat>)
    ensures Power(weights, a) <= TotalPower(weights)
    decreases |weights|
  {
    if weights != [] {
      PowerAtMostTotal(weights[..|weights| - 1], a);
    }
  }

  lemma {:induction false} PowerOfOne(weights: seq<nat>, i: nat)
    requires i < |weights|
    ensures Power(weights, {i}) == weights[i] && Power(weights, {}) == 0
    decreases |weights|
  {
    var rest := weights[..|weights| - 1];
    if i < |rest| {
      PowerOfOne(rest, i);
    } else {
      NobodyElse(rest, i);
    }
    PowerOfNone(weights);
  }

  lemma {:induction false} NobodyElse(weights: seq<nat>, i: nat)
    requires |weights| <= i
    ensures Power(weights, {i}) == 0
    decreases |weights|
  {
    if weights != [] {
      NobodyElse(weights[..|weights| - 1], i);
    }
  }

  lemma {:induction false} PowerOfNone(weights: seq<nat>)
    ensures Power(weights, {}) == 0
    decreases |weights|
  {
    if weights != [] {
      PowerOfNone(weights[..|weights| - 1]);
    }
  }

  /** Two quorums share a member outside any set holding less than a third. */
  lemma QuorumsShareAnHonestMember(weights: seq<nat>, a: set<nat>, b: set<nat>, faulty: set<nat>)
    requires HasQuorum(Power(weights, a), TotalPower(weights))
    requires HasQuorum(Power(weights, b), TotalPower(weights))
    requires 3 * Power(weights, faulty) < TotalPower(weights)
    ensures exists i :: i in a && i in b && i !in faulty && i < |weights|
  {
    PowerOfUnion(weights, a, b);
    PowerAtMostTotal(weights, a + b);
    if forall i :: i in a * b && i < |weights| ==> i in faulty {
      PowerIsMonotone(weights, a * b, faulty);
    } else {
      var i :| i in a * b && i < |weights| && i !in faulty;
    }
  }

  // ---- Counting heads ----

  /** The members of a committee of `n`. */
  function Indices(n: nat): set<nat> {
    if n == 0 then {} else Indices(n - 1) + {n - 1}
  }

  lemma {:induction false} IndicesAre(n: nat)
    ensures forall i: nat :: i in Indices(n) <==> i < n
    ensures |Indices(n)| == n
    decreases n
  {
    if n > 0 {
      IndicesAre(n - 1);
    }
  }

  lemma PowerOfMore(weights: seq<nat>, a: set<nat>, i: nat)
    requires i < |weights| && i !in a
    ensures Power(weights, a + {i}) == Power(weights, a) + weights[i]
  {
    assert a * {i} == {};
    PowerOfUnion(weights, a, {i});
    PowerOfOne(weights, i);
  }

  /** With at least one unit of weight each, members have at least as much power as heads. */
  lemma {:induction false} PowerAtLeastHeads(weights: seq<nat>, a: set<nat>)
    requires forall i :: i in a ==> i < |weights| && weights[i] >= 1
    ensures Power(weights, a) >= |a|
    decreases a
  {
    if a == {} {
      PowerOfNone(weights);
    } else {
      var i :| i in a;
      PowerAtLeastHeads(weights, a - {i});
      PowerOfMore(weights, a - {i}, i);
      assert a - {i} + {i} == a;
    }
  }

  /** With one unit of weight each, power is the number of heads. */
  lemma {:induction false} UnitPowerIsHeads(weights: seq<nat>, a: set<nat>)
    requires forall i :: i in a ==> i < |weights| && weights[i] == 1
    ensures Power(weights, a) == |a|
    decreases a
  {
    if a == {} {
      PowerOfNone(weights);
    } else {
      var i :| i in a;
      UnitPowerIsHeads(weights, a - {i});
      PowerOfMore(weights, a - {i}, i);
      assert a - {i} + {i} == a;
    }
  }

  /** A committee of four members with one unit of weight each. */
  const FOUR: seq<nat> := [1, 1, 1, 1]

  lemma FourTotal()
    ensures TotalPower(FOUR) == 4
  {
    assert FOUR[..3] == [1, 1, 1] && [1, 1, 1][..2] == [1, 1] && [1, 1][..1] == [1] && [1][..0] == [];
    assert TotalPower([1]) == 1 && TotalPower([1, 1]) == 2 && TotalPower([1, 1, 1]) == 3;
  }
}
