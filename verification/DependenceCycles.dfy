/**
 Cycles of instructions that use each other, what they cost, and why the ways through a
 block have bounded weight when no cycle costs anything.
 */
module DependenceCycles {
  import opened Common
  import opened Schedule
  import BlockOrder

  // ---------- Walks ----------

  /** What passing the result of one instruction, the second, to another, the first, costs. */
  type PassCost = (nat, nat) -> nat

  /** The same cost for all. */
  function Same(cost: nat): PassCost {
    (i: nat, j: nat) => cost
  }

  /** What the values cost that instruction `j` passes to `i`. */
  function EdgeCost(nodes: seq<Node>, pass: PassCost, i: nat, j: nat): nat {
    if i < |nodes| && j < |nodes| && UsesValue(nodes, i, j) then pass(i, j) else 0
  }

  predicate Follows(nodes: seq<Node>, j: nat, i: nat) {
    i < |nodes| && j < |nodes| && DependsOn(nodes, i, j)
  }

  /** Instructions each of which uses the one before it, in whatever order they stand in the block. */
  predicate IsWalk(nodes: seq<Node>, walk: seq<nat>) {
    walk == [] ||
    var n := |walk| - 1;
    walk[n] < |nodes| && IsWalk(nodes, walk[..n]) && (n > 0 ==> Follows(nodes, walk[n - 1], walk[n]))
  }

  /** A walk whose first instruction uses its last: a loop carried through the block's own phis. */
  predicate IsCycle(nodes: seq<Node>, walk: seq<nat>) {
    walk != [] && IsWalk(nodes, walk) && Follows(nodes, walk[|walk| - 1], walk[0])
  }

  /** The costs along a walk, of its instructions and of passing values between them. */
  function Weight(nodes: seq<Node>, pass: PassCost, walk: seq<nat>): nat {
    if walk == [] then 0
    else
      var n := |walk| - 1;
      Weight(nodes, pass, walk[..n]) + Edge(nodes, pass, walk[..n], walk[n])
      + (if walk[n] < |nodes| then Cost(nodes[walk[n]]) else 0)
  }

  /** The cost of going on from a walk to instruction `i`. */
  function Edge(nodes: seq<Node>, pass: PassCost, walk: seq<nat>, i: nat): nat {
    if walk == [] then 0 else EdgeCost(nodes, pass, i, walk[|walk| - 1])
  }

  function CycleWeight(nodes: seq<Node>, pass: PassCost, walk: seq<nat>): nat
    requires walk != []
  {
    Weight(nodes, pass, walk) + Edge(nodes, pass, walk, walk[0])
  }

  ghost predicate CostlyCycle(nodes: seq<Node>, pass: PassCost) {
    exists walk :: IsCycle(nodes, walk) && CycleWeight(nodes, pass, walk) > 0
  }

  /** Where passing values costs no less, walks weigh no less. */
  predicate NoDearer(nodes: seq<Node>, less: PassCost, more: PassCost) {
    forall i, j :: 0 <= i < |nodes| && 0 <= j < |nodes| ==> EdgeCost(nodes, less, i, j) <= EdgeCost(nodes, more, i, j)
  }

  lemma {:induction false} WeightGrows(nodes: seq<Node>, less: PassCost, more: PassCost, walk: seq<nat>)
    requires NoDearer(nodes, less, more) && IsWalk(nodes, walk)
    ensures Weight(nodes, less, walk) <= Weight(nodes, more, walk)
  {
    hide EdgeCost, Follows;
    if walk != [] {
      WeightGrows(nodes, less, more, walk[..|walk| - 1]);
    }
  }

  lemma CycleGrows(nodes: seq<Node>, less: PassCost, more: PassCost, walk: seq<nat>)
    requires NoDearer(nodes, less, more) && IsCycle(nodes, walk)
    ensures CycleWeight(nodes, less, walk) <= CycleWeight(nodes, more, walk)
  {
    hide EdgeCost, IsWalk, Weight;
    WeightGrows(nodes, less, more, walk);
  }

  lemma CostlyGrows(nodes: seq<Node>, less: PassCost, more: PassCost)
    requires NoDearer(nodes, less, more)
    ensures CostlyCycle(nodes, less) ==> CostlyCycle(nodes, more)
  {
    hide IsWalk, Follows, CycleWeight, NoDearer;
    if CostlyCycle(nodes, less) {
      var walk :| IsCycle(nodes, walk) && CycleWeight(nodes, less, walk) > 0;
      CycleGrows(nodes, less, more, walk);
    }
  }

  /** If no value passed along a walk costs anything, only its instructions count. */
  lemma {:induction false} FreeWeight(nodes: seq<Node>, pass: PassCost, walk: seq<nat>)
    requires forall m :: 0 < m < |walk| ==> EdgeCost(nodes, pass, walk[m], walk[m - 1]) == 0
    ensures Weight(nodes, pass, walk) == ChainCost(nodes, walk)
  {
    hide EdgeCost, Cost;
    if walk != [] {
      FreeWeight(nodes, pass, walk[..|walk| - 1]);
    }
  }

  /** Instructions count whatever values cost. */
  lemma {:induction false} ChainWithinWeight(nodes: seq<Node>, pass: PassCost, walk: seq<nat>)
    ensures ChainCost(nodes, walk) <= Weight(nodes, pass, walk)
  {
    hide EdgeCost, Cost;
    if walk != [] {
      ChainWithinWeight(nodes, pass, walk[..|walk| - 1]);
    }
  }

  // ---------- Without costly cycles, walks have bounded weight ----------

  lemma {:induction false} WeightOfJoin(nodes: seq<Node>, pass: PassCost, a: seq<nat>, b: seq<nat>)
    ensures Weight(nodes, pass, a + b) ==
      Weight(nodes, pass, a) + Weight(nodes, pass, b) + (if b == [] then 0 else Edge(nodes, pass, a, b[0]))
    decreases |b|
  {
    hide EdgeCost, Cost;
    if b == [] {
      assert a + b == a;
    } else {
      var n := |b| - 1;
      assert (a + b)[..|a + b| - 1] == a + b[..n];
      WeightOfJoin(nodes, pass, a, b[..n]);
      if n == 0 {
        assert a + b[..0] == a && b[..0] == [];
      }
    }
  }

  lemma {:induction false} WalkOfJoin(nodes: seq<Node>, a: seq<nat>, b: seq<nat>)
    ensures IsWalk(nodes, a + b) <==>
      IsWalk(nodes, a) && IsWalk(nodes, b) && (a != [] && b != [] ==> Follows(nodes, a[|a| - 1], b[0]))
    decreases |b|
  {
    hide Follows;
    if b == [] {
      assert a + b == a;
    } else {
      var n := |b| - 1;
      assert (a + b)[..|a + b| - 1] == a + b[..n];
      WalkOfJoin(nodes, a, b[..n]);
      if n == 0 {
        assert a + b[..0] == a && b[..0] == [];
      } else {
        assert (a + b)[|a| + n - 1] == b[n - 1];
      }
    }
  }

  lemma CostAtMost(n: Node)
    ensures Cost(n) <= 30
  {
  }

  /** Nothing the block's instructions pass to each other costs more than `most`. */
  predicate AtMost(nodes: seq<Node>, pass: PassCost, most: nat) {
    forall i, j :: 0 <= i < |nodes| && 0 <= j < |nodes| ==> pass(i, j) <= most
  }

  lemma {:induction false} SomeBound(pass: PassCost, n: nat, m: nat) returns (most: nat)
    ensures forall i, j :: 0 <= i < n && 0 <= j < m ==> pass(i, j) <= most
  {
    most := 0;
    for i := 0 to n
      invariant forall k, j :: 0 <= k < i && 0 <= j < m ==> pass(k, j) <= most
    {
      for j := 0 to m
        invariant forall k, l :: 0 <= k < i && 0 <= l < m ==> pass(k, l) <= most
        invariant forall l :: 0 <= l < j ==> pass(i, l) <= most
      {
        most := Max(most, pass(i, j));
      }
    }
  }

  lemma {:induction false} StepsTimesCost(nodes: seq<Node>, pass: PassCost, most: nat, walk: seq<nat>)
    requires AtMost(nodes, pass, most) && BlockOrder.Below(walk, |nodes|)
    ensures Weight(nodes, pass, walk) <= |walk| * (30 + most)
  {
    hide Cost, UsesValue;
    if walk != [] {
      var n := |walk| - 1;
      StepsTimesCost(nodes, pass, most, walk[..n]);
      CostAtMost(nodes[walk[n]]);
      assert |walk| * (30 + most) == n * (30 + most) + (30 + most);
    }
  }

  /** Cutting a free cycle out of a walk leaves a walk of the same weight with the same end. */
  lemma CutCycle(nodes: seq<Node>, pass: PassCost, walk: seq<nat>, a: nat, b: nat) returns (shorter: seq<nat>)
    requires IsWalk(nodes, walk) && !CostlyCycle(nodes, pass) && a < b < |walk| && walk[a] == walk[b]
    ensures IsWalk(nodes, shorter) && |shorter| < |walk| && Weight(nodes, pass, shorter) == Weight(nodes, pass, walk)
  {
    hide IsWalk, Weight, Edge, Follows, CostlyCycle;
    var front, loop, back := walk[..a], walk[a..b], walk[b..];
    assert walk == (front + loop) + back;
    assert loop[0] == back[0];
    LoopIsCycle(nodes, front, loop, back);
    FreeLoop(nodes, pass, loop);
    LoopWeight(nodes, pass, front, loop, back);
    shorter := front + back;
  }

  lemma LoopIsCycle(nodes: seq<Node>, front: seq<nat>, loop: seq<nat>, back: seq<nat>)
    requires IsWalk(nodes, (front + loop) + back) && loop != [] && back != [] && loop[0] == back[0]
    ensures IsCycle(nodes, loop) && IsWalk(nodes, front + back)
  {
    hide IsWalk, Follows;
    WalkOfJoin(nodes, front + loop, back);
    WalkOfJoin(nodes, front, loop);
    WalkOfJoin(nodes, front, back);
    assert (front + loop)[|front + loop| - 1] == loop[|loop| - 1];
  }

  lemma FreeLoop(nodes: seq<Node>, pass: PassCost, loop: seq<nat>)
    requires IsCycle(nodes, loop) && !CostlyCycle(nodes, pass)
    ensures CycleWeight(nodes, pass, loop) == 0
  {
    hide IsWalk, Follows, Weight, Edge;
  }

  lemma LoopWeight(nodes: seq<Node>, pass: PassCost, front: seq<nat>, loop: seq<nat>, back: seq<nat>)
    requires loop != [] && back != [] && loop[0] == back[0]
    ensures Weight(nodes, pass, (front + loop) + back) ==
      Weight(nodes, pass, front + back) + CycleWeight(nodes, pass, loop)
  {
    hide Weight, EdgeCost;
    WeightOfJoin(nodes, pass, front + loop, back);
    WeightOfJoin(nodes, pass, front, loop);
    WeightOfJoin(nodes, pass, front, back);
    assert (front + loop)[|front + loop| - 1] == loop[|loop| - 1];
  }

  lemma Repetition(walk: seq<nat>, bound: nat) returns (a: nat, b: nat)
    requires BlockOrder.Below(walk, bound) && |walk| > bound
    ensures a < b < |walk| && walk[a] == walk[b]
  {
    if BlockOrder.Distinct(walk) {
      BlockOrder.DistinctBound(walk, bound);
      assert false;
    } else {
      a, b :| 0 <= a < b < |walk| && walk[a] == walk[b];
    }
  }

  lemma {:induction false} WalkInBlock(nodes: seq<Node>, walk: seq<nat>)
    requires IsWalk(nodes, walk)
    ensures BlockOrder.Below(walk, |nodes|)
  {
    if walk != [] {
      WalkInBlock(nodes, walk[..|walk| - 1]);
    }
  }

  lemma {:induction false} WeightBounded(nodes: seq<Node>, pass: PassCost, most: nat, walk: seq<nat>)
    requires IsWalk(nodes, walk) && !CostlyCycle(nodes, pass) && AtMost(nodes, pass, most)
    ensures Weight(nodes, pass, walk) <= |nodes| * (30 + most)
    decreases |walk|
  {
    hide IsWalk, Weight, CostlyCycle, AtMost;
    WalkInBlock(nodes, walk);
    if |walk| <= |nodes| {
      StepsTimesCost(nodes, pass, most, walk);
      if |walk| < |nodes| {
        ProductGap(|walk|, |nodes|, 30 + most);
      }
    } else {
      var a, b := Repetition(walk, |nodes|);
      var shorter := CutCycle(nodes, pass, walk, a, b);
      WeightBounded(nodes, pass, most, shorter);
    }
  }

  // ---------- Potentials ----------

  /** Some walk to instruction `i` weighs at least `v` before it gets there. */
  ghost predicate Reaches(nodes: seq<Node>, pass: PassCost, i: nat, v: nat)
    requires i < |nodes|
  {
    exists walk :: LeadsTo(nodes, walk, i) && Weight(nodes, pass, walk) >= v + Cost(nodes[i])
  }

  predicate LeadsTo(nodes: seq<Node>, walk: seq<nat>, i: nat) {
    walk != [] && walk[|walk| - 1] == i && IsWalk(nodes, walk)
  }

  /** The largest weight up to `bound` that some walk to `i` reaches. */
  ghost function Highest(nodes: seq<Node>, pass: PassCost, i: nat, bound: nat): nat
    requires i < |nodes|
  {
    if bound == 0 || Reaches(nodes, pass, i, bound) then bound else Highest(nodes, pass, i, bound - 1)
  }

  ghost function Potential(nodes: seq<Node>, pass: PassCost, most: nat, i: nat): nat
    requires i < |nodes|
  {
    Highest(nodes, pass, i, |nodes| * (30 + most))
  }

  lemma {:induction false} HighestIs(nodes: seq<Node>, pass: PassCost, i: nat, bound: nat)
    requires i < |nodes|
    ensures Reaches(nodes, pass, i, Highest(nodes, pass, i, bound))
    ensures forall v: nat :: v <= bound && Reaches(nodes, pass, i, v) ==> v <= Highest(nodes, pass, i, bound)
  {
    if bound == 0 {
      assert LeadsTo(nodes, [i], i) by { assert [i][..0] == []; }
      assert Weight(nodes, pass, [i]) == Cost(nodes[i]) by { assert [i][..0] == []; }
    } else if !Reaches(nodes, pass, i, bound) {
      HighestIs(nodes, pass, i, bound - 1);
    }
  }

  /** The user's potential is above the potential of what it uses by the cost of that and of passing it. */
  lemma PotentialRises(nodes: seq<Node>, pass: PassCost, most: nat, j: nat, i: nat)
    requires !CostlyCycle(nodes, pass) && AtMost(nodes, pass, most) && Follows(nodes, j, i)
    ensures Potential(nodes, pass, most, j) + Cost(nodes[j]) + EdgeCost(nodes, pass, i, j)
      <= Potential(nodes, pass, most, i)
  {
    var bound := |nodes| * (30 + most);
    HighestIs(nodes, pass, j, bound);
    HighestIs(nodes, pass, i, bound);
    hide Highest, CostlyCycle, AtMost, Follows, EdgeCost, Cost;
    var high := Potential(nodes, pass, most, j);
    var walk :| LeadsTo(nodes, walk, j) && Weight(nodes, pass, walk) >= high + Cost(nodes[j]);
    var longer := walk + [i];
    assert longer[..|walk|] == walk;
    assert LeadsTo(nodes, longer, i);
    var v := high + Cost(nodes[j]) + EdgeCost(nodes, pass, i, j);
    assert Weight(nodes, pass, longer) >= v + Cost(nodes[i]);
    assert Reaches(nodes, pass, i, v);
    WeightBounded(nodes, pass, most, longer);
  }
}
