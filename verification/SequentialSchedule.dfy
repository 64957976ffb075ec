/**
 The schedule that runs a block in order on core 0, when it is feasible, and blocks for
 which no schedule is.
 */
module SequentialSchedule {
  import opened CostModel
  import opened Schedule

  /** All on core 0, back to back in block order, from time `from` on. */
  function Sequential(nodes: seq<Node>, from: nat): (s: seq<Placement>)
    ensures |s| == |nodes|
  {
    if nodes == [] then []
    else
      var n := |nodes| - 1;
      var start := from + TotalTime(nodes[..n]);
      Sequential(nodes[..n], from) + [Placement(0, start, start + Cost(nodes[n]))]
  }

  lemma {:induction false} SequentialAt(nodes: seq<Node>, from: nat, i: nat)
    requires i < |nodes|
    ensures Sequential(nodes, from)[i] == Placement(0, from + TotalTime(nodes[..i]), from + TotalTime(nodes[..i + 1]))
    ensures TotalTime(nodes[..i + 1]) == TotalTime(nodes[..i]) + Cost(nodes[i])
  {
    var n := |nodes| - 1;
    assert nodes[..i + 1][..i] == nodes[..i];
    if i < n {
      SequentialAt(nodes[..n], from, i);
      assert nodes[..n][..i] == nodes[..i] && nodes[..n][..i + 1] == nodes[..i + 1];
    } else {
      assert nodes[..n + 1] == nodes;
    }
  }

  lemma {:induction false} PrefixTimes(nodes: seq<Node>, i: nat, j: nat)
    requires i <= j <= |nodes|
    ensures TotalTime(nodes[..i]) <= TotalTime(nodes[..j])
    ensures TotalTime(nodes[..i]) == TotalTime(nodes[..j]) <==> forall m :: i <= m < j ==> Cost(nodes[m]) == 0
  {
    if i < j {
      assert nodes[..j][..j - 1] == nodes[..j - 1];
      PrefixTimes(nodes, i, j - 1);
      assert nodes[..j][j - 1] == nodes[j - 1];
    }
  }

  /** The cost of what stands between instructions `j` and `i`; negative if `i` does not come after `j`. */
  function CostBetween(nodes: seq<Node>, j: nat, i: nat): int
    requires i < |nodes| && j < |nodes|
  {
    TotalTime(nodes[..i]) - TotalTime(nodes[..j + 1])
  }

  /** Something of positive cost stands between instructions `j` and `i`. */
  predicate WorkBetween(nodes: seq<Node>, j: nat, i: nat) {
    exists m :: j < m < i && m < |nodes| && Cost(nodes[m]) > 0
  }

  /** Instruction `j` comes before `i`, or nothing from `i` to `j` costs anything. */
  predicate OverBefore(nodes: seq<Node>, j: nat, i: nat) {
    j < i || forall m :: i <= m <= j && m < |nodes| ==> Cost(nodes[m]) == 0
  }

  lemma CostBetweenIs(nodes: seq<Node>, j: nat, i: nat)
    requires i < |nodes| && j < |nodes|
    ensures CostBetween(nodes, j, i) >= 0 <==> OverBefore(nodes, j, i)
    ensures CostBetween(nodes, j, i) >= 1 <==> WorkBetween(nodes, j, i)
  {
    hide TotalTime, Cost;
    if j < i {
      PrefixTimes(nodes, j + 1, i);
    } else {
      PrefixTimes(nodes, i, j + 1);
    }
  }

  // ---------- When the sequential schedule is feasible ----------

  /** The operand is there when instruction `i` starts, if everything runs in order on core 0 from `from` on. */
  predicate ReadyOnZero(pr: Problem, from: nat, i: nat, u: Use)
    requires i < |pr.nodes|
  {
    u.Of? ==>
      match IndexOf(pr.nodes, u.id)
      case Some(j) =>
        if u.pointer then OverBefore(pr.nodes, j, i) else CostBetween(pr.nodes, j, i) >= pr.comms(0, 0)
      case None =>
        u.id in pr.previous ==>
          var part := pr.previous[u.id].place.partition;
          if u.pointer then part == 0 else pr.comms(0, part) <= from + TotalTime(pr.nodes[..i])
  }

  /**
   Between each value of the block and its use there is room to pass it on; values from
   earlier blocks arrive in time, pointers and aliasing accesses among them are on core 0.
   */
  ghost predicate FitsCoreZero(pr: Problem, from: nat) {
    && (forall i, k :: 0 <= i < |pr.nodes| && 0 <= k < |pr.nodes[i].uses| ==>
          ReadyOnZero(pr, from, i, pr.nodes[i].uses[k]))
    && (forall i :: 0 <= i < |pr.nodes| ==> AliasesAt(pr, pr.nodes[i], 0))
  }

  lemma ZeroInGrid(pr: Problem)
    requires Proper(pr)
    ensures 0 < pr.rows * pr.columns
  {
    CellBelow(0, 0, pr.rows, pr.columns);
  }

  lemma UseOnZero(pr: Problem, from: nat, i: nat, u: Use)
    requires i < |pr.nodes|
    ensures UseOk(pr, Sequential(pr.nodes, from), Sequential(pr.nodes, from)[i], u) <==> ReadyOnZero(pr, from, i, u)
  {
    hide Sequential, TotalTime, Cost, OverBefore;
    SequentialAt(pr.nodes, from, i);
    if u.Of? {
      var at := IndexOf(pr.nodes, u.id);
      hide IndexOf;
      if at.Some? {
        SequentialAt(pr.nodes, from, at.value);
        CostBetweenIs(pr.nodes, at.value, i);
      }
    }
  }

  lemma SequentialNodes(pr: Problem, from: nat, i: nat)
    requires Proper(pr) && i < |pr.nodes|
    ensures NodeOk(pr, Sequential(pr.nodes, from)[i], Cost(pr.nodes[i]), from + TotalTime(pr.nodes))
    ensures MemoryOk(pr, pr.nodes[i], Sequential(pr.nodes, from)[i]) <==> AliasesAt(pr, pr.nodes[i], 0)
  {
    hide Sequential, Cost, TotalTime;
    ZeroInGrid(pr);
    SequentialAt(pr.nodes, from, i);
    PrefixTimes(pr.nodes, i + 1, |pr.nodes|);
    assert pr.nodes[..|pr.nodes|] == pr.nodes;
  }

  lemma SequentialApart(nodes: seq<Node>, from: nat, i: nat, j: nat)
    requires i < j < |nodes|
    ensures Disjoint(Sequential(nodes, from)[i], Sequential(nodes, from)[j])
  {
    hide Sequential, Cost, TotalTime;
    SequentialAt(nodes, from, i);
    SequentialAt(nodes, from, j);
    PrefixTimes(nodes, i + 1, j);
  }

  /** The sequential schedule is feasible exactly when the block fits on core 0, and it ends at the sum of the costs. */
  lemma SequentialFeasible(pr: Problem, from: nat)
    requires Proper(pr)
    ensures Feasible(pr, Sequential(pr.nodes, from), from + TotalTime(pr.nodes)) <==> FitsCoreZero(pr, from)
  {
    hide UseOk, ReadyOnZero, Sequential, Cost, NodeOk, Disjoint, MemoryOk, AliasesAt, TotalTime, Proper;
    var s := Sequential(pr.nodes, from);
    forall i | 0 <= i < |s|
      ensures NodeOk(pr, s[i], Cost(pr.nodes[i]), from + TotalTime(pr.nodes))
      ensures MemoryOk(pr, pr.nodes[i], s[i]) <==> AliasesAt(pr, pr.nodes[i], 0)
    {
      SequentialNodes(pr, from, i);
    }
    forall i, j | 0 <= i < j < |s| ensures Disjoint(s[i], s[j]) {
      SequentialApart(pr.nodes, from, i, j);
    }
    forall i, k | 0 <= i < |s| && 0 <= k < |pr.nodes[i].uses|
      ensures UseOk(pr, s, s[i], pr.nodes[i].uses[k]) <==> ReadyOnZero(pr, from, i, pr.nodes[i].uses[k])
    {
      UseOnZero(pr, from, i, pr.nodes[i].uses[k]);
    }
  }

  // ---------- The two tables ----------

  /** `ReadyOnZero` when values cost their distance: within the block the user need not wait. */
  predicate ReadyByDistance(pr: Problem, from: nat, i: nat, u: Use)
    requires i < |pr.nodes|
  {
    u.Of? ==>
      match IndexOf(pr.nodes, u.id)
      case Some(j) => OverBefore(pr.nodes, j, i)
      case None =>
        u.id in pr.previous ==>
          var part := pr.previous[u.id].place.partition;
          if u.pointer then part == 0 else GridComms(pr.columns)(0, part) <= from + TotalTime(pr.nodes[..i])
  }

  /** `ReadyOnZero` when every value costs one: something must stand between it and its use. */
  predicate ReadyAfterOne(pr: Problem, from: nat, i: nat, u: Use)
    requires i < |pr.nodes|
  {
    u.Of? ==>
      match IndexOf(pr.nodes, u.id)
      case Some(j) => if u.pointer then OverBefore(pr.nodes, j, i) else WorkBetween(pr.nodes, j, i)
      case None =>
        u.id in pr.previous ==>
          if u.pointer then pr.previous[u.id].place.partition == 0 else 1 <= from + TotalTime(pr.nodes[..i])
  }

  lemma HomeIsFree(pr: Problem)
    requires Proper(pr)
    ensures GridComms(pr.columns)(0, 0) == 0
  {
    ZeroInGrid(pr);
    CommunicationIsMetric(pr.rows, pr.columns, 0, 0, 0);
  }

  lemma ReadyByTable(pr: Problem, from: nat, i: nat, u: Use)
    requires Proper(pr) && i < |pr.nodes|
    ensures pr.comms == GridComms(pr.columns) ==> (ReadyOnZero(pr, from, i, u) <==> ReadyByDistance(pr, from, i, u))
    ensures pr.comms == ConstantComms() ==> (ReadyOnZero(pr, from, i, u) <==> ReadyAfterOne(pr, from, i, u))
  {
    hide CostBetween, OverBefore, WorkBetween, TotalTime, CostForCommunication;
    HomeIsFree(pr);
    if u.Of? && IndexOf(pr.nodes, u.id).Some? {
      CostBetweenIs(pr.nodes, IndexOf(pr.nodes, u.id).value, i);
    }
  }

  /** The condition spelled out for values that cost their distance, and for values that cost one. */
  lemma SequentialByTable(pr: Problem, from: nat)
    requires Proper(pr) && forall i :: 0 <= i < |pr.nodes| ==> AliasesAt(pr, pr.nodes[i], 0)
    ensures pr.comms == GridComms(pr.columns) ==>
      (Feasible(pr, Sequential(pr.nodes, from), from + TotalTime(pr.nodes)) <==>
       forall i, k :: 0 <= i < |pr.nodes| && 0 <= k < |pr.nodes[i].uses| ==>
         ReadyByDistance(pr, from, i, pr.nodes[i].uses[k]))
    ensures pr.comms == ConstantComms() ==>
      (Feasible(pr, Sequential(pr.nodes, from), from + TotalTime(pr.nodes)) <==>
       forall i, k :: 0 <= i < |pr.nodes| && 0 <= k < |pr.nodes[i].uses| ==>
         ReadyAfterOne(pr, from, i, pr.nodes[i].uses[k]))
  {
    hide Feasible, Sequential, ReadyOnZero, ReadyByDistance, ReadyAfterOne, TotalTime, GridComms, ConstantComms, Proper;
    SequentialFeasible(pr, from);
    forall i, k | 0 <= i < |pr.nodes| && 0 <= k < |pr.nodes[i].uses|
      ensures pr.comms == GridComms(pr.columns) ==>
        (ReadyOnZero(pr, from, i, pr.nodes[i].uses[k]) <==> ReadyByDistance(pr, from, i, pr.nodes[i].uses[k]))
      ensures pr.comms == ConstantComms() ==>
        (ReadyOnZero(pr, from, i, pr.nodes[i].uses[k]) <==> ReadyAfterOne(pr, from, i, pr.nodes[i].uses[k]))
    {
      ReadyByTable(pr, from, i, pr.nodes[i].uses[k]);
    }
  }

  // ---------- The early exit ----------

  /** A block that uses nothing from earlier blocks, and within itself only what comes before. */
  ghost predicate SelfContained(pr: Problem) {
    && (forall i, k :: 0 <= i < |pr.nodes| && 0 <= k < |pr.nodes[i].uses| ==> UsesBefore(pr, i, pr.nodes[i].uses[k]))
    && (forall i, id :: 0 <= i < |pr.nodes| && id in pr.previous ==> (pr.nodes[i].id, id) !in pr.aliases)
  }

  predicate UsesBefore(pr: Problem, i: nat, u: Use)
    requires i < |pr.nodes|
  {
    u.Of? ==>
      match IndexOf(pr.nodes, u.id)
      case Some(j) => j < i
      case None => u.id !in pr.previous
  }

  /** The block's own values have work enough between them and their uses to be passed on within core 0. */
  predicate RoomToPass(pr: Problem, i: nat, u: Use)
    requires i < |pr.nodes|
  {
    u.Of? && !u.pointer ==>
      match IndexOf(pr.nodes, u.id)
      case Some(j) => CostBetween(pr.nodes, j, i) >= pr.comms(0, 0)
      case None => true
  }

  /**
   When the bounds of the search meet, no schedule is shorter than the sum, so the search
   could find nothing. Running a self-contained block in order takes the sum, and is
   feasible exactly when its values have room to be passed on.
   */
  lemma EarlyExitIsOptimal(pr: Problem, s: seq<Placement>, latest: int)
    requires Proper(pr) && pr.nodes != [] && TotalTime(pr.nodes) <= LongestPath(pr.nodes, |pr.nodes|)
    ensures Feasible(pr, s, latest) ==> TotalTime(pr.nodes) <= latest
    ensures SelfContained(pr) ==>
      (Feasible(pr, Sequential(pr.nodes, 0), TotalTime(pr.nodes)) <==>
       forall i, k :: 0 <= i < |pr.nodes| && 0 <= k < |pr.nodes[i].uses| ==> RoomToPass(pr, i, pr.nodes[i].uses[k]))
    ensures SelfContained(pr) && pr.comms == GridComms(pr.columns) ==>
      Feasible(pr, Sequential(pr.nodes, 0), TotalTime(pr.nodes))
  {
    hide Feasible, Sequential, LongestPath, TotalTime, CostBetween, GridComms, OverBefore;
    BoundsHold(pr, s, latest);
    SequentialFeasible(pr, 0);
    HomeIsFree(pr);
    if SelfContained(pr) {
      forall i, k | 0 <= i < |pr.nodes| && 0 <= k < |pr.nodes[i].uses|
        ensures ReadyOnZero(pr, 0, i, pr.nodes[i].uses[k]) <==> RoomToPass(pr, i, pr.nodes[i].uses[k])
        ensures pr.comms == GridComms(pr.columns) ==> RoomToPass(pr, i, pr.nodes[i].uses[k])
      {
        ReadyIfRoom(pr, i, pr.nodes[i].uses[k]);
      }
      hide ReadyOnZero, RoomToPass;
    }
  }

  lemma ReadyIfRoom(pr: Problem, i: nat, u: Use)
    requires Proper(pr) && i < |pr.nodes| && UsesBefore(pr, i, u)
    ensures ReadyOnZero(pr, 0, i, u) <==> RoomToPass(pr, i, u)
    ensures pr.comms == GridComms(pr.columns) ==> RoomToPass(pr, i, u)
  {
    hide TotalTime, CostBetween, Proper;
    HomeIsFree(pr);
    if u.Of? && IndexOf(pr.nodes, u.id).Some? {
      CostBetweenIs(pr.nodes, IndexOf(pr.nodes, u.id).value, i);
    }
  }
}
