/**
 Which blocks have a feasible schedule at all: exactly those whose instructions can be
 given cores that agree with every pointer and every aliasing access, such that no cycle
 of instructions that use each other costs anything on these cores. For the two tables
 of costs in use the choice of cores drops out of the condition.
 */
module ScheduleExistence {
  import opened Common
  import opened CostModel
  import opened Schedule
  import opened DependenceCycles

  ghost predicate HasSchedule(pr: Problem) {
    exists s, latest :: Feasible(pr, s, latest)
  }

  // ---------- Cores ----------

  /** What instruction `j` pays to pass a value to `i` if instruction `k` is on core `cores[k]`. */
  function PassBetween(pr: Problem, cores: seq<int>, i: nat, j: nat): nat {
    if i < |cores| && j < |cores| then pr.comms(cores[i], cores[j]) else 0
  }

  function PassOn(pr: Problem, cores: seq<int>): PassCost {
    (i: nat, j: nat) => PassBetween(pr, cores, i, j)
  }

  /** The operand, if a pointer, lives on the core of its user, instruction `i`. */
  predicate PointerAt(pr: Problem, cores: seq<int>, i: nat, u: Use)
    requires i < |cores| == |pr.nodes|
  {
    u.Of? && u.pointer ==>
      match IndexOf(pr.nodes, u.id)
      case Some(j) => cores[i] == cores[j]
      case None => u.id in pr.previous ==> cores[i] == pr.previous[u.id].place.partition
  }

  /** Cores of the grid for the instructions, as pointers and aliasing accesses demand. */
  ghost predicate CoresFit(pr: Problem, cores: seq<int>) {
    && |cores| == |pr.nodes|
    && (forall i :: 0 <= i < |cores| ==> 0 <= cores[i] < pr.rows * pr.columns)
    && (forall i, k :: 0 <= i < |cores| && 0 <= k < |pr.nodes[i].uses| ==> PointerAt(pr, cores, i, pr.nodes[i].uses[k]))
    && (forall i :: 0 <= i < |cores| ==> AliasesAt(pr, pr.nodes[i], cores[i]))
  }

  function CoresOf(s: seq<Placement>): (cores: seq<int>)
    ensures |cores| == |s|
  {
    seq(|s|, i requires 0 <= i < |s| => s[i].partition)
  }

  lemma ScheduledCoresFit(pr: Problem, s: seq<Placement>, latest: int)
    requires Feasible(pr, s, latest)
    ensures CoresFit(pr, CoresOf(s))
  {
    var cores := CoresOf(s);
    forall i | 0 <= i < |cores|
      ensures 0 <= cores[i] < pr.rows * pr.columns && AliasesAt(pr, pr.nodes[i], cores[i])
    {
      assert NodeOk(pr, s[i], Cost(pr.nodes[i]), latest) && MemoryOk(pr, pr.nodes[i], s[i]);
    }
    forall i, k | 0 <= i < |cores| && 0 <= k < |pr.nodes[i].uses|
      ensures PointerAt(pr, cores, i, pr.nodes[i].uses[k])
    {
      assert UseOk(pr, s, s[i], pr.nodes[i].uses[k]);
      hide IndexOf;
    }
  }

  // ---------- A costly cycle rules out a schedule ----------

  lemma EdgeTakesTime(pr: Problem, s: seq<Placement>, latest: int, j: nat, i: nat)
    requires DistinctIds(pr.nodes) && Feasible(pr, s, latest) && Follows(pr.nodes, j, i)
    ensures i < |s| && j < |s|
    ensures s[j].endTime + EdgeCost(pr.nodes, PassOn(pr, CoresOf(s)), i, j) <= s[i].startTime
  {
    assert |s| == |pr.nodes|;
    hide Feasible, UsesValue, DependsOn;
    UserWaits(pr, s, latest, i, j);
  }

  lemma {:induction false} WalkTakesTime(pr: Problem, s: seq<Placement>, latest: int, walk: seq<nat>)
    requires DistinctIds(pr.nodes) && Feasible(pr, s, latest) && walk != [] && IsWalk(pr.nodes, walk)
    ensures walk[0] < |s| && walk[|walk| - 1] < |s|
    ensures s[walk[0]].startTime + Weight(pr.nodes, PassOn(pr, CoresOf(s)), walk) <= s[walk[|walk| - 1]].endTime
    decreases |walk|
  {
    hide Feasible, EdgeCost, Follows, PassOn;
    var n := |walk| - 1;
    EndsByLatest(pr, s, latest, walk[n]);
    if n > 0 {
      WalkTakesTime(pr, s, latest, walk[..n]);
      EdgeTakesTime(pr, s, latest, walk[n - 1], walk[n]);
    } else {
      assert Weight(pr.nodes, PassOn(pr, CoresOf(s)), walk[..0]) == 0;
    }
  }

  /** On the cores of a feasible schedule no cycle costs anything, in work or in passing values. */
  lemma ScheduledCyclesAreFree(pr: Problem, s: seq<Placement>, latest: int)
    requires DistinctIds(pr.nodes) && Feasible(pr, s, latest)
    ensures !CostlyCycle(pr.nodes, PassOn(pr, CoresOf(s)))
  {
    hide Weight, IsWalk, EdgeCost, Follows, PassOn, Feasible;
    forall walk | IsCycle(pr.nodes, walk) ensures CycleWeight(pr.nodes, PassOn(pr, CoresOf(s)), walk) == 0 {
      WalkTakesTime(pr, s, latest, walk);
      EdgeTakesTime(pr, s, latest, walk[|walk| - 1], walk[0]);
    }
  }

  /** `pass` is a lower bound on what passing a value costs anywhere on the grid. */
  ghost predicate PassAtLeast(pr: Problem, pass: nat) {
    forall p, q :: 0 <= p < pr.rows * pr.columns && 0 <= q < pr.rows * pr.columns ==> pass <= pr.comms(p, q)
  }

  lemma CheapestPass(pr: Problem, pass: nat, cores: seq<int>)
    requires PassAtLeast(pr, pass) && CoresFit(pr, cores)
    ensures NoDearer(pr.nodes, Same(pass), PassOn(pr, cores))
  {
    hide UsesValue, PointerAt, AliasesAt;
  }

  /** A cycle that costs anything, even if every value is passed at the cheapest cost, leaves no feasible schedule. */
  lemma CycleHasNoSchedule(pr: Problem, pass: nat, walk: seq<nat>, s: seq<Placement>, latest: int)
    requires DistinctIds(pr.nodes) && PassAtLeast(pr, pass)
    requires IsCycle(pr.nodes, walk) && CycleWeight(pr.nodes, Same(pass), walk) > 0
    ensures !Feasible(pr, s, latest)
  {
    hide Feasible, CoresFit, IsWalk, Follows, CycleWeight, PassAtLeast, NoDearer, Same, PassOn;
    if Feasible(pr, s, latest) {
      ScheduledCoresFit(pr, s, latest);
      ScheduledCyclesAreFree(pr, s, latest);
      CheapestPass(pr, pass, CoresOf(s));
      CycleGrows(pr.nodes, Same(pass), PassOn(pr, CoresOf(s)), walk);
      assert false;
    }
  }

  /**
   The operands of phis are constrained like any others, so a block that is its own loop
   has no feasible schedule once the loop contains an instruction of positive cost.
   */
  lemma SelfLoopHasNoSchedule(pr: Problem, walk: seq<nat>, s: seq<Placement>, latest: int)
    requires DistinctIds(pr.nodes) && IsCycle(pr.nodes, walk) && ChainCost(pr.nodes, walk) > 0
    ensures !Feasible(pr, s, latest)
  {
    hide Feasible, IsWalk, Follows, Weight, ChainCost;
    ChainWithinWeight(pr.nodes, Same(0), walk);
    CycleHasNoSchedule(pr, 0, walk, s, latest);
  }

  /** A counting loop in one block: the phi uses the sum and the sum uses the phi. */
  const COUNTER := [
    Node(0, Phi, [Of(1, false)], false),
    Node(1, Other, [Of(0, false), Free], false),
    Node(2, Br, [], false)]

  lemma CounterHasNoSchedule(pr: Problem, s: seq<Placement>, latest: int)
    requires pr.nodes == COUNTER
    ensures !Feasible(pr, s, latest)
  {
    assert COUNTER[0].uses[0].id == COUNTER[1].id && COUNTER[1].uses[0].id == COUNTER[0].id;
    assert DependsOn(COUNTER, 0, 1) && DependsOn(COUNTER, 1, 0);
    assert [0, 1][..1] == [0] && [0][..0] == [];
    assert IsWalk(COUNTER, [0]) && IsWalk(COUNTER, [0, 1]);
    assert ChainCost(COUNTER, [0, 1]) == 1;
    SelfLoopHasNoSchedule(pr, [0, 1], s, latest);
  }

  // ---------- Laying the block out by potential ----------

  /**
   Slots are numbered by potential; within one potential the free instructions share the
   first slot and every other instruction has its own.
   */
  ghost function SlotOf(nodes: seq<Node>, pass: PassCost, most: nat, i: nat): nat
    requires i < |nodes|
  {
    Potential(nodes, pass, most, i) * (|nodes| + 1) + (if Cost(nodes[i]) == 0 then 0 else i + 1)
  }

  ghost function StartOf(nodes: seq<Node>, pass: PassCost, most: nat, from: nat, i: nat): nat
    requires i < |nodes|
  {
    from + SlotOf(nodes, pass, most, i) * (30 + most)
  }

  ghost function Layout(nodes: seq<Node>, pass: PassCost, most: nat, from: nat, cores: seq<int>): (s: seq<Placement>)
    requires |cores| == |nodes|
    ensures |s| == |nodes|
  {
    seq(|nodes|, i requires 0 <= i < |nodes| =>
      Placement(cores[i], StartOf(nodes, pass, most, from, i), StartOf(nodes, pass, most, from, i) + Cost(nodes[i])))
  }

  lemma SlotsApart(nodes: seq<Node>, pass: PassCost, most: nat, from: nat, i: nat, j: nat)
    requires i < |nodes| && j < |nodes| && SlotOf(nodes, pass, most, j) < SlotOf(nodes, pass, most, i)
    ensures StartOf(nodes, pass, most, from, j) + Cost(nodes[j]) + most <= StartOf(nodes, pass, most, from, i)
  {
    hide SlotOf;
    ProductGap(SlotOf(nodes, pass, most, j), SlotOf(nodes, pass, most, i), 30 + most);
    CostAtMost(nodes[j]);
  }

  lemma SlotsDiffer(nodes: seq<Node>, pass: PassCost, most: nat, i: nat, j: nat)
    requires i < |nodes| && j < |nodes| && i != j && Cost(nodes[i]) > 0
    ensures SlotOf(nodes, pass, most, i) != SlotOf(nodes, pass, most, j)
  {
    hide Potential, Cost;
    var p, q := Potential(nodes, pass, most, i), Potential(nodes, pass, most, j);
    if p < q {
      ProductGap(p, q, |nodes| + 1);
    } else if q < p {
      ProductGap(q, p, |nodes| + 1);
    }
  }

  lemma LayoutApart(nodes: seq<Node>, pass: PassCost, most: nat, from: nat, cores: seq<int>, i: nat, j: nat)
    requires i < j < |nodes| == |cores|
    ensures Disjoint(Layout(nodes, pass, most, from, cores)[i], Layout(nodes, pass, most, from, cores)[j])
  {
    hide SlotOf, StartOf, Cost;
    if Cost(nodes[i]) > 0 || Cost(nodes[j]) > 0 {
      if Cost(nodes[i]) > 0 {
        SlotsDiffer(nodes, pass, most, i, j);
      } else {
        SlotsDiffer(nodes, pass, most, j, i);
      }
      if SlotOf(nodes, pass, most, i) < SlotOf(nodes, pass, most, j) {
        SlotsApart(nodes, pass, most, from, j, i);
      } else {
        SlotsApart(nodes, pass, most, from, i, j);
      }
    }
  }

  /** The layout leaves room to pass each value of the block to its user. */
  lemma LayoutWaits(nodes: seq<Node>, pass: PassCost, most: nat, from: nat, j: nat, i: nat)
    requires !CostlyCycle(nodes, pass) && AtMost(nodes, pass, most) && Follows(nodes, j, i)
    ensures StartOf(nodes, pass, most, from, j) + Cost(nodes[j]) + EdgeCost(nodes, pass, i, j) <=
      StartOf(nodes, pass, most, from, i)
  {
    PotentialRises(nodes, pass, most, j, i);
    assert EdgeCost(nodes, pass, i, j) <= most;
    hide Potential, CostlyCycle, AtMost, UsesValue, EdgeCost, Cost, StartOf;
    var p, q := Potential(nodes, pass, most, j), Potential(nodes, pass, most, i);
    if p < q {
      ProductGap(p, q, |nodes| + 1);
      SlotsApart(nodes, pass, most, from, i, j);
    } else {
      assert Cost(nodes[j]) == 0 && EdgeCost(nodes, pass, i, j) == 0;
      SameSlotOrLater(nodes, pass, most, from, j, i);
    }
  }

  lemma SameSlotOrLater(nodes: seq<Node>, pass: PassCost, most: nat, from: nat, j: nat, i: nat)
    requires i < |nodes| && j < |nodes|
    requires Cost(nodes[j]) == 0 && Potential(nodes, pass, most, j) == Potential(nodes, pass, most, i)
    ensures StartOf(nodes, pass, most, from, j) <= StartOf(nodes, pass, most, from, i)
  {
    hide Potential, Cost;
    var a, b := SlotOf(nodes, pass, most, j), SlotOf(nodes, pass, most, i);
    hide SlotOf;
    if a < b {
      ProductGap(a, b, 30 + most);
    }
  }

  /** When a value from an earlier block arrives on a core. */
  function Arrival(pr: Problem, core: int, u: Use): nat {
    if u.Of? && u.id in pr.previous then pr.comms(core, pr.previous[u.id].place.partition) else 0
  }

  /** By this time everything the first `n` instructions use from earlier blocks has arrived on their cores. */
  function LastArrival(pr: Problem, cores: seq<int>, n: nat): nat
    requires n <= |pr.nodes| == |cores|
  {
    if n == 0 then 0 else Max(LastArrival(pr, cores, n - 1), LastOf(pr, cores[n - 1], pr.nodes[n - 1].uses))
  }

  function LastOf(pr: Problem, core: int, uses: seq<Use>): nat {
    if uses == [] then 0 else Max(LastOf(pr, core, uses[..|uses| - 1]), Arrival(pr, core, uses[|uses| - 1]))
  }

  lemma {:induction false} ArrivesBy(pr: Problem, cores: seq<int>, n: nat, i: nat, k: nat)
    requires i < n <= |pr.nodes| == |cores| && k < |pr.nodes[i].uses|
    ensures Arrival(pr, cores[i], pr.nodes[i].uses[k]) <= LastArrival(pr, cores, n)
  {
    hide Arrival;
    if i == n - 1 {
      ArrivesAmong(pr, cores[i], pr.nodes[i].uses, k);
    } else {
      ArrivesBy(pr, cores, n - 1, i, k);
    }
  }

  lemma {:induction false} ArrivesAmong(pr: Problem, core: int, uses: seq<Use>, k: nat)
    requires k < |uses|
    ensures Arrival(pr, core, uses[k]) <= LastOf(pr, core, uses)
  {
    hide Arrival;
    if k < |uses| - 1 {
      ArrivesAmong(pr, core, uses[..|uses| - 1], k);
    }
  }

  /** The layout is on time for a value or pointer of the block itself. */
  lemma OwnUseOk(pr: Problem, cores: seq<int>, most: nat, from: nat, i: nat, k: nat)
    requires CoresFit(pr, cores) && !CostlyCycle(pr.nodes, PassOn(pr, cores))
    requires AtMost(pr.nodes, PassOn(pr, cores), most)
    requires i < |pr.nodes| && k < |pr.nodes[i].uses|
    requires pr.nodes[i].uses[k].Of? && IndexOf(pr.nodes, pr.nodes[i].uses[k].id).Some?
    ensures var s := Layout(pr.nodes, PassOn(pr, cores), most, from, cores); UseOk(pr, s, s[i], pr.nodes[i].uses[k])
  {
    var u := pr.nodes[i].uses[k];
    var j := IndexOf(pr.nodes, u.id).value;
    var pass := PassOn(pr, cores);
    assert PointerAt(pr, cores, i, u);
    hide IndexOf;
    assert DependsOn(pr.nodes, i, j);
    assert !u.pointer ==> u == Of(pr.nodes[j].id, false) && UsesValue(pr.nodes, i, j);
    assert !u.pointer ==> EdgeCost(pr.nodes, pass, i, j) == pr.comms(cores[i], cores[j]);
    hide CoresFit, CostlyCycle, AtMost, StartOf, Cost, DependsOn, UsesValue, EdgeCost, PassOn;
    LayoutWaits(pr.nodes, pass, most, from, j, i);
  }

  /** The layout is late enough for a value from an earlier block, and on the core of a pointer from one. */
  lemma EarlierUseOk(pr: Problem, cores: seq<int>, most: nat, i: nat, k: nat)
    requires CoresFit(pr, cores) && i < |pr.nodes| && k < |pr.nodes[i].uses|
    requires pr.nodes[i].uses[k].Of? && IndexOf(pr.nodes, pr.nodes[i].uses[k].id).None?
    ensures var s := Layout(pr.nodes, PassOn(pr, cores), most, LastArrival(pr, cores, |cores|), cores);
      UseOk(pr, s, s[i], pr.nodes[i].uses[k])
  {
    assert PointerAt(pr, cores, i, pr.nodes[i].uses[k]);
    hide CoresFit, IndexOf, SlotOf, Cost, PassOn;
    ArrivesBy(pr, cores, |cores|, i, k);
    hide LastArrival;
  }

  /** The end of the latest of the placements. */
  function LatestEnd(s: seq<Placement>): int {
    if s == [] then 0
    else
      var rest := LatestEnd(s[..|s| - 1]);
      if s[|s| - 1].endTime > rest then s[|s| - 1].endTime else rest
  }

  lemma {:induction false} LatestIsLatest(s: seq<Placement>, i: nat)
    requires i < |s|
    ensures s[i].endTime <= LatestEnd(s)
  {
    if i < |s| - 1 {
      LatestIsLatest(s[..|s| - 1], i);
    }
  }

  /** On fitting cores without a costly cycle the layout by potential is feasible. */
  lemma LayoutFeasible(pr: Problem, cores: seq<int>) returns (s: seq<Placement>, latest: int)
    requires CoresFit(pr, cores) && !CostlyCycle(pr.nodes, PassOn(pr, cores))
    ensures Feasible(pr, s, latest) && CoresOf(s) == cores
  {
    hide CostlyCycle, StartOf, Cost, LastArrival, PassOn, PointerAt, UseOk;
    var pass := PassOn(pr, cores);
    var most := SomeBound(pass, |pr.nodes|, |pr.nodes|);
    var from := LastArrival(pr, cores, |cores|);
    s := Layout(pr.nodes, pass, most, from, cores);
    latest := LatestEnd(s);
    forall i | 0 <= i < |s| ensures NodeOk(pr, s[i], Cost(pr.nodes[i]), latest) && MemoryOk(pr, pr.nodes[i], s[i]) {
      LatestIsLatest(s, i);
      assert AliasesAt(pr, pr.nodes[i], cores[i]);
    }
    forall i, j | 0 <= i < j < |s| ensures Disjoint(s[i], s[j]) {
      LayoutApart(pr.nodes, pass, most, from, cores, i, j);
    }
    forall i, k | 0 <= i < |s| && 0 <= k < |pr.nodes[i].uses| ensures UseOk(pr, s, s[i], pr.nodes[i].uses[k]) {
      LayoutUse(pr, cores, most, i, k);
    }
  }

  lemma LayoutUse(pr: Problem, cores: seq<int>, most: nat, i: nat, k: nat)
    requires CoresFit(pr, cores) && !CostlyCycle(pr.nodes, PassOn(pr, cores))
    requires AtMost(pr.nodes, PassOn(pr, cores), most)
    requires i < |pr.nodes| && k < |pr.nodes[i].uses|
    ensures var s := Layout(pr.nodes, PassOn(pr, cores), most, LastArrival(pr, cores, |cores|), cores);
      UseOk(pr, s, s[i], pr.nodes[i].uses[k])
  {
    var u := pr.nodes[i].uses[k];
    hide CoresFit, CostlyCycle, AtMost, Layout, LastArrival, PassOn;
    if u.Of? {
      hide UseOk;
      if IndexOf(pr.nodes, u.id).Some? {
        OwnUseOk(pr, cores, most, LastArrival(pr, cores, |cores|), i, k);
      } else {
        EarlierUseOk(pr, cores, most, i, k);
      }
    }
  }

  // ---------- When a schedule exists ----------

  /** The block has a feasible schedule exactly if its instructions have cores on which no cycle costs anything. */
  lemma ScheduleExists(pr: Problem)
    requires Proper(pr)
    ensures HasSchedule(pr) <==> exists cores :: CoresFit(pr, cores) && !CostlyCycle(pr.nodes, PassOn(pr, cores))
  {
    hide Feasible, CoresFit, CostlyCycle, PassOn;
    if HasSchedule(pr) {
      var s, latest :| Feasible(pr, s, latest);
      ScheduledCoresFit(pr, s, latest);
      ScheduledCyclesAreFree(pr, s, latest);
    }
    forall cores | CoresFit(pr, cores) && !CostlyCycle(pr.nodes, PassOn(pr, cores)) ensures HasSchedule(pr) {
      var s, latest := LayoutFeasible(pr, cores);
    }
  }
}
