/**
 The partitioner: it schedules the blocks of a function one after the other, remembers
 where everything was placed, and falls back to core 0 when the solver finds nothing.
 */
module Generator {
  import opened Common
  import opened CostModel
  import opened Schedule
  import opened Search

  datatype Strategy = Linear | Binary

  type Oracle = (Problem, nat, int) -> Option<Model<seq<Placement>>>

  function Ask(oracle: Oracle, pr: Problem): Solver<seq<Placement>> {
    (n: nat, goal: int) => oracle(pr, n, goal)
  }

  ghost function FeasibleFor(pr: Problem): (seq<Placement>, int) -> bool {
    (s, latest) => Feasible(pr, s, latest)
  }

  ghost predicate SoundOracle(oracle: Oracle) {
    forall pr :: Sound(FeasibleFor(pr), Ask(oracle, pr))
  }

  // ---------- The search for one block ----------

  /** How far above the shortest schedule a strategy may end. */
  function Slack(strategy: Strategy): nat {
    match strategy
    case Linear => 0
    case Binary => 1
  }

  lemma NoneBelowPath(pr: Problem)
    requires DistinctIds(pr.nodes) && pr.nodes != []
    ensures AtLeast(FeasibleFor(pr), LongestPath(pr.nodes, |pr.nodes|))
  {
    hide Feasible;
    forall s, latest | FeasibleFor(pr)(s, latest) ensures LongestPath(pr.nodes, |pr.nodes|) <= latest {
      BoundsHold(pr, s, latest);
    }
  }

  /** The first goal a strategy asks for. */
  function FirstGoal(strategy: Strategy, upper: int, lower: int): int {
    match strategy
    case Linear => upper
    case Binary => Midpoint(lower, upper)
  }

  /** The bounds leave room, and the solver has an answer to the first question. */
  predicate Answered(pr: Problem, oracle: Oracle, strategy: Strategy) {
    var upper, lower := TotalTime(pr.nodes), LongestPath(pr.nodes, |pr.nodes|);
    lower < upper && oracle(pr, 0, FirstGoal(strategy, upper, lower)).Some?
  }

  method IncrementalPartitioning(pr: Problem, oracle: Oracle, strategy: Strategy)
    returns (best: Option<Model<seq<Placement>>>)
    requires DistinctIds(pr.nodes) && SoundOracle(oracle)
    ensures best.Some? ==>
      Feasible(pr, best.value.schedule, best.value.latest) && best.value.latest < TotalTime(pr.nodes)
    ensures Complete(FeasibleFor(pr), Ask(oracle, pr)) && pr.nodes != [] ==>
      Within(FeasibleFor(pr), TimeOf(best, TotalTime(pr.nodes)), Slack(strategy))
    // nothing is found exactly if there is no gain, or, by the binary search, no gain of more than one
    ensures AtLeast(FeasibleFor(pr), TotalTime(pr.nodes) - Slack(strategy)) ==> best == None
    ensures Complete(FeasibleFor(pr), Ask(oracle, pr)) && pr.nodes != [] ==>
      (best == None <==> AtLeast(FeasibleFor(pr), TotalTime(pr.nodes) - Slack(strategy)))
    // on one core there is nothing to gain
    ensures pr.rows * pr.columns == 1 ==> best == None
    // what is found is an answer of the solver, and an answer to the first question is enough
    ensures best.Some? ==> IsAnswer(Ask(oracle, pr), best)
    ensures Answered(pr, oracle, strategy) ==> best.Some?
  {
    hide Feasible;
    var upperBound := SumTotalTime(pr.nodes);
    var lowerBound := CriticalPath(pr.nodes);
    if pr.nodes != [] {
      NoneBelowPath(pr);
    }
    if upperBound <= lowerBound {
      return None;
    }
    assert Sound(FeasibleFor(pr), Ask(oracle, pr));
    match strategy {
      case Binary =>
        var calls;
        best, calls := BinarySearch(FeasibleFor(pr), Ask(oracle, pr), upperBound, lowerBound);
      case Linear =>
        var goals;
        best, goals := LinearSearch(FeasibleFor(pr), Ask(oracle, pr), upperBound, lowerBound);
    }
    if best.Some? && pr.rows * pr.columns == 1 {
      OneCoreBound(pr, best.value.schedule, best.value.latest);
    }
  }

  /** Two independent operations on two cores. */
  const TWINS := Problem([Node(0, Other, [], false), Node(1, Other, [], false)], map[], {}, 1, 2,
    ConstantComms())

  /**
   They can run side by side, which takes half the time, but the binary search never finds
   that, whatever the solver.
   */
  method BinaryMissesTwins(oracle: Oracle) returns (best: Option<Model<seq<Placement>>>)
    requires SoundOracle(oracle)
    ensures Feasible(TWINS, [Placement(0, 0, 1), Placement(1, 0, 1)], 1) && TotalTime(TWINS.nodes) == 2
    ensures best == None
  {
    hide Feasible;
    TwinsRunApart();
    TwinsBounds(TWINS.nodes);
    NoneBelowPath(TWINS);
    best := IncrementalPartitioning(TWINS, oracle, Binary);
  }

  lemma TwinsRunApart()
    ensures Feasible(TWINS, [Placement(0, 0, 1), Placement(1, 0, 1)], 1)
  {
    hide UseOk, IndexOf;
  }

  lemma TwinsBounds(nodes: seq<Node>)
    requires |nodes| == 2 && forall i :: 0 <= i < 2 ==> Cost(nodes[i]) == 1 && nodes[i].uses == []
    ensures TotalTime(nodes) == 2 && LongestPath(nodes, 2) == 1
  {
    hide IndexOf, Cost;
    assert nodes[..1] == [nodes[0]] && nodes[..1][..0] == [];
    assert TotalTime(nodes[..1]) == 1;
    assert PathCost(nodes, 0) == 1 && PathCost(nodes, 1) == 1;
    assert LongestPath(nodes, 1) == 1;
  }

  // ---------- Placements of a block ----------

  /** What holds of the placements of one block, however they were found. */
  ghost predicate BlockSchedule(nodes: seq<Node>, s: seq<Placement>, cores: nat) {
    && |s| == |nodes|
    && (forall i :: 0 <= i < |s| ==>
          0 <= s[i].partition < cores && 0 <= s[i].startTime && s[i].endTime == s[i].startTime + Cost(nodes[i]))
    && (forall i, j :: 0 <= i < j < |s| ==> Disjoint(s[i], s[j]))
  }

  /** Everything on core 0, back to back in some order: the times are taken up without a gap to the sum of the costs. */
  ghost predicate OnCoreZero(nodes: seq<Node>, s: seq<Placement>) {
    && |s| == |nodes|
    && (forall i :: 0 <= i < |s| ==> s[i].partition == 0 && s[i].endTime <= TotalTime(nodes))
    && (forall t :: 0 <= t < TotalTime(nodes) ==> Busy(s, {}, t))
  }

  /** Some instruction that is no longer to do runs at time `t`. */
  predicate Busy(s: seq<Placement>, todo: set<nat>, t: int) {
    exists i: nat :: i < |s| && i !in todo && s[i].startTime <= t < s[i].endTime
  }

  /** The cost of the instructions among the first `n` whose index is in `todo`. */
  function CostIn(nodes: seq<Node>, todo: set<nat>, n: nat): nat
    requires n <= |nodes|
  {
    if n == 0 then 0 else CostIn(nodes, todo, n - 1) + (if n - 1 in todo then Cost(nodes[n - 1]) else 0)
  }

  lemma {:induction false} CostWithout(nodes: seq<Node>, todo: set<nat>, i: nat, n: nat)
    requires n <= |nodes| && i in todo && i < |nodes|
    ensures CostIn(nodes, todo, n) == CostIn(nodes, todo - {i}, n) + (if i < n then Cost(nodes[i]) else 0)
  {
    if n > 0 {
      CostWithout(nodes, todo, i, n - 1);
    }
  }

  lemma {:induction false} CostOfAll(nodes: seq<Node>, todo: set<nat>, n: nat)
    requires n <= |nodes|
    ensures (forall i :: 0 <= i < n ==> i in todo) ==> CostIn(nodes, todo, n) == TotalTime(nodes[..n])
    ensures todo == {} ==> CostIn(nodes, todo, n) == 0
  {
    if n > 0 {
      CostOfAll(nodes, todo, n - 1);
      assert nodes[..n][..n - 1] == nodes[..n - 1];
    }
  }

  function Indices(n: nat): (r: set<nat>)
    ensures forall i: nat :: i in r <==> i < n
  {
    if n == 0 then {} else Indices(n - 1) + {n - 1}
  }

  /** Halfway through the fallback: all but `todo` are on core 0, one after the other up to `time`. */
  ghost predicate Assigned(nodes: seq<Node>, s: seq<Placement>, todo: set<nat>, time: nat) {
    && |s| == |nodes|
    && time + CostIn(nodes, todo, |nodes|) == TotalTime(nodes)
    && (forall i :: 0 <= i < |s| && i !in todo ==>
          && s[i].partition == 0 && 0 <= s[i].startTime
          && s[i].endTime == s[i].startTime + Cost(nodes[i]) && s[i].endTime <= time)
    && (forall i, j :: 0 <= i < j < |s| && i !in todo && j !in todo ==> Disjoint(s[i], s[j]))
    && (forall t :: 0 <= t < time ==> Busy(s, todo, t))
  }

  lemma AssignNext(nodes: seq<Node>, s: seq<Placement>, todo: set<nat>, time: nat, i: nat)
    requires Assigned(nodes, s, todo, time) && i in todo && i < |nodes|
    ensures Assigned(nodes, s[i := Placement(0, time, time + Cost(nodes[i]))], todo - {i}, time + Cost(nodes[i]))
  {
    CostWithout(nodes, todo, i, |nodes|);
    hide CostIn, Cost;
    var s' := s[i := Placement(0, time, time + Cost(nodes[i]))];
    forall t | 0 <= t < time + Cost(nodes[i]) ensures Busy(s', todo - {i}, t) {
      if t < time {
        assert Busy(s, todo, t);
        var k: nat :| k < |s| && k !in todo && s[k].startTime <= t < s[k].endTime;
        assert k != i && s'[k] == s[k];
      } else {
        assert i !in todo - {i} && s'[i].startTime <= t < s'[i].endTime;
      }
    }
    hide Busy;
  }

  lemma NoneAssigned(nodes: seq<Node>, s: seq<Placement>, todo: set<nat>)
    requires |s| == |nodes| && todo == Indices(|nodes|)
    ensures Assigned(nodes, s, todo, 0)
  {
    CostOfAll(nodes, todo, |nodes|);
    assert nodes[..|nodes|] == nodes;
    hide CostIn;
  }

  lemma AllAssigned(nodes: seq<Node>, s: seq<Placement>, time: nat)
    requires Assigned(nodes, s, {}, time)
    ensures BlockSchedule(nodes, s, 1) && OnCoreZero(nodes, s)
  {
    CostOfAll(nodes, {}, |nodes|);
    hide CostIn, Busy;
  }

  /** The fallback: core 0, with times handed out in whatever order the map of placements is iterated. */
  method AssignToCoreZero(nodes: seq<Node>) returns (s: seq<Placement>)
    ensures BlockSchedule(nodes, s, 1) && OnCoreZero(nodes, s)
  {
    hide Assigned, BlockSchedule, OnCoreZero;
    var todo := Indices(|nodes|);
    s := seq(|nodes|, i => Placement(0, 0, 0));
    var time: nat := 0;
    NoneAssigned(nodes, s, todo);
    while todo != {}
      invariant |s| == |nodes| && todo <= Indices(|nodes|) && Assigned(nodes, s, todo, time)
      decreases |todo|
    {
      var i :| i in todo;
      AssignNext(nodes, s, todo, time, i);
      s := s[i := Placement(0, time, time + Cost(nodes[i]))];
      time := time + Cost(nodes[i]);
      todo := todo - {i};
    }
    AllAssigned(nodes, s, time);
  }

  // ---------- The generator ----------

  /**
   What adding the placements `s` of `nodes` leaves: the earlier ones, and these for
   instructions not placed before.
   */
  ghost predicate Added(nodes: seq<Node>, s: seq<Placement>, before: map<nat, Earlier>, after: map<nat, Earlier>)
    requires |s| == |nodes|
  {
    && (forall id :: id in before ==> id in after && after[id] == before[id])
    && (forall id :: id in after ==> id in before || HasId(nodes, id))
    && (forall i :: 0 <= i < |nodes| ==> nodes[i].id in after)
    && (forall i :: 0 <= i < |nodes| && nodes[i].id !in before ==> after[nodes[i].id] == Earlier(s[i], nodes[i].memory))
  }

  predicate HasId(nodes: seq<Node>, id: nat) {
    exists i :: 0 <= i < |nodes| && nodes[i].id == id
  }

  /** The symbolic placements of the block: each instruction's index. */
  ghost predicate SymbolicFor(nodes: seq<Node>, symbolic: map<nat, nat>) {
    && (forall id :: id in symbolic ==> symbolic[id] < |nodes| && nodes[symbolic[id]].id == id)
    && (forall i :: 0 <= i < |nodes| ==> nodes[i].id in symbolic && symbolic[nodes[i].id] == i)
  }

  /** Every instruction of the block has a placement, and on a core no two of them overlap. */
  ghost predicate BlockPlaced(nodes: seq<Node>, placed: map<nat, Earlier>, cores: nat) {
    && (forall i :: 0 <= i < |nodes| ==> nodes[i].id in placed && placed[nodes[i].id].memory == nodes[i].memory)
    && BlockSchedule(nodes, PlacesOf(nodes, placed), cores)
  }

  function PlacesOf(nodes: seq<Node>, placed: map<nat, Earlier>): (s: seq<Placement>)
    ensures |s| == |nodes|
  {
    seq(|nodes|, i requires 0 <= i < |nodes| =>
      if nodes[i].id in placed then placed[nodes[i].id].place else Placement(0, 0, 0))
  }

  datatype Block = Block(nodes: seq<Node>, aliases: set<(nat, nat)>)

  /** Each instruction stands once in one block. */
  ghost predicate BlocksApart(blocks: seq<Block>) {
    && (forall b :: 0 <= b < |blocks| ==> DistinctIds(blocks[b].nodes))
    && (forall b, c, i, j :: 0 <= b < c < |blocks| && 0 <= i < |blocks[b].nodes| && 0 <= j < |blocks[c].nodes| ==>
          blocks[b].nodes[i].id != blocks[c].nodes[j].id)
  }

  class SMTConstraintGenerator {
    const rows: nat
    const columns: nat
    const strategy: Strategy
    const comms: CommsTable
    var previousPlacements: map<nat, Earlier>
    var symbolicPlacements: map<nat, nat>

    ghost predicate Valid()
      reads this
    {
      && rows > 0 && columns > 0 && symbolicPlacements == map[]
      && forall id :: id in previousPlacements ==> 0 <= previousPlacements[id].place.partition < rows * columns
    }

    constructor (rows: nat, columns: nat, strategy: Strategy, comms: CommsTable)
      requires rows > 0 && columns > 0
      ensures Valid() && previousPlacements == map[]
      ensures this.rows == rows && this.columns == columns && this.strategy == strategy && this.comms == comms
    {
      this.rows := rows;
      this.columns := columns;
      this.strategy := strategy;
      this.comms := comms;
      previousPlacements := map[];
      symbolicPlacements := map[];
    }

    /** The index of each instruction of the block names its symbolic placement. */
    method ConstructSymbolicPlacements(nodes: seq<Node>)
      requires DistinctIds(nodes) && symbolicPlacements == map[]
      modifies `symbolicPlacements
      ensures SymbolicFor(nodes, symbolicPlacements)
    {
      for n := 0 to |nodes|
        invariant forall id :: id in symbolicPlacements ==>
          symbolicPlacements[id] < n && nodes[symbolicPlacements[id]].id == id
        invariant forall i :: 0 <= i < n ==> nodes[i].id in symbolicPlacements && symbolicPlacements[nodes[i].id] == i
      {
        symbolicPlacements := symbolicPlacements[nodes[n].id := n];
      }
    }

    /** Remembers the placements of a block, in any order; an instruction already placed keeps its place. */
    method AddConcretePlacements(nodes: seq<Node>, s: seq<Placement>)
      requires |s| == |nodes| && SymbolicFor(nodes, symbolicPlacements)
      modifies `previousPlacements
      ensures Added(nodes, s, old(previousPlacements), previousPlacements)
    {
      var rest := symbolicPlacements.Keys;
      while rest != {}
        invariant rest <= symbolicPlacements.Keys
        invariant forall id :: id in old(previousPlacements) ==>
          id in previousPlacements && previousPlacements[id] == old(previousPlacements)[id]
        invariant forall id :: id in previousPlacements ==> id in old(previousPlacements) || HasId(nodes, id)
        invariant forall id :: id in symbolicPlacements && id !in rest ==> id in previousPlacements
        invariant forall id :: id in symbolicPlacements && id !in rest && id !in old(previousPlacements) ==>
          previousPlacements[id] == Earlier(s[symbolicPlacements[id]], nodes[symbolicPlacements[id]].memory)
        invariant forall id :: id in rest ==> id in previousPlacements ==> id in old(previousPlacements)
        decreases |rest|
      {
        var id :| id in rest;
        var i := symbolicPlacements[id];
        if id !in previousPlacements {
          previousPlacements := previousPlacements[id := Earlier(s[i], nodes[i].memory)];
        }
        rest := rest - {id};
      }
    }

    function ProblemOf(block: Block): Problem
      reads this
    {
      Problem(block.nodes, previousPlacements, block.aliases, rows, columns, comms)
    }

    /** Schedules one block; `s` is what was decided for its instructions. */
    method PartitionInstructionsInBlock(block: Block, oracle: Oracle) returns (ghost s: seq<Placement>)
      requires Valid() && DistinctIds(block.nodes) && SoundOracle(oracle)
      modifies this
      ensures Valid()
      ensures |s| == |block.nodes| && Added(block.nodes, s, old(previousPlacements), previousPlacements)
      ensures BlockSchedule(block.nodes, s, rows * columns)
      ensures Decided(old(ProblemOf(block)), oracle, strategy, s)
    {
      hide OnCoreZero, Feasible, SoundOracle, DistinctIds, SymbolicFor, Added, BlockSchedule, Decided;
      hide Answered, TotalTime;
      var nodes := block.nodes;
      var pr := ProblemOf(block);
      ConstructSymbolicPlacements(nodes);
      var best := IncrementalPartitioning(pr, oracle, strategy);
      var places;
      if best.Some? {
        places := best.value.schedule;
        FeasibleSchedule(pr, places, best.value.latest);
        FoundIsDecided(pr, oracle, strategy, best.value);
      } else {
        places := AssignToCoreZero(nodes);
        CellBelow(0, 0, rows, columns);
        MoreCores(nodes, places, 1, rows * columns);
        NoneIsDecided(pr, oracle, strategy, places);
      }
      s := places;
      AddConcretePlacements(nodes, places);
      symbolicPlacements := map[];
      AddedInRange(nodes, s, old(previousPlacements), previousPlacements, rows * columns);
    }

    /** All blocks in turn: afterwards every instruction of every block is placed. */
    method PartitionInstructionsInModule(blocks: seq<Block>, oracle: Oracle)
      requires Valid() && previousPlacements == map[] && BlocksApart(blocks) && SoundOracle(oracle)
      modifies this
      ensures Valid()
      ensures forall b :: 0 <= b < |blocks| ==> BlockPlaced(blocks[b].nodes, previousPlacements, rows * columns)
      ensures forall id :: id in previousPlacements ==> exists b :: 0 <= b < |blocks| && HasId(blocks[b].nodes, id)
      // what was decided for each block, given the blocks before it
      ensures forall b :: 0 <= b < |blocks| ==>
        Decided(ProblemAt(blocks, b), oracle, strategy, PlacesOf(blocks[b].nodes, previousPlacements))
    {
      hide BlockSchedule, SoundOracle, OnCoreZero, Feasible, Decided, Added, BlockPlaced, BlocksApart, HasId, Valid;
      for n := 0 to |blocks|
        invariant Valid() && PlacedBefore(blocks, n, previousPlacements) == previousPlacements
        invariant forall b :: 0 <= b < n ==> BlockPlaced(blocks[b].nodes, previousPlacements, rows * columns)
        invariant forall b :: 0 <= b < n ==>
          Decided(ProblemAt(blocks, b), oracle, strategy, PlacesOf(blocks[b].nodes, previousPlacements))
      {
        ghost var before := previousPlacements;
        ApartFrom(blocks, n);
        var s := PartitionInstructionsInBlock(blocks[n], oracle);
        OneMoreBlock(blocks, n, s, before, previousPlacements);
        AddedPlaces(blocks[n].nodes, s, before, previousPlacements, rows * columns);
        forall b | 0 <= b < n
          ensures BlockPlaced(blocks[b].nodes, previousPlacements, rows * columns)
          ensures PlacesOf(blocks[b].nodes, previousPlacements) == PlacesOf(blocks[b].nodes, before)
        {
          PlacedStays(blocks[b].nodes, s, blocks[n].nodes, before, previousPlacements, rows * columns);
        }
      }
      forall id | id in previousPlacements ensures exists b :: 0 <= b < |blocks| && HasId(blocks[b].nodes, id) {
        assert id in PlacedBefore(blocks, |blocks|, previousPlacements);
      }
    }

    /** The problem of block `b`, by the placements the blocks before it have in the end. */
    ghost function ProblemAt(blocks: seq<Block>, b: nat): Problem
      requires b < |blocks|
      reads this
    {
      Problem(
        blocks[b].nodes, PlacedBefore(blocks, b, previousPlacements), blocks[b].aliases, rows, columns, comms)
    }
  }

  // ---------- What the search decides ----------

  /** `s` is a feasible schedule shorter than the sum that the solver answered. */
  ghost predicate Taken(pr: Problem, oracle: Oracle, s: seq<Placement>, latest: int) {
    && latest < TotalTime(pr.nodes) && Feasible(pr, s, latest)
    && IsAnswer(Ask(oracle, pr), Some(Model(s, latest)))
  }

  /**
   How the solver's answers decide where a block goes. With a solver that never gives up
   a schedule within the strategy's slack of the shortest is taken, and core 0 exactly if
   the sum is within it; with any solver core 0 if that is so, and an answer if the first
   question has one.
   */
  ghost predicate Decided(pr: Problem, oracle: Oracle, strategy: Strategy, s: seq<Placement>) {
    var bound := TotalTime(pr.nodes) - Slack(strategy);
    && (OnCoreZero(pr.nodes, s) || exists latest :: Taken(pr, oracle, s, latest))
    && (AtLeast(FeasibleFor(pr), bound) ==> OnCoreZero(pr.nodes, s))
    && (Answered(pr, oracle, strategy) ==> exists latest :: Taken(pr, oracle, s, latest))
    && (Complete(FeasibleFor(pr), Ask(oracle, pr)) && pr.nodes != [] && !AtLeast(FeasibleFor(pr), bound) ==>
          exists latest :: Taken(pr, oracle, s, latest) && Within(FeasibleFor(pr), latest, Slack(strategy)))
  }

  lemma FoundIsDecided(pr: Problem, oracle: Oracle, strategy: Strategy, m: Model<seq<Placement>>)
    requires Feasible(pr, m.schedule, m.latest) && m.latest < TotalTime(pr.nodes)
    requires IsAnswer(Ask(oracle, pr), Some(m)) && !AtLeast(FeasibleFor(pr), TotalTime(pr.nodes) - Slack(strategy))
    requires Complete(FeasibleFor(pr), Ask(oracle, pr)) && pr.nodes != [] ==>
      Within(FeasibleFor(pr), m.latest, Slack(strategy))
    ensures Decided(pr, oracle, strategy, m.schedule)
  {
    hide Feasible, TotalTime, OnCoreZero, Answered, IsAnswer, AtLeast, Complete, Within;
    assert Taken(pr, oracle, m.schedule, m.latest);
  }

  lemma NoneIsDecided(pr: Problem, oracle: Oracle, strategy: Strategy, s: seq<Placement>)
    requires OnCoreZero(pr.nodes, s) && !Answered(pr, oracle, strategy)
    requires Complete(FeasibleFor(pr), Ask(oracle, pr)) && pr.nodes != [] ==>
      AtLeast(FeasibleFor(pr), TotalTime(pr.nodes) - Slack(strategy))
    ensures Decided(pr, oracle, strategy, s)
  {
    hide Feasible, TotalTime, OnCoreZero, Answered, IsAnswer, AtLeast, Complete, Within;
  }

  /** The placements of the first `n` blocks. */
  ghost function PlacedBefore(blocks: seq<Block>, n: nat, placed: map<nat, Earlier>): map<nat, Earlier>
    requires n <= |blocks|
  {
    map id | id in placed && (exists b :: 0 <= b < n && HasId(blocks[b].nodes, id)) :: placed[id]
  }

  ghost predicate NoneShared(nodes: seq<Node>, others: seq<Node>) {
    forall id :: HasId(nodes, id) ==> !HasId(others, id)
  }

  lemma ApartFrom(blocks: seq<Block>, n: nat)
    requires BlocksApart(blocks) && n < |blocks|
    ensures DistinctIds(blocks[n].nodes)
    ensures forall b :: 0 <= b < |blocks| && b != n ==> NoneShared(blocks[b].nodes, blocks[n].nodes)
  {
    hide DistinctIds;
  }

  /** Placing block `n` leaves the placements of the blocks before it. */
  lemma OneMoreBlock(blocks: seq<Block>, n: nat, s: seq<Placement>, before: map<nat, Earlier>,
                     after: map<nat, Earlier>)
    requires n < |blocks| && (forall b :: 0 <= b < n ==> NoneShared(blocks[b].nodes, blocks[n].nodes))
    requires |s| == |blocks[n].nodes| && Added(blocks[n].nodes, s, before, after)
    requires PlacedBefore(blocks, n, before) == before
    ensures PlacedBefore(blocks, n, after) == before && PlacedBefore(blocks, n + 1, after) == after
    ensures forall b :: 0 <= b <= n ==> PlacedBefore(blocks, b, after) == PlacedBefore(blocks, b, before)
    ensures forall id :: HasId(blocks[n].nodes, id) ==> id !in before
  {
    hide HasId;
    forall id | id in before ensures !HasId(blocks[n].nodes, id) {
      assert id in PlacedBefore(blocks, n, before);
      var b :| 0 <= b < n && HasId(blocks[b].nodes, id);
      assert NoneShared(blocks[b].nodes, blocks[n].nodes);
    }
    forall b, id | 0 <= b <= n && id in PlacedBefore(blocks, b, after) ensures id in before {
      var c :| 0 <= c < b && HasId(blocks[c].nodes, id);
      assert NoneShared(blocks[c].nodes, blocks[n].nodes);
    }
    forall b | 0 <= b <= n ensures PlacedBefore(blocks, b, after) == PlacedBefore(blocks, b, before) {}
    forall id | id in after ensures exists b :: 0 <= b < n + 1 && HasId(blocks[b].nodes, id) {
      if id in before {
        assert id in PlacedBefore(blocks, n, before);
      } else {
        assert HasId(blocks[n].nodes, id);
      }
    }
  }

  lemma AddedPlaces(nodes: seq<Node>, s: seq<Placement>, before: map<nat, Earlier>, after: map<nat, Earlier>,
                    cores: nat)
    requires |s| == |nodes| && Added(nodes, s, before, after) && BlockSchedule(nodes, s, cores)
    requires forall id :: HasId(nodes, id) ==> id !in before
    ensures PlacesOf(nodes, after) == s && BlockPlaced(nodes, after, cores)
  {
    hide BlockSchedule;
    assert forall i :: 0 <= i < |nodes| ==> HasId(nodes, nodes[i].id);
    assert PlacesOf(nodes, after) == s;
  }

  lemma PlacedStays(nodes: seq<Node>, s: seq<Placement>, added: seq<Node>, before: map<nat, Earlier>,
                    after: map<nat, Earlier>, cores: nat)
    requires BlockPlaced(nodes, before, cores) && |s| == |added| && Added(added, s, before, after)
    ensures BlockPlaced(nodes, after, cores) && PlacesOf(nodes, after) == PlacesOf(nodes, before)
  {
    hide BlockSchedule;
    assert PlacesOf(nodes, after) == PlacesOf(nodes, before);
  }

  lemma AddedInRange(nodes: seq<Node>, s: seq<Placement>, before: map<nat, Earlier>, after: map<nat, Earlier>,
                     cores: nat)
    requires BlockSchedule(nodes, s, cores) && Added(nodes, s, before, after)
    requires forall id :: id in before ==> 0 <= before[id].place.partition < cores
    ensures forall id :: id in after ==> 0 <= after[id].place.partition < cores
  {
    forall id | id in after && id !in before ensures 0 <= after[id].place.partition < cores {
      var i :| 0 <= i < |nodes| && nodes[i].id == id;
      assert after[nodes[i].id] == Earlier(s[i], nodes[i].memory);
    }
  }

  lemma MoreCores(nodes: seq<Node>, s: seq<Placement>, few: nat, many: nat)
    requires BlockSchedule(nodes, s, few) && few <= many
    ensures BlockSchedule(nodes, s, many)
  {
  }

  lemma FeasibleSchedule(pr: Problem, s: seq<Placement>, latest: int)
    requires Feasible(pr, s, latest)
    ensures BlockSchedule(pr.nodes, s, pr.rows * pr.columns)
  {
    forall i | 0 <= i < |s|
      ensures 0 <= s[i].partition < pr.rows * pr.columns
      ensures 0 <= s[i].startTime && s[i].endTime == s[i].startTime + Cost(pr.nodes[i])
    {
      assert NodeOk(pr, s[i], Cost(pr.nodes[i]), latest);
    }
  }
}
