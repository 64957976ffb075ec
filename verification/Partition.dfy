/**
 The OCaml partitioner. Its constraints differ from those of the C++ one: loads and
 stores are tied to core 0, phis are free of their operands, an earlier value keeps its
 end time, and a value costs at least one unit to pass on, even within a core.
 */
module Partition {
  import opened Common
  import opened CostModel
  import opened Schedule
  import opened SequentialSchedule
  import opened Search

  /** One block, and the placements of earlier blocks as they stand when the constraints are built. */
  datatype Block = Block(nodes: seq<Node>, previous: map<nat, Placement>, rows: nat, cols: nat)

  function Dist(rows: nat, p1: int, p2: int): nat {
    if p1 >= 0 && p2 >= 0 && rows > 0 then ManhattanDist(p1, p2, rows) else 1
  }

  /** Where and when the operand is ready; one that is placed nowhere counts as ready on core 0 from the start. */
  function Ready(blk: Block, s: seq<Placement>, id: nat): (int, int)
    requires |s| == |blk.nodes|
  {
    match IndexOf(blk.nodes, id)
    case Some(j) => (s[j].partition, s[j].endTime)
    case None => if id in blk.previous then (blk.previous[id].partition, blk.previous[id].endTime) else (0, 0)
  }

  predicate OperandFits(blk: Block, s: seq<Placement>, p: Placement, u: Use)
    requires |s| == |blk.nodes|
  {
    match u
    case Free => true
    case Global => p.partition == 0
    case Of(id, pointer) =>
      var (part, ready) := Ready(blk, s, id);
      if pointer then p.startTime >= ready && p.partition == part
      else p.startTime >= ready + Dist(blk.rows, p.partition, part)
  }

  predicate NodeFits(blk: Block, n: Node, p: Placement, latest: int) {
    && 0 <= p.partition < blk.rows * blk.cols
    && 0 <= p.startTime && p.endTime == p.startTime + Cost(n) && p.endTime <= latest
    && (n.op.Memory? ==> p.partition == 0)
  }

  ghost predicate Fits(blk: Block, s: seq<Placement>, latest: int) {
    && |s| == |blk.nodes|
    && (forall i :: 0 <= i < |s| ==> NodeFits(blk, blk.nodes[i], s[i], latest))
    && (forall i, j :: 0 <= i < j < |s| ==> Disjoint(s[i], s[j]))
    && (forall i, k :: 0 <= i < |s| && 0 <= k < |blk.nodes[i].uses| && blk.nodes[i].op != Phi ==>
          OperandFits(blk, s, s[i], blk.nodes[i].uses[k]))
  }

  // ---------- The sequential time as a first goal ----------

  /** The operand is ready for instruction `i` when everything runs in order on core 0. */
  predicate ReadyInOrder(blk: Block, i: nat, u: Use)
    requires i < |blk.nodes|
  {
    match u
    case Free => true
    case Global => true
    case Of(id, pointer) =>
      match IndexOf(blk.nodes, id)
      case Some(j) =>
        if pointer then OverBefore(blk.nodes, j, i) else WorkBetween(blk.nodes, j, i)
      case None =>
        var (part, ready) :=
          if id in blk.previous then (blk.previous[id].partition, blk.previous[id].endTime) else (0, 0);
        if pointer then TotalTime(blk.nodes[..i]) >= ready && part == 0
        else TotalTime(blk.nodes[..i]) >= ready + Dist(blk.rows, 0, part)
  }

  lemma StayingCostsOne(rows: nat)
    requires rows > 0
    ensures Dist(rows, 0, 0) == 1
  {
    RelayNeverCheaper(rows, 0, 0, 0);
  }

  lemma InOrderOperand(blk: Block, i: nat, u: Use)
    requires blk.rows > 0 && i < |blk.nodes|
    ensures OperandFits(blk, Sequential(blk.nodes, 0), Sequential(blk.nodes, 0)[i], u) <==> ReadyInOrder(blk, i, u)
  {
    hide Sequential, TotalTime, Cost, Dist;
    SequentialAt(blk.nodes, 0, i);
    StayingCostsOne(blk.rows);
    if u.Of? {
      var at := IndexOf(blk.nodes, u.id);
      hide IndexOf;
      if at.Some? {
        SequentialAt(blk.nodes, 0, at.value);
        CostBetweenIs(blk.nodes, at.value, i);
      }
    }
  }

  /**
   Running the block in order on core 0 meets the constraints exactly when something of
   positive cost stands between each value of the block and its use, and earlier values
   are there in time.
   */
  lemma InOrderFits(blk: Block)
    requires blk.rows > 0 && blk.cols > 0
    ensures Fits(blk, Sequential(blk.nodes, 0), TotalTime(blk.nodes)) <==>
      forall i, k :: 0 <= i < |blk.nodes| && 0 <= k < |blk.nodes[i].uses| && blk.nodes[i].op != Phi ==>
        ReadyInOrder(blk, i, blk.nodes[i].uses[k])
  {
    hide Sequential, TotalTime, Cost, OperandFits, ReadyInOrder, Disjoint;
    var s := Sequential(blk.nodes, 0);
    CellBelow(0, 0, blk.rows, blk.cols);
    forall i | 0 <= i < |s| ensures NodeFits(blk, blk.nodes[i], s[i], TotalTime(blk.nodes)) {
      SequentialAt(blk.nodes, 0, i);
      PrefixTimes(blk.nodes, i + 1, |blk.nodes|);
      assert blk.nodes[..|blk.nodes|] == blk.nodes;
    }
    hide NodeFits;
    forall i, j | 0 <= i < j < |s| ensures Disjoint(s[i], s[j]) {
      SequentialApart(blk.nodes, 0, i, j);
    }
    forall i, k | 0 <= i < |s| && 0 <= k < |blk.nodes[i].uses|
      ensures OperandFits(blk, s, s[i], blk.nodes[i].uses[k]) <==> ReadyInOrder(blk, i, blk.nodes[i].uses[k])
    {
      InOrderOperand(blk, i, blk.nodes[i].uses[k]);
    }
  }

  /** Instructions each of which takes the one before it as a value; none but the first is a phi. */
  predicate IsValueChain(nodes: seq<Node>, chain: seq<nat>) {
    chain == [] ||
    var n := |chain| - 1;
    chain[n] < |nodes| && IsValueChain(nodes, chain[..n]) && (n > 0 ==> TakesValue(nodes, chain[n - 1], chain[n]))
  }

  predicate TakesValue(nodes: seq<Node>, j: nat, i: nat) {
    i < |nodes| && j < |nodes| && UsesValue(nodes, i, j) && nodes[i].op != Phi
  }

  lemma TakerWaits(blk: Block, s: seq<Placement>, latest: int, j: nat, i: nat)
    requires DistinctIds(blk.nodes) && Fits(blk, s, latest) && TakesValue(blk.nodes, j, i)
    ensures s[j].endTime + 1 <= s[i].startTime
  {
    IndexIs(blk.nodes, j);
    hide IndexOf, Dist;
    var k :| 0 <= k < |blk.nodes[i].uses| && blk.nodes[i].uses[k] == Of(blk.nodes[j].id, false);
    assert OperandFits(blk, s, s[i], blk.nodes[i].uses[k]);
    DistAtLeastOne(blk.rows, s[i].partition, s[j].partition);
  }

  /** A value is used no sooner than one unit, and one for every five steps of a shortest walk, after it is ready. */
  lemma ValueTakesDistance(blk: Block, s: seq<Placement>, latest: int, i: nat, k: nat, from: Cell, to: Cell)
    returns (steps: nat)
    requires Fits(blk, s, latest) && i < |blk.nodes| && k < |blk.nodes[i].uses| && blk.nodes[i].op != Phi
    requires blk.nodes[i].uses[k].Of? && !blk.nodes[i].uses[k].pointer
    requires InGrid(from, blk.rows, blk.cols) && InGrid(to, blk.rows, blk.cols)
    requires InColumnOrder(s[i].partition, from, blk.rows)
    requires InColumnOrder(Ready(blk, s, blk.nodes[i].uses[k].id).0, to, blk.rows)
    ensures StepsApart(from, to, steps, blk.rows, blk.cols)
    ensures s[i].startTime >= Ready(blk, s, blk.nodes[i].uses[k].id).1 + 1 + steps / 5
  {
    var part := Ready(blk, s, blk.nodes[i].uses[k].id).0;
    assert OperandFits(blk, s, s[i], blk.nodes[i].uses[k]);
    hide Fits, Ready, StepsApart;
    CellBelow(from.column, from.row, blk.cols, blk.rows);
    CellBelow(to.column, to.row, blk.cols, blk.rows);
    steps := ManhattanIsDistance(blk.rows, blk.cols, s[i].partition, part, from, to);
  }

  /** Wherever it runs, a chain of values takes its cost and one unit more for each value passed on. */
  lemma {:induction false} ValueChainTakesTime(blk: Block, s: seq<Placement>, latest: int, chain: seq<nat>)
    requires DistinctIds(blk.nodes) && Fits(blk, s, latest) && chain != [] && IsValueChain(blk.nodes, chain)
    ensures chain[|chain| - 1] < |s|
    ensures ChainCost(blk.nodes, chain) + |chain| - 1 <= s[chain[|chain| - 1]].endTime <= latest
    decreases |chain|
  {
    var n := |chain| - 1;
    assert NodeFits(blk, blk.nodes[chain[n]], s[chain[n]], latest);
    hide Fits, TakesValue;
    if n > 0 {
      ValueChainTakesTime(blk, s, latest, chain[..n]);
      TakerWaits(blk, s, latest, chain[n - 1], chain[n]);
    } else {
      assert ChainCost(blk.nodes, chain[..0]) == 0;
    }
  }

  /** Two operations, the second using the first: nothing fits in their sequential time, on any grid. */
  const PAIR := [Node(0, Other, [], false), Node(1, Other, [Of(0, false)], false)]

  lemma PairNeverFits(blk: Block, s: seq<Placement>, latest: int)
    requires blk.nodes == PAIR && latest <= TotalTime(PAIR)
    ensures !Fits(blk, s, latest)
  {
    assert PAIR[..1] == [PAIR[0]] && PAIR[..1][..0] == [];
    assert TotalTime(PAIR) == 2;
    assert PAIR[1].uses[0] == Of(PAIR[0].id, false) && UsesValue(PAIR, 1, 0);
    assert [0, 1][..1] == [0] && [0][..0] == [];
    assert IsValueChain(PAIR, [0]) && IsValueChain(PAIR, [0, 1]);
    assert ChainCost(PAIR, [0, 1]) == 2;
    hide Fits;
    var chain: seq<nat> := [0, 1];
    if Fits(blk, s, latest) {
      ValueChainTakesTime(blk, s, latest, chain);
      assert false;
    }
  }

  lemma DistAtLeastOne(rows: nat, p1: int, p2: int)
    ensures Dist(rows, p1, p2) >= 1
  {
  }

  // ---------- Solving a block ----------

  type Oracle = (Block, nat, int) -> Option<Model<seq<Placement>>>

  function Ask(oracle: Oracle, blk: Block): Solver<seq<Placement>> {
    (n: nat, goal: int) => oracle(blk, n, goal)
  }

  ghost function FitsFor(blk: Block): (seq<Placement>, int) -> bool {
    (s, latest) => Fits(blk, s, latest)
  }

  ghost predicate SoundOracle(oracle: Oracle) {
    forall blk :: SoundUpTo(FitsFor(blk), Ask(oracle, blk))
  }

  lemma NothingBelowZero(blk: Block)
    requires blk.nodes != []
    ensures AtLeast(FitsFor(blk), 0)
  {
    forall s, latest | FitsFor(blk)(s, latest) ensures 0 <= latest {
      assert NodeFits(blk, blk.nodes[0], s[0], latest);
    }
  }

  predicate HasId(nodes: seq<Node>, id: nat) {
    exists i :: 0 <= i < |nodes| && nodes[i].id == id
  }

  /** Everything on core 0 at time 0. */
  ghost predicate AllAtZero(nodes: seq<Node>, placed: map<nat, Placement>) {
    forall i :: 0 <= i < |nodes| ==> nodes[i].id in placed && placed[nodes[i].id] == Placement(0, 0, 0)
  }

  /** The block's instructions are placed as in `s`. */
  ghost predicate PlacedAs(nodes: seq<Node>, s: seq<Placement>, placed: map<nat, Placement>) {
    |s| == |nodes| && forall i :: 0 <= i < |nodes| ==> nodes[i].id in placed && placed[nodes[i].id] == s[i]
  }

  ghost predicate FoundInTime(blk: Block, placed: map<nat, Placement>) {
    exists s, latest :: latest <= TotalTime(blk.nodes) && Fits(blk, s, latest) && PlacedAs(blk.nodes, s, placed)
  }

  /** What solving a block comes to: a schedule within the sequential time, or everything at zero. */
  ghost predicate Solved(blk: Block, placed: map<nat, Placement>) {
    AllAtZero(blk.nodes, placed) || FoundInTime(blk, placed)
  }

  ghost predicate AnythingFits(blk: Block) {
    exists s, latest :: latest <= TotalTime(blk.nodes) && Fits(blk, s, latest)
  }

  /** And, if the solver never gives up, the shortest there is; everything at zero only if nothing fits. */
  ghost predicate SolvedBest(blk: Block, placed: map<nat, Placement>) {
    || (AllAtZero(blk.nodes, placed) && !AnythingFits(blk))
    || exists s, latest :: Fits(blk, s, latest) && PlacedAs(blk.nodes, s, placed) && Within(FitsFor(blk), latest, 0)
  }

  /** The block is placed as the solver answered to some question. */
  ghost predicate AsAnswered(blk: Block, oracle: Oracle, placed: map<nat, Placement>) {
    exists n: nat, goal ::
      oracle(blk, n, goal).Some? && PlacedAs(blk.nodes, oracle(blk, n, goal).value.schedule, placed)
  }

  /**
   How the solver's answers decide where a block goes. A block that takes time is placed as
   answered, within the sequential time, exactly if the first question has an answer; and
   as shortly as possible if the solver never gives up.
   */
  ghost predicate Decided(blk: Block, oracle: Oracle, placed: map<nat, Placement>) {
    var total := TotalTime(blk.nodes);
    if total >= 1 && oracle(blk, 0, total).Some? then
      && FoundInTime(blk, placed) && AsAnswered(blk, oracle, placed)
      && (CompleteUpTo(FitsFor(blk), Ask(oracle, blk)) ==> SolvedBest(blk, placed))
    else
      && AllAtZero(blk.nodes, placed)
      && (total >= 1 && CompleteUpTo(FitsFor(blk), Ask(oracle, blk)) ==> SolvedBest(blk, placed))
  }

  lemma DecidedIsSolved(blk: Block, oracle: Oracle, placed: map<nat, Placement>)
    requires Decided(blk, oracle, placed)
    ensures Solved(blk, placed)
    ensures CompleteUpTo(FitsFor(blk), Ask(oracle, blk)) && TotalTime(blk.nodes) >= 1 ==> SolvedBest(blk, placed)
  {
    hide FoundInTime, AllAtZero, AsAnswered, SolvedBest, TotalTime;
  }

  /** All instructions of the block have a core of the grid, loads and stores core 0. */
  ghost predicate OnGrid(nodes: seq<Node>, placed: map<nat, Placement>, cores: nat) {
    forall i :: 0 <= i < |nodes| ==>
      && nodes[i].id in placed && 0 <= placed[nodes[i].id].partition < cores
      && (nodes[i].op.Memory? ==> placed[nodes[i].id].partition == 0)
  }

  lemma SolvedOnGrid(blk: Block, placed: map<nat, Placement>)
    requires Solved(blk, placed) && blk.rows > 0 && blk.cols > 0
    ensures OnGrid(blk.nodes, placed, blk.rows * blk.cols)
  {
    CellBelow(0, 0, blk.rows, blk.cols);
    if !AllAtZero(blk.nodes, placed) {
      var s: seq<Placement>, latest: int :|
        latest <= TotalTime(blk.nodes) && Fits(blk, s, latest) && PlacedAs(blk.nodes, s, placed);
      forall i | 0 <= i < |blk.nodes|
        ensures 0 <= s[i].partition < blk.rows * blk.cols && (blk.nodes[i].op.Memory? ==> s[i].partition == 0)
      {
        assert NodeFits(blk, blk.nodes[i], s[i], latest);
      }
    }
  }

  /** `after` differs from `before` at the block's instructions only, and has all of them. */
  ghost predicate OnlyPlaces(nodes: seq<Node>, before: map<nat, Placement>, after: map<nat, Placement>) {
    && (forall id :: id in after <==> id in before || HasId(nodes, id))
    && (forall id :: id in before && !HasId(nodes, id) ==> after[id] == before[id])
  }

  class Partitioner {
    const rows: nat
    const cols: nat
    var placements: map<nat, Placement>

    constructor (rows: nat, cols: nat)
      ensures this.rows == rows && this.cols == cols && placements == map[]
    {
      this.rows := rows;
      this.cols := cols;
      placements := map[];
    }

    /** Adds the `i`-th placement of `s` for the `i`-th instruction. */
    method AddPlacements(graph: seq<Node>, s: seq<Placement>)
      requires |s| == |graph| && DistinctIds(graph)
      modifies `placements
      ensures OnlyPlaces(graph, old(placements), placements) && PlacedAs(graph, s, placements)
    {
      NonePlaced(graph, s, placements);
      hide OnlyPlaces, PlacedAs;
      for i := 0 to |graph|
        invariant OnlyPlaces(graph[..i], old(placements), placements) && PlacedAs(graph[..i], s[..i], placements)
      {
        OneMorePlaced(graph, i, old(placements), placements, s[i]);
        OneMorePlacedAs(graph, s, i, placements);
        placements := placements[graph[i].id := s[i]];
      }
      assert graph[..|graph|] == graph && s[..|s|] == s;
    }

    /** The constraints refer to the placements as they were before `previous` is taken over. */
    function BlockOf(graph: seq<Node>): Block
      reads this
    {
      Block(graph, placements, rows, cols)
    }

    method SolveDfg(previous: map<nat, Placement>, graph: seq<Node>, oracle: Oracle) returns (result: map<nat,
                    Placement>)
      requires DistinctIds(graph) && SoundOracle(oracle)
      modifies this
      ensures result == placements && OnlyPlaces(graph, previous, placements)
      ensures Decided(old(BlockOf(graph)), oracle, placements)
    {
      hide Fits, OnlyPlaces, PlacedAs, AllAtZero, DistinctIds, Decided, TotalTime;
      var blk := BlockOf(graph);
      placements := previous;
      var upperBound := SumTotalTime(graph);
      var zeros := seq(|graph|, i => Placement(0, 0, 0));
      if upperBound < 1 {
        AddPlacements(graph, zeros);
        ZerosAtZero(graph, zeros, placements);
        NoTimeIsDecided(blk, oracle, placements);
      } else {
        NothingBelowTime(blk);
        assert SoundUpTo(FitsFor(blk), Ask(oracle, blk));
        LoopFindsShortest(FitsFor(blk), 0, Ask(oracle, blk), 0, upperBound, None);
        var best := IncrementalSolveLoop(FitsFor(blk), 0, Ask(oracle, blk), 0, upperBound, None);
        match best {
          case Some(m) =>
            SizeOfFit(blk, m.schedule, m.latest);
            AddPlacements(graph, m.schedule);
            FoundIsDecided(blk, oracle, m, placements);
          case None =>
            AddPlacements(graph, zeros);
            ZerosAtZero(graph, zeros, placements);
            NoneIsDecided(blk, oracle, placements);
        }
      }
      result := placements;
    }

    /** All blocks in turn, each from the placements the one before left. */
    method SolveBlocks(graphs: seq<seq<Node>>, oracle: Oracle) returns (result: map<nat, Placement>)
      requires rows > 0 && cols > 0 && placements == map[] && SoundOracle(oracle) && GraphsApart(graphs)
      modifies this
      ensures result == placements
      ensures forall b :: 0 <= b < |graphs| ==> OnGrid(graphs[b], placements, rows * cols)
      ensures forall id :: id in placements ==> exists b :: 0 <= b < |graphs| && HasId(graphs[b], id)
      // what was decided for each block, given the blocks before it
      ensures forall b :: 0 <= b < |graphs| ==>
        Decided(Block(graphs[b], PlacedBefore(graphs, b, placements), rows, cols), oracle, placements)
    {
      hide Decided, Solved, SolvedBest, SoundOracle, OnGrid, HasId, OnlyPlaces, GraphsApart;
      result := map[];
      for n := 0 to |graphs|
        invariant result == placements && PlacedBefore(graphs, n, placements) == placements
        invariant forall b :: 0 <= b < n ==> OnGrid(graphs[b], placements, rows * cols)
        invariant forall b :: 0 <= b < n ==>
          Decided(Block(graphs[b], PlacedBefore(graphs, b, placements), rows, cols), oracle, placements)
      {
        ghost var before := placements;
        ghost var blk := BlockOf(graphs[n]);
        ApartFrom(graphs, n);
        result := SolveDfg(result, graphs[n], oracle);
        DecidedIsSolved(blk, oracle, placements);
        SolvedOnGrid(blk, placements);
        OneMoreBlock(graphs, n, before, placements);
        forall b | 0 <= b < n
          ensures OnGrid(graphs[b], placements, rows * cols)
          ensures Decided(Block(graphs[b], PlacedBefore(graphs, b, placements), rows, cols), oracle, placements)
        {
          OthersStay(graphs[b], graphs[n], before, placements, rows * cols);
          OthersDecided(graphs, b, n, rows, cols, oracle, before, placements);
        }
      }
      forall id | id in placements ensures exists b :: 0 <= b < |graphs| && HasId(graphs[b], id) {
        assert id in PlacedBefore(graphs, |graphs|, placements);
      }
    }
  }

  /** Each instruction stands once in one block. */
  ghost predicate GraphsApart(graphs: seq<seq<Node>>) {
    && (forall b :: 0 <= b < |graphs| ==> DistinctIds(graphs[b]))
    && (forall b, c :: 0 <= b < c < |graphs| ==> NoneShared(graphs[b], graphs[c]))
  }

  ghost predicate NoneShared(nodes: seq<Node>, others: seq<Node>) {
    forall i, j :: 0 <= i < |nodes| && 0 <= j < |others| ==> nodes[i].id != others[j].id
  }

  lemma OthersStay(nodes: seq<Node>, added: seq<Node>, before: map<nat, Placement>, after: map<nat, Placement>,
                   cores: nat)
    requires NoneShared(nodes, added) && OnlyPlaces(added, before, after) && OnGrid(nodes, before, cores)
    ensures OnGrid(nodes, after, cores)
  {
    forall i | 0 <= i < |nodes| ensures nodes[i].id in after && after[nodes[i].id] == before[nodes[i].id] {
      assert !HasId(added, nodes[i].id);
    }
  }

  /** The placements of the first `n` blocks. */
  ghost function PlacedBefore(graphs: seq<seq<Node>>, n: nat, placed: map<nat, Placement>): map<nat, Placement>
    requires n <= |graphs|
  {
    map id | id in placed && (exists b :: 0 <= b < n && HasId(graphs[b], id)) :: placed[id]
  }

  lemma ApartFrom(graphs: seq<seq<Node>>, n: nat)
    requires GraphsApart(graphs) && n < |graphs|
    ensures DistinctIds(graphs[n]) && forall b :: 0 <= b < |graphs| && b != n ==> NoneShared(graphs[b], graphs[n])
  {
    hide DistinctIds;
    forall b | n < b < |graphs| ensures NoneShared(graphs[b], graphs[n]) {
      assert NoneShared(graphs[n], graphs[b]);
    }
  }

  lemma NotShared(nodes: seq<Node>, others: seq<Node>, id: nat)
    requires NoneShared(nodes, others) && HasId(nodes, id)
    ensures !HasId(others, id)
  {
  }

  /** Placing block `n` leaves the placements of the blocks before it. */
  lemma OneMoreBlock(graphs: seq<seq<Node>>, n: nat, before: map<nat, Placement>, after: map<nat, Placement>)
    requires n < |graphs| && (forall b :: 0 <= b < n ==> NoneShared(graphs[b], graphs[n]))
    requires OnlyPlaces(graphs[n], before, after) && PlacedBefore(graphs, n, before) == before
    ensures PlacedBefore(graphs, n, after) == before && PlacedBefore(graphs, n + 1, after) == after
    ensures forall b :: 0 <= b <= n ==> PlacedBefore(graphs, b, after) == PlacedBefore(graphs, b, before)
  {
    hide HasId, NoneShared;
    forall b, id | 0 <= b < n && HasId(graphs[b], id) ensures !HasId(graphs[n], id) {
      NotShared(graphs[b], graphs[n], id);
    }
    forall b | 0 <= b <= n ensures PlacedBefore(graphs, b, after) == PlacedBefore(graphs, b, before) {}
    forall id | id in after ensures exists b :: 0 <= b < n + 1 && HasId(graphs[b], id) {
      if id in before {
        assert id in PlacedBefore(graphs, n, before);
      } else {
        assert HasId(graphs[n], id);
      }
    }
  }

  /** What is decided of a block depends on the placements of its own instructions only. */
  lemma DecidedElsewhere(blk: Block, oracle: Oracle, placed: map<nat, Placement>, placed': map<nat, Placement>)
    requires Decided(blk, oracle, placed)
    requires forall i :: 0 <= i < |blk.nodes| && blk.nodes[i].id in placed ==>
      blk.nodes[i].id in placed' && placed'[blk.nodes[i].id] == placed[blk.nodes[i].id]
    ensures Decided(blk, oracle, placed')
  {
    hide Fits, TotalTime;
    assert AllAtZero(blk.nodes, placed) ==> AllAtZero(blk.nodes, placed');
    forall s | PlacedAs(blk.nodes, s, placed) ensures PlacedAs(blk.nodes, s, placed') {}
    hide AllAtZero, PlacedAs;
  }

  lemma OthersDecided(graphs: seq<seq<Node>>, b: nat, n: nat, rows: nat, cols: nat, oracle: Oracle,
                      before: map<nat, Placement>, after: map<nat, Placement>)
    requires b < n < |graphs| && NoneShared(graphs[b], graphs[n]) && OnlyPlaces(graphs[n], before, after)
    requires PlacedBefore(graphs, b, after) == PlacedBefore(graphs, b, before)
    requires Decided(Block(graphs[b], PlacedBefore(graphs, b, before), rows, cols), oracle, before)
    ensures Decided(Block(graphs[b], PlacedBefore(graphs, b, after), rows, cols), oracle, after)
  {
    hide Decided, PlacedBefore;
    forall i | 0 <= i < |graphs[b]| && graphs[b][i].id in before
      ensures graphs[b][i].id in after && after[graphs[b][i].id] == before[graphs[b][i].id]
    {
      assert HasId(graphs[b], graphs[b][i].id);
      NotShared(graphs[b], graphs[n], graphs[b][i].id);
    }
    DecidedElsewhere(Block(graphs[b], PlacedBefore(graphs, b, before), rows, cols), oracle, before, after);
  }

  lemma NonePlaced(graph: seq<Node>, s: seq<Placement>, placed: map<nat, Placement>)
    ensures OnlyPlaces(graph[..0], placed, placed) && PlacedAs(graph[..0], s[..0], placed)
  {
  }

  lemma OneMorePlacedAs(graph: seq<Node>, s: seq<Placement>, i: nat, placed: map<nat, Placement>)
    requires i < |graph| == |s| && DistinctIds(graph) && PlacedAs(graph[..i], s[..i], placed)
    ensures PlacedAs(graph[..i + 1], s[..i + 1], placed[graph[i].id := s[i]])
  {
    assert forall k :: 0 <= k < i ==> graph[..i + 1][k] == graph[..i][k] && s[..i + 1][k] == s[..i][k];
  }

  lemma OneMorePlaced(graph: seq<Node>, i: nat, start: map<nat, Placement>, before: map<nat, Placement>, p: Placement)
    requires i < |graph| && DistinctIds(graph) && OnlyPlaces(graph[..i], start, before)
    ensures OnlyPlaces(graph[..i + 1], start, before[graph[i].id := p])
  {
    forall id ensures HasId(graph[..i + 1], id) <==> HasId(graph[..i], id) || id == graph[i].id {
      if HasId(graph[..i], id) {
        var k :| 0 <= k < i && graph[..i][k].id == id;
        assert graph[..i + 1][k].id == id;
      }
      if HasId(graph[..i + 1], id) && id != graph[i].id {
        var k :| 0 <= k < i + 1 && graph[..i + 1][k].id == id;
        assert graph[..i][k].id == id;
      }
      if id == graph[i].id {
        assert graph[..i + 1][i].id == id;
      }
    }
  }

  lemma ZerosAtZero(nodes: seq<Node>, zeros: seq<Placement>, placed: map<nat, Placement>)
    requires PlacedAs(nodes, zeros, placed) && forall i :: 0 <= i < |zeros| ==> zeros[i] == Placement(0, 0, 0)
    ensures AllAtZero(nodes, placed)
  {
  }

  lemma NothingBelowTime(blk: Block)
    requires TotalTime(blk.nodes) >= 1
    ensures AtLeast(FitsFor(blk), 0)
  {
    NothingBelowZero(blk);
  }

  lemma NoTimeIsDecided(blk: Block, oracle: Oracle, placed: map<nat, Placement>)
    requires AllAtZero(blk.nodes, placed) && TotalTime(blk.nodes) < 1
    ensures Decided(blk, oracle, placed)
  {
    hide AllAtZero, TotalTime;
  }

  lemma FoundIsDecided(blk: Block, oracle: Oracle, m: Model<seq<Placement>>, placed: map<nat, Placement>)
    requires Fits(blk, m.schedule, m.latest) && m.latest <= TotalTime(blk.nodes)
    requires TotalTime(blk.nodes) >= 1 && oracle(blk, 0, TotalTime(blk.nodes)).Some?
    requires PlacedAs(blk.nodes, m.schedule, placed) && IsAnswer(Ask(oracle, blk), Some(m))
    requires CompleteUpTo(FitsFor(blk), Ask(oracle, blk)) ==> Within(FitsFor(blk), m.latest, 0)
    ensures Decided(blk, oracle, placed)
  {
    hide Fits, PlacedAs, TotalTime, CompleteUpTo, Within;
    var n: nat, goal :| Ask(oracle, blk)(n, goal) == Some(m);
    assert oracle(blk, n, goal) == Some(m);
    assert AsAnswered(blk, oracle, placed);
    assert FoundInTime(blk, placed);
  }

  lemma NoneIsDecided(blk: Block, oracle: Oracle, placed: map<nat, Placement>)
    requires AllAtZero(blk.nodes, placed) && oracle(blk, 0, TotalTime(blk.nodes)).None?
    requires CompleteUpTo(FitsFor(blk), Ask(oracle, blk)) ==>
      Within(FitsFor(blk), TotalTime(blk.nodes) + 1, 0)
    ensures Decided(blk, oracle, placed)
  {
    hide Fits, TotalTime, AllAtZero;
    if CompleteUpTo(FitsFor(blk), Ask(oracle, blk)) {
      forall s, latest | Fits(blk, s, latest) ensures latest > TotalTime(blk.nodes) {
        assert FitsFor(blk)(s, latest);
      }
    }
  }

  lemma SizeOfFit(blk: Block, s: seq<Placement>, latest: int)
    requires Fits(blk, s, latest)
    ensures |s| == |blk.nodes|
  {
  }
}
