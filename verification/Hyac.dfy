/**
 The compiler driver: every block of the function is partitioned, then the function is
 emitted for the cores that came out.
 */
module Hyac {
  import opened Common
  import opened Source
  import opened Target
  import opened Correspondence
  import opened Demand
  import opened Passes
  import opened BlockOrder
  import opened CostModel
  import opened Emitter
  import Schedule
  import Partition

  /** What the partitioner looks at in an instruction beyond its operands. */
  datatype Kind = Kind(op: Opcode, pointer: bool)

  type Kinds = Id -> Kind

  function UseOf(kinds: Kinds, op: Operand): Schedule.Use {
    match op
    case Const(_) => Schedule.Free
    case Arg(_) => Schedule.Free
    case Ref(id) => Schedule.Of(id, kinds(id).pointer)
  }

  function PhiNode(phi: Source.Phi): Schedule.Node {
    Schedule.Node(phi.id, Opcode.Phi, [], false)
  }

  function BodyNode(kinds: Kinds, inst: Inst): Schedule.Node {
    var uses := seq(|inst.args|, k requires 0 <= k < |inst.args| => UseOf(kinds, inst.args[k]));
    Schedule.Node(inst.id, kinds(inst.id).op, uses, inst.mem)
  }

  function ReturnNodes(kinds: Kinds, term: Term): seq<Schedule.Node> {
    match term
    case Ret(id, value) =>
      [Schedule.Node(id, Opcode.Ret, if value.Some? then [UseOf(kinds, value.value)] else [], false)]
    case _ => []
  }

  /** The instructions of a block that are partitioned: all but its branch. */
  function IncludedInstrs(kinds: Kinds, blk: Block): seq<Schedule.Node> {
    seq(|blk.phis|, k requires 0 <= k < |blk.phis| => PhiNode(blk.phis[k]))
    + seq(|blk.body|, k requires 0 <= k < |blk.body| => BodyNode(kinds, blk.body[k]))
    + ReturnNodes(kinds, blk.term)
  }

  function InstrsPerBlock(kinds: Kinds, fn: Function): (r: seq<seq<Schedule.Node>>)
    ensures |r| == |fn.blocks|
  {
    seq(|fn.blocks|, b requires 0 <= b < |fn.blocks| => IncludedInstrs(kinds, fn.blocks[b]))
  }

  /** A return has a name of its own. */
  ghost predicate ReturnsApart(fn: Function) {
    && (forall b, c :: 0 <= b < c < |fn.blocks| && fn.blocks[b].term.Ret? && fn.blocks[c].term.Ret? ==>
          fn.blocks[b].term.id != fn.blocks[c].term.id)
    && (forall b, c: BlockId :: 0 <= b < |fn.blocks| && c < |fn.blocks| && fn.blocks[b].term.Ret? ==>
          !Defines(fn.blocks[c], fn.blocks[b].term.id))
  }

  /** Memory operations are loads and stores. */
  ghost predicate KindsFit(fn: Function, kinds: Kinds) {
    forall b, k :: 0 <= b < |fn.blocks| && 0 <= k < |fn.blocks[b].body| && fn.blocks[b].body[k].mem ==>
      kinds(fn.blocks[b].body[k].id).op == Memory
  }

  /**
   What the partitioner is told of an instruction: its name, its opcode, whether it is a
   load or a store, and of each operand whether it is an instruction, which, and if it is a pointer.
   */
  predicate Describes(kinds: Kinds, node: Schedule.Node, id: Id, op: Opcode, args: seq<Operand>, mem: bool) {
    && node.id == id && node.op == op && node.memory == mem
    && |node.uses| == |args|
    && forall j :: 0 <= j < |args| ==>
         && (node.uses[j].Of? <==> args[j].Ref?) && (!args[j].Ref? ==> node.uses[j] == Schedule.Free)
         && (args[j].Ref? ==> node.uses[j].id == args[j].id && node.uses[j].pointer == kinds(args[j].id).pointer)
  }

  /** The nodes stand for the block's phis, its other instructions and its return, in order. */
  predicate DescribesBlock(kinds: Kinds, blk: Block, nodes: seq<Schedule.Node>) {
    && |nodes| == |blk.phis| + |blk.body| + (if blk.term.Ret? then 1 else 0)
    && (forall k :: 0 <= k < |blk.phis| ==>
          Describes(kinds, nodes[k], blk.phis[k].id, Opcode.Phi, [], false))
    && (forall k {:trigger blk.body[k]} :: 0 <= k < |blk.body| ==>
          var inst := blk.body[k];
          Describes(kinds, nodes[|blk.phis| + k], inst.id, kinds(inst.id).op, inst.args, inst.mem))
    && (blk.term.Ret? ==>
          var returned := if blk.term.value.Some? then [blk.term.value.value] else [];
          Describes(kinds, nodes[|blk.phis| + |blk.body|], blk.term.id, Opcode.Ret, returned, false))
  }

  /** Each block of `fn` is placed as the solver's answers decide, given the blocks before it. */
  ghost predicate PlacedBySolver(fn: Function, kinds: Kinds, rows: nat, cols: nat, oracle: Partition.Oracle,
                                 placed: map<nat, Schedule.Placement>)
  {
    exists graphs: seq<seq<Schedule.Node>> :: DecidedFrom(fn, kinds, rows, cols, oracle, placed, graphs)
  }

  ghost predicate DecidedFrom(fn: Function, kinds: Kinds, rows: nat, cols: nat, oracle: Partition.Oracle,
                              placed: map<nat, Schedule.Placement>, graphs: seq<seq<Schedule.Node>>)
  {
    && |graphs| == |fn.blocks|
    && (forall b :: 0 <= b < |graphs| ==> DescribesBlock(kinds, fn.blocks[b], graphs[b]))
    && forall b :: 0 <= b < |graphs| ==>
         var before := Partition.PlacedBefore(graphs, b, placed);
         Partition.Decided(Partition.Block(graphs[b], before, rows, cols), oracle, placed)
  }

  function PlaceOf(placed: map<nat, Schedule.Placement>): map<Id, Part> {
    map id | id in placed :: placed[id].partition
  }

  // ---------- The blocks as the partitioner sees them ----------

  predicate Names(blk: Block, id: Id) {
    Defines(blk, id) || (blk.term.Ret? && blk.term.id == id)
  }

  /** Where each instruction of the block stands in the partitioner's list. */
  lemma Listing(kinds: Kinds, blk: Block)
    ensures var nodes := IncludedInstrs(kinds, blk);
      && |nodes| == |blk.phis| + |blk.body| + (if blk.term.Ret? then 1 else 0)
      && (forall k :: 0 <= k < |blk.phis| ==> nodes[k] == PhiNode(blk.phis[k]))
      && (forall k {:trigger blk.body[k]} :: 0 <= k < |blk.body| ==>
            nodes[|blk.phis| + k] == BodyNode(kinds, blk.body[k]))
      && (blk.term.Ret? ==> [nodes[|blk.phis| + |blk.body|]] == ReturnNodes(kinds, blk.term))
  {
    hide PhiNode, BodyNode;
  }

  /** The lists say of every instruction what the constraints are about. */
  lemma ListsDescribe(fn: Function, kinds: Kinds, b: nat)
    requires b < |fn.blocks|
    ensures DescribesBlock(kinds, fn.blocks[b], InstrsPerBlock(kinds, fn)[b])
  {
    var blk := fn.blocks[b];
    Listing(kinds, blk);
    hide IncludedInstrs;
    forall k | 0 <= k < |blk.body|
      ensures var inst := blk.body[k];
        Describes(kinds, BodyNode(kinds, inst), inst.id, kinds(inst.id).op, inst.args, inst.mem)
    {
    }
    hide Describes;
  }

  lemma ListedNames(kinds: Kinds, blk: Block, i: nat)
    requires i < |IncludedInstrs(kinds, blk)|
    ensures Names(blk, IncludedInstrs(kinds, blk)[i].id)
  {
    var nodes := IncludedInstrs(kinds, blk);
    Listing(kinds, blk);
    hide IncludedInstrs;
    if i < |blk.phis| {
      assert nodes[i].id == blk.phis[i].id;
      assert IsPhi(blk, nodes[i].id);
    } else if i < |blk.phis| + |blk.body| {
      var k := i - |blk.phis|;
      assert nodes[|blk.phis| + k].id == blk.body[k].id;
      assert InBody(blk, nodes[i].id);
    }
  }

  lemma OneName(fn: Function, b: nat, c: nat, id: Id)
    requires Shape(fn) && ReturnsApart(fn) && b < |fn.blocks| && c < |fn.blocks|
    requires Names(fn.blocks[b], id) && Names(fn.blocks[c], id)
    ensures b == c
  {
    hide BlockShape, IsPhi, InBody;
    if Defines(fn.blocks[b], id) && Defines(fn.blocks[c], id) {
      assert Defines(BlockAt(fn, b), id) && Defines(BlockAt(fn, c), id);
    }
  }

  lemma ListedOnce(fn: Function, kinds: Kinds, b: nat)
    requires Shape(fn) && ReturnsApart(fn) && b < |fn.blocks|
    ensures Schedule.DistinctIds(IncludedInstrs(kinds, fn.blocks[b]))
  {
    var blk := fn.blocks[b];
    var nodes := IncludedInstrs(kinds, blk);
    Listing(kinds, blk);
    IdsDiffer(fn, b);
    hide IncludedInstrs, Shape, ReturnsApart;
    forall i, j | 0 <= i < j < |nodes| ensures nodes[i].id != nodes[j].id {
      NodeId(kinds, blk, i);
      NodeId(kinds, blk, j);
      var m, n := |blk.phis|, |blk.body|;
      if i < m && m <= j < m + n {
        assert IsPhi(blk, blk.phis[i].id) && InBody(blk, blk.body[j - m].id);
      } else if i < m && j == m + n {
        assert IsPhi(blk, blk.phis[i].id);
      } else if m <= i < m + n && j == m + n {
        assert InBody(blk, blk.body[i - m].id);
      }
    }
  }

  lemma NodeId(kinds: Kinds, blk: Block, i: nat)
    requires i < |IncludedInstrs(kinds, blk)|
    ensures var id := IncludedInstrs(kinds, blk)[i].id; var m, n := |blk.phis|, |blk.body|;
      if i < m then id == blk.phis[i].id
      else if i < m + n then id == blk.body[i - m].id
      else blk.term.Ret? && i == m + n && id == blk.term.id
  {
    Listing(kinds, blk);
    if |blk.phis| <= i < |blk.phis| + |blk.body| {
      assert IncludedInstrs(kinds, blk)[|blk.phis| + (i - |blk.phis|)] == BodyNode(kinds, blk.body[i - |blk.phis|]);
    }
  }

  lemma IdsDiffer(fn: Function, b: nat)
    requires Shape(fn) && ReturnsApart(fn) && b < |fn.blocks|
    ensures var blk := fn.blocks[b];
      && (forall i, j :: 0 <= i < j < |blk.phis| ==> blk.phis[i].id != blk.phis[j].id)
      && (forall i, j :: 0 <= i < j < |blk.body| ==> blk.body[i].id != blk.body[j].id)
      && (forall id :: IsPhi(blk, id) ==> !InBody(blk, id))
      && (blk.term.Ret? ==> !IsPhi(blk, blk.term.id) && !InBody(blk, blk.term.id))
  {
    hide BlockShape;
    assert BlockAt(fn, b) == fn.blocks[b];
    if fn.blocks[b].term.Ret? {
      assert !Defines(fn.blocks[b], fn.blocks[b].term.id);
    }
  }

  lemma NamesListed(kinds: Kinds, blk: Block, id: Id)
    ensures Partition.HasId(IncludedInstrs(kinds, blk), id) <==> Names(blk, id)
  {
    var nodes := IncludedInstrs(kinds, blk);
    Listing(kinds, blk);
    if Partition.HasId(nodes, id) {
      var i :| 0 <= i < |nodes| && nodes[i].id == id;
      ListedNames(kinds, blk, i);
    }
    hide IncludedInstrs;
    if IsPhi(blk, id) {
      var k :| 0 <= k < |blk.phis| && blk.phis[k].id == id;
      assert nodes[k].id == id;
    } else if InBody(blk, id) {
      var k :| 0 <= k < |blk.body| && blk.body[k].id == id;
      assert nodes[|blk.phis| + k].id == id;
    } else if blk.term.Ret? && blk.term.id == id {
      assert nodes[|blk.phis| + |blk.body|].id == id;
    }
  }

  /** The lists hold exactly the instructions of their blocks but the branches, each once and in one list only. */
  lemma BlocksApart(fn: Function, kinds: Kinds)
    requires Shape(fn) && ReturnsApart(fn)
    ensures Partition.GraphsApart(InstrsPerBlock(kinds, fn))
    ensures forall b, id :: 0 <= b < |fn.blocks| ==>
      (Partition.HasId(InstrsPerBlock(kinds, fn)[b], id) <==> Names(fn.blocks[b], id))
  {
    forall b, id | 0 <= b < |fn.blocks|
      ensures Partition.HasId(InstrsPerBlock(kinds, fn)[b], id) <==> Names(fn.blocks[b], id)
    {
      NamesListed(kinds, fn.blocks[b], id);
    }
    hide Shape, ReturnsApart, IncludedInstrs, Schedule.DistinctIds, Names;
    var graphs := InstrsPerBlock(kinds, fn);
    forall b | 0 <= b < |graphs| ensures Schedule.DistinctIds(graphs[b]) {
      ListedOnce(fn, kinds, b);
    }
    forall b, c | 0 <= b < c < |graphs| ensures Partition.NoneShared(graphs[b], graphs[c]) {
      forall i, j | 0 <= i < |graphs[b]| && 0 <= j < |graphs[c]| ensures graphs[b][i].id != graphs[c][j].id {
        ListedNames(kinds, fn.blocks[b], i);
        ListedNames(kinds, fn.blocks[c], j);
        if graphs[b][i].id == graphs[c][j].id {
          OneName(fn, b, c, graphs[b][i].id);
        }
      }
    }
  }

  // ---------- What partitioning gives emission ----------

  lemma PartitionedBlock(kinds: Kinds, blk: Block, placed: map<nat, Schedule.Placement>, cores: nat)
    requires Partition.OnGrid(IncludedInstrs(kinds, blk), placed, cores)
    ensures BlockPlaced(blk, PlaceOf(placed))
    ensures forall k :: 0 <= k < |blk.body| && kinds(blk.body[k].id).op.Memory? ==> PlaceOf(placed)[blk.body[k].id] == 0
  {
    var nodes := IncludedInstrs(kinds, blk);
    Listing(kinds, blk);
    hide IncludedInstrs;
    forall k | 0 <= k < |blk.phis| ensures blk.phis[k].id in placed {
      assert nodes[k].id == blk.phis[k].id;
    }
    forall k | 0 <= k < |blk.body|
      ensures blk.body[k].id in placed && (kinds(blk.body[k].id).op.Memory? ==> placed[blk.body[k].id].partition == 0)
    {
      assert nodes[|blk.phis| + k] == BodyNode(kinds, blk.body[k]);
    }
  }

  /**
   The partitioner gives emission all it needs: a core of the grid for every instruction,
   core 0 for memory operations, and nothing else.
   */
  lemma PartitionedFunction(fn: Function, kinds: Kinds, placed: map<nat, Schedule.Placement>, cores: nat)
    requires KindsFit(fn, kinds)
    requires forall b :: 0 <= b < |fn.blocks| ==> Partition.OnGrid(InstrsPerBlock(kinds, fn)[b], placed, cores)
    requires forall id :: id in placed ==>
      exists b :: 0 <= b < |fn.blocks| && Partition.HasId(InstrsPerBlock(kinds, fn)[b], id)
    ensures FullyPlaced(fn, PlaceOf(placed)) && MemoryOnCoreZero(fn, PlaceOf(placed))
    ensures forall id :: id in placed ==> IsInstruction(fn, id) && 0 <= PlaceOf(placed)[id] < cores
  {
    hide IncludedInstrs, BlockPlaced, Partition.OnGrid, Defines;
    forall b | 0 <= b < |fn.blocks|
      ensures BlockPlaced(fn.blocks[b], PlaceOf(placed))
      ensures forall k ::
        0 <= k < |fn.blocks[b].body| && fn.blocks[b].body[k].mem && fn.blocks[b].body[k].id in placed ==>
        PlaceOf(placed)[fn.blocks[b].body[k].id] == 0
    {
      assert InstrsPerBlock(kinds, fn)[b] == IncludedInstrs(kinds, fn.blocks[b]);
      PartitionedBlock(kinds, fn.blocks[b], placed, cores);
    }
    forall id | id in placed ensures IsInstruction(fn, id) && 0 <= PlaceOf(placed)[id] < cores {
      var b :| 0 <= b < |fn.blocks| && Partition.HasId(InstrsPerBlock(kinds, fn)[b], id);
      InstructionOnGrid(kinds, fn.blocks[b], placed, cores, id);
    }
  }

  lemma InstructionOnGrid(kinds: Kinds, blk: Block, placed: map<nat, Schedule.Placement>, cores: nat, id: Id)
    requires Partition.OnGrid(IncludedInstrs(kinds, blk), placed, cores)
    requires Partition.HasId(IncludedInstrs(kinds, blk), id)
    ensures Names(blk, id) && id in placed && 0 <= placed[id].partition < cores
  {
    var nodes := IncludedInstrs(kinds, blk);
    var i :| 0 <= i < |nodes| && nodes[i].id == id;
    ListedNames(kinds, blk, i);
    hide IncludedInstrs, Names;
  }

  /** Placed are the function's instructions but the branches. */
  lemma InstructionsPlaced(fn: Function, place: Placement)
    requires FullyPlaced(fn, place) && forall id :: id in place ==> IsInstruction(fn, id)
    ensures forall id :: id in place <==> IsInstruction(fn, id)
  {
    forall b, id | 0 <= b < |fn.blocks| && Names(fn.blocks[b], id) ensures id in place {
      assert BlockPlaced(fn.blocks[b], place);
    }
  }

  /**
   The whole way from a function to its clones. The cores are those the solver's answers
   decide; and whatever these are, the result is a faithful partitioning for exactly these
   cores, all of the grid and all launched, with no more clones and mailboxes than it takes.
   */
  method Compile(fn: Function, kinds: Kinds, rows: nat, cols: nat, oracle: Partition.Oracle)
    returns (r: Result<Target>, launched: set<Part>, ghost placed: map<nat, Schedule.Placement>,
             ghost place: map<Id, Part>, ghost plan: Plan)
    requires Shape(fn) && UsesDominated(fn) && ReturnsApart(fn) && KindsFit(fn, kinds)
    requires rows > 0 && cols > 0 && Partition.SoundOracle(oracle)
    ensures PlacedBySolver(fn, kinds, rows, cols, oracle, placed) && place == PlaceOf(placed)
    ensures forall id :: id in place <==> IsInstruction(fn, id)
    ensures r.Success? <==>
      (forall b :: 0 <= b < |fn.blocks| ==> Reachable(GraphOf(fn), b)) && ReturnsSendable(fn) && BranchesOnCores(fn)
    ensures r.Success? ==> Translates(fn, place, r.value, plan) && Exact(fn, place, r.value, plan)
    ensures r.Success? && place != map[] ==> (Implements(fn, place, r.value, plan) <==> RepeatsLocal(fn, place))
    ensures r.Success? && place != map[] && PredecessorsOnce(fn) ==> Implements(fn, place, r.value, plan)
    ensures r.Success? ==> Ascending(r.value.parts) && forall p :: p in r.value.parts <==> p in place.Values
    ensures r.Success? ==> forall p :: p in r.value.parts ==> 0 <= p < rows * cols && p in launched
  {
    hide Shape, UsesDominated, ReturnsApart, KindsFit, Partition.Decided;
    hide Partition.SoundOracle, Partition.OnGrid, Partition.GraphsApart, Partition.HasId, Partition.PlacedBefore;
    hide Implements, Reachable, GraphOf, BranchesOnCores, FullyPlaced, MemoryOnCoreZero, IsInstruction, InstrsPerBlock;
    hide RepeatsLocal, PredecessorsOnce, ReturnsSendable, Translates, Exact, DescribesBlock, Ascending;
    BlocksApart(fn, kinds);
    var partitioner := new Partition.Partitioner(rows, cols);
    var solved := partitioner.SolveBlocks(InstrsPerBlock(kinds, fn), oracle);
    placed := solved;
    forall b | 0 <= b < |fn.blocks| ensures DescribesBlock(kinds, fn.blocks[b], InstrsPerBlock(kinds, fn)[b]) {
      ListsDescribe(fn, kinds, b);
    }
    assert DecidedFrom(fn, kinds, rows, cols, oracle, placed, InstrsPerBlock(kinds, fn));
    PartitionedFunction(fn, kinds, placed, rows * cols);
    var chosen := PlaceOf(solved);
    InstructionsPlaced(fn, chosen);
    r, launched, plan := EmitLlvm(fn, chosen);
    if PredecessorsOnce(fn) {
      OnceIsLocal(fn, chosen);
    }
    place := chosen;
    if r.Success? {
      GraphSize(fn);
      forall p | p in r.value.parts ensures 0 <= p < rows * cols && p in launched {
        assert p in chosen.Values;
        var id :| id in chosen && chosen[id] == p;
      }
    }
  }

  /** `return 0`. */
  const RETURN_ZERO := Function(0, true, [Block([], [], Term.Ret(0, Some(Const(0))))])

  lemma ReturnZeroIsProper(kinds: Kinds)
    ensures Shape(RETURN_ZERO) && UsesDominated(RETURN_ZERO) && ReturnsApart(RETURN_ZERO)
    ensures KindsFit(RETURN_ZERO, kinds)
    ensures !ReturnsSendable(RETURN_ZERO)
  {
    assert !CanBeSent(RETURN_ZERO.blocks[0].term);
    hide ReturnsSendable;
    ReturnZeroShape();
    hide Shape;
  }

  lemma ReturnZeroShape()
    ensures Shape(RETURN_ZERO)
  {
    assert forall b :: BlockAt(RETURN_ZERO, b).phis == [] && BlockAt(RETURN_ZERO, b).body == [];
    assert UniqueIds(RETURN_ZERO);
    hide UniqueIds;
    assert BlockShape(RETURN_ZERO, 0);
  }

  /** A function that returns a constant is in order, and cannot be compiled. */
  method ReturnZeroFails(kinds: Kinds, rows: nat, cols: nat, oracle: Partition.Oracle) returns (r: Result<Target>)
    requires rows > 0 && cols > 0 && Partition.SoundOracle(oracle)
    ensures Shape(RETURN_ZERO) && UsesDominated(RETURN_ZERO) && r == Failure
  {
    hide Shape, UsesDominated, ReturnsApart, KindsFit, ReturnsSendable, Partition.SoundOracle;
    ReturnZeroIsProper(kinds);
    var launched;
    ghost var placed, place, plan;
    r, launched, placed, place, plan := Compile(RETURN_ZERO, kinds, rows, cols, oracle);
  }
}
