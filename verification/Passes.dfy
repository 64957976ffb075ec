/**
 What the three passes of an emission establish block by block, how it survives later
 appends, and why an operand can be read wherever it is used.
 */
module Passes {
  import opened Source
  import opened SourceRun
  import opened Target
  import opened Projection
  import opened Correspondence
  import opened Demand
  import opened Emission
  import opened BlockOrder

  // ---------- What the passes establish, block by block ----------

  /** `id` can be read at the end of the clones of block `b`. */
  predicate Available(i: Input, e: Emitted, b: BlockId, id: Id) {
    && id in e.mapped && id in i.place && i.place[id] in i.parts
    && (InBody(BlockAt(i.fn, b), id) ==> id in Clones(Have(e, i.place[id], b)))
  }

  predicate Operable(i: Input, e: Emitted, b: BlockId, op: Operand) {
    op.Ref? ==> Available(i, e, b, op.id)
  }

  /** The first `k` body instructions of block `b` have their clones, in order and each once. */
  ghost predicate BodyEmitted(i: Input, e: Emitted, b: BlockId, k: nat) {
    var body := BlockAt(i.fn, b).body;
    && k <= |body|
    && (forall j :: 0 <= j < k ==> body[j].id in i.place && body[j].id in Clones(Have(e, i.place[body[j].id], b)))
    && MemClones(Have(e, 0, b)) == MemBefore(body, k)
    && (forall p :: ClonedIds(Have(e, p, b)) == PlacedOn(body[..k], i.place, p))
  }

  ghost predicate OpenBlock(i: Input, e: Emitted, b: BlockId) {
    forall p :: p in i.parts ==> Free(Have(e, p, b))
  }

  ghost predicate ClosedBlock(i: Input, e: Emitted, b: BlockId) {
    forall p :: p in i.parts ==> Terminated(Have(e, p, b))
  }

  ghost predicate PhisCreated(i: Input, e: Emitted, b: BlockId) {
    forall p :: p in i.parts ==> (p, b) in e.phiOrder && e.phiOrder[(p, b)] == PhisOn(BlockAt(i.fn, b).phis, i.place, p)
  }

  ghost predicate PhisEmpty(i: Input, e: Emitted, b: BlockId) {
    var phis := BlockAt(i.fn, b).phis;
    forall k :: 0 <= k < |phis| ==> phis[k].id in e.incoming && e.incoming[phis[k].id] == []
  }

  /** Every return of a value has its one send. */
  ghost predicate ReturnEmitted(i: Input, e: Emitted, b: BlockId) {
    var term := BlockAt(i.fn, b).term;
    term.Ret? && term.value.Some? ==> term.id in i.place && Returns(Have(e, i.place[term.id], b)) == 1
  }

  /** All of block `b` but its terminators. */
  ghost predicate Built(i: Input, e: Emitted, b: BlockId) {
    var blk := BlockAt(i.fn, b);
    && BodyEmitted(i, e, b, |blk.body|)
    && PhisCreated(i, e, b)
    && (forall id :: Defines(blk, id) ==> id in e.mapped)
    && ReturnEmitted(i, e, b)
  }

  /** Block `b` after the first pass. */
  ghost predicate BlockEmitted(i: Input, e: Emitted, b: BlockId) {
    && Built(i, e, b)
    && (if BlockAt(i.fn, b).term.Ret? then ClosedBlock(i, e, b) else OpenBlock(i, e, b))
  }

  /** Entry `j` of a phi on core `p` has been repaired. */
  predicate EntryFilled(i: Input, e: Emitted, p: Part, src: (BlockId, Operand), t: (BlockId, TOp)) {
    t.0 == src.0 && OperandOk(i.place, PlanOf(e), BlockAt(i.fn, src.0), p, Have(e, p, src.0), src.1, t.1)
  }

  ghost predicate EntriesFilled(i: Input, e: Emitted, p: Part, src: seq<(BlockId, Operand)>, ts: seq<(BlockId, TOp)>) {
    && |ts| == |src|
    && (forall j :: 0 <= j < |src| ==> EntryFilled(i, e, p, src[j], ts[j]))
    && (forall j :: 0 <= j < |src| ==> SourceOf(i, p, src[j].1, ts[j].1))
    && OwnMailboxes(ts)
  }

  /** A value of the phi's own core is read there, any other through a mailbox. */
  predicate SourceOf(i: Input, p: Part, op: Operand, t: TOp) {
    op.Ref? ==> op.id in i.place && (if i.place[op.id] == p then t == TReg(InstR(op.id)) else FromMailbox(t))
  }

  predicate FromMailbox(t: TOp) {
    t.TReg? && t.reg.ChanR?
  }

  /** No two entries share a mailbox. */
  predicate OwnMailboxes(ts: seq<(BlockId, TOp)>) {
    forall j, k :: 0 <= j < k < |ts| && FromMailbox(ts[j].1) ==> ts[j].1 != ts[k].1
  }

  predicate MailboxesBelow(ts: seq<(BlockId, TOp)>, bound: nat) {
    forall j :: 0 <= j < |ts| && FromMailbox(ts[j].1) ==> ts[j].1.reg.chan < bound
  }

  /** Block `b` after the second pass. */
  ghost predicate PhisFilled(i: Input, e: Emitted, b: BlockId) {
    var phis := BlockAt(i.fn, b).phis;
    forall k :: 0 <= k < |phis| ==>
      phis[k].id in i.place && phis[k].id in e.incoming
      && EntriesFilled(i, e, i.place[phis[k].id], phis[k].incoming, e.incoming[phis[k].id])
  }

  // ---------- How these survive later appends ----------

  lemma BodyStays(i: Input, e: Emitted, e': Emitted, blocks: set<BlockId>, b: BlockId, k: nat)
    requires OnlyTraffic(e, e', blocks) && BodyEmitted(i, e, b, k)
    ensures BodyEmitted(i, e', b, k)
  {
    hide Grows, Have, Clones, ClonedIds, MemClones;
    assert forall q :: SameWork(Have(e, q, b), Have(e', q, b));
  }

  lemma BlockStays(i: Input, e: Emitted, e': Emitted, blocks: set<BlockId>, b: BlockId)
    requires OnlyTraffic(e, e', blocks) && BlockEmitted(i, e, b)
    requires BlockAt(i.fn, b).term.Ret? ==> b !in blocks
    ensures BlockEmitted(i, e', b)
  {
    hide Grows, Have, Clones, ClonedIds, MemClones, Returns, Terminated, Free, BodyEmitted;
    BodyStays(i, e, e', blocks, b, |BlockAt(i.fn, b).body|);
    assert forall q :: SameWork(Have(e, q, b), Have(e', q, b));
    if BlockAt(i.fn, b).term.Ret? {
      forall q ensures Have(e', q, b) == Have(e, q, b) { SameLogSameCode(e, e', q, b); }
    } else {
      OpenStays(i, e, e', blocks, b);
    }
  }

  lemma OpenStays(i: Input, e: Emitted, e': Emitted, blocks: set<BlockId>, b: BlockId)
    requires OnlyTraffic(e, e', blocks) && OpenBlock(i, e, b)
    ensures OpenBlock(i, e', b)
  {
    hide Grows, Have, Clones, ClonedIds, MemClones, Returns;
    assert forall q :: SameWork(Have(e, q, b), Have(e', q, b));
  }

  lemma AvailableStays(i: Input, e: Emitted, e': Emitted, b: BlockId, op: Operand)
    requires Grows(e, e') && Operable(i, e, b, op)
    ensures Operable(i, e', b, op)
  {
    if op.Ref? {
      HaveGrows(e, e', i.place[op.id], b);
    }
  }

  lemma EntriesStay(i: Input, e: Emitted, e': Emitted, p: Part, src: seq<(BlockId, Operand)>, ts: seq<(BlockId, TOp)>)
    requires Grows(e, e') && EntriesFilled(i, e, p, src, ts)
    ensures EntriesFilled(i, e', p, src, ts)
  {
    hide Grows, Have, OperandOk, SourceOf, OwnMailboxes;
    forall j | 0 <= j < |src| ensures EntryFilled(i, e', p, src[j], ts[j]) {
      assert EntryFilled(i, e, p, src[j], ts[j]);
      OperandStays(i, e, e', p, src[j].0, src[j].1, ts[j].1);
    }
  }

  lemma PhisStay(i: Input, e: Emitted, e': Emitted, b: BlockId)
    requires Grows(e, e') && PhisFilled(i, e, b)
    requires forall id :: id in e.incoming && IsPhi(BlockAt(i.fn, b), id) ==>
      id in e'.incoming && e'.incoming[id] == e.incoming[id]
    ensures PhisFilled(i, e', b)
  {
    hide Grows, EntriesFilled;
    var phis := BlockAt(i.fn, b).phis;
    forall k | 0 <= k < |phis|
      ensures phis[k].id in e'.incoming
      ensures EntriesFilled(i, e', i.place[phis[k].id], phis[k].incoming, e'.incoming[phis[k].id])
    {
      assert IsPhi(BlockAt(i.fn, b), phis[k].id);
      EntriesStay(i, e, e', i.place[phis[k].id], phis[k].incoming, e.incoming[phis[k].id]);
    }
  }

  lemma InParts(i: Input, e: Emitted, p: Part)
    requires EmitOk(i, e) && p in i.parts
    ensures p in e.prologue
  {
    hide LogOk;
  }

  /** Appending the clone of body instruction `k` after its operands extends the emitted body. */
  lemma CloneAppended(i: Input, e: Emitted, b: BlockId, k: nat, args: seq<TOp>)
    requires EmitOk(i, e) && b < |i.fn.blocks| && k < |BlockAt(i.fn, b).body|
    requires BodyEmitted(i, e, b, k) && OpenBlock(i, e, b)
    requires var inst := BlockAt(i.fn, b).body[k];
      && inst.id in i.place && i.place[inst.id] in i.parts && (inst.mem ==> i.place[inst.id] == 0)
      && OperandsOk(i.place, PlanOf(e), BlockAt(i.fn, b), i.place[inst.id], Have(e, i.place[inst.id], b),
                    inst.args, args)
    ensures var inst := BlockAt(i.fn, b).body[k];
      var e' := WithInst(e, i.place[inst.id], b, Clone(inst.id, inst.code, args, inst.mem));
      && b < |e.logs| && EmitOk(i, e') && Grows(e, e') && BodyEmitted(i, e', b, k + 1) && OpenBlock(i, e', b)
      && (forall a :: a != b ==> LogIn(e', a) == LogIn(e, a))
      && (forall q :: Returns(Have(e', q, b)) == Returns(Have(e, q, b)))
  {
    hide OperandsOk, Have, EmitOk;
    var inst := BlockAt(i.fn, b).body[k];
    var p := i.place[inst.id];
    var x := Clone(inst.id, inst.code, args, inst.mem);
    assert CloneOk(i.place, PlanOf(e), BlockAt(i.fn, b), p, Have(e, p, b), x, k);
    hide CloneOk, Grows;
    InstKeeps(i, e, p, b, x);
    hide EntryOk, InstOk;
    AppendOne(Have(e, p, b), x);
    hide Clones, ClonedIds, MemClones, Returns, InBody;
    CloneAdvances(i, e, WithInst(e, p, b, x), b, k, x);
  }

  lemma CloneAdvances(i: Input, e: Emitted, e': Emitted, b: BlockId, k: nat, x: TInst)
    requires BodyEmitted(i, e, b, k) && OpenBlock(i, e, b) && k < |BlockAt(i.fn, b).body| && x.Clone?
    requires var inst := BlockAt(i.fn, b).body[k];
      && inst.id in i.place && x.id == inst.id && x.mem == inst.mem && (inst.mem ==> i.place[inst.id] == 0)
      && Have(e', i.place[inst.id], b) == Have(e, i.place[inst.id], b) + [x]
      && forall q :: q != i.place[inst.id] ==> Have(e', q, b) == Have(e, q, b)
    ensures BodyEmitted(i, e', b, k + 1) && OpenBlock(i, e', b)
    ensures forall q :: Returns(Have(e', q, b)) == Returns(Have(e, q, b))
  {
    var p := i.place[BlockAt(i.fn, b).body[k].id];
    forall q ensures ClonedOnce(Have(e, q, b), Have(e', q, b), q == p, x) {
      if q == p {
        CloneLast(Have(e, p, b), x);
      } else {
        assert Have(e', q, b) == Have(e, q, b);
      }
    }
    hide Have;
    CloneExtendsBody(i, e, e', b, k, x);
    hide BodyEmitted;
    CloneLeavesOpen(i, e, e', b, p, x);
    hide OpenBlock;
    forall q ensures Returns(Have(e', q, b)) == Returns(Have(e, q, b)) {
      assert ClonedOnce(Have(e, q, b), Have(e', q, b), q == p, x);
    }
  }

  /** What appending the clone `x` here, or on another core, does to the code of one core. */
  ghost predicate ClonedOnce(code: seq<TInst>, code': seq<TInst>, here: bool, x: TInst)
    requires x.Clone?
  {
    && Clones(code') == Clones(code) + (if here then {x.id} else {})
    && ClonedIds(code') == ClonedIds(code) + (if here then [x.id] else [])
    && MemClones(code') == MemClones(code) + (if here && x.mem then 1 else 0)
    && Returns(code') == Returns(code)
    && (Free(code) ==> Free(code'))
  }

  lemma CloneLast(code: seq<TInst>, x: TInst)
    requires x.Clone?
    ensures ClonedOnce(code, code + [x], true, x)
  {
    AppendOne(code, x);
    hide Clones, ClonedIds, MemClones, Returns;
  }

  lemma CloneExtendsBody(i: Input, e: Emitted, e': Emitted, b: BlockId, k: nat, x: TInst)
    requires BodyEmitted(i, e, b, k) && k < |BlockAt(i.fn, b).body| && x.Clone?
    requires var inst := BlockAt(i.fn, b).body[k];
      && inst.id in i.place && x.id == inst.id && x.mem == inst.mem && (inst.mem ==> i.place[inst.id] == 0)
      && forall q :: ClonedOnce(Have(e, q, b), Have(e', q, b), q == i.place[inst.id], x)
    ensures BodyEmitted(i, e', b, k + 1)
  {
    hide Have, Clones, ClonedIds, MemClones, Returns, Free, PlacedOn;
    var body := BlockAt(i.fn, b).body;
    forall j | 0 <= j < k + 1
      ensures body[j].id in i.place && body[j].id in Clones(Have(e', i.place[body[j].id], b))
    {
      var q := i.place[body[j].id];
      assert ClonedOnce(Have(e, q, b), Have(e', q, b), q == i.place[body[k].id], x);
    }
    assert ClonedOnce(Have(e, 0, b), Have(e', 0, b), 0 == i.place[body[k].id], x);
    forall q ensures ClonedIds(Have(e', q, b)) == PlacedOn(body[..k + 1], i.place, q) {
      assert ClonedOnce(Have(e, q, b), Have(e', q, b), q == i.place[body[k].id], x);
      PlacedOnNext(body, k, i.place, q);
    }
  }

  lemma CloneLeavesOpen(i: Input, e: Emitted, e': Emitted, b: BlockId, p: Part, x: TInst)
    requires OpenBlock(i, e, b) && x.Clone?
    requires forall q :: ClonedOnce(Have(e, q, b), Have(e', q, b), q == p, x)
    ensures OpenBlock(i, e', b)
  {
    hide Have, Clones, ClonedIds, MemClones, Returns, Free;
    forall q | q in i.parts ensures Free(Have(e', q, b)) {
      assert ClonedOnce(Have(e, q, b), Have(e', q, b), q == p, x);
    }
  }

  /** Entering an instruction in the table of clones touches no code. */
  lemma MappedOnly(i: Input, e: Emitted, e': Emitted, b: BlockId, k: nat)
    requires e' == e.(mapped := e'.mapped) && e.mapped <= e'.mapped
    ensures Grows(e, e') && Got(e') == Got(e)
    ensures EmitOk(i, e) ==> EmitOk(i, e')
    ensures forall p, a :: Have(e', p, a) == Have(e, p, a)
    ensures BodyEmitted(i, e, b, k) ==> BodyEmitted(i, e', b, k)
    ensures OpenBlock(i, e, b) ==> OpenBlock(i, e', b)
  {
    hide LogOk, Clones, ClonedIds, MemClones, Project;
    forall p, a ensures Have(e', p, a) == Have(e, p, a) {}
  }

  lemma TrafficReturns(e: Emitted, e': Emitted, blocks: set<BlockId>, b: BlockId)
    requires OnlyTraffic(e, e', blocks)
    ensures forall q :: Returns(Have(e', q, b)) == Returns(Have(e, q, b))
  {
    hide Grows, Have, Clones, ClonedIds, MemClones, Returns;
    assert forall q :: SameWork(Have(e, q, b), Have(e', q, b));
  }

  function PhiIds(phis: seq<Phi>): set<Id> {
    set k | 0 <= k < |phis| :: phis[k].id
  }

  function EmptyEntries(ids: set<Id>): map<Id, seq<(BlockId, TOp)>> {
    map id | id in ids :: []
  }

  lemma NoPhis(phis: seq<Phi>, place: Placement)
    ensures PhiIds(phis[..0]) == {} && forall p :: PhisOn(phis[..0], place, p) == []
  {
  }

  lemma MorePhis(phis: seq<Phi>, k: nat, place: Placement)
    requires k < |phis|
    ensures PhiIds(phis[..k + 1]) == PhiIds(phis[..k]) + {phis[k].id}
    ensures forall p :: PhisOn(phis[..k + 1], place, p) == PhisOn(phis[..k], place, p) + OwnPhi(phis[k].id, place, p)
  {
    assert phis[..k + 1][..k] == phis[..k];
    assert forall j :: 0 <= j < k ==> phis[..k + 1][j] == phis[..k][j];
    assert phis[..k + 1][k].id in PhiIds(phis[..k + 1]);
    forall id | id in PhiIds(phis[..k]) ensures id in PhiIds(phis[..k + 1]) {
      var j :| 0 <= j < k && phis[..k][j].id == id;
      assert phis[..k + 1][j].id == id;
    }
  }

  type PhiTable = map<(Part, BlockId), seq<Id>>

  /** `table` has the first `k` phis of block `b`, each on its core, and is as it was for other blocks. */
  ghost predicate PhisUpTo(i: Input, b: BlockId, start: PhiTable, table: PhiTable, k: nat) {
    var phis := BlockAt(i.fn, b).phis;
    && k <= |phis|
    && (forall p :: p in i.parts ==> (p, b) in table && table[(p, b)] == PhisOn(phis[..k], i.place, p))
    && forall key :: key in start && key.1 != b ==> key in table && table[key] == start[key]
  }

  lemma PhisUpToNext(i: Input, b: BlockId, start: PhiTable, table: PhiTable, k: nat)
    requires PhisUpTo(i, b, start, table, k) && k < |BlockAt(i.fn, b).phis|
    requires var id := BlockAt(i.fn, b).phis[k].id; id in i.place && i.place[id] in i.parts
    ensures var id := BlockAt(i.fn, b).phis[k].id; var at := (i.place[id], b);
      at in table && PhisUpTo(i, b, start, table[at := table[at] + [id]], k + 1)
  {
    hide PhisOn, PhiIds;
    var phis := BlockAt(i.fn, b).phis;
    var q := i.place[phis[k].id];
    assert (q, b) in table by {
      assert q in i.parts;
    }
    var at := (q, b);
    var next := table[at := table[at] + [phis[k].id]];
    forall p | p in i.parts ensures (p, b) in next && next[(p, b)] == PhisOn(phis[..k + 1], i.place, p) {
      MorePhis(phis, k, i.place);
      assert (p, b) in table;
      assert PhisOn(phis[..k], i.place, p) + [] == PhisOn(phis[..k], i.place, p);
    }
  }

  lemma MoreEntries(table: map<Id, seq<(BlockId, TOp)>>, ids: set<Id>, id: Id)
    ensures table + EmptyEntries({}) == table
    ensures table + EmptyEntries(ids + {id}) == (table + EmptyEntries(ids))[id := []]
  {
  }

  lemma PhiPlaced(i: Input, b: BlockId, k: nat)
    requires InputOk(i) && b < |i.fn.blocks| && k < |BlockAt(i.fn, b).phis|
    ensures var id := BlockAt(i.fn, b).phis[k].id; id in i.place && i.place[id] in i.parts
  {
    hide Shape, Placed;
    assert IsPhi(BlockAt(i.fn, b), BlockAt(i.fn, b).phis[k].id);
    PlacedId(i, b, BlockAt(i.fn, b).phis[k].id);
  }

  lemma TerminatedByAppend(code: seq<TInst>, x: TInst)
    requires Free(code) && IsTerminator(x)
    ensures Terminated(code + [x])
    ensures Clones(code + [x]) == Clones(code) && ClonedIds(code + [x]) == ClonedIds(code)
      && MemClones(code + [x]) == MemClones(code) && Returns(code + [x]) == Returns(code)
  {
    AppendOne(code, x);
  }

  /** A block another block's emission does not touch. */
  lemma BlockElsewhere(i: Input, e: Emitted, e': Emitted, b: BlockId)
    requires BlockEmitted(i, e, b) && LogIn(e', b) == LogIn(e, b) && e.mapped <= e'.mapped
    requires forall key :: key in e.phiOrder && key.1 == b ==> key in e'.phiOrder && e'.phiOrder[key] == e.phiOrder[key]
    ensures BlockEmitted(i, e', b)
  {
    hide Clones, ClonedIds, MemClones, Returns, Terminated, Free, Project;
    forall q ensures Have(e', q, b) == Have(e, q, b) { SameLogSameCode(e, e', q, b); }
    hide Have;
  }

  lemma NothingYet(i: Input, e: Emitted, b: BlockId)
    requires LogIn(e, b) == []
    ensures BodyEmitted(i, e, b, 0) && OpenBlock(i, e, b)
    ensures forall q :: Have(e, q, b) == [] && Returns(Have(e, q, b)) == 0
  {
  }

  /** Every operand used in block `b` is defined there or has been cloned already. */
  ghost predicate UsesMapped(i: Input, e: Emitted, b: BlockId) {
    var blk := BlockAt(i.fn, b);
    && (forall k, j | 0 <= k < |blk.body| && 0 <= j < |blk.body[k].args| :: UseMapped(e, blk, blk.body[k].args[j]))
    && (blk.term.Ret? && blk.term.value.Some? ==> UseMapped(e, blk, blk.term.value.value))
  }

  predicate UseMapped(e: Emitted, blk: Block, op: Operand) {
    op.Ref? ==> op.id in e.mapped || Defines(blk, op.id)
  }

  /** What an input must satisfy: a well-formed function, all of it placed on the cores. */
  ghost predicate InputOk(i: Input) {
    Shape(i.fn) && Placed(i.fn, i.place, i.parts) && DistinctParts(i.parts)
  }

  lemma PlacedId(i: Input, b: BlockId, id: Id)
    requires InputOk(i) && Defines(BlockAt(i.fn, b), id)
    ensures id in i.place && i.place[id] in i.parts
  {
    hide Shape;
  }

  /** Wherever an operand is defined, it is placed. */
  lemma PlacedOperand(i: Input, op: Operand)
    requires InputOk(i) && op.Ref? && Resolvable(i.fn, op)
    ensures op.id in i.place && i.place[op.id] in i.parts
  {
    hide Shape, Placed;
    var b: BlockId :| b < |i.fn.blocks| && Defines(i.fn.blocks[b], op.id);
    PlacedId(i, b, op.id);
  }

  /** When body instruction `k` is reached, its operands can be read. */
  lemma OperandReady(i: Input, e: Emitted, b: BlockId, k: nat, op: Operand)
    requires InputOk(i) && b < |i.fn.blocks|
    requires BodyEmitted(i, e, b, k) && Resolvable(i.fn, op) && DefinedInOrder(BlockAt(i.fn, b), k, op)
    requires op.Ref? ==> op.id in e.mapped || Defines(BlockAt(i.fn, b), op.id)
    requires forall id :: IsPhi(BlockAt(i.fn, b), id) ==> id in e.mapped
    requires forall j :: 0 <= j < k ==> BlockAt(i.fn, b).body[j].id in e.mapped
    ensures Operable(i, e, b, op)
  {
    hide Shape, Placed, Have, Clones, ClonedIds, MemClones;
    if op.Ref? {
      PlacedOperand(i, op);
    }
  }

  lemma BodyOperand(i: Input, b: BlockId, k: nat, j: nat)
    requires InputOk(i) && b < |i.fn.blocks| && k < |BlockAt(i.fn, b).body| && j < |BlockAt(i.fn, b).body[k].args|
    ensures Resolvable(i.fn, BlockAt(i.fn, b).body[k].args[j])
    ensures DefinedInOrder(BlockAt(i.fn, b), k, BlockAt(i.fn, b).body[k].args[j])
  {
    hide Placed, UniqueIds;
    assert BlockShape(i.fn, b);
  }

  lemma BodyPlaced(i: Input, b: BlockId, k: nat)
    requires InputOk(i) && b < |i.fn.blocks| && k < |BlockAt(i.fn, b).body|
    ensures var inst := BlockAt(i.fn, b).body[k];
      inst.id in i.place && i.place[inst.id] in i.parts && (inst.mem ==> i.place[inst.id] == 0)
  {
    hide Shape;
    assert Defines(BlockAt(i.fn, b), BlockAt(i.fn, b).body[k].id);
  }

  lemma ReturnPlaced(i: Input, b: BlockId)
    requires InputOk(i) && b < |i.fn.blocks| && BlockAt(i.fn, b).term.Ret?
    ensures var term := BlockAt(i.fn, b).term;
      && term.id in i.place && i.place[term.id] in i.parts
      && (term.value.Some? ==> Resolvable(i.fn, term.value.value))
  {
    hide UniqueIds;
    assert BlockShape(i.fn, b);
  }

  /** Appending the return send after its operand. */
  lemma ReturnAppended(i: Input, e: Emitted, b: BlockId, t: TOp)
    requires EmitOk(i, e) && b < |i.fn.blocks| && OpenBlock(i, e, b)
    requires var term := BlockAt(i.fn, b).term;
      && term.Ret? && term.value.Some? && term.id in i.place && i.place[term.id] in i.parts
      && OperandOk(i.place, PlanOf(e), BlockAt(i.fn, b), i.place[term.id], Have(e, i.place[term.id], b),
                   term.value.value, t)
    requires forall q :: Returns(Have(e, q, b)) == 0
    requires BodyEmitted(i, e, b, |BlockAt(i.fn, b).body|)
    ensures var p := i.place[BlockAt(i.fn, b).term.id]; var e' := WithInst(e, p, b, SendReturn(t));
      && b < |e.logs| && EmitOk(i, e') && Grows(e, e') && OpenBlock(i, e', b)
      && (forall a :: a != b ==> LogIn(e', a) == LogIn(e, a))
      && BodyEmitted(i, e', b, |BlockAt(i.fn, b).body|)
      && Returns(Have(e', p, b)) == 1
  {
    hide EmitOk, Have, OperandOk;
    var p := i.place[BlockAt(i.fn, b).term.id];
    InstKeeps(i, e, p, b, SendReturn(t));
    var e' := WithInst(e, p, b, SendReturn(t));
    hide BodyEmitted, OpenBlock, Grows, InstOk;
    forall q ensures SameBody(Have(e, q, b), Have(e', q, b)) {
      if q == p {
        ReturnLast(Have(e, p, b), t);
      }
    }
    AppendOne(Have(e, p, b), SendReturn(t));
    BodyBySame(i, e, e', b, |BlockAt(i.fn, b).body|);
  }

  /** The clones of body instructions are the same, and no terminator is added. */
  ghost predicate SameBody(code: seq<TInst>, code': seq<TInst>) {
    && Clones(code') == Clones(code) && ClonedIds(code') == ClonedIds(code) && MemClones(code') == MemClones(code)
    && (Free(code) ==> Free(code'))
  }

  lemma ReturnLast(code: seq<TInst>, t: TOp)
    ensures SameBody(code, code + [SendReturn(t)])
  {
    AppendOne(code, SendReturn(t));
    hide Clones, ClonedIds, MemClones;
  }

  lemma BodyBySame(i: Input, e: Emitted, e': Emitted, b: BlockId, k: nat)
    requires forall q :: SameBody(Have(e, q, b), Have(e', q, b))
    ensures BodyEmitted(i, e, b, k) ==> BodyEmitted(i, e', b, k)
    ensures OpenBlock(i, e, b) ==> OpenBlock(i, e', b)
  {
    hide Have, Clones, ClonedIds, MemClones, Free, PlacedOn;
    assert SameBody(Have(e, 0, b), Have(e', 0, b));
    forall q ensures ClonedIds(Have(e', q, b)) == ClonedIds(Have(e, q, b)) {
      assert SameBody(Have(e, q, b), Have(e', q, b));
    }
  }

  lemma PhiFieldsOnly(i: Input, e: Emitted, e': Emitted)
    requires e' == e.(phiOrder := e'.phiOrder, incoming := e'.incoming, mapped := e'.mapped) && e.mapped <= e'.mapped
    ensures Grows(e, e') && (EmitOk(i, e) ==> EmitOk(i, e'))
    ensures forall p, a :: Have(e', p, a) == Have(e, p, a)
    ensures forall a :: LogIn(e', a) == LogIn(e, a)
  {
    hide LogOk, Project;
    forall p, a ensures Have(e', p, a) == Have(e, p, a) {}
  }

  lemma DistinctInput(i: Input)
    requires InputOk(i)
    ensures DistinctParts(i.parts) && |i.fn.blocks| > 0
  {
    hide Placed;
  }

  /** Terminators add no work to the clones of `b`. */
  ghost predicate ClosedWork(e: Emitted, e': Emitted, b: BlockId) {
    forall q ::
      && Clones(Have(e', q, b)) == Clones(Have(e, q, b))
      && ClonedIds(Have(e', q, b)) == ClonedIds(Have(e, q, b))
      && MemClones(Have(e', q, b)) == MemClones(Have(e, q, b))
      && Returns(Have(e', q, b)) == Returns(Have(e, q, b))
  }

  lemma TermOnly(code: seq<TInst>, x: TInst)
    requires IsTerminator(x)
    ensures Clones(code + [x]) == Clones(code) && ClonedIds(code + [x]) == ClonedIds(code)
      && MemClones(code + [x]) == MemClones(code) && Returns(code + [x]) == Returns(code)
  {
    AppendOne(code, x);
  }

  lemma ClosedKeeps(i: Input, e: Emitted, e': Emitted, b: BlockId)
    requires ClosedWork(e, e', b)
    ensures BodyEmitted(i, e, b, |BlockAt(i.fn, b).body|) ==> BodyEmitted(i, e', b, |BlockAt(i.fn, b).body|)
    ensures ReturnEmitted(i, e, b) ==> ReturnEmitted(i, e', b)
  {
    hide Have, Clones, ClonedIds, MemClones, Returns;
  }

  /** After the phis of `b` are created, its body is still to be emitted and its phis are mapped. */
  lemma MappedBody(i: Input, e: Emitted, e': Emitted, b: BlockId)
    requires LogIn(e', b) == LogIn(e, b) == []
    requires e'.mapped == e.mapped + PhiIds(BlockAt(i.fn, b).phis)
    ensures BodyEmitted(i, e', b, 0) && OpenBlock(i, e', b)
    ensures forall q :: Returns(Have(e', q, b)) == 0
    ensures forall id :: IsPhi(BlockAt(i.fn, b), id) ==> id in e'.mapped
  {
    NothingYet(i, e', b);
  }

  lemma ArgsReady(i: Input, e0: Emitted, e: Emitted, b: BlockId, k: nat)
    requires InputOk(i) && b < |i.fn.blocks| && k < |BlockAt(i.fn, b).body|
    requires UsesMapped(i, e0, b) && BodyEmitted(i, e, b, k) && Grows(e0, e)
    requires PhiIds(BlockAt(i.fn, b).phis) <= e.mapped
    requires forall j :: 0 <= j < k ==> BlockAt(i.fn, b).body[j].id in e.mapped
    ensures var inst := BlockAt(i.fn, b).body[k];
      forall j :: 0 <= j < |inst.args| ==> Operable(i, e, b, inst.args[j])
  {
    hide InputOk, BodyEmitted, Operable;
    var blk := BlockAt(i.fn, b);
    PhisMapped(blk, e);
    forall j | 0 <= j < |blk.body[k].args| ensures Operable(i, e, b, blk.body[k].args[j]) {
      BodyOperand(i, b, k, j);
      assert UseMapped(e0, blk, blk.body[k].args[j]);
      OperandReady(i, e, b, k, blk.body[k].args[j]);
    }
  }

  lemma UsesStay(i: Input, e: Emitted, e': Emitted, b: BlockId)
    requires UsesMapped(i, e, b) && e.mapped <= e'.mapped
    ensures UsesMapped(i, e', b)
  {
    hide Defines;
    var blk := BlockAt(i.fn, b);
    forall k, j | 0 <= k < |blk.body| && 0 <= j < |blk.body[k].args| ensures UseMapped(e', blk, blk.body[k].args[j]) {
      assert UseMapped(e, blk, blk.body[k].args[j]);
    }
  }

  /** The body instructions of block `b` have clones, on cores that are launched. */
  ghost predicate BodyDone(i: Input, mapped: set<Id>, launched: set<Part>, b: BlockId) {
    forall inst :: inst in BlockAt(i.fn, b).body ==>
      inst.id in mapped && inst.id in i.place && i.place[inst.id] in launched
  }

  lemma PhisMapped(blk: Block, e: Emitted)
    requires PhiIds(blk.phis) <= e.mapped
    ensures forall id :: IsPhi(blk, id) ==> id in e.mapped
  {
  }

  lemma ReturnReady(i: Input, e0: Emitted, e: Emitted, b: BlockId)
    requires InputOk(i) && b < |i.fn.blocks| && BlockAt(i.fn, b).term.Ret? && BlockAt(i.fn, b).term.value.Some?
    requires UsesMapped(i, e0, b) && BodyEmitted(i, e, b, |BlockAt(i.fn, b).body|) && Grows(e0, e)
    requires PhiIds(BlockAt(i.fn, b).phis) <= e.mapped
    requires forall j :: 0 <= j < |BlockAt(i.fn, b).body| ==> BlockAt(i.fn, b).body[j].id in e.mapped
    ensures Operable(i, e, b, BlockAt(i.fn, b).term.value.value)
  {
    hide InputOk, BodyEmitted, Operable;
    var blk := BlockAt(i.fn, b);
    PhisMapped(blk, e);
    ReturnPlaced(i, b);
    OperandReady(i, e, b, |blk.body|, blk.term.value.value);
  }

  /** More of the cores are launched, and no others. */
  predicate Launches(parts: seq<Part>, before: set<Part>, after: set<Part>) {
    before <= after && forall p :: p in after ==> p in before || p in parts
  }

  /** Every instruction of block `b` runs on a core that is launched. */
  ghost predicate BlockLaunched(i: Input, launched: set<Part>, b: BlockId) {
    var blk := BlockAt(i.fn, b);
    && (forall id :: Defines(blk, id) ==> id in i.place && i.place[id] in launched)
    && (blk.term.Ret? ==> blk.term.id in i.place && i.place[blk.term.id] in launched)
  }

  /** All parts of a block together. */
  lemma BlockComplete(i: Input, e: Emitted, e': Emitted, b: BlockId)
    requires PhisCreated(i, e, b) && e'.phiOrder == e.phiOrder
    requires PhiIds(BlockAt(i.fn, b).phis) <= e'.mapped
    requires forall j :: 0 <= j < |BlockAt(i.fn, b).body| ==> BlockAt(i.fn, b).body[j].id in e'.mapped
    requires BodyEmitted(i, e', b, |BlockAt(i.fn, b).body|)
    requires if BlockAt(i.fn, b).term.Ret? then ClosedBlock(i, e', b) && ReturnEmitted(i, e', b)
      else OpenBlock(i, e', b)
    ensures BlockEmitted(i, e', b)
  {
    hide BodyEmitted, ClosedBlock, OpenBlock, Have;
    PhisMapped(BlockAt(i.fn, b), e');
  }

  // ---------- The order of blocks ----------

  function GraphOf(fn: Function): Graph {
    seq(|fn.blocks|, b requires 0 <= b < |fn.blocks| => Successors(fn.blocks[b].term))
  }

  /** A use that is not a phi's is dominated by its definition. */
  ghost predicate UseDominated(fn: Function, b: BlockId, op: Operand) {
    op.Ref? ==> exists d: BlockId :: d < |fn.blocks| && Defines(fn.blocks[d], op.id) && Dominates(GraphOf(fn), d, b)
  }

  ghost predicate UsesDominated(fn: Function) {
    forall b :: 0 <= b < |fn.blocks| ==>
      var blk := fn.blocks[b];
      && (forall k, j | 0 <= k < |blk.body| && 0 <= j < |blk.body[k].args| :: UseDominated(fn, b, blk.body[k].args[j]))
      && (blk.term.Ret? && blk.term.value.Some? ==> UseDominated(fn, b, blk.term.value.value))
  }

  /** A listing of all blocks in which each comes after its dominators. */
  ghost predicate DominanceOrder(fn: Function, sorted: seq<BlockId>) {
    && |sorted| == |fn.blocks| && Distinct(sorted) && Below(sorted, |fn.blocks|)
    && (forall b :: 0 <= b < |fn.blocks| ==> b in sorted)
    && (forall n, d :: 0 <= n < |sorted| && Dominates(GraphOf(fn), d, sorted[n]) && d != sorted[n] ==> d in sorted[..n])
  }

  /** In dominance order, whatever a block uses is there or has been emitted. */
  lemma UsesFromOrder(i: Input, e: Emitted, sorted: seq<BlockId>, n: nat)
    requires UsesDominated(i.fn) && DominanceOrder(i.fn, sorted) && n < |sorted|
    requires forall m :: 0 <= m < n ==> BlockEmitted(i, e, sorted[m])
    ensures UsesMapped(i, e, sorted[n])
  {
    hide Dominates, BodyEmitted, ClosedBlock, OpenBlock, PhisCreated, ReturnEmitted, Defines, GraphOf;
    var b := sorted[n];
    var blk := i.fn.blocks[b];
    forall k, j | 0 <= k < |blk.body| && 0 <= j < |blk.body[k].args| ensures UseMapped(e, blk, blk.body[k].args[j]) {
      UseFromOrder(i, e, sorted, n, blk.body[k].args[j]);
    }
    if blk.term.Ret? && blk.term.value.Some? {
      UseFromOrder(i, e, sorted, n, blk.term.value.value);
    }
  }

  lemma UseFromOrder(i: Input, e: Emitted, sorted: seq<BlockId>, n: nat, op: Operand)
    requires DominanceOrder(i.fn, sorted) && n < |sorted| && UseDominated(i.fn, sorted[n], op)
    requires forall m :: 0 <= m < n ==> BlockEmitted(i, e, sorted[m])
    ensures UseMapped(e, BlockAt(i.fn, sorted[n]), op)
  {
    hide Dominates, BodyEmitted, ClosedBlock, OpenBlock, PhisCreated, ReturnEmitted, Defines, GraphOf;
    if op.Ref? {
      var d: BlockId :| d < |i.fn.blocks| && Defines(i.fn.blocks[d], op.id) && Dominates(GraphOf(i.fn), d, sorted[n]);
      if d != sorted[n] {
        assert d in sorted[..n];
        var m :| 0 <= m < n && sorted[m] == d;
        assert BlockEmitted(i, e, sorted[m]);
      }
    }
  }

  lemma GrownTable(e: Emitted, e': Emitted)
    requires Grows(e, e')
    ensures e.mapped <= e'.mapped
  {
  }

  lemma EmptyStays(i: Input, e: Emitted, e': Emitted, b: BlockId, phis: seq<Phi>)
    requires PhisEmpty(i, e, b) && e'.incoming == e.incoming + EmptyEntries(PhiIds(phis))
    ensures PhisEmpty(i, e', b)
  {
    hide PhiIds;
  }

  lemma CreatedEmpty(i: Input, e: Emitted, e': Emitted, b: BlockId)
    requires e'.incoming == e.incoming + EmptyEntries(PhiIds(BlockAt(i.fn, b).phis))
    ensures PhisEmpty(i, e', b)
  {
  }

  lemma LaunchedStays(i: Input, launched: set<Part>, launched': set<Part>, b: BlockId)
    requires BlockLaunched(i, launched, b) && launched <= launched'
    ensures BlockLaunched(i, launched', b)
  {
    hide Defines;
  }

  // ---------- The other passes ----------

  /** The blocks that still take appends after the first pass. */
  function Unclosed(i: Input): set<BlockId> {
    set b | 0 <= b < |i.fn.blocks| && !i.fn.blocks[b].term.Ret?
  }

  ghost predicate AllEmitted(i: Input, e: Emitted) {
    forall b :: 0 <= b < |i.fn.blocks| ==> BlockEmitted(i, e, b)
  }

  lemma AllStay(i: Input, e: Emitted, e': Emitted)
    requires AllEmitted(i, e) && OnlyTraffic(e, e', Unclosed(i))
    ensures AllEmitted(i, e')
  {
    hide BlockEmitted, OnlyTraffic;
    forall b | 0 <= b < |i.fn.blocks| ensures BlockEmitted(i, e', b) {
      BlockStays(i, e, e', Unclosed(i), b);
    }
  }

  /** When all blocks are built, any operand of the function can be read at the end of any block. */
  lemma ReadAnywhere(i: Input, e: Emitted, b: BlockId, op: Operand)
    requires InputOk(i) && (forall d :: 0 <= d < |i.fn.blocks| ==> Built(i, e, d))
    requires b < |i.fn.blocks| && Resolvable(i.fn, op)
    ensures Operable(i, e, b, op)
    ensures op.Ref? ==> op.id in e.mapped
  {
    hide InputOk, Have, Clones, ClonedIds, MemClones;
    if op.Ref? {
      PlacedOperand(i, op);
      var d: BlockId :| d < |i.fn.blocks| && Defines(i.fn.blocks[d], op.id);
      assert Built(i, e, d) && Built(i, e, b);
    }
  }

  lemma PhiEntry(i: Input, b: BlockId, k: nat, j: nat)
    requires InputOk(i) && b < |i.fn.blocks| && k < |BlockAt(i.fn, b).phis| && j < |BlockAt(i.fn, b).phis[k].incoming|
    ensures var (pred, op) := BlockAt(i.fn, b).phis[k].incoming[j];
      pred < |i.fn.blocks| && pred in Unclosed(i) && Resolvable(i.fn, op)
  {
    hide Placed, UniqueIds, Resolvable;
    assert BlockShape(i.fn, b);
    var blk := i.fn.blocks[b];
    var (pred, op) := blk.phis[k].incoming[j];
    assert pred < |i.fn.blocks| && b in Successors(i.fn.blocks[pred].term) && Resolvable(i.fn, op);
  }

  lemma IncomingOnly(i: Input, e: Emitted, e': Emitted)
    requires e' == e.(incoming := e'.incoming)
    ensures Grows(e, e') && (EmitOk(i, e) ==> EmitOk(i, e'))
    ensures AllEmitted(i, e) ==> AllEmitted(i, e')
  {
    hide LogOk, Project, BlockEmitted;
    forall p, a ensures Have(e', p, a) == Have(e, p, a) {}
    hide EmitOk;
    if AllEmitted(i, e) {
      forall b | 0 <= b < |i.fn.blocks| ensures BlockEmitted(i, e', b) {
        BlockElsewhere(i, e, e', b);
      }
    }
  }

  /** The first `k` phis of block `b` are repaired. */
  ghost predicate FilledTo(i: Input, e: Emitted, b: BlockId, k: nat) {
    var phis := BlockAt(i.fn, b).phis;
    k <= |phis| && forall j :: 0 <= j < k ==>
      phis[j].id in i.place && phis[j].id in e.incoming
      && EntriesFilled(i, e, i.place[phis[j].id], phis[j].incoming, e.incoming[phis[j].id])
  }

  lemma FilledStays(i: Input, e: Emitted, e': Emitted, b: BlockId, k: nat)
    requires Grows(e, e') && FilledTo(i, e, b, k)
    requires forall id :: id in e.incoming && (exists j :: 0 <= j < k && BlockAt(i.fn, b).phis[j].id == id) ==>
      id in e'.incoming && e'.incoming[id] == e.incoming[id]
    ensures FilledTo(i, e', b, k)
  {
    hide Grows, EntriesFilled;
    var phis := BlockAt(i.fn, b).phis;
    forall j | 0 <= j < k
      ensures EntriesFilled(i, e', i.place[phis[j].id], phis[j].incoming, e'.incoming[phis[j].id])
    {
      EntriesStay(i, e, e', i.place[phis[j].id], phis[j].incoming, e.incoming[phis[j].id]);
    }
  }

  lemma PhiIdsDiffer(i: Input, b: BlockId, j: nat, c: BlockId, k: nat)
    requires InputOk(i) && j < |BlockAt(i.fn, b).phis| && k < |BlockAt(i.fn, c).phis|
    requires b != c || j != k
    ensures BlockAt(i.fn, b).phis[j].id != BlockAt(i.fn, c).phis[k].id
  {
    hide Placed, BlockShape;
    assert IsPhi(BlockAt(i.fn, b), BlockAt(i.fn, b).phis[j].id);
    assert IsPhi(BlockAt(i.fn, c), BlockAt(i.fn, c).phis[k].id);
    assert Defines(BlockAt(i.fn, b), BlockAt(i.fn, b).phis[j].id);
    assert Defines(BlockAt(i.fn, c), BlockAt(i.fn, c).phis[k].id);
    if b == c && j < k {
    } else if b == c && k < j {
    }
  }

  lemma BuiltAll(i: Input, e: Emitted)
    requires AllEmitted(i, e)
    ensures forall d :: 0 <= d < |i.fn.blocks| ==> Built(i, e, d)
  {
    hide Built;
    forall d | 0 <= d < |i.fn.blocks| ensures Built(i, e, d) {
      assert BlockEmitted(i, e, d);
    }
  }

  lemma OneMoreEntry(i: Input, e: Emitted, p: Part, src: seq<(BlockId, Operand)>, ts: seq<(BlockId, TOp)>,
                     more: (BlockId, Operand), t: (BlockId, TOp))
    requires EntriesFilled(i, e, p, src, ts) && EntryFilled(i, e, p, more, t) && SourceOf(i, p, more.1, t.1)
    requires FromMailbox(t.1) ==> MailboxesBelow(ts, t.1.reg.chan)
    ensures EntriesFilled(i, e, p, src + [more], ts + [t])
  {
    hide EntryFilled, SourceOf;
  }

  lemma SelfGrows(e: Emitted)
    ensures Grows(e, e)
  {
  }

  lemma TrafficGrows(e: Emitted, e': Emitted, blocks: set<BlockId>)
    requires OnlyTraffic(e, e', blocks)
    ensures Grows(e, e') && e'.incoming == e.incoming
    ensures forall b :: b !in blocks ==> LogIn(e', b) == LogIn(e, b)
  {
    hide Grows;
  }

  lemma OthersFilled(i: Input, e: Emitted, e': Emitted, b: BlockId, c: BlockId)
    requires InputOk(i) && b != c && PhisFilled(i, e, b) && Grows(e, e')
    requires forall id :: id in e.incoming && !IsPhi(BlockAt(i.fn, c), id) ==>
      id in e'.incoming && e'.incoming[id] == e.incoming[id]
    ensures PhisFilled(i, e', b)
  {
    hide InputOk, Grows, EntriesFilled;
    forall id | IsPhi(BlockAt(i.fn, b), id) ensures !IsPhi(BlockAt(i.fn, c), id) {
      OtherBlocksPhi(i, b, c, id);
    }
    PhisStay(i, e, e', b);
  }

  lemma OthersEmpty(i: Input, e: Emitted, e': Emitted, b: BlockId, c: BlockId)
    requires InputOk(i) && b != c && PhisEmpty(i, e, b)
    requires forall id :: id in e.incoming && !IsPhi(BlockAt(i.fn, c), id) ==>
      id in e'.incoming && e'.incoming[id] == e.incoming[id]
    ensures PhisEmpty(i, e', b)
  {
    hide InputOk;
    var phis := BlockAt(i.fn, b).phis;
    forall k | 0 <= k < |phis| ensures phis[k].id in e'.incoming && e'.incoming[phis[k].id] == [] {
      assert IsPhi(BlockAt(i.fn, b), phis[k].id);
      OtherBlocksPhi(i, b, c, phis[k].id);
    }
  }

  lemma OtherBlocksPhi(i: Input, b: BlockId, c: BlockId, id: Id)
    requires InputOk(i) && b != c && IsPhi(BlockAt(i.fn, b), id)
    ensures !IsPhi(BlockAt(i.fn, c), id)
  {
    hide InputOk, IsPhi;
    if IsPhi(BlockAt(i.fn, c), id) {
      OneDefinition(i, b, c, id);
    }
  }

  lemma OneDefinition(i: Input, b: BlockId, c: BlockId, id: Id)
    requires InputOk(i) && IsPhi(BlockAt(i.fn, b), id) && IsPhi(BlockAt(i.fn, c), id)
    ensures b == c
  {
    hide Placed, BlockShape, IsPhi, InBody;
    assert Defines(BlockAt(i.fn, b), id) && Defines(BlockAt(i.fn, c), id);
  }

  lemma BranchCondition(i: Input, b: BlockId)
    requires InputOk(i) && b < |i.fn.blocks| && BlockAt(i.fn, b).term.CondBr?
    ensures Resolvable(i.fn, BlockAt(i.fn, b).term.cond)
    ensures BlockAt(i.fn, b).term.cond.Ref? ==>
      BlockAt(i.fn, b).term.cond.id in i.place && i.place[BlockAt(i.fn, b).term.cond.id] in i.parts
  {
    hide Placed, UniqueIds, Resolvable;
    assert BlockShape(i.fn, b);
    if BlockAt(i.fn, b).term.cond.Ref? {
      PlacedOperand(i, BlockAt(i.fn, b).term.cond);
    }
  }

  lemma BuiltStays(i: Input, e: Emitted, e': Emitted, blocks: set<BlockId>, b: BlockId)
    requires OnlyTraffic(e, e', blocks) && Built(i, e, b)
    ensures Built(i, e', b)
  {
    hide Grows, Have, Clones, ClonedIds, MemClones, Returns, BodyEmitted;
    BodyStays(i, e, e', blocks, b, |BlockAt(i.fn, b).body|);
    assert forall q :: SameWork(Have(e, q, b), Have(e', q, b));
  }

  lemma BuiltAfterClose(i: Input, e: Emitted, e': Emitted, b: BlockId, d: BlockId)
    requires Built(i, e, d) && e'.mapped == e.mapped && e'.phiOrder == e.phiOrder
    requires forall a :: a != b ==> LogIn(e', a) == LogIn(e, a)
    requires ClosedWork(e, e', b)
    ensures Built(i, e', d)
  {
    hide Clones, ClonedIds, MemClones, Returns, Project;
    if d == b {
      hide Have;
      ClosedKeeps(i, e, e', b);
    } else {
      forall q ensures Have(e', q, d) == Have(e, q, d) { SameLogSameCode(e, e', q, d); }
    }
  }

  /** The two appends of an exchange go to different clones, so their order does not show there. */
  lemma PairCodeOrder(e: Emitted, b: BlockId, from: Part, to: Part, src: Id)
    requires b < |e.logs| && from != to
    ensures var c := e.commsId; var e' := WithPair(e, b, from, to, src);
      var sent := CodeIn(e, from, b) + [Send(TReg(InstR(src)), to, c)];
      var received := CodeIn(e, to, b) + [Receive(from, c)];
      && e'.code == e.code[(from, b) := sent][(to, b) := received]
      && e'.code == e.code[(to, b) := received][(from, b) := sent]
      && e'.logs ==
         e.logs[b := e.logs[b] + [Entry(from, Send(TReg(InstR(src)), to, c))] + [Entry(to, Receive(from, c))]]
  {
  }

  /** At the end of core `q`'s clone of `b`, `t` holds the value of `op`. */
  predicate ReadsOn(i: Input, e: Emitted, b: BlockId, q: Part, op: Operand, t: TOp) {
    OperandOk(i.place, PlanOf(e), BlockAt(i.fn, b), q, Have(e, q, b), op, t)
  }

  /** Block `b` before its turn in the third pass. */
  ghost predicate AwaitsBranch(i: Input, e: Emitted, b: BlockId) {
    if BlockAt(i.fn, b).term.Ret? then ClosedBlock(i, e, b) else OpenBlock(i, e, b)
  }

  lemma EndsStay(i: Input, e: Emitted, e': Emitted, b: BlockId)
    requires LogIn(e', b) == LogIn(e, b)
    ensures ClosedBlock(i, e, b) ==> ClosedBlock(i, e', b)
    ensures OpenBlock(i, e, b) ==> OpenBlock(i, e', b)
  {
    hide Project, Terminated, Free;
  }

  /** A branch condition that is an instruction; no other has a core to broadcast it from. */
  predicate HasCore(term: Term) {
    term.CondBr? ==> term.cond.Ref?
  }

  predicate BranchesOnCores(fn: Function) {
    forall b :: 0 <= b < |fn.blocks| ==> HasCore(fn.blocks[b].term)
  }

  /** A returned value that some function holds; a constant belongs to none and cannot be stored for sending. */
  predicate CanBeSent(term: Term) {
    term.Ret? && term.value.Some? ==> !term.value.value.Const?
  }

  predicate ReturnsSendable(fn: Function) {
    forall b :: 0 <= b < |fn.blocks| ==> CanBeSent(fn.blocks[b].term)
  }

  /** Rewriting keeps constants and makes none. */
  lemma ConstantsKept(place: Placement, plan: Plan, blk: Block, p: Part, pre: seq<TInst>, op: Operand, t: TOp)
    requires OperandOk(place, plan, blk, p, pre, op, t)
    ensures t.TConst? <==> op.Const?
  {
  }

  lemma LogSize(i: Input, e: Emitted)
    requires EmitOk(i, e)
    ensures |e.logs| == |i.fn.blocks|
  {
    hide LogsOk, CommsPaired, ArgsPaired;
  }

  /** A value fetched through a new mailbox can be read where it was asked for. */
  lemma PairFetches(i: Input, e: Emitted, b: BlockId, to: Part, id: Id)
    requires EmitOk(i, e) && b < |i.fn.blocks| && to in i.parts && Available(i, e, b, id) && i.place[id] != to
    ensures var e' := WithPair(e, b, i.place[id], to, id);
      && EmitOk(i, e') && OnlyTraffic(e, e', {b})
      && OperandOk(i.place, PlanOf(e'), BlockAt(i.fn, b), to, Have(e', to, b), Ref(id), TReg(ChanR(e.commsId)))
  {
    hide EmitOk, Have, OnlyTraffic, Receives, Clones, ClonedIds;
    NewChannel(i, e);
    LogSize(i, e);
    PairKeeps(i, e, b, i.place[id], to, id);
    PairTraffic(e, b, i.place[id], to, id);
    PairShape(e, b, i.place[id], to, id);
    AppendOne(Have(e, to, b), Receive(i.place[id], e.commsId));
  }

  /** What is on the core already, or is no instruction, needs no mailbox. */
  lemma ReadsHere(i: Input, e: Emitted, b: BlockId, p: Part, op: Operand)
    ensures op.Const? ==> OperandOk(i.place, PlanOf(e), BlockAt(i.fn, b), p, Have(e, p, b), op, TConst(op.value))
    ensures op.Arg? && (p, op.index) in e.argMap ==>
      OperandOk(i.place, PlanOf(e), BlockAt(i.fn, b), p, Have(e, p, b), op, TReg(ArgR(op.index)))
    ensures op.Ref? && Available(i, e, b, op.id) && i.place[op.id] == p ==>
      OperandOk(i.place, PlanOf(e), BlockAt(i.fn, b), p, Have(e, p, b), op, TReg(InstR(op.id)))
  {
    hide Have, Clones, ClonedIds;
  }

  /** What each way to read an operand adds. */
  lemma ReadGot(i: Input, e: Emitted, b: BlockId, p: Part, op: Operand)
    requires EmitOk(i, e) && p in i.parts && b < |i.fn.blocks|
    ensures b < |e.logs| && p in e.prologue
    ensures op.Const? ==> NeedOf(i.place, b, op, p) == NOTHING
    ensures op.Arg? ==>
      Plus(Got(e), NeedOf(i.place, b, op, p)) ==
      if (p, op.index) in e.argMap then Got(e) else Got(WithArg(e, p, op.index))
    ensures op.Ref? && op.id in i.place && i.place[op.id] == p ==> NeedOf(i.place, b, op, p) == NOTHING
    ensures op.Ref? && op.id in i.place && i.place[op.id] != p ==>
      Plus(Got(e), NeedOf(i.place, b, op, p)) == Got(WithPair(e, b, i.place[op.id], p, op.id))
    ensures Plus(Got(e), NOTHING) == Got(e)
  {
    LogSize(i, e);
    InParts(i, e, p);
    NewNumber(i, e);
    hide EmitOk, WithPair, WithArg;
    NoneNeeded(Got(e));
    if op.Arg? {
      ArgGot(e, p, op.index);
      hide Bag;
      if (p, op.index) in e.argMap {
        assert e.argMap.Keys + {(p, op.index)} == e.argMap.Keys;
      }
    } else if op.Ref? && op.id in i.place {
      PairGot(e, b, i.place[op.id], p, op.id);
    }
  }

  function TermFor(terms: map<Part, TInst>, p: Part): TInst {
    if p in terms then terms[p] else RetVoid
  }

  /** From `e0` to `e` the first `n` cores' clones of `b` got their terminators, and nothing else. */
  ghost predicate TermsAppended(i: Input, e0: Emitted, e: Emitted, b: BlockId, terms: map<Part, TInst>, n: nat) {
    && n <= |i.parts|
    && EmitOk(i, e) && Grows(e0, e)
    && e == e0.(code := e.code, logs := e.logs)
    && (forall a :: a != b ==> LogIn(e, a) == LogIn(e0, a))
    && (forall q :: Have(e, q, b) == Have(e0, q, b) + (if q in i.parts[..n] then [TermFor(terms, q)] else []))
  }

  lemma NoTerms(i: Input, e: Emitted, b: BlockId, terms: map<Part, TInst>)
    requires EmitOk(i, e)
    ensures TermsAppended(i, e, e, b, terms, 0)
  {
    hide EmitOk, Have;
    SelfGrows(e);
  }

  lemma NextTerm(i: Input, e0: Emitted, e: Emitted, b: BlockId, terms: map<Part, TInst>, n: nat)
    requires TermsAppended(i, e0, e, b, terms, n) && n < |i.parts| && DistinctParts(i.parts) && b < |i.fn.blocks|
    requires var x := TermFor(terms, i.parts[n]);
      IsTerminator(x) && InstOk(i.fn, i.place, PlanOf(e0), i.parts[n], b, Have(e0, i.parts[n], b), x)
    ensures b < |e.logs|
    ensures TermsAppended(i, e0, WithInst(e, i.parts[n], b, TermFor(terms, i.parts[n])), b, terms, n + 1)
  {
    hide EmitOk, Have, InstOk, Grows, TermFor;
    var p := i.parts[n];
    var x := TermFor(terms, p);
    assert p !in i.parts[..n];
    assert i.parts[..n + 1] == i.parts[..n] + [p];
    assert Have(e, p, b) == Have(e0, p, b);
    InstStays(i, PlanOf(e0), PlanOf(e), p, b, Have(e, p, b), x);
    InstKeeps(i, e, p, b, x);
    GrowsTransitively(e0, e, WithInst(e, p, b, x));
  }

  /** Where an emission starts: an empty clone of every block for every core. */
  function NothingEmitted(i: Input): Emitted {
    Emitted(
      0, map[],
      map p, b | p in i.parts && 0 <= b < |i.fn.blocks| :: (p, b) := [],
      map p, b | p in i.parts && 0 <= b < |i.fn.blocks| :: (p, b) := [],
      map[], {}, map[],
      map p | p in i.parts :: [],
      [],
      seq(|i.fn.blocks|, b => []))
  }

  lemma NothingEmittedOk(i: Input)
    ensures EmitOk(i, NothingEmitted(i))
    ensures forall b :: 0 <= b < |i.fn.blocks| ==> LogIn(NothingEmitted(i), b) == []
  {
    NothingLogged(i);
    hide LogsOk, CodeFollowsLogs, Have;
    var e := NothingEmitted(i);
    assert CommsPaired(i, e);
    assert ArgsPaired(i, e);
  }

  lemma NothingLogged(i: Input)
    ensures CodeFollowsLogs(i, NothingEmitted(i)) && LogsOk(i.fn, i.place, PlanOf(NothingEmitted(i)))
  {
    hide EntryOk;
    var e := NothingEmitted(i);
    assert forall b :: 0 <= b < |i.fn.blocks| ==> e.logs[b] == [];
  }
}
