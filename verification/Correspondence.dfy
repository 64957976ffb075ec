/**
 The static relation between a source function and an emitted program: what each
 emitted instruction stands for, and in what order matching sends and receives were
 appended.
 */
module Correspondence {
  import opened Source
  import opened SourceRun
  import opened Target
  import opened Projection

  type Placement = map<Id, Part>

  /** A mailbox between cores: the block whose clones use it, both ends, and the value it carries. */
  datatype Chan = Chan(block: BlockId, from: Part, to: Part, src: Id)

  /** `argChans` gives the mailbox of argument `k` on core `p`; `logs` has one emission log per block. */
  datatype Plan = Plan(chans: map<nat, Chan>, argChans: map<(Part, nat), nat>, logs: seq<seq<Entry>>)

  function LogOf(plan: Plan, b: BlockId): seq<Entry> {
    if b < |plan.logs| then plan.logs[b] else []
  }

  /** In the clone of `blk` on core `p`, after the instructions `pre`, `t` holds the value of `id`. */
  predicate RefOk(place: Placement, plan: Plan, blk: Block, p: Part, pre: seq<TInst>, id: Id, t: TOp) {
    t.TReg? &&
    match t.reg
    case InstR(i) => i == id && id in place && place[id] == p && (InBody(blk, id) ==> id in Clones(pre))
    case ChanR(c) => c in plan.chans && plan.chans[c].src == id && c in Receives(pre)
    case ArgR(_) => false
  }

  predicate OperandOk(place: Placement, plan: Plan, blk: Block, p: Part, pre: seq<TInst>, src: Operand, t: TOp) {
    match src
    case Const(v) => t == TConst(v)
    case Arg(k) => (p, k) in plan.argChans && t == TReg(ArgR(k))
    case Ref(id) => RefOk(place, plan, blk, p, pre, id, t)
  }

  predicate OperandsOk(place: Placement, plan: Plan, blk: Block, p: Part, pre: seq<TInst>, srcs: seq<Operand>,
                       ts: seq<TOp>) {
    |srcs| == |ts| && forall j :: 0 <= j < |srcs| ==> OperandOk(place, plan, blk, p, pre, srcs[j], ts[j])
  }

  /** `x` is the clone of body instruction `k`, and memory operations keep their order. */
  predicate CloneOk(place: Placement, plan: Plan, blk: Block, p: Part, pre: seq<TInst>, x: TInst, k: nat)
    requires x.Clone? && k < |blk.body|
  {
    var inst := blk.body[k];
    && x.id == inst.id && x.code == inst.code && x.mem == inst.mem
    && inst.id in place && place[inst.id] == p
    && OperandsOk(place, plan, blk, p, pre, inst.args, x.args)
    && (inst.mem ==> MemClones(pre) == MemBefore(blk.body, k))
  }

  /** `x` may follow `pre` in the clone of block `b` on core `p`. */
  predicate InstOk(fn: Function, place: Placement, plan: Plan, p: Part, b: BlockId, pre: seq<TInst>, x: TInst) {
    var blk := BlockAt(fn, b);
    match x
    case Clone(_, _, _, _) =>
      exists k :: 0 <= k < |blk.body| && CloneOk(place, plan, blk, p, pre, x, k)
    case Send(v, to, c) =>
      && c in plan.chans && plan.chans[c].block == b && plan.chans[c].from == p && plan.chans[c].to == to
      && v == TReg(InstR(plan.chans[c].src))
      && RefOk(place, plan, blk, p, pre, plan.chans[c].src, v)
      && c !in Sends(pre)
    case Receive(from, c) =>
      && c in plan.chans && plan.chans[c].block == b && plan.chans[c].from == from && plan.chans[c].to == p
      && c !in Receives(pre)
    case SendReturn(v) =>
      && blk.term.Ret? && blk.term.value.Some?
      && blk.term.id in place && place[blk.term.id] == p
      && OperandOk(place, plan, blk, p, pre, blk.term.value.value, v)
      && Returns(pre) == 0
    case RetVoid => blk.term.Ret?
    case Jump(d) => blk.term == Br(d)
    case Branch(v, d1, d2) =>
      && blk.term.CondBr? && blk.term.dest1 == d1 && blk.term.dest2 == d2
      && OperandOk(place, plan, blk, p, pre, blk.term.cond, v)
  }

  /** The log may go on with `e`; a receive comes after its send. */
  predicate EntryOk(fn: Function, place: Placement, plan: Plan, b: BlockId, before: seq<Entry>, e: Entry) {
    && InstOk(fn, place, plan, e.part, b, Project(before, e.part), e.inst)
    && (e.inst.Receive? ==> e.inst.chan in Sends(Project(before, e.inst.from)))
  }

  ghost predicate LogOk(fn: Function, place: Placement, plan: Plan, b: BlockId, log: seq<Entry>) {
    forall m {:trigger log[m]} :: 0 <= m < |log| ==> EntryOk(fn, place, plan, b, log[..m], log[m])
  }

  ghost predicate LogsOk(fn: Function, place: Placement, plan: Plan) {
    && |plan.logs| == |fn.blocks|
    && forall b :: 0 <= b < |plan.logs| ==> LogOk(fn, place, plan, b, plan.logs[b])
  }

  /** Every core's clone of a block is the block's log restricted to that core. */
  ghost predicate CodeProjects(fn: Function, tgt: Target, plan: Plan) {
    forall p, b :: p in tgt.parts && 0 <= b < |fn.blocks| ==> CodeOf(tgt, p, b) == Project(LogOf(plan, b), p)
  }

  /** Each mailbox has a send at one end and a receive at the other, on two different cores. */
  ghost predicate ChansMatched(fn: Function, tgt: Target, plan: Plan) {
    forall c {:trigger plan.chans[c]} :: c in plan.chans ==>
      var ch := plan.chans[c];
      && ch.block < |fn.blocks| && ch.from in tgt.parts && ch.to in tgt.parts && ch.from != ch.to
      && c in Sends(CodeOf(tgt, ch.from, ch.block))
      && c in Receives(CodeOf(tgt, ch.to, ch.block))
  }

  ghost predicate ClonesComplete(fn: Function, place: Placement, tgt: Target) {
    forall b, k :: 0 <= b < |fn.blocks| && 0 <= k < |fn.blocks[b].body| ==>
      var id := fn.blocks[b].body[k].id;
      id in place && id in Clones(CodeOf(tgt, place[id], b))
  }

  /** The clone `tphi` takes from each predecessor the value `phi` does. */
  predicate PhiTakes(fn: Function, place: Placement, tgt: Target, plan: Plan, p: Part, tphi: TPhi, phi: Phi) {
    && tphi.id == phi.id && phi.id in place && place[phi.id] == p
    && |tphi.incoming| == |phi.incoming|
    && forall j :: 0 <= j < |phi.incoming| ==>
         var pred := phi.incoming[j].0;
         && tphi.incoming[j].0 == pred
         && OperandOk(place, plan, BlockAt(fn, pred), p, CodeOf(tgt, p, pred), phi.incoming[j].1, tphi.incoming[j].1)
  }

  predicate PhiOk(fn: Function, place: Placement, tgt: Target, plan: Plan, p: Part, tphi: TPhi, phi: Phi) {
    PhiTakes(fn, place, tgt, plan, p, tphi, phi) && OneValuePerPred(tphi.incoming)
  }

  predicate ClonesSomePhi(fn: Function, place: Placement, tgt: Target, plan: Plan, p: Part, tphi: TPhi,
                          phis: seq<Phi>) {
    exists k :: 0 <= k < |phis| && PhiOk(fn, place, tgt, plan, p, tphi, phis[k])
  }

  /** The clone's phis are the source phis placed on its core, each once. */
  ghost predicate PhisOk(fn: Function, place: Placement, tgt: Target, plan: Plan, p: Part, b: BlockId) {
    var phis := BlockAt(fn, b).phis;
    var tphis := CloneOf(tgt, p, b).phis;
    && (forall i, j :: 0 <= i < j < |tphis| ==> tphis[i].id != tphis[j].id)
    && (forall i :: 0 <= i < |tphis| ==> ClonesSomePhi(fn, place, tgt, plan, p, tphis[i], phis))
    && (forall k :: 0 <= k < |phis| ==>
          phis[k].id in place && (place[phis[k].id] == p ==> exists i :: 0 <= i < |tphis| && tphis[i].id == phis[k].id))
  }

  /** A clone ends in its only terminator. */
  predicate Terminated(code: seq<TInst>) {
    |code| > 0 && forall i :: 0 <= i < |code| ==> (IsTerminator(code[i]) <==> i == |code| - 1)
  }

  ghost predicate ClonesWellFormed(fn: Function, place: Placement, tgt: Target, plan: Plan) {
    forall p, b :: p in tgt.parts && 0 <= b < |fn.blocks| ==>
      Terminated(CodeOf(tgt, p, b)) && PhisOk(fn, place, tgt, plan, p, b)
  }

  /** A returned value is sent to the host once, from the core of the return. */
  ghost predicate ReturnsSent(fn: Function, place: Placement, tgt: Target) {
    && tgt.returnsValue == fn.returnsValue
    && forall b :: 0 <= b < |fn.blocks| && fn.blocks[b].term.Ret? ==>
         var term := fn.blocks[b].term;
         term.id in place && (term.value.Some? ==> Returns(CodeOf(tgt, place[term.id], b)) == 1)
  }

  /** The host writes one mailbox per argument and core that asks for it, and that core reads it in its prologue. */
  ghost predicate ArgsMatched(fn: Function, tgt: Target, plan: Plan) {
    && (forall i, j :: 0 <= i < j < |tgt.host| ==> tgt.host[i].chan != tgt.host[j].chan)
    && (forall i :: 0 <= i < |tgt.host| ==>
          var m := tgt.host[i];
          m.chan !in plan.chans && (m.to, m.index) in plan.argChans && plan.argChans[(m.to, m.index)] == m.chan)
    && (forall p, i :: p in tgt.parts && 0 <= i < |PrologueOf(tgt, p)| ==>
          var r := PrologueOf(tgt, p)[i]; ArgSend(r.index, p, r.chan) in tgt.host)
    && (forall p, k :: (p, k) in plan.argChans ==>
          p in tgt.parts && ArgReceive(k, plan.argChans[(p, k)]) in PrologueOf(tgt, p))
  }

  /** Every instruction is placed on a running core, and memory operations on core 0. */
  ghost predicate Placed(fn: Function, place: Placement, parts: seq<Part>) {
    && (forall id :: id in place ==> place[id] in parts)
    && (forall b, id {:trigger Defines(BlockAt(fn, b), id)} :: Defines(BlockAt(fn, b), id) ==> id in place)
    && (forall b :: 0 <= b < |fn.blocks| && fn.blocks[b].term.Ret? ==> fn.blocks[b].term.id in place)
    && (forall b, k :: 0 <= b < |fn.blocks| && 0 <= k < |fn.blocks[b].body| && fn.blocks[b].body[k].mem ==>
          fn.blocks[b].body[k].id in place && place[fn.blocks[b].body[k].id] == 0)
  }

  predicate ReadsLocally(place: Placement, id: Id, op: Operand) {
    op.Ref? ==> id in place && op.id in place && place[op.id] == place[id]
  }

  /** Where a phi names a predecessor twice it takes a constant, an argument or a value of its own core. */
  predicate RepeatsLocal(fn: Function, place: Placement) {
    forall b, k :: 0 <= b < |fn.blocks| && 0 <= k < |fn.blocks[b].phis| ==> PhiRepeatsLocal(place, fn.blocks[b].phis[k])
  }

  predicate PhiRepeatsLocal(place: Placement, phi: Phi) {
    forall j, k :: 0 <= j < k < |phi.incoming| && phi.incoming[j].0 == phi.incoming[k].0 ==>
      ReadsLocally(place, phi.id, phi.incoming[j].1)
  }

  /** No phi names a predecessor twice. */
  predicate PredecessorsOnce(fn: Function) {
    forall b, k :: 0 <= b < |fn.blocks| && 0 <= k < |fn.blocks[b].phis| ==> NamesOnce(fn.blocks[b].phis[k])
  }

  predicate NamesOnce(phi: Phi) {
    forall j, k :: 0 <= j < k < |phi.incoming| ==> phi.incoming[j].0 != phi.incoming[k].0
  }

  lemma OnceIsLocal(fn: Function, place: Placement)
    requires PredecessorsOnce(fn)
    ensures RepeatsLocal(fn, place)
  {
    forall b, k | 0 <= b < |fn.blocks| && 0 <= k < |fn.blocks[b].phis|
      ensures PhiRepeatsLocal(place, fn.blocks[b].phis[k])
    {
      assert NamesOnce(fn.blocks[b].phis[k]);
    }
  }

  predicate DistinctParts(parts: seq<Part>) {
    forall i, j :: 0 <= i < j < |parts| ==> parts[i] != parts[j]
  }

  /** What holds of `tgt`, with the record `plan` of its mailboxes and logs, whatever the phis. */
  ghost predicate Translates(fn: Function, place: Placement, tgt: Target, plan: Plan) {
    && DistinctParts(tgt.parts)
    && Placed(fn, place, tgt.parts)
    && LogsOk(fn, place, plan)
    && CodeProjects(fn, tgt, plan)
    && ChansMatched(fn, tgt, plan)
    && ClonesComplete(fn, place, tgt)
    && ReturnsSent(fn, place, tgt)
    && ArgsMatched(fn, tgt, plan)
  }

  /** `tgt` is a faithful partitioning of `fn`. */
  ghost predicate Implements(fn: Function, place: Placement, tgt: Target, plan: Plan) {
    && |tgt.parts| > 0
    && Translates(fn, place, tgt, plan)
    && ClonesWellFormed(fn, place, tgt, plan)
  }

  // ---------- Reading the relation at one instruction ----------

  /** Instruction `i` of a clone, and its place in the log. */
  lemma InstAt(fn: Function, place: Placement, tgt: Target, plan: Plan, p: Part, b: BlockId, i: nat)
    requires Implements(fn, place, tgt, plan) && p in tgt.parts && b < |fn.blocks| && i < |CodeOf(tgt, p, b)|
    ensures var code := CodeOf(tgt, p, b); InstOk(fn, place, plan, p, b, code[..i], code[i])
    ensures var code := CodeOf(tgt, p, b); code[i].Receive? ==>
      i < |Project(LogOf(plan, b), p)| &&
      var m := Locate(LogOf(plan, b), p, i);
      m < |LogOf(plan, b)| && code[i].chan in Sends(Project(LogOf(plan, b)[..m], code[i].from))
  {
    var log := LogOf(plan, b);
    LocateSpec(log, p, i);
    assert LogOk(fn, place, plan, b, plan.logs[b]);
    var m := Locate(log, p, i);
    assert EntryOk(fn, place, plan, b, log[..m], log[m]);
  }

  /** The send of a mailbox stands before its receive in the block's log. */
  lemma SendBeforeReceive(fn: Function, place: Placement, tgt: Target, plan: Plan, c: nat, i: nat, j: nat)
    requires Implements(fn, place, tgt, plan) && c in plan.chans
    requires var ch := plan.chans[c];
      && i < |CodeOf(tgt, ch.from, ch.block)| && CodeOf(tgt, ch.from, ch.block)[i].Send?
      && CodeOf(tgt, ch.from, ch.block)[i].chan == c
      && j < |CodeOf(tgt, ch.to, ch.block)| && CodeOf(tgt, ch.to, ch.block)[j].Receive?
      && CodeOf(tgt, ch.to, ch.block)[j].chan == c
    ensures var ch := plan.chans[c]; var log := LogOf(plan, ch.block);
      && i < |Project(log, ch.from)| && j < |Project(log, ch.to)|
      && Locate(log, ch.from, i) < Locate(log, ch.to, j)
  {
    var ch := plan.chans[c];
    var log := LogOf(plan, ch.block);
    var code := CodeOf(tgt, ch.from, ch.block);
    InstAt(fn, place, tgt, plan, ch.to, ch.block, j);
    var m := Locate(log, ch.to, j);
    LocateSpec(log, ch.to, j);
    LocateSpec(log, ch.from, i);
    if m <= Locate(log, ch.from, i) {
      ProjectPrefix(log, ch.from, m, i);
      InstAt(fn, place, tgt, plan, ch.from, ch.block, i);
    }
  }

  /** Up to log position `m`, a core has no more than the instructions located before it. */
  lemma {:induction false} ProjectPrefix(log: seq<Entry>, p: Part, m: nat, i: nat)
    requires i < |Project(log, p)| && m <= Locate(log, p, i) && m <= |log|
    ensures Sends(Project(log[..m], p)) <= Sends(Project(log, p)[..i])
    ensures Clones(Project(log[..m], p)) <= Clones(Project(log, p)[..i])
  {
    LocateSpec(log, p, i);
    LogPrefix(log, p, m, Locate(log, p, i));
  }

  lemma {:induction false} LogPrefix(log: seq<Entry>, p: Part, m: nat, n: nat)
    requires m <= n <= |log|
    ensures Sends(Project(log[..m], p)) <= Sends(Project(log[..n], p))
    ensures Clones(Project(log[..m], p)) <= Clones(Project(log[..n], p))
    ensures Receives(Project(log[..m], p)) <= Receives(Project(log[..n], p))
  {
    if m < n {
      LogPrefix(log, p, m, n - 1);
      assert log[..n] == log[..n - 1] + [log[n - 1]];
      ProjectAppend(log[..n - 1], log[n - 1], p);
      AppendOne(Project(log[..n - 1], p), log[n - 1].inst);
    }
  }

  predicate SendsTo(x: TInst, c: nat) {
    x.Send? && x.chan == c
  }

  predicate ReceivesFrom(x: TInst, c: nat) {
    x.Receive? && x.chan == c
  }

  /** Instruction `k` of a clone that names a mailbox stands at the mailbox's end, in its block. */
  lemma AtItsEnd(fn: Function, place: Placement, tgt: Target, plan: Plan, p: Part, b: BlockId, k: nat, c: nat)
    requires Implements(fn, place, tgt, plan) && p in tgt.parts && b < |fn.blocks| && k < |CodeOf(tgt, p, b)|
    ensures SendsTo(CodeOf(tgt, p, b)[k], c) ==>
      c in plan.chans && plan.chans[c].block == b && plan.chans[c].from == p && c !in Sends(CodeOf(tgt, p, b)[..k])
    ensures ReceivesFrom(CodeOf(tgt, p, b)[k], c) ==>
      c in plan.chans && plan.chans[c].block == b && plan.chans[c].to == p && c !in Receives(CodeOf(tgt, p, b)[..k])
  {
    InstAt(fn, place, tgt, plan, p, b, k);
  }

  /**
   Each mailbox has one send and one receive in the whole program, in clones of the same
   block on two different cores, and the send was appended first.
   */
  lemma StaticMatching(fn: Function, place: Placement, tgt: Target, plan: Plan, c: nat) returns (i: nat, j: nat)
    requires Implements(fn, place, tgt, plan) && c in plan.chans
    ensures var ch := plan.chans[c]; var log := LogOf(plan, ch.block);
      && ch.from in tgt.parts && ch.to in tgt.parts && ch.from != ch.to && ch.block < |fn.blocks|
      && i < |CodeOf(tgt, ch.from, ch.block)| && SendsTo(CodeOf(tgt, ch.from, ch.block)[i], c)
      && j < |CodeOf(tgt, ch.to, ch.block)| && ReceivesFrom(CodeOf(tgt, ch.to, ch.block)[j], c)
      && i < |Project(log, ch.from)| && j < |Project(log, ch.to)| && Locate(log, ch.from, i) < Locate(log, ch.to, j)
    ensures forall p, b: BlockId, k :: p in tgt.parts && b < |fn.blocks| && 0 <= k < |CodeOf(tgt, p, b)| ==>
      && (SendsTo(CodeOf(tgt, p, b)[k], c) ==> p == plan.chans[c].from && b == plan.chans[c].block && k == i)
      && (ReceivesFrom(CodeOf(tgt, p, b)[k], c) ==> p == plan.chans[c].to && b == plan.chans[c].block && k == j)
  {
    var ch := plan.chans[c];
    var sender, receiver := CodeOf(tgt, ch.from, ch.block), CodeOf(tgt, ch.to, ch.block);
    assert c in Sends(sender) && c in Receives(receiver);
    i := SendIndex(sender, c);
    j := ReceiveIndex(receiver, c);
    SendBeforeReceive(fn, place, tgt, plan, c, i, j);
    AtItsEnd(fn, place, tgt, plan, ch.from, ch.block, i, c);
    AtItsEnd(fn, place, tgt, plan, ch.to, ch.block, j, c);
    hide Implements, CodeOf, Sends, Receives;
    forall p, b: BlockId, k | p in tgt.parts && b < |fn.blocks| && 0 <= k < |CodeOf(tgt, p, b)|
      ensures SendsTo(CodeOf(tgt, p, b)[k], c) ==> p == ch.from && b == ch.block && k == i
      ensures ReceivesFrom(CodeOf(tgt, p, b)[k], c) ==> p == ch.to && b == ch.block && k == j
    {
      AtItsEnd(fn, place, tgt, plan, p, b, k, c);
      var code := CodeOf(tgt, p, b);
      if SendsTo(code[k], c) {
        OnlyIndex(code, k, i, c);
      } else if ReceivesFrom(code[k], c) {
        OnlyIndex(code, k, j, c);
      }
    }
  }

  lemma OnlyIndex(code: seq<TInst>, k: nat, i: nat, c: nat)
    requires k < |code| && i < |code|
    ensures SendsFirst(code, k, c) && SendsFirst(code, i, c) ==> k == i
    ensures ReceivesFirst(code, k, c) && ReceivesFirst(code, i, c) ==> k == i
  {
    if k < i {
      Contains(code[..i], k);
    } else if i < k {
      Contains(code[..k], i);
    }
  }

  predicate SendsFirst(code: seq<TInst>, k: nat, c: nat)
    requires k < |code|
  {
    SendsTo(code[k], c) && c !in Sends(code[..k])
  }

  predicate ReceivesFirst(code: seq<TInst>, k: nat, c: nat)
    requires k < |code|
  {
    ReceivesFrom(code[k], c) && c !in Receives(code[..k])
  }
}
