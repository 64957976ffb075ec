/**
 What every core keeps, step by step: it is at some visit of the sequential run, and
 the registers it may read hold the values of that run.
 */
module CoreInvariant {
  import opened Source
  import opened SourceRun
  import opened Target
  import opened Projection
  import opened Correspondence

  /** A run of the emitted program next to the sequential run it stands for. */
  datatype Setup = Setup(job: Job, place: Placement, tgt: Target, plan: Plan)

  ghost predicate Compiled(x: Setup) {
    Shape(x.job.fn) && Implements(x.job.fn, x.place, x.tgt, x.plan)
  }

  /** The visit the core is in. */
  function VisitOf(core: Core): nat
    requires |core.visits| > 0
  {
    |core.visits| - 1
  }

  function CodeAt(x: Setup, p: Part, core: Core): seq<TInst>
    requires |core.visits| > 0
  {
    CodeOf(x.tgt, p, core.visits[VisitOf(core)])
  }

  /** The part of the current clone the core has run. */
  function RunSoFar(x: Setup, p: Part, core: Core): seq<TInst>
    requires |core.visits| > 0 && core.pc <= |CodeAt(x, p, core)|
  {
    CodeAt(x, p, core)[..core.pc]
  }

  /** The core's block sequence is a prefix of the sequential one. */
  ghost predicate InLockStep(x: Setup, core: Core) {
    && |core.visits| > 0
    && Live(x.job, VisitOf(core))
    && forall s :: 0 <= s < |core.visits| ==> core.visits[s] == BlockOf(x.job, s)
  }

  ghost predicate PhaseOk(x: Setup, p: Part, core: Core)
    requires InLockStep(x, core)
  {
    && core.pc <= |CodeAt(x, p, core)|
    && (core.done <==> core.pc == |CodeAt(x, p, core)|)
    && (core.done ==> BlockAt(x.job.fn, BlockOf(x.job, VisitOf(core))).term.Ret?)
    && core.argsRead <= |PrologueOf(x.tgt, p)|
    && (core.argsRead < |PrologueOf(x.tgt, p)| ==> VisitOf(core) == 0 && core.pc == 0)
  }

  ghost predicate ArgsHeld(x: Setup, p: Part, core: Core) {
    && core.argsRead <= |PrologueOf(x.tgt, p)|
    && forall i :: 0 <= i < core.argsRead ==>
         var k := PrologueOf(x.tgt, p)[i].index; ReadReg(core.regs, ArgR(k)) == ReadArg(x.job.args, k)
  }

  /** `id` belongs to core `p` and, in a clone that has run `ran` of block `blk`, has its current value. */
  predicate Settled(x: Setup, p: Part, blk: Block, ran: seq<TInst>, id: Id) {
    id in x.place && x.place[id] == p && (InBody(blk, id) ==> id in Clones(ran))
  }

  ghost predicate ClonesHeld(x: Setup, p: Part, core: Core, t: nat, ran: seq<TInst>) {
    forall id :: Settled(x, p, BlockAt(x.job.fn, BlockOf(x.job, t)), ran, id) ==>
      ReadReg(core.regs, InstR(id)) == ValueAt(x.job, t, id)
  }

  ghost predicate ReceivedHeld(x: Setup, core: Core, t: nat, ran: seq<TInst>) {
    forall c :: c in Receives(ran) ==>
      c in x.plan.chans && ReadReg(core.regs, ChanR(c)) == ValueAt(x.job, t, x.plan.chans[c].src)
  }

  /** Core `p`, at visit `t` with `ran` behind it, has run its clone of `id` in visit `s`. */
  predicate HasRun(x: Setup, p: Part, t: nat, ran: seq<TInst>, s: nat, id: Id) {
    && s <= t && id in x.place && x.place[id] == p
    && var blk := BlockAt(x.job.fn, BlockOf(x.job, s));
       IsPhi(blk, id) || (InBody(blk, id) && (s == t ==> id in Clones(ran)))
  }

  /** The core's history holds exactly its executed clones, each with the sequential value. */
  ghost predicate HistoryOk(x: Setup, p: Part, core: Core, t: nat, ran: seq<TInst>) {
    && (forall s: nat, id: nat :: (s, id) in core.history <==> HasRun(x, p, t, ran, s, id))
    && (forall s: nat, id: nat :: (s, id) in core.history ==> core.history[(s, id)] == ValueAt(x.job, s, id))
  }

  ghost predicate CoreOk(x: Setup, p: Part, core: Core) {
    && InLockStep(x, core)
    && PhaseOk(x, p, core)
    && ArgsHeld(x, p, core)
    && var t := VisitOf(core); var ran := RunSoFar(x, p, core);
       && ClonesHeld(x, p, core, t, ran)
       && ReceivedHeld(x, core, t, ran)
       && HistoryOk(x, p, core, t, ran)
  }

  // ---------- Single facts of a compiled program ----------

  lemma CloneShape(x: Setup, p: Part, b: BlockId)
    requires Compiled(x) && p in x.tgt.parts && b < |x.job.fn.blocks|
    ensures Terminated(CodeOf(x.tgt, p, b))
    ensures PhisOk(x.job.fn, x.place, x.tgt, x.plan, p, b)
  {
  }

  lemma PhiClones(x: Setup, p: Part, b: BlockId)
    requires Compiled(x) && p in x.tgt.parts && b < |x.job.fn.blocks|
    ensures var tphis := CloneOf(x.tgt, p, b).phis;
      && (forall i, j :: 0 <= i < j < |tphis| ==> tphis[i].id != tphis[j].id)
      && (forall id :: IsPhi(BlockAt(x.job.fn, b), id) ==>
            id in x.place && (x.place[id] == p ==> exists i :: 0 <= i < |tphis| && tphis[i].id == id))
  {
    hide Shape, Implements;
    CloneShape(x, p, b);
  }

  lemma ArgInPrologue(x: Setup, p: Part, k: nat)
    requires Compiled(x) && (p, k) in x.plan.argChans
    ensures exists i :: 0 <= i < |PrologueOf(x.tgt, p)| && PrologueOf(x.tgt, p)[i].index == k
  {
    assert ArgReceive(k, x.plan.argChans[(p, k)]) in PrologueOf(x.tgt, p);
  }

  lemma CloneOfBody(x: Setup, b: BlockId, k: nat)
    requires Compiled(x) && b < |x.job.fn.blocks| && k < |BlockAt(x.job.fn, b).body|
    ensures var id := BlockAt(x.job.fn, b).body[k].id; id in x.place && id in Clones(CodeOf(x.tgt, x.place[id], b))
  {
  }

  // ---------- Reading operands ----------

  /** An operand of the clone reads the value its source operand has at the end of the visit. */
  lemma EvalAgrees(x: Setup, p: Part, core: Core, pre: seq<TInst>, src: Operand, t: TOp)
    requires Compiled(x) && CoreOk(x, p, core) && core.argsRead == |PrologueOf(x.tgt, p)|
    requires Clones(pre) == Clones(RunSoFar(x, p, core)) && Receives(pre) == Receives(RunSoFar(x, p, core))
    requires OperandOk(x.place, x.plan, BlockAt(x.job.fn, BlockOf(x.job, VisitOf(core))), p, pre, src, t)
    ensures EvalT(core.regs, t) == Eval(x.job.args, Leave(x.job, VisitOf(core)).env, src)
  {
    hide Shape, Implements, Enter;
    match src
    case Const(v) =>
    case Arg(k) =>
      ArgInPrologue(x, p, k);
      var i :| 0 <= i < |PrologueOf(x.tgt, p)| && PrologueOf(x.tgt, p)[i].index == k;
    case Ref(id) =>
      if t.reg.InstR? {
        assert Settled(x, p, BlockAt(x.job.fn, BlockOf(x.job, VisitOf(core))), RunSoFar(x, p, core), id);
      }
  }

  /** An operand of a body instruction has its end-of-visit value when the instruction runs. */
  lemma OperandSettled(job: Job, t: nat, k: nat, op: Operand)
    requires Shape(job.fn) && k < |BodyOf(job, t)|
    requires op in BodyOf(job, t)[k].args
    ensures Eval(job.args, During(job, t, k).env, op) == Eval(job.args, Leave(job, t).env, op)
  {
    InRange(job, t);
    var b := BlockOf(job, t);
    var blk := BlockAt(job.fn, b);
    assert BlockShape(job.fn, b);
    var j :| 0 <= j < |blk.body[k].args| && blk.body[k].args[j] == op;
    assert DefinedInOrder(blk, k, op);
    if op.Ref? {
      if InBody(blk, op.id) {
        var i :| 0 <= i < k && i < |blk.body| && blk.body[i].id == op.id;
        assert forall m :: k <= m < |blk.body| ==> blk.body[i].id != blk.body[m].id;
      }
      ValueBefore(job, t, k, op.id);
    }
  }

  /** The operands of a clone, read on its core, are the operands of the instruction it clones. */
  lemma ArgumentsAgree(x: Setup, p: Part, core: Core, k: nat, c: TInst)
    requires Compiled(x) && CoreOk(x, p, core) && core.argsRead == |PrologueOf(x.tgt, p)|
    requires c.Clone? && k < |BodyOf(x.job, VisitOf(core))|
    requires CloneOk(x.place, x.plan, BlockAt(x.job.fn, BlockOf(x.job, VisitOf(core))), p, RunSoFar(x, p, core), c, k)
    ensures EvalAllT(core.regs, c.args) ==
            EvalAll(x.job.args, During(x.job, VisitOf(core), k).env, BodyOf(x.job, VisitOf(core))[k].args)
  {
    hide Shape, Implements, ValueAt, Enter;
    var t := VisitOf(core);
    var args := BodyOf(x.job, t)[k].args;
    forall i | 0 <= i < |args|
      ensures EvalT(core.regs, c.args[i]) == Eval(x.job.args, During(x.job, t, k).env, args[i])
    {
      EvalAgrees(x, p, core, RunSoFar(x, p, core), args[i], c.args[i]);
      OperandSettled(x.job, t, k, args[i]);
    }
  }

  // ---------- Steps inside a block ----------

  lemma ValueRecorded(x: Setup, p: Part, core: Core, core': Core, t: nat, ran: seq<TInst>, ran': seq<TInst>,
                      cid: Id, made: Value)
    requires ClonesHeld(x, p, core, t, ran) && HistoryOk(x, p, core, t, ran)
    requires cid in x.place && x.place[cid] == p && InBody(BlockAt(x.job.fn, BlockOf(x.job, t)), cid)
    requires made == ValueAt(x.job, t, cid) && Clones(ran') == Clones(ran) + {cid}
    requires core'.regs == core.regs[InstR(cid) := made] && core'.history == core.history[(t, cid) := made]
    ensures ClonesHeld(x, p, core', t, ran') && HistoryOk(x, p, core', t, ran')
  {
    hide ValueAt, Clones, InBody, IsPhi, BlockOf;
    var blk := BlockAt(x.job.fn, BlockOf(x.job, t));
    forall id | Settled(x, p, blk, ran', id)
      ensures ReadReg(core'.regs, InstR(id)) == ValueAt(x.job, t, id)
    {
      if id != cid {
        assert Settled(x, p, blk, ran, id);
      }
    }
    forall s: nat, id: nat ensures (s, id) in core'.history <==> HasRun(x, p, t, ran', s, id) {
      assert (s, id) in core.history <==> HasRun(x, p, t, ran, s, id);
    }
  }

  /** What the core has run after one more instruction of the block. */
  lemma OneMore(x: Setup, p: Part, core: Core, core': Core)
    requires |core.visits| > 0 && core.pc < |CodeAt(x, p, core)|
    requires core'.visits == core.visits && core'.pc == core.pc + 1
    ensures var inst := CodeAt(x, p, core)[core.pc];
      && CodeAt(x, p, core') == CodeAt(x, p, core)
      && RunSoFar(x, p, core') == RunSoFar(x, p, core) + [inst]
      && Clones(RunSoFar(x, p, core')) == Clones(RunSoFar(x, p, core)) + (if inst.Clone? then {inst.id} else {})
      && Receives(RunSoFar(x, p, core')) == Receives(RunSoFar(x, p, core)) + (if inst.Receive? then {inst.chan} else {})
  {
    Extend(CodeAt(x, p, core), core.pc);
  }

  /** A clone instruction is the clone of an instruction of the block, placed on its core. */
  lemma CloneIsPlaced(x: Setup, p: Part, core: Core)
    requires Compiled(x) && p in x.tgt.parts && CoreOk(x, p, core)
    requires AtInstruction(x.tgt, p, core) && NextInst(x.tgt, p, core).Clone?
    ensures var id := NextInst(x.tgt, p, core).id;
      id in x.place && x.place[id] == p && InBody(BlockAt(x.job.fn, BlockOf(x.job, VisitOf(core))), id)
  {
    hide Shape, Implements, ValueAt, Enter;
    InRange(x.job, VisitOf(core));
    InstAt(x.job.fn, x.place, x.tgt, x.plan, p, BlockOf(x.job, VisitOf(core)), core.pc);
  }

  lemma CloneKeeps(x: Setup, p: Part, core: Core, made: Value)
    requires Compiled(x) && p in x.tgt.parts && CoreOk(x, p, core)
    requires AtInstruction(x.tgt, p, core) && NextInst(x.tgt, p, core).Clone?
    requires made == ValueAt(x.job, VisitOf(core), NextInst(x.tgt, p, core).id)
    ensures CoreOk(x, p, CoreAfter(x.tgt, x.job.sem, p, core, NextInst(x.tgt, p, core), 0, made))
  {
    hide Compiled, ValueAt, BlockOf, Clones, Receives, ClonesHeld, HistoryOk, InBody;
    var c := NextInst(x.tgt, p, core);
    CloneIsPlaced(x, p, core);
    NotLast(x, p, core);
    hide Terminated;
    var core' := CoreAfter(x.tgt, x.job.sem, p, core, c, 0, made);
    OneMore(x, p, core, core');
    ValueRecorded(x, p, core, core', VisitOf(core), RunSoFar(x, p, core), RunSoFar(x, p, core'), c.id, made);
  }

  /** A non-terminator is not the last instruction of its clone. */
  lemma NotLast(x: Setup, p: Part, core: Core)
    requires Compiled(x) && p in x.tgt.parts && CoreOk(x, p, core) && AtInstruction(x.tgt, p, core)
    ensures BlockOf(x.job, VisitOf(core)) < |x.job.fn.blocks|
    ensures Terminated(CodeAt(x, p, core))
    ensures IsTerminator(NextInst(x.tgt, p, core)) <==> core.pc + 1 == |CodeAt(x, p, core)|
  {
    hide Shape, Implements, ValueAt, Enter;
    InRange(x.job, VisitOf(core));
    CloneShape(x, p, BlockOf(x.job, VisitOf(core)));
  }

  lemma ReceiveKeeps(x: Setup, p: Part, core: Core, got: Value)
    requires Compiled(x) && p in x.tgt.parts && CoreOk(x, p, core)
    requires AtInstruction(x.tgt, p, core) && NextInst(x.tgt, p, core).Receive?
    requires var c := NextInst(x.tgt, p, core).chan;
      c in x.plan.chans ==> got == ValueAt(x.job, VisitOf(core), x.plan.chans[c].src)
    ensures CoreOk(x, p, CoreAfter(x.tgt, x.job.sem, p, core, NextInst(x.tgt, p, core), got, 0))
  {
    hide Compiled, ValueAt, BlockOf, Clones, Receives, ClonesHeld, HistoryOk;
    ReceiveIsKnown(x, p, core);
    NotLast(x, p, core);
    hide Terminated;
    var core' := CoreAfter(x.tgt, x.job.sem, p, core, NextInst(x.tgt, p, core), got, 0);
    OneMore(x, p, core, core');
    SameClones(x, p, core, core');
  }

  lemma ReceiveIsKnown(x: Setup, p: Part, core: Core)
    requires Compiled(x) && p in x.tgt.parts && CoreOk(x, p, core)
    requires AtInstruction(x.tgt, p, core) && NextInst(x.tgt, p, core).Receive?
    ensures NextInst(x.tgt, p, core).chan in x.plan.chans
  {
    hide Shape, Implements, ValueAt, Enter;
    InRange(x.job, VisitOf(core));
    InstAt(x.job.fn, x.place, x.tgt, x.plan, p, BlockOf(x.job, VisitOf(core)), core.pc);
  }

  /** Instructions that compute nothing leave clone values and history alone. */
  lemma SameClones(x: Setup, p: Part, core: Core, core': Core)
    requires CoreOk(x, p, core)
    requires core'.visits == core.visits && core'.history == core.history && core'.pc <= |CodeAt(x, p, core')|
    requires forall id :: ReadReg(core'.regs, InstR(id)) == ReadReg(core.regs, InstR(id))
    requires Clones(RunSoFar(x, p, core')) == Clones(RunSoFar(x, p, core))
    ensures ClonesHeld(x, p, core', VisitOf(core'), RunSoFar(x, p, core'))
    ensures HistoryOk(x, p, core', VisitOf(core'), RunSoFar(x, p, core'))
  {
    var t := VisitOf(core);
    var ran := RunSoFar(x, p, core);
    var ran' := RunSoFar(x, p, core');
    forall id | Settled(x, p, BlockAt(x.job.fn, BlockOf(x.job, t)), ran', id)
      ensures ReadReg(core'.regs, InstR(id)) == ValueAt(x.job, t, id)
    {
      assert Settled(x, p, BlockAt(x.job.fn, BlockOf(x.job, t)), ran, id);
    }
    forall s: nat, id: nat ensures HasRun(x, p, t, ran', s, id) <==> HasRun(x, p, t, ran, s, id) {}
  }

  /** Sends and the return send change no register. */
  lemma SendKeeps(x: Setup, p: Part, core: Core)
    requires Compiled(x) && p in x.tgt.parts && CoreOk(x, p, core) && AtInstruction(x.tgt, p, core)
    requires NextInst(x.tgt, p, core).Send? || NextInst(x.tgt, p, core).SendReturn?
    ensures CoreOk(x, p, CoreAfter(x.tgt, x.job.sem, p, core, NextInst(x.tgt, p, core), 0, 0))
  {
    hide Compiled, ValueAt, BlockOf, Clones, Receives, ClonesHeld, HistoryOk;
    NotLast(x, p, core);
    hide Terminated;
    var core' := CoreAfter(x.tgt, x.job.sem, p, core, NextInst(x.tgt, p, core), 0, 0);
    OneMore(x, p, core, core');
    SameClones(x, p, core, core');
  }

  lemma RetVoidKeeps(x: Setup, p: Part, core: Core)
    requires Compiled(x) && p in x.tgt.parts && CoreOk(x, p, core) && AtInstruction(x.tgt, p, core)
    requires NextInst(x.tgt, p, core).RetVoid?
    ensures CoreOk(x, p, CoreAfter(x.tgt, x.job.sem, p, core, NextInst(x.tgt, p, core), 0, 0))
  {
    hide Compiled, ValueAt, BlockOf, Clones, Receives, ClonesHeld, HistoryOk;
    RetVoidAtReturn(x, p, core);
    NotLast(x, p, core);
    hide Terminated;
    var core' := CoreAfter(x.tgt, x.job.sem, p, core, NextInst(x.tgt, p, core), 0, 0);
    OneMore(x, p, core, core');
    SameClones(x, p, core, core');
  }

  lemma RetVoidAtReturn(x: Setup, p: Part, core: Core)
    requires Compiled(x) && p in x.tgt.parts && CoreOk(x, p, core) && AtInstruction(x.tgt, p, core)
    requires NextInst(x.tgt, p, core).RetVoid?
    ensures BlockAt(x.job.fn, BlockOf(x.job, VisitOf(core))).term.Ret?
  {
    hide Shape, Implements, ValueAt, Enter, ClonesHeld, ReceivedHeld, HistoryOk;
    InRange(x.job, VisitOf(core));
    InstAt(x.job.fn, x.place, x.tgt, x.plan, p, BlockOf(x.job, VisitOf(core)), core.pc);
  }

  lemma PrologueKeeps(x: Setup, p: Part, core: Core, core': Core)
    requires Compiled(x) && p in x.tgt.parts && CoreOk(x, p, core)
    requires core.argsRead < |PrologueOf(x.tgt, p)|
    requires var k := PrologueOf(x.tgt, p)[core.argsRead].index;
      core' == core.(argsRead := core.argsRead + 1, regs := core.regs[ArgR(k) := ReadArg(x.job.args, k)])
    ensures CoreOk(x, p, core')
  {
    hide Shape, Implements, ValueAt, Enter;
    assert CodeAt(x, p, core') == CodeAt(x, p, core);
    SameClones(x, p, core, core');
  }

  // ---------- Moving to the next block ----------

  /** At its terminator, a core has run every clone it has of the block. */
  lemma AllRun(x: Setup, p: Part, core: Core)
    requires Compiled(x) && p in x.tgt.parts && CoreOk(x, p, core) && AtInstruction(x.tgt, p, core)
    requires IsTerminator(NextInst(x.tgt, p, core))
    ensures var code := CodeAt(x, p, core); var ran := RunSoFar(x, p, core);
      && Clones(ran) == Clones(code) && Receives(ran) == Receives(code) && Sends(ran) == Sends(code)
      && MemClones(ran) == MemClones(code) && Returns(ran) == Returns(code)
    ensures forall id :: id in x.place && x.place[id] == p ==>
      ReadReg(core.regs, InstR(id)) == ValueAt(x.job, VisitOf(core), id)
    ensures forall id :: (id in x.place && x.place[id] == p
        && InBody(BlockAt(x.job.fn, BlockOf(x.job, VisitOf(core))), id)) ==> id in Clones(RunSoFar(x, p, core))
  {
    hide Shape, Implements, ValueAt, Enter;
    NotLast(x, p, core);
    var code := CodeAt(x, p, core);
    Extend(code, core.pc);
    assert code[..core.pc + 1] == code;
    var blk := BlockAt(x.job.fn, BlockOf(x.job, VisitOf(core)));
    forall id | id in x.place && x.place[id] == p
      ensures ReadReg(core.regs, InstR(id)) == ValueAt(x.job, VisitOf(core), id)
      ensures InBody(blk, id) ==> id in Clones(RunSoFar(x, p, core))
    {
      if InBody(blk, id) {
        var k :| 0 <= k < |blk.body| && blk.body[k].id == id;
        CloneOfBody(x, BlockOf(x.job, VisitOf(core)), k);
      }
      assert Settled(x, p, blk, RunSoFar(x, p, core), id);
    }
  }

  /** A terminator's condition reads the source condition, so the core goes where the run goes. */
  lemma SameDestination(x: Setup, p: Part, core: Core)
    requires Compiled(x) && p in x.tgt.parts && CoreOk(x, p, core) && AtInstruction(x.tgt, p, core)
    requires NextInst(x.tgt, p, core).Jump? || NextInst(x.tgt, p, core).Branch?
    ensures Live(x.job, VisitOf(core) + 1)
    ensures CoreAfter(x.tgt, x.job.sem, p, core, NextInst(x.tgt, p, core), 0, 0) ==
            EnterBlock(x.tgt, p, core, BlockOf(x.job, VisitOf(core) + 1))
  {
    hide Shape, Implements, ValueAt, Enter;
    var t := VisitOf(core);
    NotLast(x, p, core);
    InstAt(x.job.fn, x.place, x.tgt, x.plan, p, BlockOf(x.job, t), core.pc);
    EnterNext(x.job, t);
    var inst := NextInst(x.tgt, p, core);
    if inst.Branch? {
      EvalAgrees(x, p, core, RunSoFar(x, p, core), BlockAt(x.job.fn, BlockOf(x.job, t)).term.cond, inst.cond);
    }
  }

  /** Matching phis pick matching entries. */
  lemma {:induction false} IncomingAgrees(src: seq<(BlockId, Operand)>, t: seq<(BlockId, TOp)>, prev: BlockId)
    requires |src| == |t| && forall j :: 0 <= j < |src| ==> src[j].0 == t[j].0
    ensures (Incoming(src, prev) == Const(0) && IncomingT(t, prev) == TConst(0)) ||
      exists j :: 0 <= j < |src| && src[j].0 == prev && Incoming(src, prev) == src[j].1 && IncomingT(t, prev) == t[j].1
  {
    if src != [] && src[0].0 != prev {
      IncomingAgrees(src[1..], t[1..], prev);
      if !(Incoming(src, prev) == Const(0) && IncomingT(t, prev) == TConst(0)) {
        var j :| 0 <= j < |src[1..]| && src[1..][j].0 == prev && Incoming(src[1..], prev) == src[1..][j].1
              && IncomingT(t[1..], prev) == t[1..][j].1;
        assert src[j + 1] == src[1..][j] && t[j + 1] == t[1..][j];
      }
    }
  }

  lemma {:induction false} PhiWritesTAt(phis: seq<TPhi>, prev: BlockId, regs: map<Reg, Value>, visit: nat, i: nat)
    requires i < |phis|
    requires forall a, b :: 0 <= a < b < |phis| ==> phis[a].id != phis[b].id
    ensures var v := EvalT(regs, IncomingT(phis[i].incoming, prev));
      && InstR(phis[i].id) in PhiWritesT(phis, prev, regs) && PhiWritesT(phis, prev, regs)[InstR(phis[i].id)] == v
      && (visit, phis[i].id) in PhiHistory(phis, visit, prev, regs)
      && PhiHistory(phis, visit, prev, regs)[(visit, phis[i].id)] == v
  {
    if i < |phis| - 1 {
      var rest := phis[..|phis| - 1];
      assert rest[i] == phis[i];
      PhiWritesTAt(rest, prev, regs, visit, i);
    }
  }

  lemma {:induction false} PhiWritesTOnly(phis: seq<TPhi>, prev: BlockId, regs: map<Reg, Value>, visit: nat)
    ensures forall r :: r in PhiWritesT(phis, prev, regs) ==>
      exists i :: 0 <= i < |phis| && r == InstR(phis[i].id)
    ensures forall h :: h in PhiHistory(phis, visit, prev, regs) ==>
      exists i :: 0 <= i < |phis| && h == (visit, phis[i].id)
  {
    if phis != [] {
      var rest := phis[..|phis| - 1];
      PhiWritesTOnly(rest, prev, regs, visit);
      assert forall i :: 0 <= i < |rest| ==> rest[i] == phis[i];
    }
  }

  /** A phi clone evaluated on the edge gets the value the run gives the phi. */
  lemma PhiValue(x: Setup, p: Part, core: Core, i: nat)
    requires Compiled(x) && p in x.tgt.parts && CoreOk(x, p, core) && AtInstruction(x.tgt, p, core)
    requires IsTerminator(NextInst(x.tgt, p, core))
    requires Live(x.job, VisitOf(core) + 1)
    requires i < |CloneOf(x.tgt, p, BlockOf(x.job, VisitOf(core) + 1)).phis|
    ensures var d := BlockOf(x.job, VisitOf(core) + 1); var tphi := CloneOf(x.tgt, p, d).phis[i];
      && tphi.id in x.place && x.place[tphi.id] == p && IsPhi(BlockAt(x.job.fn, d), tphi.id)
      && EvalT(core.regs, IncomingT(tphi.incoming, BlockOf(x.job, VisitOf(core)))) ==
         ValueAt(x.job, VisitOf(core) + 1, tphi.id)
  {
    hide Shape, Implements, ValueAt, Enter, ClonesHeld, ReceivedHeld, HistoryOk, OperandOk;
    var t := VisitOf(core);
    var d := BlockOf(x.job, t + 1);
    InRange(x.job, t + 1);
    var k := PhiOfClone(x, p, d, i);
    ValueOfPhi(x.job, t, k);
    EntryValue(x, p, core, CloneOf(x.tgt, p, d).phis[i], BlockAt(x.job.fn, d).phis[k]);
  }

  /** The phi of the source that the `i`-th phi of a clone stands for. */
  lemma PhiOfClone(x: Setup, p: Part, b: BlockId, i: nat) returns (k: nat)
    requires Compiled(x) && p in x.tgt.parts && b < |x.job.fn.blocks| && i < |CloneOf(x.tgt, p, b).phis|
    ensures k < |BlockAt(x.job.fn, b).phis|
    ensures PhiOk(x.job.fn, x.place, x.tgt, x.plan, p, CloneOf(x.tgt, p, b).phis[i], BlockAt(x.job.fn, b).phis[k])
  {
    hide Shape, Implements, PhiOk;
    CloneShape(x, p, b);
    hide Terminated;
    var phis := BlockAt(x.job.fn, b).phis;
    assert ClonesSomePhi(x.job.fn, x.place, x.tgt, x.plan, p, CloneOf(x.tgt, p, b).phis[i], phis);
    k :| 0 <= k < |phis| && PhiOk(x.job.fn, x.place, x.tgt, x.plan, p, CloneOf(x.tgt, p, b).phis[i], phis[k]);
  }

  /** The entry a phi of a clone takes reads the value of the entry the phi of the source takes. */
  lemma EntryValue(x: Setup, p: Part, core: Core, tphi: TPhi, phi: Phi)
    requires Compiled(x) && p in x.tgt.parts && CoreOk(x, p, core) && AtInstruction(x.tgt, p, core)
    requires IsTerminator(NextInst(x.tgt, p, core)) && PhiOk(x.job.fn, x.place, x.tgt, x.plan, p, tphi, phi)
    ensures var prev := BlockOf(x.job, VisitOf(core));
      EvalT(core.regs, IncomingT(tphi.incoming, prev)) ==
      Eval(x.job.args, Leave(x.job, VisitOf(core)).env, Incoming(phi.incoming, prev))
  {
    hide Shape, Implements, ValueAt, Enter, ClonesHeld, ReceivedHeld, HistoryOk, OperandOk, OneValuePerPred;
    var prev := BlockOf(x.job, VisitOf(core));
    AllRun(x, p, core);
    IncomingAgrees(phi.incoming, tphi.incoming, prev);
    if !(Incoming(phi.incoming, prev) == Const(0) && IncomingT(tphi.incoming, prev) == TConst(0)) {
      var j :| 0 <= j < |phi.incoming| && phi.incoming[j].0 == prev
            && Incoming(phi.incoming, prev) == phi.incoming[j].1
            && IncomingT(tphi.incoming, prev) == tphi.incoming[j].1;
      EvalAgrees(x, p, core, CodeOf(x.tgt, p, prev), phi.incoming[j].1, tphi.incoming[j].1);
    }
  }

  /** After the edge, every clone value not yet due in the new block is the new visit's value. */
  lemma EnterClonesHeld(x: Setup, p: Part, core: Core, id: Id)
    requires Compiled(x) && p in x.tgt.parts && CoreOk(x, p, core) && AtInstruction(x.tgt, p, core)
    requires IsTerminator(NextInst(x.tgt, p, core)) && Live(x.job, VisitOf(core) + 1)
    requires id in x.place && x.place[id] == p && !InBody(BlockAt(x.job.fn, BlockOf(x.job, VisitOf(core) + 1)), id)
    ensures ReadReg(EnterBlock(x.tgt, p, core, BlockOf(x.job, VisitOf(core) + 1)).regs, InstR(id)) ==
            ValueAt(x.job, VisitOf(core) + 1, id)
  {
    hide Shape, Implements, ValueAt, Enter, InstOk, Terminated, PhiWritesT, PhiHistory, PhisOk;
    var t := VisitOf(core);
    var d := BlockOf(x.job, t + 1);
    var blk := BlockAt(x.job.fn, d);
    var tphis := CloneOf(x.tgt, p, d).phis;
    InRange(x.job, t + 1);
    PhiClones(x, p, d);
    AllRun(x, p, core);
    PhiWritesTOnly(tphis, BlockOf(x.job, t), core.regs, t + 1);
    if i :| 0 <= i < |tphis| && tphis[i].id == id {
      PhiValue(x, p, core, i);
      PhiWritesTAt(tphis, BlockOf(x.job, t), core.regs, t + 1, i);
    } else {
      assert InstR(id) !in PhiWritesT(tphis, BlockOf(x.job, t), core.regs);
      assert !IsPhi(blk, id);
      ValueUnchanged(x.job, t, id);
    }
  }

  lemma EnterHistory(x: Setup, p: Part, core: Core, s: nat, id: Id)
    requires Compiled(x) && p in x.tgt.parts && CoreOk(x, p, core) && AtInstruction(x.tgt, p, core)
    requires IsTerminator(NextInst(x.tgt, p, core)) && Live(x.job, VisitOf(core) + 1)
    ensures var h := EnterBlock(x.tgt, p, core, BlockOf(x.job, VisitOf(core) + 1)).history;
      && ((s, id) in h <==> HasRun(x, p, VisitOf(core) + 1, [], s, id))
      && ((s, id) in h ==> h[(s, id)] == ValueAt(x.job, s, id))
  {
    hide Compiled, ValueAt, BlockOf, Live, PhiWritesT, OperandOk, EvalT;
    hide PhiHistory, IsPhi, InBody, ClonesHeld, ReceivedHeld, ArgsHeld;
    var t := VisitOf(core);
    var tphis := CloneOf(x.tgt, p, BlockOf(x.job, t + 1)).phis;
    PhiWritesTOnly(tphis, BlockOf(x.job, t), core.regs, t + 1);
    if s == t + 1 {
      HistoryOfPhis(x, p, core, id);
    } else {
      assert (s, id) !in PhiHistory(tphis, t + 1, BlockOf(x.job, t), core.regs);
      assert (s, id) in core.history <==> HasRun(x, p, t, RunSoFar(x, p, core), s, id);
      AllRun(x, p, core);
    }
  }

  /** The history of the visit just entered has the core's phis, with the values they take. */
  lemma HistoryOfPhis(x: Setup, p: Part, core: Core, id: Id)
    requires Compiled(x) && p in x.tgt.parts && CoreOk(x, p, core) && AtInstruction(x.tgt, p, core)
    requires IsTerminator(NextInst(x.tgt, p, core)) && Live(x.job, VisitOf(core) + 1)
    ensures var t := VisitOf(core); var d := BlockOf(x.job, t + 1);
      var h := EnterBlock(x.tgt, p, core, d).history;
      && ((t + 1, id) in h <==> id in x.place && x.place[id] == p && IsPhi(BlockAt(x.job.fn, d), id))
      && ((t + 1, id) in h ==> h[(t + 1, id)] == ValueAt(x.job, t + 1, id))
  {
    hide Compiled, ValueAt, BlockOf, Live, PhiWritesT, OperandOk, EvalT;
    hide PhiHistory, IsPhi, InBody, ClonesHeld, ReceivedHeld, ArgsHeld;
    var t := VisitOf(core);
    var d := BlockOf(x.job, t + 1);
    var tphis := CloneOf(x.tgt, p, d).phis;
    BlockInRange(x, t + 1);
    PhiClones(x, p, d);
    PhiWritesTOnly(tphis, BlockOf(x.job, t), core.regs, t + 1);
    assert (t + 1, id) !in core.history by {
      assert (t + 1, id) in core.history <==> HasRun(x, p, t, RunSoFar(x, p, core), t + 1, id);
    }
    if i :| 0 <= i < |tphis| && tphis[i].id == id {
      PhiValue(x, p, core, i);
      PhiWritesTAt(tphis, BlockOf(x.job, t), core.regs, t + 1, i);
    } else {
      assert (t + 1, id) !in PhiHistory(tphis, t + 1, BlockOf(x.job, t), core.regs);
    }
  }

  lemma BlockInRange(x: Setup, t: nat)
    requires Compiled(x)
    ensures BlockOf(x.job, t) < |x.job.fn.blocks|
  {
    hide Shape, Implements;
    InRange(x.job, t);
  }

  lemma EnterKeeps(x: Setup, p: Part, core: Core)
    requires Compiled(x) && p in x.tgt.parts && CoreOk(x, p, core) && AtInstruction(x.tgt, p, core)
    requires NextInst(x.tgt, p, core).Jump? || NextInst(x.tgt, p, core).Branch?
    ensures CoreOk(x, p, CoreAfter(x.tgt, x.job.sem, p, core, NextInst(x.tgt, p, core), 0, 0))
  {
    hide Shape, Implements, ValueAt, Enter, InstOk, PhiWritesT, PhiHistory, PhisOk, CoreAfter, BlockOf;
    var t := VisitOf(core);
    SameDestination(x, p, core);
    var d := BlockOf(x.job, t + 1);
    var core' := EnterBlock(x.tgt, p, core, d);
    InRange(x.job, t + 1);
    CloneShape(x, p, d);
    assert RunSoFar(x, p, core') == [];
    PhiWritesTOnly(CloneOf(x.tgt, p, d).phis, BlockOf(x.job, t), core.regs, t + 1);
    forall id | Settled(x, p, BlockAt(x.job.fn, d), [], id)
      ensures ReadReg(core'.regs, InstR(id)) == ValueAt(x.job, t + 1, id)
    {
      EnterClonesHeld(x, p, core, id);
    }
    forall s: nat, id: nat
      ensures (s, id) in core'.history <==> HasRun(x, p, t + 1, [], s, id)
      ensures (s, id) in core'.history ==> core'.history[(s, id)] == ValueAt(x.job, s, id)
    {
      EnterHistory(x, p, core, s, id);
    }
    forall i | 0 <= i < core'.argsRead
      ensures var k := PrologueOf(x.tgt, p)[i].index; ReadReg(core'.regs, ArgR(k)) == ReadArg(x.job.args, k)
    {
      var k := PrologueOf(x.tgt, p)[i].index;
      assert ArgR(k) !in PhiWritesT(CloneOf(x.tgt, p, d).phis, BlockOf(x.job, t), core.regs);
    }
  }

  lemma InitialCoreOk(x: Setup, p: Part)
    requires Compiled(x) && p in x.tgt.parts
    ensures CoreOk(x, p, FreshCore)
  {
    hide Implements, ValueAt;
    CloneShape(x, p, 0);
    assert RunSoFar(x, p, FreshCore) == [];
    var blk := BlockAt(x.job.fn, 0);
    forall id | Settled(x, p, blk, [], id) ensures ValueAt(x.job, 0, id) == 0 {
      ValueInitially(x.job, id);
    }
  }
}
