/**
 What the whole running system keeps: every core is in step with the sequential run,
 every mailbox holds the value its pending receive is owed, memory is the sequential
 memory, and the host has what it has been sent.
 */
module SystemInvariant {
  import opened Common
  import opened Source
  import opened SourceRun
  import opened Target
  import opened Projection
  import opened Correspondence
  import opened CoreInvariant

  predicate Positioned(x: Setup, p: Part, core: Core) {
    |core.visits| > 0 && core.pc <= |CodeAt(x, p, core)|
  }

  /** How often core `p` has run the send of mailbox `c`, by its position. */
  function SentOn(x: Setup, p: Part, core: Core, c: nat): nat
    requires Positioned(x, p, core) && c in x.plan.chans
  {
    var b := x.plan.chans[c].block;
    Count(x.job, b, VisitOf(core)) +
    (if BlockOf(x.job, VisitOf(core)) == b && c in Sends(RunSoFar(x, p, core)) then 1 else 0)
  }

  function ReceivedOn(x: Setup, p: Part, core: Core, c: nat): nat
    requires Positioned(x, p, core) && c in x.plan.chans
  {
    var b := x.plan.chans[c].block;
    Count(x.job, b, VisitOf(core)) +
    (if BlockOf(x.job, VisitOf(core)) == b && c in Receives(RunSoFar(x, p, core)) then 1 else 0)
  }

  /** Visit `t` is execution number `n` of the block of mailbox `c`. */
  predicate IsExecution(x: Setup, c: nat, n: nat, t: nat)
    requires c in x.plan.chans
  {
    var b := x.plan.chans[c].block;
    Live(x.job, t) && BlockOf(x.job, t) == b && Count(x.job, b, t) == n
  }

  /** `v` is the value mailbox `c` carries for the `n`-th execution of its block. */
  ghost predicate Owed(x: Setup, c: nat, n: nat, v: Value)
    requires c in x.plan.chans
  {
    forall t: nat | IsExecution(x, c, n, t) :: v == ValueAt(x.job, t, x.plan.chans[c].src)
  }

  /** A mailbox is full exactly when it has been sent to once more than read, and then holds the value owed. */
  ghost predicate MailboxOk(x: Setup, s: Sys, c: nat)
    requires c in x.plan.chans
  {
    var ch := x.plan.chans[c];
    && ch.from in s.cores && ch.to in s.cores
    && Positioned(x, ch.from, s.cores[ch.from]) && Positioned(x, ch.to, s.cores[ch.to])
    && var sent := SentOn(x, ch.from, s.cores[ch.from], c);
       var received := ReceivedOn(x, ch.to, s.cores[ch.to], c);
       && Tally(s.sent, c) == sent && Tally(s.received, c) == received
       && received <= sent <= received + 1
       && (c in s.slots <==> sent == received + 1)
       && (c in s.slots ==> Owed(x, c, received, s.slots[c]))
  }

  ghost predicate CoresOk(x: Setup, s: Sys) {
    && (forall p :: p in s.cores <==> p in x.tgt.parts)
    && (forall p :: p in x.tgt.parts ==> CoreOk(x, p, s.cores[p]))
  }

  ghost predicate MailboxesOk(x: Setup, s: Sys) {
    forall c :: c in x.plan.chans ==> MailboxOk(x, s, c)
  }

  /** Core 0's position in the block says which memory operations have run. */
  ghost predicate MemoryOk(x: Setup, s: Sys) {
    && (0 !in s.cores ==> s.mem == [])
    && (0 in s.cores ==>
          && Positioned(x, 0, s.cores[0])
          && var t := VisitOf(s.cores[0]);
             forall k | 0 <= k <= |BodyOf(x.job, t)|
                 && MemBefore(BodyOf(x.job, t), k) == MemClones(RunSoFar(x, 0, s.cores[0])) ::
               s.mem == During(x.job, t, k).mem)
  }

  function ReturnsOn(x: Setup, p: Part, core: Core): nat
    requires Positioned(x, p, core)
  {
    Returns(RunSoFar(x, p, core))
  }

  /** The return mailbox is written by the core that has run the return send, with the value of the run. */
  ghost predicate ReturnOk(x: Setup, s: Sys) {
    && (forall p :: p in s.cores ==> Positioned(x, p, s.cores[p]))
    && (s.ret.Some? ==> exists p :: p in s.cores && ReturnsOn(x, p, s.cores[p]) > 0)
    && (forall p :: p in s.cores && ReturnsOn(x, p, s.cores[p]) > 0 ==>
          && BlockAt(x.job.fn, BlockOf(x.job, VisitOf(s.cores[p]))).term.Ret?
          && s.ret.Some? && s.ret == Returned(x.job, VisitOf(s.cores[p])))
    && s.returnCount == (if s.ret.Some? then 1 else 0)
  }

  /** The host has written the first `hostSent` argument mailboxes, once each; nothing empties them. */
  ghost predicate ArgumentsOk(x: Setup, s: Sys) {
    && s.hostSent <= |x.tgt.host|
    && forall i :: 0 <= i < |x.tgt.host| ==>
         var m := x.tgt.host[i];
         && (m.chan in s.slots <==> i < s.hostSent)
         && (m.chan in s.slots ==> s.slots[m.chan] == ReadArg(x.job.args, m.index))
         && Tally(s.sent, m.chan) == (if i < s.hostSent then 1 else 0)
  }

  ghost predicate HostOk(x: Setup, s: Sys) {
    && (s.result.Some? ==> s.hostSent == |x.tgt.host| && s.result == s.ret)
    && (s.joined ==> s.hostSent == |x.tgt.host| && AllDone(x.tgt, s) && (x.tgt.returnsValue ==> s.result.Some?))
    && (!x.tgt.returnsValue ==> s.result.None?)
  }

  ghost predicate SysOk(x: Setup, s: Sys) {
    && CoresOk(x, s)
    && MailboxesOk(x, s)
    && MemoryOk(x, s)
    && ReturnOk(x, s)
    && ArgumentsOk(x, s)
    && HostOk(x, s)
  }

  // ---------- The traffic of one mailbox under one core's step ----------

  /** What a send or receive in a clone says about its mailbox. */
  lemma ChannelUse(x: Setup, p: Part, core: Core)
    requires Compiled(x) && p in x.tgt.parts && CoreOk(x, p, core) && AtInstruction(x.tgt, p, core)
    ensures var inst := NextInst(x.tgt, p, core);
      var b := BlockOf(x.job, VisitOf(core)); var ran := RunSoFar(x, p, core);
      && (inst.Send? ==>
            && inst.chan in x.plan.chans && inst.chan !in Sends(ran)
            && x.plan.chans[inst.chan].block == b && x.plan.chans[inst.chan].from == p
            && RefOk(x.place, x.plan, BlockAt(x.job.fn, b), p, ran, x.plan.chans[inst.chan].src, inst.value))
      && (inst.Receive? ==>
            && inst.chan in x.plan.chans && inst.chan !in Receives(ran)
            && x.plan.chans[inst.chan].block == b && x.plan.chans[inst.chan].to == p)
  {
    hide Shape, Implements;
    NotLast(x, p, core);
    InstAt(x.job.fn, x.place, x.tgt, x.plan, p, BlockOf(x.job, VisitOf(core)), core.pc);
  }

  lemma ChannelEnds(x: Setup, c: nat)
    requires Compiled(x) && c in x.plan.chans
    ensures var ch := x.plan.chans[c];
      && ch.block < |x.job.fn.blocks| && ch.from in x.tgt.parts && ch.to in x.tgt.parts && ch.from != ch.to
      && c in Sends(CodeOf(x.tgt, ch.from, ch.block))
      && c in Receives(CodeOf(x.tgt, ch.to, ch.block))
  {
    hide Shape;
  }

  /** The position after one instruction of core `p`. */
  lemma Advance(x: Setup, p: Part, core: Core, got: Value, made: Value)
    requires Compiled(x) && p in x.tgt.parts && CoreOk(x, p, core) && AtInstruction(x.tgt, p, core)
    ensures var inst := NextInst(x.tgt, p, core);
      var core' := CoreAfter(x.tgt, x.job.sem, p, core, inst, got, made);
      Positioned(x, p, core') &&
      var ran := RunSoFar(x, p, core); var ran' := RunSoFar(x, p, core');
      if inst.Jump? || inst.Branch? then
        && Live(x.job, VisitOf(core) + 1)
        && VisitOf(core') == VisitOf(core) + 1
        && Sends(ran') == {} && Receives(ran') == {} && MemClones(ran') == 0 && Returns(ran') == 0
        && Sends(ran) == Sends(CodeAt(x, p, core)) && Receives(ran) == Receives(CodeAt(x, p, core))
        && MemClones(ran) == MemClones(CodeAt(x, p, core))
      else
        && VisitOf(core') == VisitOf(core)
        && Sends(ran') == Sends(ran) + (if inst.Send? then {inst.chan} else {})
        && Receives(ran') == Receives(ran) + (if inst.Receive? then {inst.chan} else {})
        && MemClones(ran') == MemClones(ran) + (if inst.Clone? && inst.mem then 1 else 0)
        && Returns(ran') == Returns(ran) + (if inst.SendReturn? then 1 else 0)
  {
    hide Shape, Implements, Enter, BlockOf, PhiWritesT, PhiHistory, ClonesHeld, ReceivedHeld, HistoryOk, ArgsHeld;
    var inst := NextInst(x.tgt, p, core);
    var core' := CoreAfter(x.tgt, x.job.sem, p, core, inst, got, made);
    Extend(CodeAt(x, p, core), core.pc);
    if inst.Jump? || inst.Branch? {
      SameDestination(x, p, core);
      AllRun(x, p, core);
      assert RunSoFar(x, p, core') == [];
    } else {
      assert CodeAt(x, p, core') == CodeAt(x, p, core);
    }
  }

  lemma SentAfter(x: Setup, p: Part, core: Core, c: nat, got: Value, made: Value)
    requires Compiled(x) && p in x.tgt.parts && CoreOk(x, p, core) && AtInstruction(x.tgt, p, core)
    requires c in x.plan.chans && x.plan.chans[c].from == p
    ensures var inst := NextInst(x.tgt, p, core);
      var core' := CoreAfter(x.tgt, x.job.sem, p, core, inst, got, made);
      Positioned(x, p, core') &&
      SentOn(x, p, core', c) == SentOn(x, p, core, c) + (if inst.Send? && inst.chan == c then 1 else 0)
  {
    hide Shape, Implements, Enter, BlockOf, CoreAfter, RefOk, Sends, Receives, MemClones, Returns;
    Advance(x, p, core, got, made);
    ChannelUse(x, p, core);
    ChannelEnds(x, c);
  }

  lemma ReceivedAfter(x: Setup, p: Part, core: Core, c: nat, got: Value, made: Value)
    requires Compiled(x) && p in x.tgt.parts && CoreOk(x, p, core) && AtInstruction(x.tgt, p, core)
    requires c in x.plan.chans && x.plan.chans[c].to == p
    ensures var inst := NextInst(x.tgt, p, core);
      var core' := CoreAfter(x.tgt, x.job.sem, p, core, inst, got, made);
      Positioned(x, p, core') &&
      ReceivedOn(x, p, core', c) == ReceivedOn(x, p, core, c) + (if inst.Receive? && inst.chan == c then 1 else 0)
  {
    hide Shape, Implements, Enter, BlockOf, CoreAfter, RefOk, Sends, Receives, MemClones, Returns;
    Advance(x, p, core, got, made);
    ChannelUse(x, p, core);
    ChannelEnds(x, c);
  }

  // ---------- One instruction ----------

  /** The system is at an instruction of core `p` that can run. */
  ghost predicate Ready(x: Setup, s: Sys, p: Part) {
    && SysOk(x, s) && p in x.tgt.parts && p in s.cores
    && AtInstruction(x.tgt, p, s.cores[p])
    && CanRun(s, NextInst(x.tgt, p, s.cores[p]))
  }

  function StepOf(x: Setup, s: Sys, p: Part): Sys
    requires p in s.cores && AtInstruction(x.tgt, p, s.cores[p]) && CanRun(s, NextInst(x.tgt, p, s.cores[p]))
  {
    RunInst(x.tgt, x.job.sem, s, p, NextInst(x.tgt, p, s.cores[p]))
  }

  /** A core at an instruction has read all its arguments. */
  lemma ArgumentsRead(x: Setup, s: Sys, p: Part)
    requires Ready(x, s, p)
    ensures s.cores[p].argsRead == |PrologueOf(x.tgt, p)| && CoreOk(x, p, s.cores[p])
  {
    hide MailboxOk, MemoryOk, ReturnOk, ArgumentsOk, HostOk, ClonesHeld, ReceivedHeld, HistoryOk;
  }

  /** A clone computes what the sequential run computes in that visit. */
  lemma CloneValue(x: Setup, s: Sys, p: Part, k: nat)
    requires Compiled(x) && Ready(x, s, p)
    requires NextInst(x.tgt, p, s.cores[p]).Clone? && k < |BodyOf(x.job, VisitOf(s.cores[p]))|
    requires CloneOk(x.place, x.plan, BlockAt(x.job.fn, BlockOf(x.job, VisitOf(s.cores[p]))), p,
                     RunSoFar(x, p, s.cores[p]), NextInst(x.tgt, p, s.cores[p]), k)
    ensures var core := s.cores[p]; var inst := NextInst(x.tgt, p, core); var f := During(x.job, VisitOf(core), k);
      && (inst.mem ==> p == 0 && s.mem == f.mem)
      && EvalAllT(core.regs, inst.args) == EvalAll(x.job.args, f.env, BodyOf(x.job, VisitOf(core))[k].args)
      && Computed(x.job.sem, s.mem, core.regs, inst) == ValueAt(x.job, VisitOf(core), inst.id)
  {
    hide Implements, Shape, Enter, ValueAt, During;
    var core := s.cores[p];
    var t := VisitOf(core);
    ArgumentsRead(x, s, p);
    hide CoreOk;
    ArgumentsAgree(x, p, core, k, NextInst(x.tgt, p, core));
    InRange(x.job, t);
    ValueOfInst(x.job, t, k);
    MemOnZero(x, BlockOf(x.job, t), k);
  }

  lemma MemOnZero(x: Setup, b: BlockId, k: nat)
    requires Compiled(x) && b < |x.job.fn.blocks| && k < |BlockAt(x.job.fn, b).body|
    ensures var inst := BlockAt(x.job.fn, b).body[k];
      inst.id in x.place && x.place[inst.id] in x.tgt.parts && (inst.mem ==> x.place[inst.id] == 0)
  {
    hide Shape;
    assert Defines(BlockAt(x.job.fn, b), BlockAt(x.job.fn, b).body[k].id);
  }

  lemma StepKeepsCores(x: Setup, s: Sys, p: Part)
    requires Compiled(x) && Ready(x, s, p)
    ensures CoresOk(x, StepOf(x, s, p))
  {
    hide Implements, Shape, Enter, CoreOk, MemoryOk, ReturnOk, ArgumentsOk, HostOk, CoreAfter;
    ArgumentsRead(x, s, p);
    var core := s.cores[p];
    var inst := NextInst(x.tgt, p, core);
    match inst
    case Clone(_, _, _, _) =>
      StepClone(x, s, p);
    case Receive(_, c) =>
      ChannelUse(x, p, core);
      DeliveredValue(x, s, p);
      ReceiveKeeps(x, p, core, s.slots[c]);
    case Send(_, _, _) => SendKeeps(x, p, core);
    case SendReturn(_) => SendKeeps(x, p, core);
    case RetVoid => RetVoidKeeps(x, p, core);
    case Jump(_) => EnterKeeps(x, p, core);
    case Branch(_, _, _) => EnterKeeps(x, p, core);
  }

  lemma StepClone(x: Setup, s: Sys, p: Part)
    requires Compiled(x) && Ready(x, s, p) && NextInst(x.tgt, p, s.cores[p]).Clone?
    ensures var core := s.cores[p]; var inst := NextInst(x.tgt, p, core);
      CoreOk(x, p, CoreAfter(x.tgt, x.job.sem, p, core, inst, 0, Computed(x.job.sem, s.mem, core.regs, inst)))
  {
    hide Implements, Shape, Enter, MemoryOk, ReturnOk, ArgumentsOk, HostOk, CoreAfter, ValueAt;
    ArgumentsRead(x, s, p);
    hide CoreOk;
    var core := s.cores[p];
    var k := CloneSource(x, p, core);
    CloneValue(x, s, p, k);
    CloneKeeps(x, p, core, Computed(x.job.sem, s.mem, core.regs, NextInst(x.tgt, p, core)));
  }

  /** The body instruction a clone stands for. */
  lemma CloneSource(x: Setup, p: Part, core: Core) returns (k: nat)
    requires Compiled(x) && p in x.tgt.parts && CoreOk(x, p, core) && AtInstruction(x.tgt, p, core)
    requires NextInst(x.tgt, p, core).Clone?
    ensures k < |BodyOf(x.job, VisitOf(core))|
    ensures CloneOk(x.place, x.plan, BlockAt(x.job.fn, BlockOf(x.job, VisitOf(core))), p,
                    RunSoFar(x, p, core), NextInst(x.tgt, p, core), k)
  {
    hide Implements, Shape, Enter, CloneOk;
    var b := BlockOf(x.job, VisitOf(core));
    NotLast(x, p, core);
    InstAt(x.job.fn, x.place, x.tgt, x.plan, p, b, core.pc);
    var body := BlockAt(x.job.fn, b).body;
    k :| 0 <= k < |body|
      && CloneOk(x.place, x.plan, BlockAt(x.job.fn, b), p, RunSoFar(x, p, core), NextInst(x.tgt, p, core), k);
  }

  /** A receive that can run takes the value its source has in this very visit. */
  lemma DeliveredValue(x: Setup, s: Sys, p: Part)
    requires Compiled(x) && Ready(x, s, p) && NextInst(x.tgt, p, s.cores[p]).Receive?
    ensures var c := NextInst(x.tgt, p, s.cores[p]).chan;
      c in x.plan.chans && s.slots[c] == ValueAt(x.job, VisitOf(s.cores[p]), x.plan.chans[c].src)
  {
    hide Implements, Shape, Enter, MemoryOk, ReturnOk, ArgumentsOk, HostOk, ValueAt;
    var core := s.cores[p];
    ChannelUse(x, p, core);
    var c := NextInst(x.tgt, p, core).chan;
    assert MailboxOk(x, s, c);
    assert IsExecution(x, c, ReceivedOn(x, p, core, c), VisitOf(core));
  }

  /** A send that runs puts its source's value of this visit into the mailbox. */
  lemma SentValue(x: Setup, s: Sys, p: Part)
    requires Compiled(x) && Ready(x, s, p) && NextInst(x.tgt, p, s.cores[p]).Send?
    ensures var core := s.cores[p]; var inst := NextInst(x.tgt, p, core);
      inst.chan in x.plan.chans
      && EvalT(core.regs, inst.value) == ValueAt(x.job, VisitOf(core), x.plan.chans[inst.chan].src)
  {
    hide Implements, Shape, Enter, MemoryOk, ReturnOk, ArgumentsOk, HostOk, CoreOk, RefOk, MailboxesOk;
    var core := s.cores[p];
    ArgumentsRead(x, s, p);
    ChannelUse(x, p, core);
    var inst := NextInst(x.tgt, p, core);
    EvalAgrees(x, p, core, RunSoFar(x, p, core), Ref(x.plan.chans[inst.chan].src), inst.value);
  }

  /** Executions of a block are told apart by their number. */
  lemma SameExecution(x: Setup, c: nat, n: nat, t: nat, u: nat)
    requires c in x.plan.chans && IsExecution(x, c, n, t) && IsExecution(x, c, n, u)
    ensures t == u
  {
    if t < u {
      CountMonotone(x.job, x.plan.chans[c].block, t, u);
    } else {
      CountMonotone(x.job, x.plan.chans[c].block, u, t);
    }
  }

  /** The mailbox law survives any move that is a send, a receive, or neither. */
  lemma MailboxMoves(x: Setup, s: Sys, s': Sys, c: nat, sends: bool, takes: bool)
    requires c in x.plan.chans && MailboxOk(x, s, c)
    requires var ch := x.plan.chans[c];
      && ch.from in s'.cores && ch.to in s'.cores
      && Positioned(x, ch.from, s'.cores[ch.from]) && Positioned(x, ch.to, s'.cores[ch.to])
      && SentOn(x, ch.from, s'.cores[ch.from], c) == SentOn(x, ch.from, s.cores[ch.from], c) + (if sends then 1 else 0)
      && ReceivedOn(x, ch.to, s'.cores[ch.to], c) == ReceivedOn(x, ch.to, s.cores[ch.to], c) + (if takes then 1 else 0)
      && (sends ==> c in s'.slots && Owed(x, c, ReceivedOn(x, ch.to, s.cores[ch.to], c), s'.slots[c]))
    requires Tally(s'.sent, c) == Tally(s.sent, c) + (if sends then 1 else 0)
    requires Tally(s'.received, c) == Tally(s.received, c) + (if takes then 1 else 0)
    requires sends ==> c !in s.slots && !takes
    requires takes ==> c in s.slots && c !in s'.slots
    requires !sends && !takes ==> (c in s.slots <==> c in s'.slots) && (c in s.slots ==> s'.slots[c] == s.slots[c])
    ensures MailboxOk(x, s', c)
  {
    hide SentOn, ReceivedOn, Positioned, Owed;
  }

  lemma StepKeepsMailbox(x: Setup, s: Sys, p: Part, c: nat)
    requires Compiled(x) && Ready(x, s, p) && c in x.plan.chans
    ensures MailboxOk(x, StepOf(x, s, p), c)
  {
    hide Compiled, CoreOk, CoresOk, MemoryOk, ReturnOk, ArgumentsOk, HostOk, CoreAfter, SentOn;
    hide ReceivedOn, RefOk, Owed, Computed, RunSoFar, Positioned, RunInst;
    ArgumentsRead(x, s, p);
    var inst := NextInst(x.tgt, p, s.cores[p]);
    assert MailboxOk(x, s, c);
    ChannelEnds(x, c);
    MailboxPositions(x, s, p, c);
    RunInstMailbox(x.tgt, x.job.sem, s, p, inst, c);
    if inst.Send? && inst.chan == c {
      SendFillsMailbox(x, s, p);
    }
    hide MailboxOk, MailboxesOk;
    MailboxMoves(x, s, StepOf(x, s, p), c, inst.Send? && inst.chan == c, inst.Receive? && inst.chan == c);
  }

  /** How an instruction of core `p` moves the two ends of mailbox `c`. */
  lemma MailboxPositions(x: Setup, s: Sys, p: Part, c: nat)
    requires Compiled(x) && Ready(x, s, p) && c in x.plan.chans && MailboxOk(x, s, c)
    ensures var ch := x.plan.chans[c]; var s' := StepOf(x, s, p); var inst := NextInst(x.tgt, p, s.cores[p]);
      && ch.from in s'.cores && ch.to in s'.cores
      && Positioned(x, ch.from, s'.cores[ch.from]) && Positioned(x, ch.to, s'.cores[ch.to])
      && SentOn(x, ch.from, s'.cores[ch.from], c) ==
         SentOn(x, ch.from, s.cores[ch.from], c) + (if inst.Send? && inst.chan == c then 1 else 0)
      && ReceivedOn(x, ch.to, s'.cores[ch.to], c) ==
         ReceivedOn(x, ch.to, s.cores[ch.to], c) + (if inst.Receive? && inst.chan == c then 1 else 0)
  {
    hide Compiled, CoreOk, CoresOk, MemoryOk, ReturnOk, ArgumentsOk, HostOk, CoreAfter;
    hide SentOn, ReceivedOn, RefOk, Owed, RunSoFar, Positioned;
    hide RunInst, Computed;
    ArgumentsRead(x, s, p);
    var core := s.cores[p];
    var inst := NextInst(x.tgt, p, core);
    var ch := x.plan.chans[c];
    ChannelUse(x, p, core);
    RunInstCores(x.tgt, x.job.sem, s, p, inst);
    var got := if inst.Receive? then s.slots[inst.chan] else 0;
    var made := Computed(x.job.sem, s.mem, core.regs, inst);
    if ch.from == p {
      SentAfter(x, p, core, c, got, made);
    }
    if ch.to == p {
      ReceivedAfter(x, p, core, c, got, made);
    }
  }

  /** The value just sent is the one owed to the next receive. */
  lemma SendFillsMailbox(x: Setup, s: Sys, p: Part)
    requires Compiled(x) && Ready(x, s, p) && NextInst(x.tgt, p, s.cores[p]).Send?
    ensures var inst := NextInst(x.tgt, p, s.cores[p]); var c := inst.chan;
      c in x.plan.chans && x.plan.chans[c].from == p && MailboxOk(x, s, c)
      && Owed(x, c, ReceivedOn(x, x.plan.chans[c].to, s.cores[x.plan.chans[c].to], c),
              EvalT(s.cores[p].regs, inst.value))
  {
    hide Implements, Shape, Enter, CoreOk, MemoryOk, ReturnOk, ArgumentsOk, HostOk, ValueAt, RefOk, Count, ReceivedOn;
    ArgumentsRead(x, s, p);
    var core := s.cores[p];
    ChannelUse(x, p, core);
    SentValue(x, s, p);
    var c := NextInst(x.tgt, p, core).chan;
    assert MailboxOk(x, s, c);
    var n := SentOn(x, p, core, c);
    InStep(x, p, core);
    assert IsExecution(x, c, n, VisitOf(core));
    forall t | IsExecution(x, c, n, t) ensures t == VisitOf(core) {
      SameExecution(x, c, n, t, VisitOf(core));
    }
  }

  lemma InStep(x: Setup, p: Part, core: Core)
    requires CoreOk(x, p, core)
    ensures |core.visits| > 0 && Live(x.job, VisitOf(core)) && Positioned(x, p, core)
    ensures forall s :: 0 <= s < |core.visits| ==> core.visits[s] == BlockOf(x.job, s)
    ensures core.done <==> core.pc == |CodeAt(x, p, core)|
  {
  }

  // ---------- Memory ----------

  lemma {:induction false} LastMemClone(code: seq<TInst>) returns (i: nat)
    requires MemClones(code) > 0
    ensures i < |code| && code[i].Clone? && code[i].mem && MemClones(code) == MemClones(code[..i]) + 1
  {
    var n := |code| - 1;
    if code[n].Clone? && code[n].mem {
      i := n;
    } else {
      i := LastMemClone(code[..n]);
      assert code[..n][..i] == code[..i];
    }
  }

  /** A memory clone at index `i` of core 0 stands for the memory operation with that many before it. */
  lemma MemCloneSource(x: Setup, p: Part, b: BlockId, i: nat) returns (k: nat)
    requires Compiled(x) && p in x.tgt.parts && b < |x.job.fn.blocks|
    requires i < |CodeOf(x.tgt, p, b)| && CodeOf(x.tgt, p, b)[i].Clone?
    ensures var body := BlockAt(x.job.fn, b).body; var inst := CodeOf(x.tgt, p, b)[i];
      && k < |body| && body[k].id == inst.id && body[k].mem == inst.mem
      && (inst.mem ==> MemClones(CodeOf(x.tgt, p, b)[..i]) == MemBefore(body, k))
  {
    hide Shape, Implements;
    InstAt(x.job.fn, x.place, x.tgt, x.plan, p, b, i);
    var blk := BlockAt(x.job.fn, b);
    var code := CodeOf(x.tgt, p, b);
    k :| 0 <= k < |blk.body| && CloneOk(x.place, x.plan, blk, p, code[..i], code[i], k);
  }

  lemma SameBodyIndex(x: Setup, b: BlockId, j: nat, k: nat)
    requires Compiled(x) && j < |BlockAt(x.job.fn, b).body| && k < |BlockAt(x.job.fn, b).body|
    requires BlockAt(x.job.fn, b).body[j].id == BlockAt(x.job.fn, b).body[k].id
    ensures j == k
  {
    hide Implements, BlockShape;
  }

  /** Core 0's clone of a block has all the block's memory operations. */
  lemma AllMemoryCloned(x: Setup, b: BlockId)
    requires Compiled(x) && 0 in x.tgt.parts && b < |x.job.fn.blocks|
    ensures MemClones(CodeOf(x.tgt, 0, b)) == MemBefore(BlockAt(x.job.fn, b).body, |BlockAt(x.job.fn, b).body|)
  {
    hide Compiled, CodeOf;
    var body := BlockAt(x.job.fn, b).body;
    var code := CodeOf(x.tgt, 0, b);
    if MemClones(code) > 0 {
      var i := LastMemClone(code);
      var k := MemCloneSource(x, 0, b, i);
      MemBeforeMonotone(body, k, |body|);
    }
    if MemBefore(body, |body|) > 0 {
      var k := LastMem(body, |body|);
      MemCloned(x, b, k);
    }
  }

  lemma MemCloned(x: Setup, b: BlockId, k: nat)
    requires Compiled(x) && 0 in x.tgt.parts && b < |x.job.fn.blocks|
    requires k < |BlockAt(x.job.fn, b).body| && BlockAt(x.job.fn, b).body[k].mem
    ensures MemClones(CodeOf(x.tgt, 0, b)) >= MemBefore(BlockAt(x.job.fn, b).body, k) + 1
  {
    hide Compiled, CodeOf;
    var body := BlockAt(x.job.fn, b).body;
    var code := CodeOf(x.tgt, 0, b);
    CloneOfBody(x, b, k);
    MemOnZero(x, b, k);
    var i := CloneIndex(code, body[k].id);
    var k' := MemCloneSource(x, 0, b, i);
    SameBodyIndex(x, b, k, k');
    Extend(code, i);
    PrefixGrows(code, i + 1, |code|);
    assert code[..|code|] == code;
  }

  /** Memory after a visit's first memory operations is the same wherever between operations it is looked at. */
  lemma MemoryAt(job: Job, t: nat, j: nat, k: nat)
    requires j <= |BodyOf(job, t)| && k <= |BodyOf(job, t)|
    requires MemBefore(BodyOf(job, t), j) == MemBefore(BodyOf(job, t), k)
    ensures During(job, t, j).mem == During(job, t, k).mem
  {
    hide Enter;
    if j <= k {
      MemDetermined(job, Enter(job, t).frame, BodyOf(job, t), j, k);
    } else {
      MemDetermined(job, Enter(job, t).frame, BodyOf(job, t), k, j);
    }
  }

  lemma MemCloneRuns(x: Setup, s: Sys, p: Part)
    requires Compiled(x) && Ready(x, s, p)
    requires NextInst(x.tgt, p, s.cores[p]).Clone? && NextInst(x.tgt, p, s.cores[p]).mem
    ensures p == 0 && MemoryOk(x, StepOf(x, s, p))
  {
    hide Compiled, CoreOk, CoresOk, ReturnOk, ArgumentsOk, HostOk, CloneOk, Enter, Computed, MailboxesOk;
    ArgumentsRead(x, s, p);
    var core := s.cores[p];
    var t := VisitOf(core);
    var inst := NextInst(x.tgt, p, core);
    var k := CloneSource(x, p, core);
    CloneValue(x, s, p, k);
    CloneMemFlag(x, p, core, k);
    Advance(x, p, core, 0, Computed(x.job.sem, s.mem, core.regs, inst));
    var body := BodyOf(x.job, t);
    var s' := StepOf(x, s, p);
    assert MemBefore(body, k + 1) == MemClones(RunSoFar(x, p, s'.cores[p]));
    assert s'.mem == During(x.job, t, k + 1).mem;
    forall j | 0 <= j <= |body| && MemBefore(body, j) == MemBefore(body, k + 1)
      ensures s'.mem == During(x.job, t, j).mem
    {
      MemoryAt(x.job, t, j, k + 1);
    }
  }

  lemma CloneMemFlag(x: Setup, p: Part, core: Core, k: nat)
    requires CoreOk(x, p, core) && AtInstruction(x.tgt, p, core) && NextInst(x.tgt, p, core).Clone?
    requires k < |BodyOf(x.job, VisitOf(core))|
    requires CloneOk(x.place, x.plan, BlockAt(x.job.fn, BlockOf(x.job, VisitOf(core))), p,
                    RunSoFar(x, p, core), NextInst(x.tgt, p, core), k)
    ensures var body := BodyOf(x.job, VisitOf(core)); var inst := NextInst(x.tgt, p, core);
      && body[k].mem == inst.mem && body[k].code == inst.code
      && (inst.mem ==> MemBefore(body, k) == MemClones(RunSoFar(x, p, core)))
  {
    hide Enter, CoreOk;
  }

  lemma EdgeKeepsMemory(x: Setup, s: Sys)
    requires Compiled(x) && Ready(x, s, 0)
    requires NextInst(x.tgt, 0, s.cores[0]).Jump? || NextInst(x.tgt, 0, s.cores[0]).Branch?
    ensures MemoryOk(x, StepOf(x, s, 0))
  {
    hide Compiled, CoreOk, CoresOk, ReturnOk, ArgumentsOk, HostOk, Enter, Computed, MailboxesOk, RunSoFar;
    hide EvalT, EvalAllT, Sends, Receives, PhiWritesT, PhiHistory;
    ArgumentsRead(x, s, 0);
    var core := s.cores[0];
    var t := VisitOf(core);
    InStep(x, 0, core);
    Advance(x, 0, core, 0, 0);
    BlockInRange(x, t);
    AllMemoryCloned(x, BlockOf(x.job, t));
    assert s.mem == Leave(x.job, t).mem;
    EnterNext(x.job, t);
    assert s.mem == During(x.job, t + 1, 0).mem;
    var s' := StepOf(x, s, 0);
    assert MemClones(RunSoFar(x, 0, s'.cores[0])) == 0;
    var u := t + 1;
    forall j | 0 <= j <= |BodyOf(x.job, u)| && MemBefore(BodyOf(x.job, u), j) == 0
      ensures s'.mem == During(x.job, u, j).mem
    {
      MemoryAt(x.job, u, j, 0);
    }
  }

  lemma StepKeepsMemory(x: Setup, s: Sys, p: Part)
    requires Compiled(x) && Ready(x, s, p)
    ensures MemoryOk(x, StepOf(x, s, p))
  {
    hide Compiled, CoreOk, ReturnOk, ArgumentsOk, HostOk, Enter, Computed, MailboxesOk, RunSoFar;
    ArgumentsRead(x, s, p);
    var core := s.cores[p];
    var inst := NextInst(x.tgt, p, core);
    if inst.Clone? && inst.mem {
      MemCloneRuns(x, s, p);
    } else if p == 0 && (inst.Jump? || inst.Branch?) {
      EdgeKeepsMemory(x, s);
    } else if p == 0 {
      Advance(x, p, core, if inst.Receive? then s.slots[inst.chan] else 0, Computed(x.job.sem, s.mem, core.regs, inst));
    }
  }

  // ---------- The return mailbox ----------

  /** A core that has run a return send is in the run's last visit. */
  lemma ReturnSendFacts(x: Setup, p: Part, core: Core)
    requires Compiled(x) && p in x.tgt.parts && CoreOk(x, p, core) && AtInstruction(x.tgt, p, core)
    ensures var inst := NextInst(x.tgt, p, core); var term := BlockAt(x.job.fn, BlockOf(x.job, VisitOf(core))).term;
      && (inst.SendReturn? ==>
            && term.Ret? && term.value.Some?
            && OperandOk(x.place, x.plan, BlockAt(x.job.fn, BlockOf(x.job, VisitOf(core))), p, RunSoFar(x, p, core),
                         term.value.value, inst.value))
      && (inst.Jump? ==> term.Br?) && (inst.Branch? ==> term.CondBr?)
  {
    hide Shape, Implements;
    NotLast(x, p, core);
    InstAt(x.job.fn, x.place, x.tgt, x.plan, p, BlockOf(x.job, VisitOf(core)), core.pc);
  }

  /** What is sent back is what the run returns. */
  lemma ReturnedValue(x: Setup, p: Part, core: Core)
    requires Compiled(x) && p in x.tgt.parts && CoreOk(x, p, core) && AtInstruction(x.tgt, p, core)
    requires core.argsRead == |PrologueOf(x.tgt, p)|
    requires NextInst(x.tgt, p, core).SendReturn?
    ensures BlockAt(x.job.fn, BlockOf(x.job, VisitOf(core))).term.Ret?
    ensures Some(EvalT(core.regs, NextInst(x.tgt, p, core).value)) == Returned(x.job, VisitOf(core))
  {
    hide Compiled, CoreOk, OperandOk, Enter;
    ReturnSendFacts(x, p, core);
    InStep(x, p, core);
    EvalAgrees(x, p, core, RunSoFar(x, p, core),
      BlockAt(x.job.fn, BlockOf(x.job, VisitOf(core))).term.value.value, NextInst(x.tgt, p, core).value);
  }

  /** How an instruction changes the count of return sends behind its core. */
  lemma ReturnsAfter(x: Setup, p: Part, core: Core, got: Value, made: Value)
    requires Compiled(x) && p in x.tgt.parts && CoreOk(x, p, core) && AtInstruction(x.tgt, p, core)
    requires Positioned(x, p, core)
    requires ReturnsOn(x, p, core) > 0 ==> BlockAt(x.job.fn, BlockOf(x.job, VisitOf(core))).term.Ret?
    ensures var inst := NextInst(x.tgt, p, core);
      var core' := CoreAfter(x.tgt, x.job.sem, p, core, inst, got, made);
      && Positioned(x, p, core')
      && ReturnsOn(x, p, core') == ReturnsOn(x, p, core) + (if inst.SendReturn? then 1 else 0)
      && (ReturnsOn(x, p, core') > 0 ==> VisitOf(core') == VisitOf(core))
  {
    hide Compiled, CoreOk, Enter, RunSoFar, OperandOk, BlockOf, CoreAfter, Returns;
    ReturnSendFacts(x, p, core);
    Advance(x, p, core, got, made);
  }

  /** The return law survives any move that is a return send or none, given where it leaves the core. */
  lemma ReturnMoves(x: Setup, s: Sys, s': Sys, p: Part, sends: bool)
    requires ReturnOk(x, s) && p in s.cores && p in s'.cores && s'.cores == s.cores[p := s'.cores[p]]
    requires Positioned(x, p, s'.cores[p])
    requires ReturnsOn(x, p, s'.cores[p]) == ReturnsOn(x, p, s.cores[p]) + (if sends then 1 else 0)
    requires ReturnsOn(x, p, s'.cores[p]) > 0 ==> VisitOf(s'.cores[p]) == VisitOf(s.cores[p])
    requires sends ==> s.ret.None? && s'.ret.Some? && s'.ret == Returned(x.job, VisitOf(s.cores[p]))
    requires sends ==> BlockAt(x.job.fn, BlockOf(x.job, VisitOf(s.cores[p]))).term.Ret?
    requires sends ==> s'.returnCount == s.returnCount + 1
    requires !sends ==> s'.ret == s.ret && s'.returnCount == s.returnCount
    ensures ReturnOk(x, s')
  {
    hide ReturnsOn, Positioned, Returned, BlockOf;
    if sends {
      assert ReturnsOn(x, p, s'.cores[p]) > 0;
    } else if s.ret.Some? {
      var q :| q in s.cores && ReturnsOn(x, q, s.cores[q]) > 0;
      assert ReturnsOn(x, q, s'.cores[q]) > 0;
    }
  }

  lemma StepKeepsReturn(x: Setup, s: Sys, p: Part)
    requires Compiled(x) && Ready(x, s, p)
    ensures ReturnOk(x, StepOf(x, s, p))
  {
    hide Compiled, CoreOk, CoresOk, MemoryOk, ArgumentsOk, HostOk, Computed;
    hide MailboxesOk, Returned, BlockOf, CoreAfter, ReturnsOn, Positioned;
    ArgumentsRead(x, s, p);
    var core := s.cores[p];
    var inst := NextInst(x.tgt, p, core);
    if inst.SendReturn? {
      ReturnedValue(x, p, core);
    }
    ReturnsAfter(x, p, core, if inst.Receive? then s.slots[inst.chan] else 0,
      Computed(x.job.sem, s.mem, core.regs, inst));
    ReturnMoves(x, s, StepOf(x, s, p), p, inst.SendReturn?);
  }

  // ---------- Arguments and the host ----------

  lemma ArgumentChannels(x: Setup, i: nat)
    requires Compiled(x) && i < |x.tgt.host|
    ensures x.tgt.host[i].chan !in x.plan.chans
    ensures forall j :: 0 <= j < |x.tgt.host| && j != i ==> x.tgt.host[j].chan != x.tgt.host[i].chan
  {
    hide Shape;
  }

  lemma StepKeepsHost(x: Setup, s: Sys, p: Part)
    requires Compiled(x) && Ready(x, s, p)
    ensures ArgumentsOk(x, StepOf(x, s, p)) && HostOk(x, StepOf(x, s, p))
  {
    hide Compiled, CoreOk, CoresOk, MemoryOk, ReturnOk, Computed, MailboxesOk, RunSoFar, CoreAfter, RefOk;
    hide Sends, Receives, BlockOf, EvalT, EvalAllT;
    ArgumentsRead(x, s, p);
    ChannelUse(x, p, s.cores[p]);
    forall i | 0 <= i < |x.tgt.host| ensures x.tgt.host[i].chan !in x.plan.chans {
      ArgumentChannels(x, i);
    }
  }

  lemma PrologueStep(x: Setup, s: Sys, p: Part)
    requires Compiled(x) && SysOk(x, s) && p in s.cores
    requires s.cores[p].argsRead < |PrologueOf(x.tgt, p)| && Enabled(x.tgt, s, OnCore(p))
    ensures SysOk(x, Do(x.tgt, x.job, s, OnCore(p)))
  {
    hide Compiled, CoreOk, ArgumentsOk, RunSoFar;
    var core := s.cores[p];
    var r := PrologueOf(x.tgt, p)[core.argsRead];
    ArgumentDelivered(x, s, p);
    var s' := Do(x.tgt, x.job, s, OnCore(p));
    PrologueKeeps(x, p, core, s'.cores[p]);
    SamePosition(x, s, s', p);
  }

  lemma ArgumentDelivered(x: Setup, s: Sys, p: Part)
    requires Compiled(x) && SysOk(x, s) && p in s.cores
    requires s.cores[p].argsRead < |PrologueOf(x.tgt, p)| && Enabled(x.tgt, s, OnCore(p))
    ensures var r := PrologueOf(x.tgt, p)[s.cores[p].argsRead]; s.slots[r.chan] == ReadArg(x.job.args, r.index)
  {
    hide Shape, CoreOk, MailboxOk, MemoryOk, ReturnOk, HostOk;
    var r := PrologueOf(x.tgt, p)[s.cores[p].argsRead];
    assert ArgSend(r.index, p, r.chan) in x.tgt.host;
    var i :| 0 <= i < |x.tgt.host| && x.tgt.host[i] == ArgSend(r.index, p, r.chan);
  }

  /** Everything that depends on positions only survives a step that moves no core in its block. */
  lemma SamePosition(x: Setup, s: Sys, s': Sys, p: Part)
    requires SysOk(x, s) && p in s.cores
    requires p in s'.cores && s'.cores == s.cores[p := s'.cores[p]]
    requires CoreOk(x, p, s'.cores[p])
    requires s'.cores[p].visits == s.cores[p].visits && s'.cores[p].pc == s.cores[p].pc
      && s'.cores[p].done == s.cores[p].done
    requires s' == s.(cores := s'.cores)
    ensures SysOk(x, s')
  {
    hide CoreOk, CoresOk, MailboxesOk, MemoryOk, ReturnOk, ArgumentsOk, HostOk;
    CoresStay(x, s, s', p);
    MailboxesStay(x, s, s', p);
    MemoryStays(x, s, s', p);
    ReturnStays(x, s, s', p);
    HostStays(x, s, s', p);
  }

  lemma CoresStay(x: Setup, s: Sys, s': Sys, p: Part)
    requires CoresOk(x, s) && p in s.cores && p in s'.cores && s'.cores == s.cores[p := s'.cores[p]]
    requires CoreOk(x, p, s'.cores[p])
    ensures CoresOk(x, s')
  {
    hide CoreOk;
  }

  lemma HostStays(x: Setup, s: Sys, s': Sys, p: Part)
    requires p in s.cores && p in s'.cores && s'.cores == s.cores[p := s'.cores[p]]
    requires s'.cores[p].done == s.cores[p].done && s' == s.(cores := s'.cores)
    ensures ArgumentsOk(x, s) ==> ArgumentsOk(x, s')
    ensures HostOk(x, s) ==> HostOk(x, s')
  {
  }

  lemma MemoryStays(x: Setup, s: Sys, s': Sys, p: Part)
    requires MemoryOk(x, s) && p in s.cores && p in s'.cores && s'.cores == s.cores[p := s'.cores[p]]
    requires s'.cores[p].visits == s.cores[p].visits && s'.cores[p].pc == s.cores[p].pc && s'.mem == s.mem
    ensures MemoryOk(x, s')
  {
    hide BlockOf, During, MemClones, MemBefore;
  }

  lemma ReturnStays(x: Setup, s: Sys, s': Sys, p: Part)
    requires ReturnOk(x, s) && p in s.cores && p in s'.cores && s'.cores == s.cores[p := s'.cores[p]]
    requires s'.cores[p].visits == s.cores[p].visits && s'.cores[p].pc == s.cores[p].pc
    requires s'.ret == s.ret && s'.returnCount == s.returnCount
    ensures ReturnOk(x, s')
  {
    hide BlockOf, Returned, Returns;
    ReturnMoves(x, s, s', p, false);
  }

  lemma MailboxesStay(x: Setup, s: Sys, s': Sys, p: Part)
    requires MailboxesOk(x, s) && p in s.cores
    requires p in s'.cores && s'.cores == s.cores[p := s'.cores[p]]
    requires s'.cores[p].visits == s.cores[p].visits && s'.cores[p].pc == s.cores[p].pc
    requires s'.slots == s.slots && s'.sent == s.sent && s'.received == s.received
    ensures MailboxesOk(x, s')
  {
    hide Owed, SentOn, ReceivedOn, Positioned;
    forall c | c in x.plan.chans ensures MailboxOk(x, s', c) {
      assert MailboxOk(x, s, c);
      SamePlace(x, p, s.cores[p], s'.cores[p], c);
    }
  }

  /** Traffic is counted by the core's position alone. */
  lemma SamePlace(x: Setup, p: Part, core: Core, core': Core, c: nat)
    requires core'.visits == core.visits && core'.pc == core.pc && c in x.plan.chans
    ensures Positioned(x, p, core') == Positioned(x, p, core)
    ensures Positioned(x, p, core) ==>
      SentOn(x, p, core', c) == SentOn(x, p, core, c) && ReceivedOn(x, p, core', c) == ReceivedOn(x, p, core, c)
  {
    hide BlockOf, Count, Sends, Receives;
  }

  lemma CoreStep(x: Setup, s: Sys, p: Part)
    requires Compiled(x) && Ready(x, s, p)
    ensures SysOk(x, StepOf(x, s, p))
  {
    hide Compiled, CoresOk, MailboxOk, MemoryOk, ReturnOk, ArgumentsOk, HostOk, StepOf;
    StepKeepsCores(x, s, p);
    forall c | c in x.plan.chans ensures MailboxOk(x, StepOf(x, s, p), c) {
      StepKeepsMailbox(x, s, p, c);
    }
    StepKeepsMemory(x, s, p);
    StepKeepsReturn(x, s, p);
    StepKeepsHost(x, s, p);
  }

  lemma HostStep(x: Setup, s: Sys)
    requires Compiled(x) && SysOk(x, s) && Enabled(x.tgt, s, Host)
    ensures SysOk(x, Do(x.tgt, x.job, s, Host))
  {
    hide Compiled, CoresOk, MailboxesOk, MemoryOk, ReturnOk, ArgumentsOk;
    var s' := Do(x.tgt, x.job, s, Host);
    if s.hostSent < |x.tgt.host| {
      ArgumentSent(x, s);
      CoresDecide(x, s, s');
    } else {
      assert s' == s.(result := s'.result, joined := s'.joined);
      ResultAside(x, s, s');
      HostSentBound(x, s);
    }
  }

  lemma CoresDecide(x: Setup, s: Sys, s': Sys)
    requires s'.cores == s.cores && s'.mem == s.mem && s'.ret == s.ret && s'.returnCount == s.returnCount
    ensures CoresOk(x, s) ==> CoresOk(x, s')
    ensures MemoryOk(x, s) ==> MemoryOk(x, s')
    ensures ReturnOk(x, s) ==> ReturnOk(x, s')
  {
    hide CoreOk, BlockOf, Returned, During, ReturnsOn, Positioned, RunSoFar;
  }

  /** The host's own fields matter to nobody else. */
  lemma ResultAside(x: Setup, s: Sys, s': Sys)
    requires s' == s.(result := s'.result, joined := s'.joined)
    ensures CoresOk(x, s) ==> CoresOk(x, s')
    ensures MemoryOk(x, s) ==> MemoryOk(x, s')
    ensures ReturnOk(x, s) ==> ReturnOk(x, s')
    ensures MailboxesOk(x, s) ==> MailboxesOk(x, s')
    ensures ArgumentsOk(x, s) ==> ArgumentsOk(x, s')
  {
    CoresDecide(x, s, s');
    hide CoresOk, MemoryOk, ReturnOk, Owed, SentOn, ReceivedOn, Positioned;
    if MailboxesOk(x, s) {
      forall c | c in x.plan.chans ensures MailboxOk(x, s', c) {
        assert MailboxOk(x, s, c);
      }
    }
  }

  lemma HostSentBound(x: Setup, s: Sys)
    requires ArgumentsOk(x, s)
    ensures s.hostSent <= |x.tgt.host|
  {
  }

  lemma ArgumentSent(x: Setup, s: Sys)
    requires Compiled(x) && SysOk(x, s) && s.hostSent < |x.tgt.host| && Enabled(x.tgt, s, Host)
    ensures MailboxesOk(x, Do(x.tgt, x.job, s, Host)) && ArgumentsOk(x, Do(x.tgt, x.job, s, Host))
  {
    hide Compiled, CoreOk, CodeAt, BlockOf, MemoryOk, ReturnOk, Owed, SentOn, ReceivedOn;
    ArgumentChannels(x, s.hostSent);
    var s' := Do(x.tgt, x.job, s, Host);
    forall c | c in x.plan.chans ensures MailboxOk(x, s', c) {
      assert MailboxOk(x, s, c);
    }
  }

  lemma InitialOk(x: Setup)
    requires Compiled(x)
    ensures SysOk(x, Initial(x.tgt))
  {
    hide Compiled, CoreOk, CodeAt, ValueAt;
    var s := Initial(x.tgt);
    forall p | p in x.tgt.parts ensures CoreOk(x, p, FreshCore) {
      InitialCoreOk(x, p);
    }
    forall c | c in x.plan.chans ensures MailboxOk(x, s, c) {
      ChannelEnds(x, c);
    }
    if 0 in s.cores {
      forall k | 0 <= k <= |BodyOf(x.job, 0)| && MemBefore(BodyOf(x.job, 0), k) == 0
        ensures During(x.job, 0, k).mem == []
      {
        MemoryAt(x.job, 0, k, 0);
      }
    }
    assert forall p :: p in s.cores ==> ReturnsOn(x, p, s.cores[p]) == 0;
  }

  lemma StepKeeps(x: Setup, s: Sys, a: Actor)
    requires Compiled(x) && SysOk(x, s) && Enabled(x.tgt, s, a)
    ensures SysOk(x, Do(x.tgt, x.job, s, a))
  {
    hide Compiled, CoreOk, MailboxesOk, MemoryOk, ReturnOk, ArgumentsOk, HostOk, RunInst;
    match a
    case Host => HostStep(x, s);
    case OnCore(p) =>
      if s.cores[p].argsRead < |PrologueOf(x.tgt, p)| {
        PrologueStep(x, s, p);
      } else {
        CoreStep(x, s, p);
      }
  }

  /** Every state any schedule can reach keeps the whole invariant. */
  lemma {:induction false} ReachableOk(x: Setup, sched: seq<Actor>)
    requires Compiled(x) && ValidSchedule(x.tgt, x.job, sched)
    ensures SysOk(x, After(x.tgt, x.job, sched))
  {
    hide Compiled, SysOk, Enabled, Do;
    if sched == [] {
      InitialOk(x);
    } else {
      var before := sched[..|sched| - 1];
      ReachableOk(x, before);
      StepKeeps(x, After(x.tgt, x.job, before), sched[|sched| - 1]);
    }
  }
}
