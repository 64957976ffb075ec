/**
 The emitted program: one clone of every block per core, a host, and one-slot
 mailboxes between them; and what one step of any of these does.
 */
module Target {
  import opened Common
  import opened OneSlot
  import opened Source

  type Part = int

  /** What a core's instruction may name: its own clones, received values and received arguments. */
  datatype Reg = InstR(id: Id) | ChanR(chan: nat) | ArgR(index: nat)

  /** `Unmapped` is an operand emission failed to rewrite; it names nothing in the clone. */
  datatype TOp = TConst(value: Value) | TReg(reg: Reg) | Unmapped(op: Operand)

  datatype TPhi = TPhi(id: Id, incoming: seq<(BlockId, TOp)>)

  datatype TInst =
    | Clone(id: Id, code: int, args: seq<TOp>, mem: bool)
    | Send(value: TOp, to: Part, chan: nat)
    | Receive(from: Part, chan: nat)   // receive, load, free
    | SendReturn(value: TOp)
    | RetVoid
    | Jump(dest: BlockId)
    | Branch(cond: TOp, dest1: BlockId, dest2: BlockId)

  datatype TBlock = TBlock(phis: seq<TPhi>, code: seq<TInst>)

  datatype ArgReceive = ArgReceive(index: nat, chan: nat)
  datatype ArgSend = ArgSend(index: nat, to: Part, chan: nat)

  /** `prologue` is the run of argument receives at the head of a core's entry block. */
  datatype Target = Target(
    parts: seq<Part>,
    blocks: map<(Part, BlockId), TBlock>,
    prologue: map<Part, seq<ArgReceive>>,
    host: seq<ArgSend>,
    returnsValue: bool)

  function CloneOf(tgt: Target, p: Part, b: BlockId): TBlock {
    if (p, b) in tgt.blocks then tgt.blocks[(p, b)] else TBlock([], [])
  }

  function CodeOf(tgt: Target, p: Part, b: BlockId): seq<TInst> {
    CloneOf(tgt, p, b).code
  }

  function PrologueOf(tgt: Target, p: Part): seq<ArgReceive> {
    if p in tgt.prologue then tgt.prologue[p] else []
  }

  predicate IsTerminator(x: TInst) {
    x.RetVoid? || x.Jump? || x.Branch?
  }

  // ---------- Running state ----------

  /** `history` records the value each executed clone produced, by visit and instruction. */
  datatype Core = Core(
    visits: seq<BlockId>,
    pc: nat,
    argsRead: nat,
    regs: map<Reg, Value>,
    history: map<(nat, Id), Value>,
    done: bool)

  /**
   A mailbox with a key in `slots` is full. `sent` and `received` count the traffic of
   each mailbox; `mem` is the trace of memory operations; `ret` is the return mailbox.
   */
  datatype Sys = Sys(
    cores: map<Part, Core>,
    slots: map<nat, Value>,
    sent: map<nat, nat>,
    received: map<nat, nat>,
    mem: seq<MemEvent>,
    ret: Option<Value>,
    returnCount: nat,
    hostSent: nat,
    result: Option<Value>,
    joined: bool)

  datatype Actor = Host | OnCore(part: Part)

  function Tally(m: map<nat, nat>, c: nat): nat {
    if c in m then m[c] else 0
  }

  function ReadReg(regs: map<Reg, Value>, r: Reg): Value {
    if r in regs then regs[r] else 0
  }

  function EvalT(regs: map<Reg, Value>, op: TOp): Value {
    match op
    case TConst(v) => v
    case TReg(r) => ReadReg(regs, r)
    case Unmapped(_) => 0
  }

  function EvalAllT(regs: map<Reg, Value>, ops: seq<TOp>): (vs: seq<Value>)
    ensures |vs| == |ops|
    ensures forall i :: 0 <= i < |ops| ==> vs[i] == EvalT(regs, ops[i])
  {
    seq(|ops|, i requires 0 <= i < |ops| => EvalT(regs, ops[i]))
  }

  function IncomingT(incoming: seq<(BlockId, TOp)>, prev: BlockId): TOp {
    if incoming == [] then TConst(0)
    else if incoming[0].0 == prev then incoming[0].1
    else IncomingT(incoming[1..], prev)
  }

  function PhiWritesT(phis: seq<TPhi>, prev: BlockId, regs: map<Reg, Value>): map<Reg, Value> {
    if phis == [] then map[]
    else
      var last := phis[|phis| - 1];
      PhiWritesT(phis[..|phis| - 1], prev, regs)[InstR(last.id) := EvalT(regs, IncomingT(last.incoming, prev))]
  }

  function PhiHistory(phis: seq<TPhi>, visit: nat, prev: BlockId, regs: map<Reg, Value>): map<(nat, Id), Value> {
    if phis == [] then map[]
    else
      var last := phis[|phis| - 1];
      PhiHistory(phis[..|phis| - 1], visit, prev, regs)
        [(visit, last.id) := EvalT(regs, IncomingT(last.incoming, prev))]
  }

  const FreshCore := Core([0], 0, 0, map[], map[], false)

  function Initial(tgt: Target): Sys {
    Sys(map p | p in tgt.parts :: FreshCore, map[], map[], map[], [], None, 0, 0, None, false)
  }

  predicate AllDone(tgt: Target, s: Sys) {
    forall p :: p in tgt.parts ==> p in s.cores && s.cores[p].done
  }

  predicate Finished(s: Sys) {
    s.joined
  }

  // ---------- Steps ----------

  /** The core is past its argument receives and has an instruction to run. */
  predicate AtInstruction(tgt: Target, p: Part, core: Core) {
    && core.argsRead >= |PrologueOf(tgt, p)|
    && !core.done
    && |core.visits| > 0
    && core.pc < |CodeOf(tgt, p, core.visits[|core.visits| - 1])|
  }

  function NextInst(tgt: Target, p: Part, core: Core): TInst
    requires AtInstruction(tgt, p, core)
  {
    CodeOf(tgt, p, core.visits[|core.visits| - 1])[core.pc]
  }

  predicate CanRun(s: Sys, x: TInst) {
    match x
    case Send(_, _, c) => c !in s.slots
    case Receive(_, c) => c in s.slots
    case SendReturn(_) => s.ret.None?
    case _ => true
  }

  predicate Enabled(tgt: Target, s: Sys, a: Actor) {
    match a
    case OnCore(p) =>
      && p in s.cores
      && var core := s.cores[p];
         if core.argsRead < |PrologueOf(tgt, p)| then PrologueOf(tgt, p)[core.argsRead].chan in s.slots
         else AtInstruction(tgt, p, core) && CanRun(s, NextInst(tgt, p, core))
    case Host =>
      if s.hostSent < |tgt.host| then tgt.host[s.hostSent].chan !in s.slots
      else if tgt.returnsValue && s.result.None? then s.ret.Some?
      else !s.joined && AllDone(tgt, s)
  }

  /** Entering block `d` from the core's current block. */
  function EnterBlock(tgt: Target, p: Part, core: Core, d: BlockId): Core
    requires |core.visits| > 0
  {
    var phis := CloneOf(tgt, p, d).phis;
    var prev := core.visits[|core.visits| - 1];
    core.(
      visits := core.visits + [d],
      pc := 0,
      regs := core.regs + PhiWritesT(phis, prev, core.regs),
      history := core.history + PhiHistory(phis, |core.visits|, prev, core.regs))
  }

  /** The core's own change; `got` is the value a receive takes, `made` the value a clone computes. */
  function CoreAfter(tgt: Target, sem: Semantics, p: Part, core: Core, x: TInst, got: Value, made: Value): Core
    requires |core.visits| > 0
  {
    match x
    case Clone(id, _, _, _) =>
      core.(
        pc := core.pc + 1, regs := core.regs[InstR(id) := made],
        history := core.history[(|core.visits| - 1, id) := made])
    case Send(_, _, _) => core.(pc := core.pc + 1)
    case Receive(_, c) => core.(pc := core.pc + 1, regs := core.regs[ChanR(c) := got])
    case SendReturn(_) => core.(pc := core.pc + 1)
    case RetVoid => core.(pc := core.pc + 1, done := true)
    case Jump(d) => EnterBlock(tgt, p, core, d)
    case Branch(c, d1, d2) => EnterBlock(tgt, p, core, if sem.taken(EvalT(core.regs, c)) then d1 else d2)
  }

  /** The value clone `x` computes. */
  function Computed(sem: Semantics, mem: seq<MemEvent>, regs: map<Reg, Value>, x: TInst): Value {
    if !x.Clone? then 0
    else if x.mem then sem.memory(mem, x.code, EvalAllT(regs, x.args))
    else sem.pure(x.code, EvalAllT(regs, x.args))
  }

  function RunInst(tgt: Target, sem: Semantics, s: Sys, p: Part, x: TInst): Sys
    requires p in s.cores && |s.cores[p].visits| > 0 && CanRun(s, x)
  {
    var core := s.cores[p];
    var got := if x.Receive? then s.slots[x.chan] else 0;
    var core' := CoreAfter(tgt, sem, p, core, x, got, Computed(sem, s.mem, core.regs, x));
    var s' := s.(cores := s.cores[p := core']);
    match x
    case Clone(_, code, args, mem) =>
      if mem then s'.(mem := s.mem + [MemEvent(code, EvalAllT(core.regs, args))]) else s'
    case Send(v, _, c) =>
      s'.(slots := s.slots[c := EvalT(core.regs, v)], sent := s.sent[c := Tally(s.sent, c) + 1])
    case Receive(_, c) =>
      s'.(slots := s.slots - {c}, received := s.received[c := Tally(s.received, c) + 1])
    case SendReturn(v) => s'.(ret := Some(EvalT(core.regs, v)), returnCount := s.returnCount + 1)
    case _ => s'
  }

  lemma RunInstCores(tgt: Target, sem: Semantics, s: Sys, p: Part, x: TInst)
    requires p in s.cores && |s.cores[p].visits| > 0 && CanRun(s, x)
    ensures RunInst(tgt, sem, s, p, x).cores ==
      s.cores[p := CoreAfter(tgt, sem, p, s.cores[p], x, if x.Receive? then s.slots[x.chan] else 0,
                             Computed(sem, s.mem, s.cores[p].regs, x))]
    ensures var r := RunInst(tgt, sem, s, p, x);
      r.hostSent == s.hostSent && r.result == s.result && r.joined == s.joined
  {
    hide CoreAfter, Computed, EvalT, EvalAllT;
  }

  /** What an instruction does to one mailbox. */
  lemma RunInstMailbox(tgt: Target, sem: Semantics, s: Sys, p: Part, x: TInst, c: nat)
    requires p in s.cores && |s.cores[p].visits| > 0 && CanRun(s, x)
    ensures var r := RunInst(tgt, sem, s, p, x);
      var sends := x.Send? && x.chan == c; var takes := x.Receive? && x.chan == c;
      && Tally(r.sent, c) == Tally(s.sent, c) + (if sends then 1 else 0)
      && Tally(r.received, c) == Tally(s.received, c) + (if takes then 1 else 0)
      && (sends ==> c !in s.slots && c in r.slots && r.slots[c] == EvalT(s.cores[p].regs, x.value))
      && (takes ==> c in s.slots && c !in r.slots)
      && (!sends && !takes ==> (c in r.slots <==> c in s.slots) && (c in s.slots ==> r.slots[c] == s.slots[c]))
  {
    hide CoreAfter, Computed, EvalT, EvalAllT;
  }

  /** One step of one actor. Argument and return mailboxes are read without being freed. */
  function Do(tgt: Target, job: Job, s: Sys, a: Actor): Sys
    requires Enabled(tgt, s, a)
  {
    match a
    case OnCore(p) =>
      var core := s.cores[p];
      if core.argsRead < |PrologueOf(tgt, p)| then
        var r := PrologueOf(tgt, p)[core.argsRead];
        var regs := core.regs[ArgR(r.index) := s.slots[r.chan]];
        s.(cores := s.cores[p := core.(argsRead := core.argsRead + 1, regs := regs)])
      else RunInst(tgt, job.sem, s, p, NextInst(tgt, p, core))
    case Host =>
      if s.hostSent < |tgt.host| then
        var m := tgt.host[s.hostSent];
        s.(slots := s.slots[m.chan := ReadArg(job.args, m.index)],
           sent := s.sent[m.chan := Tally(s.sent, m.chan) + 1],
           hostSent := s.hostSent + 1)
      else if tgt.returnsValue && s.result.None? then s.(result := s.ret)
      else s.(joined := true)
  }

  // ---------- The mailboxes as slots ----------

  function SlotIn(s: Sys, c: nat): Option<Value> {
    if c in s.slots then Some(s.slots[c]) else None
  }

  function InstEvent(s: Sys, p: Part, x: TInst, c: nat): Event<Value>
    requires p in s.cores && CanRun(s, x)
  {
    if x.Send? && x.chan == c then Put(EvalT(s.cores[p].regs, x.value))
    else if x.Receive? && x.chan == c then Take(s.slots[c])
    else Idle
  }

  /** What a step of an actor is to mailbox `c`. */
  function EventOn(tgt: Target, job: Job, s: Sys, a: Actor, c: nat): Event<Value>
    requires Enabled(tgt, s, a)
  {
    match a
    case Host =>
      if s.hostSent < |tgt.host| && tgt.host[s.hostSent].chan == c
      then Put(ReadArg(job.args, tgt.host[s.hostSent].index))
      else Idle
    case OnCore(p) =>
      if s.cores[p].argsRead < |PrologueOf(tgt, p)| then Idle
      else InstEvent(s, p, NextInst(tgt, p, s.cores[p]), c)
  }

  /** Every step of the system is a step of each one-slot mailbox. */
  lemma StepsAreSlotSteps(tgt: Target, job: Job, s: Sys, a: Actor, c: nat)
    requires Enabled(tgt, s, a)
    ensures SlotStep(SlotIn(s, c), EventOn(tgt, job, s, a, c), SlotIn(Do(tgt, job, s, a), c))
  {
    hide CoreAfter, Computed, EvalT, RunInst;
    if a.OnCore? && s.cores[a.part].argsRead >= |PrologueOf(tgt, a.part)| {
      RunInstMailbox(tgt, job.sem, s, a.part, NextInst(tgt, a.part, s.cores[a.part]), c);
    }
  }

  /** A schedule every step of which is enabled when its turn comes. */
  predicate ValidSchedule(tgt: Target, job: Job, sched: seq<Actor>)
    decreases |sched|, 0
  {
    if sched == [] then true
    else
      ValidSchedule(tgt, job, sched[..|sched| - 1])
      && Enabled(tgt, After(tgt, job, sched[..|sched| - 1]), sched[|sched| - 1])
  }

  /** The state a valid schedule leads to. */
  function After(tgt: Target, job: Job, sched: seq<Actor>): Sys
    requires ValidSchedule(tgt, job, sched)
    decreases |sched|, 1
  {
    if sched == [] then Initial(tgt)
    else Do(tgt, job, After(tgt, job, sched[..|sched| - 1]), sched[|sched| - 1])
  }
}
