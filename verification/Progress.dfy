/**
 Progress and completion: some actor can always step until everything has finished,
 every complete run has the same length, and what it leaves behind is the result of
 the sequential run.
 */
module Progress {
  import opened Source
  import opened SourceRun
  import opened Target
  import opened Projection
  import opened Correspondence
  import opened CoreInvariant
  import opened SystemInvariant

  // ---------- The core that is furthest behind ----------

  ghost predicate Running(x: Setup, s: Sys, p: Part) {
    p in s.cores && AtInstruction(x.tgt, p, s.cores[p])
  }

  /** Where a core's next instruction stands in its block's log. */
  ghost function NextPos(x: Setup, p: Part, core: Core): nat
    requires AtInstruction(x.tgt, p, core)
  {
    var log := LogOf(x.plan, core.visits[VisitOf(core)]);
    if core.pc < |Project(log, p)| then Locate(log, p, core.pc) else 0
  }

  /** Core `p`'s next instruction does not come after core `q`'s in the one order of all instructions. */
  ghost predicate NotAfter(x: Setup, s: Sys, p: Part, q: Part)
    requires Running(x, s, p) && Running(x, s, q)
  {
    var t := VisitOf(s.cores[p]); var u := VisitOf(s.cores[q]);
    t < u || (t == u && NextPos(x, p, s.cores[p]) <= NextPos(x, q, s.cores[q]))
  }

  ghost predicate Foremost(x: Setup, s: Sys, p: Part, ps: seq<Part>) {
    Running(x, s, p) && forall q :: q in ps && Running(x, s, q) ==> NotAfter(x, s, p, q)
  }

  lemma {:induction false} FindForemost(x: Setup, s: Sys, ps: seq<Part>) returns (p: Part)
    requires exists q :: q in ps && Running(x, s, q)
    ensures p in ps && Foremost(x, s, p, ps)
  {
    hide NextPos, AtInstruction;
    var rest := ps[..|ps| - 1];
    var last := ps[|ps| - 1];
    assert ps == rest + [last];
    if exists q :: q in rest && Running(x, s, q) {
      p := FindForemost(x, s, rest);
      if Running(x, s, last) && !NotAfter(x, s, p, last) {
        p := last;
      }
    } else {
      p := last;
    }
  }

  /** A core that is done is in the last visit, so no other core is in a later one. */
  lemma DoneIsLast(x: Setup, p: Part, core: Core, t: nat)
    requires CoreOk(x, p, core) && core.done && Live(x.job, t)
    ensures t <= VisitOf(core)
  {
    hide ClonesHeld, ReceivedHeld, HistoryOk, Enter;
    EnterNext(x.job, VisitOf(core));
    if VisitOf(core) < t {
      LivePrefix(x.job, VisitOf(core) + 1, t);
    }
  }

  lemma DoneRan(x: Setup, p: Part, core: Core)
    requires CoreOk(x, p, core) && core.done
    ensures RunSoFar(x, p, core) == CodeAt(x, p, core)
  {
    hide ClonesHeld, ReceivedHeld, HistoryOk;
  }

  lemma ForemostFirst(x: Setup, s: Sys, p: Part, q: Part)
    requires Foremost(x, s, p, x.tgt.parts) && q in x.tgt.parts && Running(x, s, q)
    ensures NotAfter(x, s, p, q)
  {
  }

  /** A core that is not done and past its arguments is at an instruction. */
  lemma NotDoneRuns(x: Setup, s: Sys, p: Part)
    requires SysOk(x, s) && p in s.cores && !s.cores[p].done
    requires s.cores[p].argsRead >= |PrologueOf(x.tgt, p)|
    ensures Running(x, s, p) && CoreOk(x, p, s.cores[p])
  {
    hide MailboxesOk, MemoryOk, ReturnOk, ArgumentsOk, HostOk, ClonesHeld, ReceivedHeld, HistoryOk;
  }

  ghost predicate ArgsAllRead(x: Setup, s: Sys) {
    forall p :: p in s.cores ==> s.cores[p].argsRead >= |PrologueOf(x.tgt, p)|
  }

  /** The foremost core finds the mailbox it sends to empty. */
  lemma SendCanRun(x: Setup, s: Sys, p: Part)
    requires Compiled(x) && SysOk(x, s) && ArgsAllRead(x, s) && p in x.tgt.parts
    requires Foremost(x, s, p, x.tgt.parts) && NextInst(x.tgt, p, s.cores[p]).Send?
    ensures NextInst(x.tgt, p, s.cores[p]).chan !in s.slots
  {
    hide Compiled, MemoryOk, ReturnOk, ArgumentsOk, HostOk, CoreOk, NextPos, Enter, Owed, RefOk, AtInstruction;
    var core := s.cores[p];
    InStep(x, p, core);
    var t := VisitOf(core);
    ChannelUse(x, p, core);
    var c := NextInst(x.tgt, p, core).chan;
    var ch := x.plan.chans[c];
    assert MailboxOk(x, s, c);
    ChannelEnds(x, c);
    InStep(x, p, core);
    if c in s.slots {
      var r := s.cores[ch.to];
      InStep(x, ch.to, r);
      var u := VisitOf(r);
      assert Count(x.job, ch.block, u) < Count(x.job, ch.block, t);
      if t <= u {
        CountMonotone(x.job, ch.block, t, u);
      }
      if r.done {
        DoneIsLast(x, ch.to, r, t);
      } else {
        NotDoneRuns(x, s, ch.to);
      }
      assert false;
    }
  }

  /** Inside one visit, a send still to come stands before its receive. */
  lemma SendStandsFirst(x: Setup, s: Sys, p: Part, q: Part, c: nat)
    requires Compiled(x) && SysOk(x, s) && p in x.tgt.parts && q in x.tgt.parts && c in x.plan.chans
    requires Running(x, s, p) && Running(x, s, q) && VisitOf(s.cores[p]) == VisitOf(s.cores[q])
    requires NextInst(x.tgt, p, s.cores[p]).Receive? && NextInst(x.tgt, p, s.cores[p]).chan == c
    requires q == x.plan.chans[c].from
    requires c !in Sends(CodeAt(x, q, s.cores[q])[..s.cores[q].pc])
    ensures NextPos(x, q, s.cores[q]) < NextPos(x, p, s.cores[p])
  {
    hide Compiled, MailboxesOk, MemoryOk, ReturnOk, ArgumentsOk, HostOk, CoreOk, Enter, RefOk;
    var core := s.cores[p];
    var other := s.cores[q];
    ChannelUse(x, p, core);
    ChannelEnds(x, c);
    InStep(x, p, core);
    InStep(x, q, other);
    var b := x.plan.chans[c].block;
    var code := CodeOf(x.tgt, q, b);
    var i := SendIndex(code, c);
    if i < other.pc {
      Extend(code, i);
      PrefixGrows(code, i + 1, other.pc);
      assert false;
    }
    LogOrder(x, c, i, core.pc, other.pc);
  }

  lemma LogOrder(x: Setup, c: nat, i: nat, j: nat, k: nat)
    requires Compiled(x) && c in x.plan.chans
    requires var ch := x.plan.chans[c];
      && i < |CodeOf(x.tgt, ch.from, ch.block)| && CodeOf(x.tgt, ch.from, ch.block)[i].Send?
      && CodeOf(x.tgt, ch.from, ch.block)[i].chan == c
      && j < |CodeOf(x.tgt, ch.to, ch.block)| && CodeOf(x.tgt, ch.to, ch.block)[j].Receive?
      && CodeOf(x.tgt, ch.to, ch.block)[j].chan == c
      && k <= i
    ensures var ch := x.plan.chans[c]; var log := LogOf(x.plan, ch.block);
      && k < |Project(log, ch.from)| && j < |Project(log, ch.to)|
      && Locate(log, ch.from, k) < Locate(log, ch.to, j)
  {
    hide Shape, Implements;
    SendBeforeReceive(x.job.fn, x.place, x.tgt, x.plan, c, i, j);
    var ch := x.plan.chans[c];
    if k < i {
      LocateOrder(LogOf(x.plan, ch.block), ch.from, k, i);
    }
  }

  /** The foremost core finds the mailbox it receives from full. */
  lemma ReceiveCanRun(x: Setup, s: Sys, p: Part)
    requires Compiled(x) && SysOk(x, s) && ArgsAllRead(x, s) && p in x.tgt.parts
    requires Foremost(x, s, p, x.tgt.parts) && NextInst(x.tgt, p, s.cores[p]).Receive?
    ensures NextInst(x.tgt, p, s.cores[p]).chan in s.slots
  {
    hide Compiled, MemoryOk, ReturnOk, ArgumentsOk, HostOk, CoreOk, NextPos, Enter, Owed, RefOk, AtInstruction;
    var core := s.cores[p];
    InStep(x, p, core);
    var t := VisitOf(core);
    ChannelUse(x, p, core);
    var c := NextInst(x.tgt, p, core).chan;
    var ch := x.plan.chans[c];
    assert MailboxOk(x, s, c);
    ChannelEnds(x, c);
    InStep(x, p, core);
    if c !in s.slots {
      var q := s.cores[ch.from];
      InStep(x, ch.from, q);
      var u := VisitOf(q);
      CountMonotone(x.job, ch.block, if t < u then t else u, if t < u then u else t);
      assert u <= t;
      if q.done {
        DoneRan(x, ch.from, q);
        DoneIsLast(x, ch.from, q, t);
      } else {
        NotDoneRuns(x, s, ch.from);
        ForemostFirst(x, s, p, ch.from);
        if u == t {
          SendStandsFirst(x, s, p, ch.from, c);
        }
      }
      assert false;
    }
  }

  lemma {:induction false} ReturnIndex(code: seq<TInst>) returns (i: nat)
    requires Returns(code) > 0
    ensures i < |code| && code[i].SendReturn?
  {
    var n := |code| - 1;
    if code[n].SendReturn? {
      i := n;
    } else {
      i := ReturnIndex(code[..n]);
    }
  }

  /** A return send belongs to the core of its return instruction, and nothing of the kind precedes it. */
  lemma ReturnOwner(x: Setup, p: Part, b: BlockId, i: nat)
    requires Compiled(x) && p in x.tgt.parts && b < |x.job.fn.blocks|
    requires i < |CodeOf(x.tgt, p, b)| && CodeOf(x.tgt, p, b)[i].SendReturn?
    ensures var term := BlockAt(x.job.fn, b).term;
      && term.Ret? && term.value.Some? && term.id in x.place && x.place[term.id] == p
      && Returns(CodeOf(x.tgt, p, b)[..i]) == 0
  {
    hide Shape, Implements;
    InstAt(x.job.fn, x.place, x.tgt, x.plan, p, b, i);
  }

  lemma LastVisitUnique(job: Job, t: nat, u: nat)
    requires Live(job, t) && BlockAt(job.fn, BlockOf(job, t)).term.Ret?
    requires Live(job, u) && BlockAt(job.fn, BlockOf(job, u)).term.Ret?
    ensures t == u
  {
    hide Enter;
    EnterNext(job, t);
    EnterNext(job, u);
    if t < u {
      LivePrefix(job, t + 1, u);
    } else if u < t {
      LivePrefix(job, u + 1, t);
    }
  }

  /** The return mailbox is empty when the return send is reached. */
  lemma ReturnCanRun(x: Setup, s: Sys, p: Part)
    requires Compiled(x) && SysOk(x, s) && p in x.tgt.parts && Running(x, s, p)
    requires NextInst(x.tgt, p, s.cores[p]).SendReturn?
    ensures s.ret.None?
  {
    hide Compiled, MailboxesOk, MemoryOk, ArgumentsOk, HostOk, CoreOk, Enter, BlockOf, Returned, ReturnsOn;
    if s.ret.Some? {
      var q :| q in s.cores && ReturnsOn(x, q, s.cores[q]) > 0;
      OneReturn(x, p, s.cores[p], q, s.cores[q]);
      assert false;
    }
  }

  /** While a core is about to return, none has. */
  lemma OneReturn(x: Setup, p: Part, core: Core, q: Part, other: Core)
    requires Compiled(x) && p in x.tgt.parts && q in x.tgt.parts && CoreOk(x, p, core) && CoreOk(x, q, other)
    requires AtInstruction(x.tgt, p, core) && NextInst(x.tgt, p, core).SendReturn? && Positioned(x, q, other)
    requires p == q ==> core == other
    ensures ReturnsOn(x, q, other) == 0
  {
    hide Compiled, CoreOk, Enter, BlockOf;
    if ReturnsOn(x, q, other) > 0 {
      InStep(x, p, core);
      InStep(x, q, other);
      BlockInRange(x, VisitOf(core));
      BlockInRange(x, VisitOf(other));
      ReturnOwner(x, p, BlockOf(x.job, VisitOf(core)), core.pc);
      var i := ReturnIndex(RunSoFar(x, q, other));
      ReturnOwner(x, q, BlockOf(x.job, VisitOf(other)), i);
      LastVisitUnique(x.job, VisitOf(core), VisitOf(other));
      assert false;
    }
  }

  /** When every core is done, a value owed to the host has been sent. */
  lemma ReturnArrives(x: Setup, s: Sys, p: Part)
    requires Compiled(x) && SysOk(x, s) && AllDone(x.tgt, s) && p in x.tgt.parts
    ensures BlockAt(x.job.fn, BlockOf(x.job, VisitOf(s.cores[p]))).term.Ret?
    ensures x.tgt.returnsValue ==> s.ret.Some? && s.ret == Returned(x.job, VisitOf(s.cores[p]))
    ensures !x.tgt.returnsValue ==> Returned(x.job, VisitOf(s.cores[p])).None?
  {
    hide Compiled, MailboxesOk, MemoryOk, ArgumentsOk, HostOk, CoreOk, Enter, BlockOf, Leave;
    var t := VisitOf(s.cores[p]);
    InStep(x, p, s.cores[p]);
    DoneAtReturn(x, p, s.cores[p]);
    BlockInRange(x, t);
    ReturnPlacement(x, BlockOf(x.job, t));
    if x.tgt.returnsValue {
      var q := x.place[BlockAt(x.job.fn, BlockOf(x.job, t)).term.id];
      var core := s.cores[q];
      InStep(x, q, core);
      DoneAtReturn(x, q, core);
      LastVisitUnique(x.job, t, VisitOf(core));
      assert RunSoFar(x, q, core) == CodeAt(x, q, core);
      assert ReturnsOn(x, q, core) > 0;
    }
  }

  lemma DoneAtReturn(x: Setup, p: Part, core: Core)
    requires CoreOk(x, p, core) && core.done
    ensures BlockAt(x.job.fn, BlockOf(x.job, VisitOf(core))).term.Ret?
  {
    hide ClonesHeld, ReceivedHeld, HistoryOk;
  }

  lemma ReturnPlacement(x: Setup, b: BlockId)
    requires Compiled(x) && b < |x.job.fn.blocks| && BlockAt(x.job.fn, b).term.Ret?
    ensures var term := BlockAt(x.job.fn, b).term;
      && term.id in x.place && x.place[term.id] in x.tgt.parts
      && (term.value.Some? <==> x.tgt.returnsValue)
      && (term.value.Some? ==> Returns(CodeOf(x.tgt, x.place[term.id], b)) == 1)
  {
    hide UniqueIds, LogsOk;
    assert BlockShape(x.job.fn, b);
  }

  // ---------- Deadlock freedom ----------

  lemma ArgumentReady(x: Setup, s: Sys, p: Part)
    requires Compiled(x) && SysOk(x, s) && p in x.tgt.parts && s.hostSent == |x.tgt.host|
    requires s.cores[p].argsRead < |PrologueOf(x.tgt, p)|
    ensures Enabled(x.tgt, s, OnCore(p))
  {
    hide Shape, CoreOk, MailboxOk, MemoryOk, ReturnOk, HostOk;
    var r := PrologueOf(x.tgt, p)[s.cores[p].argsRead];
    assert ArgSend(r.index, p, r.chan) in x.tgt.host;
    var i :| 0 <= i < |x.tgt.host| && x.tgt.host[i] == ArgSend(r.index, p, r.chan);
  }

  lemma ForemostEnabled(x: Setup, s: Sys, p: Part)
    requires Compiled(x) && SysOk(x, s) && ArgsAllRead(x, s) && p in x.tgt.parts
    requires Foremost(x, s, p, x.tgt.parts)
    ensures Enabled(x.tgt, s, OnCore(p))
  {
    hide Compiled, SysOk, NotAfter;
    var inst := NextInst(x.tgt, p, s.cores[p]);
    if inst.Send? {
      SendCanRun(x, s, p);
    } else if inst.Receive? {
      ReceiveCanRun(x, s, p);
    } else if inst.SendReturn? {
      ReturnCanRun(x, s, p);
    }
  }

  /** In every state the invariant allows, someone can step unless everything has finished. */
  lemma CanStep(x: Setup, s: Sys) returns (a: Actor)
    requires Compiled(x) && SysOk(x, s) && !Finished(s)
    ensures Enabled(x.tgt, s, a)
  {
    hide Compiled, CoreOk, MailboxesOk, MemoryOk, ReturnOk, NotAfter, AtInstruction;
    if s.hostSent < |x.tgt.host| {
      return Host;
    }
    if p :| p in x.tgt.parts && s.cores[p].argsRead < |PrologueOf(x.tgt, p)| {
      ArgumentReady(x, s, p);
      return OnCore(p);
    }
    if p :| p in x.tgt.parts && !s.cores[p].done {
      NotDoneRuns(x, s, p);
      var q := FindForemost(x, s, x.tgt.parts);
      ForemostEnabled(x, s, q);
      return OnCore(q);
    }
    a := Host;
    if x.tgt.returnsValue && s.result.None? {
      SomePart(x);
      ReturnArrives(x, s, x.tgt.parts[0]);
    }
  }

  lemma SomePart(x: Setup)
    requires Compiled(x)
    ensures |x.tgt.parts| > 0 && DistinctParts(x.tgt.parts)
  {
    hide Shape;
  }

  // ---------- The length of runs ----------

  /** The instructions core `p` runs in the first `t` visits. */
  ghost function CodeBefore(x: Setup, p: Part, t: nat): nat {
    if t == 0 then 0 else CodeBefore(x, p, t - 1) + |CodeOf(x.tgt, p, BlockOf(x.job, t - 1))|
  }

  /** Steps core `p` has taken, by its position. */
  ghost function CoreWork(x: Setup, p: Part, core: Core): nat {
    core.argsRead + CodeBefore(x, p, if |core.visits| > 0 then |core.visits| - 1 else 0) + core.pc
  }

  ghost function CoresWork(x: Setup, s: Sys, ps: seq<Part>): nat {
    if ps == [] then 0
    else
      var p := ps[|ps| - 1];
      CoresWork(x, s, ps[..|ps| - 1]) + (if p in s.cores then CoreWork(x, p, s.cores[p]) else 0)
  }

  ghost function Work(x: Setup, s: Sys): nat {
    CoresWork(x, s, x.tgt.parts) + s.hostSent + (if s.result.Some? then 1 else 0) + (if s.joined then 1 else 0)
  }

  lemma LastDistinct(ps: seq<Part>)
    requires DistinctParts(ps) && ps != []
    ensures ps[|ps| - 1] !in ps[..|ps| - 1]
    ensures forall p :: p in ps <==> p in ps[..|ps| - 1] || p == ps[|ps| - 1]
  {
    assert ps == ps[..|ps| - 1] + [ps[|ps| - 1]];
  }

  lemma {:induction false} CoresWorkStep(x: Setup, s: Sys, s': Sys, ps: seq<Part>, p: Part)
    requires DistinctParts(ps) && p in s.cores && p in s'.cores && s'.cores == s.cores[p := s'.cores[p]]
    requires CoreWork(x, p, s'.cores[p]) == CoreWork(x, p, s.cores[p]) + 1
    ensures CoresWork(x, s', ps) == CoresWork(x, s, ps) + (if p in ps then 1 else 0)
  {
    hide CoreWork;
    if ps != [] {
      var rest := ps[..|ps| - 1];
      CoresWorkStep(x, s, s', rest, p);
      LastDistinct(ps);
    }
  }

  /** One instruction is one unit of the core's work. */
  lemma InstructionWork(x: Setup, p: Part, core: Core, got: Value, made: Value)
    requires Compiled(x) && p in x.tgt.parts && CoreOk(x, p, core) && AtInstruction(x.tgt, p, core)
    ensures CoreWork(x, p, CoreAfter(x.tgt, x.job.sem, p, core, NextInst(x.tgt, p, core), got, made)) ==
            CoreWork(x, p, core) + 1
  {
    hide Compiled, CoreOk, Enter, BlockOf, PhiWritesT, PhiHistory;
    InStep(x, p, core);
    NotLast(x, p, core);
    var inst := NextInst(x.tgt, p, core);
    if inst.Jump? || inst.Branch? {
      assert core.pc + 1 == |CodeOf(x.tgt, p, BlockOf(x.job, VisitOf(core)))|;
    }
  }

  lemma StepWork(x: Setup, s: Sys, a: Actor)
    requires Compiled(x) && SysOk(x, s) && Enabled(x.tgt, s, a)
    ensures Work(x, Do(x.tgt, x.job, s, a)) == Work(x, s) + 1
  {
    hide Compiled, CoreOk, MailboxesOk, MemoryOk, ReturnOk, CoreWork, RunInst, AtInstruction, CanRun;
    match a
    case Host => SameCoresWork(x, s, Do(x.tgt, x.job, s, a), x.tgt.parts);
    case OnCore(p) => CoreStepWork(x, s, p);
  }

  lemma CoreStepWork(x: Setup, s: Sys, p: Part)
    requires Compiled(x) && CoresOk(x, s) && Enabled(x.tgt, s, OnCore(p))
    ensures Work(x, Do(x.tgt, x.job, s, OnCore(p))) == Work(x, s) + 1
  {
    hide Compiled, CoreOk, CoreWork, CoreAfter, Computed, RunInst;
    SomePart(x);
    var core := s.cores[p];
    var s' := Do(x.tgt, x.job, s, OnCore(p));
    if core.argsRead < |PrologueOf(x.tgt, p)| {
      PrologueWork(x, p, core, s'.cores[p]);
    } else {
      var inst := NextInst(x.tgt, p, core);
      RunInstCores(x.tgt, x.job.sem, s, p, inst);
      InstructionWork(x, p, core, if inst.Receive? then s.slots[inst.chan] else 0,
        Computed(x.job.sem, s.mem, core.regs, inst));
    }
    CoresWorkStep(x, s, s', x.tgt.parts, p);
  }

  lemma PrologueWork(x: Setup, p: Part, core: Core, core': Core)
    requires core'.visits == core.visits && core'.pc == core.pc && core'.argsRead == core.argsRead + 1
    ensures CoreWork(x, p, core') == CoreWork(x, p, core) + 1
  {
  }

  lemma {:induction false} SameCoresWork(x: Setup, s: Sys, s': Sys, ps: seq<Part>)
    requires s'.cores == s.cores
    ensures CoresWork(x, s', ps) == CoresWork(x, s, ps)
  {
    if ps != [] {
      SameCoresWork(x, s, s', ps[..|ps| - 1]);
    }
  }

  lemma {:induction false} InitialWork(x: Setup, ps: seq<Part>)
    requires forall p :: p in ps ==> p in x.tgt.parts
    ensures CoresWork(x, Initial(x.tgt), ps) == 0
  {
    if ps != [] {
      var rest := ps[..|ps| - 1];
      assert ps == rest + [ps[|ps| - 1]];
      InitialWork(x, rest);
    }
  }

  /** The number of steps taken is the work done. */
  lemma {:induction false} ScheduleLength(x: Setup, sched: seq<Actor>)
    requires Compiled(x) && ValidSchedule(x.tgt, x.job, sched)
    ensures |sched| == Work(x, After(x.tgt, x.job, sched))
  {
    hide Compiled, SysOk, Enabled, Do;
    if sched == [] {
      InitialWork(x, x.tgt.parts);
    } else {
      hide Work;
      var before := sched[..|sched| - 1];
      ScheduleLength(x, before);
      ReachableOk(x, before);
      StepWork(x, After(x.tgt, x.job, before), sched[|sched| - 1]);
    }
  }

  /** All the steps of a run whose last visit is `n`. */
  ghost function TotalWork(x: Setup, n: nat, ps: seq<Part>): nat {
    if ps == [] then 0
    else
      var p := ps[|ps| - 1];
      TotalWork(x, n, ps[..|ps| - 1]) + |PrologueOf(x.tgt, p)| + CodeBefore(x, p, n + 1)
  }

  ghost function RunLength(x: Setup, n: nat): nat {
    TotalWork(x, n, x.tgt.parts) + |x.tgt.host| + (if x.tgt.returnsValue then 1 else 0) + 1
  }

  lemma {:induction false} CodeBeforeMonotone(x: Setup, p: Part, t: nat, u: nat)
    requires t <= u
    ensures CodeBefore(x, p, t) <= CodeBefore(x, p, u)
  {
    hide BlockOf;
    if t < u {
      CodeBeforeMonotone(x, p, t, u - 1);
    }
  }

  lemma CoreBound(x: Setup, p: Part, core: Core, n: nat)
    requires Compiled(x) && p in x.tgt.parts && CoreOk(x, p, core) && Live(x.job, n) && !Live(x.job, n + 1)
    ensures VisitOf(core) <= n && (core.done ==> VisitOf(core) == n)
    ensures CoreWork(x, p, core) <= |PrologueOf(x.tgt, p)| + CodeBefore(x, p, n + 1)
    ensures core.done ==> CoreWork(x, p, core) == |PrologueOf(x.tgt, p)| + CodeBefore(x, p, n + 1)
  {
    hide Compiled, Enter, BlockOf, ClonesHeld, ReceivedHeld, HistoryOk;
    var t := VisitOf(core);
    if n < t {
      LivePrefix(x.job, n + 1, t);
    }
    if core.done {
      DoneIsLast(x, p, core, n);
      DoneHasRead(x, p, core);
    }
    CodeBeforeMonotone(x, p, t + 1, n + 1);
  }

  /** No clone is empty, so a core that is done has read its arguments. */
  lemma DoneHasRead(x: Setup, p: Part, core: Core)
    requires Compiled(x) && p in x.tgt.parts && CoreOk(x, p, core) && core.done
    ensures core.argsRead == |PrologueOf(x.tgt, p)|
  {
    hide Compiled, Enter, ClonesHeld, ReceivedHeld, HistoryOk;
    BlockInRange(x, VisitOf(core));
    CloneShape(x, p, BlockOf(x.job, VisitOf(core)));
  }

  lemma {:induction false} WorkBound(x: Setup, s: Sys, n: nat, ps: seq<Part>)
    requires Compiled(x) && SysOk(x, s) && Live(x.job, n) && !Live(x.job, n + 1)
    requires forall p :: p in ps ==> p in x.tgt.parts
    ensures CoresWork(x, s, ps) <= TotalWork(x, n, ps)
    ensures AllDone(x.tgt, s) ==> CoresWork(x, s, ps) == TotalWork(x, n, ps)
  {
    hide Compiled, CoreOk, MailboxesOk, MemoryOk, ReturnOk, ArgumentsOk, HostOk, CoreWork, CodeBefore;
    if ps != [] {
      var rest := ps[..|ps| - 1];
      assert ps == rest + [ps[|ps| - 1]];
      WorkBound(x, s, n, rest);
      var p := ps[|ps| - 1];
      CoreBound(x, p, s.cores[p], n);
    }
  }
}
