/**
 The main results about an emitted program: they hold of every schedule of the host
 and the cores, for every meaning of the operations and every argument list.
 */
module Partitioning {
  import opened Source
  import opened SourceRun
  import opened Target
  import opened Projection
  import opened CoreInvariant
  import opened SystemInvariant
  import opened Progress

  /** A schedule that has not finished everything can be continued. */
  lemma DeadlockFreedom(x: Setup, sched: seq<Actor>)
    requires Compiled(x) && ValidSchedule(x.tgt, x.job, sched)
    ensures !Finished(After(x.tgt, x.job, sched)) ==> exists a :: ValidSchedule(x.tgt, x.job, sched + [a])
  {
    hide Compiled, SysOk, Enabled, Finished;
    var s := After(x.tgt, x.job, sched);
    if !Finished(s) {
      ReachableOk(x, sched);
      var a := CanStep(x, s);
      assert (sched + [a])[..|sched|] == sched;
      assert ValidSchedule(x.tgt, x.job, sched + [a]);
    }
  }

  /** At any moment each core has visited a prefix of the sequential block sequence. */
  lemma LockStepControl(x: Setup, sched: seq<Actor>, p: Part)
    requires Compiled(x) && ValidSchedule(x.tgt, x.job, sched) && p in x.tgt.parts
    ensures var s := After(x.tgt, x.job, sched);
      p in s.cores && |s.cores[p].visits| > 0
      && forall t :: 0 <= t < |s.cores[p].visits| ==> Live(x.job, t) && s.cores[p].visits[t] == BlockOf(x.job, t)
  {
    hide Compiled, MailboxesOk, MemoryOk, ReturnOk, ArgumentsOk, HostOk, CoreOk, Enter;
    ReachableOk(x, sched);
    var core := After(x.tgt, x.job, sched).cores[p];
    InStep(x, p, core);
    forall t | 0 <= t < |core.visits| ensures Live(x.job, t) {
      LivePrefix(x.job, t, VisitOf(core));
    }
  }

  /** Whatever a clone has computed so far is the sequential value of its instruction in that visit. */
  lemma ValuesPreserved(x: Setup, sched: seq<Actor>, p: Part, t: nat, id: Id)
    requires Compiled(x) && ValidSchedule(x.tgt, x.job, sched) && p in x.tgt.parts
    requires p in After(x.tgt, x.job, sched).cores && (t, id) in After(x.tgt, x.job, sched).cores[p].history
    ensures id in x.place && x.place[id] == p && Defines(BlockAt(x.job.fn, BlockOf(x.job, t)), id)
    ensures After(x.tgt, x.job, sched).cores[p].history[(t, id)] == ValueAt(x.job, t, id)
  {
    hide Compiled, MailboxesOk, MemoryOk, ReturnOk, ArgumentsOk, HostOk, Enter, ValueAt;
    ReachableOk(x, sched);
    HistoryEntry(x, p, After(x.tgt, x.job, sched).cores[p], t, id);
  }

  lemma HistoryEntry(x: Setup, p: Part, core: Core, t: nat, id: Id)
    requires CoreOk(x, p, core)
    ensures (t, id) in core.history ==>
      && id in x.place && x.place[id] == p && Defines(BlockAt(x.job.fn, BlockOf(x.job, t)), id)
      && core.history[(t, id)] == ValueAt(x.job, t, id)
    ensures core.done && t <= VisitOf(core) && id in x.place && x.place[id] == p
      && Defines(BlockAt(x.job.fn, BlockOf(x.job, t)), id)
      && (InBody(BlockAt(x.job.fn, BlockOf(x.job, VisitOf(core))), id) ==> id in Clones(CodeAt(x, p, core)))
      ==> (t, id) in core.history
  {
    hide Enter, ValueAt;
    var ran := RunSoFar(x, p, core);
    assert (t, id) in core.history <==> HasRun(x, p, VisitOf(core), ran, t, id);
    if core.done {
      DoneRan(x, p, core);
    }
  }

  /** At any moment a mailbox between cores has been sent to at most once more than it has been read. */
  lemma MailboxTraffic(x: Setup, sched: seq<Actor>, c: nat)
    requires Compiled(x) && ValidSchedule(x.tgt, x.job, sched) && c in x.plan.chans
    ensures var s := After(x.tgt, x.job, sched);
      Tally(s.received, c) <= Tally(s.sent, c) <= Tally(s.received, c) + 1
      && (c in s.slots <==> Tally(s.sent, c) == Tally(s.received, c) + 1)
  {
    hide Compiled, CoresOk, MemoryOk, ReturnOk, ArgumentsOk, HostOk, Enter;
    ReachableOk(x, sched);
    assert MailboxOk(x, After(x.tgt, x.job, sched), c);
  }

  /** The sequential run ends with visit `n`. */
  predicate EndsAt(job: Job, n: nat) {
    Live(job, n) && !Live(job, n + 1)
  }

  /** The state in which the run that ends with visit `n` leaves everything. */
  ghost predicate Completed(x: Setup, s: Sys, n: nat) {
    // control and values
    && (forall p :: p in x.tgt.parts ==> p in s.cores && s.cores[p].done && |s.cores[p].visits| == n + 1)
    && (forall p, t: nat, id: nat {:trigger (t, id) in s.cores[p].history} :: p in x.tgt.parts ==>
          ((t, id) in s.cores[p].history <==>
             t <= n && id in x.place && x.place[id] == p && Defines(BlockAt(x.job.fn, BlockOf(x.job, t)), id)))
    // memory and result
    && s.mem == Leave(x.job, n).mem
    && s.result == Returned(x.job, n)
    && s.returnCount == (if x.tgt.returnsValue then 1 else 0)
    // every mailbox between cores is empty and was used once per execution of its block
    && (forall c :: c in x.plan.chans ==>
          && c !in s.slots
          && Tally(s.sent, c) == Count(x.job, x.plan.chans[c].block, n + 1)
          && Tally(s.received, c) == Count(x.job, x.plan.chans[c].block, n + 1))
    // every argument mailbox was written once
    && (forall i :: 0 <= i < |x.tgt.host| ==> Tally(s.sent, x.tgt.host[i].chan) == 1)
  }

  /** A finished run is the sequential run: same values, memory, result; all mailboxes drained. */
  lemma MeaningPreserved(x: Setup, sched: seq<Actor>) returns (n: nat)
    requires Compiled(x) && ValidSchedule(x.tgt, x.job, sched)
    requires Finished(After(x.tgt, x.job, sched))
    ensures EndsAt(x.job, n) && Completed(x, After(x.tgt, x.job, sched), n)
  {
    hide Compiled, CoreOk, MailboxesOk, MemoryOk, ReturnOk, Enter, After, Returned, Count, ValueAt, Defines;
    var s := After(x.tgt, x.job, sched);
    ReachableOk(x, sched);
    SomePart(x);
    var p := x.tgt.parts[0];
    InStep(x, p, s.cores[p]);
    n := VisitOf(s.cores[p]);
    LastVisit(x, p, s.cores[p]);
    forall q | q in x.tgt.parts ensures |s.cores[q].visits| == n + 1 {
      InStep(x, q, s.cores[q]);
      CoreBound(x, q, s.cores[q], n);
    }
    forall q, t: nat, id: nat {:trigger (t, id) in s.cores[q].history} | q in x.tgt.parts
      ensures (t, id) in s.cores[q].history <==>
        t <= n && id in x.place && x.place[id] == q && Defines(BlockAt(x.job.fn, BlockOf(x.job, t)), id)
    {
      FullHistory(x, q, s.cores[q], t, id);
    }
    FinalMemory(x, s, n);
    FinalReturn(x, s, n);
    forall c | c in x.plan.chans
      ensures c !in s.slots
      ensures Tally(s.sent, c) == Count(x.job, x.plan.chans[c].block, n + 1)
      ensures Tally(s.received, c) == Count(x.job, x.plan.chans[c].block, n + 1)
    {
      FinalMailbox(x, s, n, c);
    }
  }

  lemma LastVisit(x: Setup, p: Part, core: Core)
    requires CoreOk(x, p, core) && core.done
    ensures EndsAt(x.job, VisitOf(core))
  {
    hide Enter, ClonesHeld, ReceivedHeld, HistoryOk;
    EnterNext(x.job, VisitOf(core));
  }

  lemma FullHistory(x: Setup, p: Part, core: Core, t: nat, id: Id)
    requires Compiled(x) && p in x.tgt.parts && CoreOk(x, p, core) && core.done
    ensures (t, id) in core.history <==>
      t <= VisitOf(core) && id in x.place && x.place[id] == p && Defines(BlockAt(x.job.fn, BlockOf(x.job, t)), id)
  {
    hide Compiled, Enter, ValueAt, ClonesHeld, ReceivedHeld;
    HistoryEntry(x, p, core, t, id);
    HistoryInRange(x, p, core, t, id);
    var u := VisitOf(core);
    BlockInRange(x, u);
    var blk := BlockAt(x.job.fn, BlockOf(x.job, u));
    if InBody(blk, id) && id in x.place && x.place[id] == p {
      var k :| 0 <= k < |blk.body| && blk.body[k].id == id;
      CloneOfBody(x, BlockOf(x.job, u), k);
    }
  }

  lemma HistoryInRange(x: Setup, p: Part, core: Core, t: nat, id: Id)
    requires CoreOk(x, p, core)
    ensures (t, id) in core.history ==> t <= VisitOf(core)
  {
    assert (t, id) in core.history <==> HasRun(x, p, VisitOf(core), RunSoFar(x, p, core), t, id);
  }

  lemma FinalMemory(x: Setup, s: Sys, n: nat)
    requires Compiled(x) && SysOk(x, s) && AllDone(x.tgt, s) && EndsAt(x.job, n)
    requires forall q :: q in x.tgt.parts ==> |s.cores[q].visits| == n + 1
    ensures s.mem == Leave(x.job, n).mem
  {
    hide Compiled, CoreOk, MailboxesOk, ReturnOk, ArgumentsOk, HostOk, Enter;
    if 0 in s.cores {
      BlockInRange(x, n);
      InStep(x, 0, s.cores[0]);
      DoneRan(x, 0, s.cores[0]);
      AllMemoryCloned(x, BlockOf(x.job, n));
    } else {
      NoMemory(x, n);
    }
  }

  /** Without core 0 there is no memory operation at all. */
  lemma {:induction false} NoMemory(x: Setup, t: nat)
    requires Compiled(x) && 0 !in x.tgt.parts
    ensures Leave(x.job, t).mem == []
  {
    hide Compiled;
    BlockInRange(x, t);
    forall k | 0 <= k < |BodyOf(x.job, t)| ensures !BodyOf(x.job, t)[k].mem {
      MemOnZero(x, BlockOf(x.job, t), k);
    }
    if t > 0 {
      NoMemory(x, t - 1);
      if !Live(x.job, t - 1) {
        hide Enter;
        Stopped(x.job, t - 1, t);
      } else {
        hide Enter;
        EnterNext(x.job, t - 1);
        NoMemoryInBody(x.job, Enter(x.job, t).frame, BodyOf(x.job, t), |BodyOf(x.job, t)|);
      }
    } else {
      NoMemoryInBody(x.job, Enter(x.job, t).frame, BodyOf(x.job, t), |BodyOf(x.job, t)|);
    }
  }

  lemma {:induction false} NoMemoryInBody(job: Job, f: Frame, body: seq<Inst>, n: nat)
    requires n <= |body| && forall k :: 0 <= k < |body| ==> !body[k].mem
    ensures ExecBody(job, f, body, n).mem == f.mem
  {
    if n > 0 {
      NoMemoryInBody(job, f, body, n - 1);
    }
  }

  lemma FinalReturn(x: Setup, s: Sys, n: nat)
    requires Compiled(x) && SysOk(x, s) && Finished(s)
    requires forall q :: q in x.tgt.parts ==> |s.cores[q].visits| == n + 1
    ensures s.result == Returned(x.job, n)
    ensures s.returnCount == (if x.tgt.returnsValue then 1 else 0)
  {
    hide Compiled, CoreOk, MailboxesOk, Enter, Returned, MemoryOk, ArgumentsOk;
    SomePart(x);
    var p := x.tgt.parts[0];
    ReturnArrives(x, s, p);
    if !x.tgt.returnsValue && s.ret.Some? {
      NoReturnSend(x, s);
    }
  }

  lemma NoReturnSend(x: Setup, s: Sys)
    requires Compiled(x) && SysOk(x, s) && AllDone(x.tgt, s) && !x.tgt.returnsValue
    ensures s.ret.None?
  {
    hide Compiled, CoreOk, MailboxesOk, Enter, MemoryOk, ArgumentsOk, HostOk, BlockOf, Leave;
    if s.ret.Some? {
      var q :| q in s.cores && ReturnsOn(x, q, s.cores[q]) > 0;
      ReturnArrives(x, s, q);
    }
  }

  lemma FinalMailbox(x: Setup, s: Sys, n: nat, c: nat)
    requires Compiled(x) && SysOk(x, s) && AllDone(x.tgt, s) && c in x.plan.chans
    requires forall q :: q in x.tgt.parts ==> |s.cores[q].visits| == n + 1
    ensures c !in s.slots
    ensures Tally(s.sent, c) == Count(x.job, x.plan.chans[c].block, n + 1)
    ensures Tally(s.received, c) == Count(x.job, x.plan.chans[c].block, n + 1)
  {
    hide Compiled, CoreOk, ReturnOk, MemoryOk, ArgumentsOk, HostOk, Enter, BlockOf, Sends, Receives, Owed;
    ChannelEnds(x, c);
    var ch := x.plan.chans[c];
    assert MailboxOk(x, s, c);
    InStep(x, ch.from, s.cores[ch.from]);
    InStep(x, ch.to, s.cores[ch.to]);
    DoneRan(x, ch.from, s.cores[ch.from]);
    DoneRan(x, ch.to, s.cores[ch.to]);
  }

  /**
   If the sequential run ends, no schedule is longer than one fixed length, and exactly
   those of that length have finished.
   */
  lemma RunsEnd(x: Setup, sched: seq<Actor>, n: nat)
    requires Compiled(x) && ValidSchedule(x.tgt, x.job, sched) && EndsAt(x.job, n)
    ensures |sched| <= RunLength(x, n)
    ensures Finished(After(x.tgt, x.job, sched)) <==> |sched| == RunLength(x, n)
  {
    hide Compiled, CoreOk, MailboxesOk, MemoryOk, ReturnOk, Enter, After, ValidSchedule, CoresWork, TotalWork, Enabled;
    var s := After(x.tgt, x.job, sched);
    ReachableOk(x, sched);
    ScheduleLength(x, sched);
    WorkBound(x, s, n, x.tgt.parts);
    if !Finished(s) {
      var a := CanStep(x, s);
      LongerRun(x, sched, a, n);
    }
  }

  lemma LongerRun(x: Setup, sched: seq<Actor>, a: Actor, n: nat)
    requires Compiled(x) && ValidSchedule(x.tgt, x.job, sched) && EndsAt(x.job, n)
    requires Enabled(x.tgt, After(x.tgt, x.job, sched), a)
    ensures |sched| < RunLength(x, n)
  {
    hide Compiled, CoreOk, MailboxesOk, MemoryOk, ReturnOk, Enter, CoresWork, TotalWork, Enabled, Do, After;
    var longer := sched + [a];
    assert longer[..|sched|] == sched;
    assert ValidSchedule(x.tgt, x.job, longer);
    ReachableOk(x, longer);
    ScheduleLength(x, longer);
    WorkBound(x, After(x.tgt, x.job, longer), n, x.tgt.parts);
  }

  /** If the sequential run ends, every schedule can be continued until everything has finished. */
  lemma {:induction false} RunsComplete(x: Setup, sched: seq<Actor>, n: nat) returns (full: seq<Actor>)
    requires Compiled(x) && ValidSchedule(x.tgt, x.job, sched) && EndsAt(x.job, n)
    ensures sched <= full && ValidSchedule(x.tgt, x.job, full) && Finished(After(x.tgt, x.job, full))
    decreases RunLength(x, n) - |sched|
  {
    hide Compiled, Enter, RunLength, Finished;
    RunsEnd(x, sched, n);
    if Finished(After(x.tgt, x.job, sched)) {
      full := sched;
    } else {
      DeadlockFreedom(x, sched);
      var a :| ValidSchedule(x.tgt, x.job, sched + [a]);
      RunsEnd(x, sched + [a], n);
      full := RunsComplete(x, sched + [a], n);
    }
  }

  /** Two complete runs cannot be told apart by their length, result, memory trace or computed values. */
  lemma Determinacy(x: Setup, one: seq<Actor>, two: seq<Actor>)
    requires Compiled(x) && ValidSchedule(x.tgt, x.job, one) && ValidSchedule(x.tgt, x.job, two)
    requires Finished(After(x.tgt, x.job, one)) && Finished(After(x.tgt, x.job, two))
    ensures |one| == |two|
    ensures SameOutcome(x, After(x.tgt, x.job, one), After(x.tgt, x.job, two))
  {
    hide Compiled, Enter, After, ValidSchedule, RunLength, Finished, SameOutcome, Completed, SysOk;
    var n := MeaningPreserved(x, one);
    var m := MeaningPreserved(x, two);
    SameEnd(x.job, n, m);
    RunsEnd(x, one, n);
    RunsEnd(x, two, n);
    ReachableOk(x, one);
    ReachableOk(x, two);
    CompletedAlike(x, After(x.tgt, x.job, one), After(x.tgt, x.job, two), n);
  }

  ghost predicate SameOutcome(x: Setup, s: Sys, s': Sys) {
    && s.result == s'.result && s.mem == s'.mem
    && forall p :: p in x.tgt.parts ==> p in s.cores && p in s'.cores && s.cores[p].history == s'.cores[p].history
  }

  lemma CompletedAlike(x: Setup, s: Sys, s': Sys, n: nat)
    requires SysOk(x, s) && SysOk(x, s') && Completed(x, s, n) && Completed(x, s', n)
    ensures SameOutcome(x, s, s')
  {
    hide CoreOk, MailboxesOk, MemoryOk, ReturnOk, ArgumentsOk, HostOk, Enter, Returned, Count;
    forall p | p in x.tgt.parts ensures s.cores[p].history == s'.cores[p].history {
      var h := s.cores[p].history;
      var h' := s'.cores[p].history;
      forall k: (nat, Id)
        ensures k in h <==> k in h'
        ensures k in h && k in h' ==> h[k] == h'[k]
      {
        var (t, id) := k;
        assert (t, id) in s.cores[p].history <==> (t, id) in s'.cores[p].history;
        HistoryEntry(x, p, s.cores[p], t, id);
        HistoryEntry(x, p, s'.cores[p], t, id);
      }
      assert h.Keys == h'.Keys;
    }
  }

  lemma SameEnd(job: Job, n: nat, m: nat)
    requires EndsAt(job, n) && EndsAt(job, m)
    ensures n == m
  {
    hide Enter;
    if n < m {
      LivePrefix(job, n + 1, m);
    } else if m < n {
      LivePrefix(job, m + 1, n);
    }
  }
}
