/** Facts about the sequential run of a well-formed function. */
module SourceRun {
  import opened Source

  lemma EnterNext(job: Job, t: nat)
    requires Live(job, t)
    ensures var blk := BlockAt(job.fn, BlockOf(job, t)); var f := Leave(job, t);
      match Next(job, f.env, blk.term)
      case None => !Live(job, t + 1) && BlockOf(job, t + 1) == BlockOf(job, t) && Enter(job, t + 1).frame == f
      case Some(d) =>
        && Live(job, t + 1) && BlockOf(job, t + 1) == d
        && Enter(job, t + 1).frame ==
           Frame(f.env + PhiWrites(job.args, BlockAt(job.fn, d).phis, BlockOf(job, t), f.env), f.mem)
  {
  }

  lemma {:induction false} LivePrefix(job: Job, s: nat, t: nat)
    requires s <= t && Live(job, t)
    ensures Live(job, s)
  {
    if s < t {
      assert Live(job, t - 1);
      LivePrefix(job, s, t - 1);
    }
  }

  /** Nothing happens after the last visit. */
  lemma {:induction false} Stopped(job: Job, s: nat, t: nat)
    requires s <= t && !Live(job, s)
    ensures Enter(job, t) == Enter(job, s)
  {
    if s < t {
      Stopped(job, s, t - 1);
    }
  }

  lemma {:induction false} InRange(job: Job, t: nat)
    requires Shape(job.fn)
    ensures BlockOf(job, t) < |job.fn.blocks|
  {
    if t > 0 {
      InRange(job, t - 1);
      if Live(job, t - 1) {
        EnterNext(job, t - 1);
        var b := BlockOf(job, t - 1);
        assert BlockShape(job.fn, b);
        var env := Leave(job, t - 1).env;
        var term := job.fn.blocks[b].term;
        match Next(job, env, term) {
          case None =>
          case Some(d) => assert d in Successors(term);
        }
      }
    }
  }

  lemma {:induction false} BodyKeeps(job: Job, f: Frame, body: seq<Inst>, k: nat, n: nat, id: Id)
    requires k <= n <= |body|
    requires forall j :: k <= j < n ==> body[j].id != id
    ensures Read(ExecBody(job, f, body, n).env, id) == Read(ExecBody(job, f, body, k).env, id)
  {
    if k < n {
      BodyKeeps(job, f, body, k, n - 1, id);
    }
  }

  lemma {:induction false} PhiWritesAt(args: seq<Value>, phis: seq<Phi>, prev: BlockId, env: Env, i: nat)
    requires i < |phis|
    requires forall a, b :: 0 <= a < b < |phis| ==> phis[a].id != phis[b].id
    ensures phis[i].id in PhiWrites(args, phis, prev, env)
    ensures PhiWrites(args, phis, prev, env)[phis[i].id] == Eval(args, env, Incoming(phis[i].incoming, prev))
  {
    if i < |phis| - 1 {
      var rest := phis[..|phis| - 1];
      assert rest[i] == phis[i];
      PhiWritesAt(args, rest, prev, env, i);
    }
  }

  lemma {:induction false} PhiWritesOnly(args: seq<Value>, phis: seq<Phi>, prev: BlockId, env: Env, id: Id)
    requires forall i :: 0 <= i < |phis| ==> phis[i].id != id
    ensures id !in PhiWrites(args, phis, prev, env)
  {
    if phis != [] {
      PhiWritesOnly(args, phis[..|phis| - 1], prev, env, id);
    }
  }

  /** An operand available at body index `k` has at that point the value it has when the visit ends. */
  lemma ValueBefore(job: Job, t: nat, k: nat, id: Id)
    requires k <= |BodyOf(job, t)|
    requires forall j :: k <= j < |BodyOf(job, t)| ==> BodyOf(job, t)[j].id != id
    ensures Read(During(job, t, k).env, id) == ValueAt(job, t, id)
  {
    BodyKeeps(job, Enter(job, t).frame, BodyOf(job, t), k, |BodyOf(job, t)|, id);
  }

  /** What an instruction computes in visit `t`, from values and memory as of that moment. */
  lemma ValueOfInst(job: Job, t: nat, k: nat)
    requires Shape(job.fn)
    requires k < |BodyOf(job, t)|
    ensures var inst := BodyOf(job, t)[k]; var f := During(job, t, k);
      var vs := EvalAll(job.args, f.env, inst.args);
      ValueAt(job, t, inst.id) ==
      (if inst.mem then job.sem.memory(f.mem, inst.code, vs) else job.sem.pure(inst.code, vs))
  {
    var body := BodyOf(job, t);
    ValueBefore(job, t, k + 1, body[k].id);
  }

  lemma ValueOfPhi(job: Job, t: nat, i: nat)
    requires Shape(job.fn) && Live(job, t) && Live(job, t + 1)
    requires i < |BlockAt(job.fn, BlockOf(job, t + 1)).phis|
    ensures var phi := BlockAt(job.fn, BlockOf(job, t + 1)).phis[i];
      ValueAt(job, t + 1, phi.id) == Eval(job.args, Leave(job, t).env, Incoming(phi.incoming, BlockOf(job, t)))
  {
    EnterNext(job, t);
    var blk := BlockAt(job.fn, BlockOf(job, t + 1));
    var env := Leave(job, t).env;
    PhiWritesAt(job.args, blk.phis, BlockOf(job, t), env, i);
    assert IsPhi(blk, blk.phis[i].id);
    assert !InBody(blk, blk.phis[i].id);
    ValueBefore(job, t + 1, 0, blk.phis[i].id);
  }

  lemma ValueUnchanged(job: Job, t: nat, id: Id)
    requires Live(job, t) && Live(job, t + 1)
    requires !Defines(BlockAt(job.fn, BlockOf(job, t + 1)), id)
    ensures ValueAt(job, t + 1, id) == ValueAt(job, t, id)
  {
    EnterNext(job, t);
    var blk := BlockAt(job.fn, BlockOf(job, t + 1));
    PhiWritesOnly(job.args, blk.phis, BlockOf(job, t), Leave(job, t).env, id);
    ValueBefore(job, t + 1, 0, id);
  }

  lemma ValueInitially(job: Job, id: Id)
    requires !InBody(BlockAt(job.fn, 0), id)
    ensures ValueAt(job, 0, id) == 0
  {
    ValueBefore(job, 0, 0, id);
  }

  // ---------- Counting visits ----------

  lemma {:induction false} CountMonotone(job: Job, b: BlockId, s: nat, t: nat)
    requires s <= t
    ensures Count(job, b, s) <= Count(job, b, t)
    ensures s < t && BlockOf(job, s) == b ==> Count(job, b, s) < Count(job, b, t)
  {
    hide BlockOf;
    if s < t {
      CountMonotone(job, b, s, t - 1);
    }
  }

  // ---------- Memory operations ----------

  /** The memory operations among the first `k` instructions. */
  function MemBefore(body: seq<Inst>, k: nat): nat
    requires k <= |body|
  {
    if k == 0 then 0 else MemBefore(body, k - 1) + (if body[k - 1].mem then 1 else 0)
  }

  lemma {:induction false} MemBeforeMonotone(body: seq<Inst>, j: nat, k: nat)
    requires j <= k <= |body|
    ensures MemBefore(body, j) <= MemBefore(body, k)
    ensures j < k && body[j].mem ==> MemBefore(body, j) < MemBefore(body, k)
  {
    if j < k {
      MemBeforeMonotone(body, j, k - 1);
    }
  }

  /** After the last memory operation there are no more. */
  lemma {:induction false} LastMem(body: seq<Inst>, n: nat) returns (k: nat)
    requires n <= |body| && MemBefore(body, n) > 0
    ensures k < n && body[k].mem && MemBefore(body, n) == MemBefore(body, k) + 1
  {
    if body[n - 1].mem {
      k := n - 1;
    } else {
      k := LastMem(body, n - 1);
    }
  }

  /** The memory history depends only on how many memory operations have run. */
  lemma {:induction false} MemDetermined(job: Job, f: Frame, body: seq<Inst>, j: nat, k: nat)
    requires j <= k <= |body| && MemBefore(body, j) == MemBefore(body, k)
    ensures ExecBody(job, f, body, j).mem == ExecBody(job, f, body, k).mem
  {
    if j < k {
      MemBeforeMonotone(body, j, k - 1);
      MemDetermined(job, f, body, j, k - 1);
    }
  }
}
