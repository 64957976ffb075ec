/**
 The source language: one SSA function as a control-flow graph of basic blocks,
 and its sequential meaning.

 Operation codes are uninterpreted: a pure operation is any function of its
 operands, and a memory operation returns any function of its operands and of the
 whole history of memory operations before it.
 */
module Source {
  import opened Common

  type Id = nat
  type BlockId = nat
  type Value = int

  datatype Operand = Const(value: Value) | Arg(index: nat) | Ref(id: Id)

  datatype Phi = Phi(id: Id, incoming: seq<(BlockId, Operand)>)

  /** Any instruction other than a phi and a terminator; `mem` marks loads and stores. */
  datatype Inst = Inst(id: Id, code: int, args: seq<Operand>, mem: bool)

  /** The two destinations of a conditional branch are kept by operand index, as LLVM stores them. */
  datatype Term =
    | Ret(id: Id, value: Option<Operand>)
    | Br(dest: BlockId)
    | CondBr(cond: Operand, dest1: BlockId, dest2: BlockId)

  datatype Block = Block(phis: seq<Phi>, body: seq<Inst>, term: Term)

  /** Block 0 is the entry. */
  datatype Function = Function(arity: nat, returnsValue: bool, blocks: seq<Block>)

  datatype MemEvent = MemEvent(code: int, args: seq<Value>)

  datatype Semantics = Semantics(
    pure: (int, seq<Value>) -> Value,
    memory: (seq<MemEvent>, int, seq<Value>) -> Value,
    taken: Value -> bool)

  /** One invocation: a function, a meaning for its operations, and argument values. */
  datatype Job = Job(fn: Function, sem: Semantics, args: seq<Value>)

  type Env = map<Id, Value>

  function BlockAt(fn: Function, b: BlockId): Block {
    if b < |fn.blocks| then fn.blocks[b] else Block([], [], Ret(0, None))
  }

  function Read(env: Env, id: Id): Value {
    if id in env then env[id] else 0
  }

  function ReadArg(args: seq<Value>, k: nat): Value {
    if k < |args| then args[k] else 0
  }

  function Eval(args: seq<Value>, env: Env, op: Operand): Value {
    match op
    case Const(v) => v
    case Arg(k) => ReadArg(args, k)
    case Ref(id) => Read(env, id)
  }

  function EvalAll(args: seq<Value>, env: Env, ops: seq<Operand>): (vs: seq<Value>)
    ensures |vs| == |ops|
    ensures forall i :: 0 <= i < |ops| ==> vs[i] == Eval(args, env, ops[i])
  {
    seq(|ops|, i requires 0 <= i < |ops| => Eval(args, env, ops[i]))
  }

  /** The operand a phi takes when control arrives from `prev`. */
  function Incoming(incoming: seq<(BlockId, Operand)>, prev: BlockId): Operand {
    if incoming == [] then Const(0)
    else if incoming[0].0 == prev then incoming[0].1
    else Incoming(incoming[1..], prev)
  }

  /** All phis of a block read the environment of the edge's source at once. */
  function PhiWrites(args: seq<Value>, phis: seq<Phi>, prev: BlockId, env: Env): Env {
    if phis == [] then map[]
    else
      var last := phis[|phis| - 1];
      PhiWrites(args, phis[..|phis| - 1], prev, env)[last.id := Eval(args, env, Incoming(last.incoming, prev))]
  }

  datatype Frame = Frame(env: Env, mem: seq<MemEvent>)

  function ExecInst(job: Job, f: Frame, inst: Inst): Frame {
    var vs := EvalAll(job.args, f.env, inst.args);
    if inst.mem then
      Frame(f.env[inst.id := job.sem.memory(f.mem, inst.code, vs)], f.mem + [MemEvent(inst.code, vs)])
    else
      Frame(f.env[inst.id := job.sem.pure(inst.code, vs)], f.mem)
  }

  /** The first `n` instructions of `body`. */
  function ExecBody(job: Job, f: Frame, body: seq<Inst>, n: nat): Frame
    requires n <= |body|
  {
    if n == 0 then f else ExecInst(job, ExecBody(job, f, body, n - 1), body[n - 1])
  }

  /** Where a terminator sends control; `None` leaves the function. */
  function Next(job: Job, env: Env, term: Term): Option<BlockId> {
    match term
    case Ret(_, _) => None
    case Br(d) => Some(d)
    case CondBr(c, d1, d2) => Some(if job.sem.taken(Eval(job.args, env, c)) then d1 else d2)
  }

  /** The moment after the phis of a block visit; `ended` once the function has returned. */
  datatype Visit = Visit(block: BlockId, frame: Frame, ended: bool)

  /** The start of visit number `t` of the sequential run. */
  function Enter(job: Job, t: nat): Visit {
    if t == 0 then Visit(0, Frame(map[], []), false)
    else
      var v := Enter(job, t - 1);
      if v.ended then v
      else
        var blk := BlockAt(job.fn, v.block);
        var f := ExecBody(job, v.frame, blk.body, |blk.body|);
        match Next(job, f.env, blk.term)
        case None => Visit(v.block, f, true)
        case Some(d) =>
          var phis := BlockAt(job.fn, d).phis;
          Visit(d, Frame(f.env + PhiWrites(job.args, phis, v.block, f.env), f.mem), false)
  }

  /** Visit `t` takes place. */
  predicate Live(job: Job, t: nat) {
    !Enter(job, t).ended
  }

  function BlockOf(job: Job, t: nat): BlockId {
    Enter(job, t).block
  }

  function BodyOf(job: Job, t: nat): seq<Inst> {
    BlockAt(job.fn, BlockOf(job, t)).body
  }

  /** Visit `t` after its first `k` non-phi instructions. */
  function During(job: Job, t: nat, k: nat): Frame
    requires k <= |BodyOf(job, t)|
  {
    ExecBody(job, Enter(job, t).frame, BodyOf(job, t), k)
  }

  /** Visit `t` complete. */
  function Leave(job: Job, t: nat): Frame {
    During(job, t, |BodyOf(job, t)|)
  }

  /** The value the sequential run gives instruction `id` as of the end of visit `t`. */
  function ValueAt(job: Job, t: nat, id: Id): Value {
    Read(Leave(job, t).env, id)
  }

  /** How many of the visits before `t` are to block `b`. */
  function Count(job: Job, b: BlockId, t: nat): nat {
    if t == 0 then 0 else Count(job, b, t - 1) + (if BlockOf(job, t - 1) == b then 1 else 0)
  }

  /** The value returned by a run whose last visit is `t`. */
  function Returned(job: Job, t: nat): Option<Value> {
    match BlockAt(job.fn, BlockOf(job, t)).term
    case Ret(_, Some(op)) => Some(Eval(job.args, Leave(job, t).env, op))
    case _ => None
  }

  // ---------- Well-formedness, as the LLVM verifier demands it ----------

  function Successors(term: Term): seq<BlockId> {
    match term
    case Ret(_, _) => []
    case Br(d) => [d]
    case CondBr(_, d1, d2) => [d1, d2]
  }

  predicate IsPhi(blk: Block, id: Id) {
    exists i :: 0 <= i < |blk.phis| && blk.phis[i].id == id
  }

  predicate InBody(blk: Block, id: Id) {
    exists k :: 0 <= k < |blk.body| && blk.body[k].id == id
  }

  predicate Defines(blk: Block, id: Id) {
    IsPhi(blk, id) || InBody(blk, id)
  }

  /** Each instruction has one definition in the whole function. */
  ghost predicate UniqueIds(fn: Function) {
    && (forall b, c, id {:trigger Defines(BlockAt(fn, b), id), Defines(BlockAt(fn, c), id)} ::
          Defines(BlockAt(fn, b), id) && Defines(BlockAt(fn, c), id) ==> b == c)
    && (forall b, id :: IsPhi(BlockAt(fn, b), id) ==> !InBody(BlockAt(fn, b), id))
    && (forall b, i, j :: 0 <= i < j < |BlockAt(fn, b).phis| ==> BlockAt(fn, b).phis[i].id != BlockAt(fn, b).phis[j].id)
    && (forall b, i, j :: 0 <= i < j < |BlockAt(fn, b).body| ==> BlockAt(fn, b).body[i].id != BlockAt(fn, b).body[j].id)
  }

  /** `op` names an argument or an instruction the function has. */
  ghost predicate Resolvable(fn: Function, op: Operand) {
    match op
    case Const(_) => true
    case Arg(k) => k < fn.arity
    case Ref(id) => exists b: BlockId :: b < |fn.blocks| && Defines(fn.blocks[b], id)
  }

  /** If `op` is defined in the body of `blk`, then before body index `k`. */
  predicate DefinedInOrder(blk: Block, k: nat, op: Operand) {
    op.Ref? && InBody(blk, op.id) ==> exists j :: 0 <= j < k && j < |blk.body| && blk.body[j].id == op.id
  }

  /** A predecessor that is named twice, as by a branch with two equal destinations, gives the same operand. */
  predicate OneValuePerPred<T(==)>(incoming: seq<(BlockId, T)>) {
    forall j, k :: 0 <= j < k < |incoming| && incoming[j].0 == incoming[k].0 ==> incoming[j].1 == incoming[k].1
  }

  ghost predicate BlockShape(fn: Function, b: BlockId)
    requires b < |fn.blocks|
  {
    var blk := fn.blocks[b];
    && (forall d :: d in Successors(blk.term) ==> d < |fn.blocks|)
    && (blk.term.Ret? ==> (blk.term.value.Some? <==> fn.returnsValue))
    && (blk.term.Ret? && blk.term.value.Some? ==> Resolvable(fn, blk.term.value.value))
    && (blk.term.CondBr? ==> Resolvable(fn, blk.term.cond))
    && (forall k, j :: 0 <= k < |blk.body| && 0 <= j < |blk.body[k].args| ==> Resolvable(fn, blk.body[k].args[j]))
    && (forall k, j :: 0 <= k < |blk.body| && 0 <= j < |blk.body[k].args| ==>
          DefinedInOrder(blk, k, blk.body[k].args[j]))
    && (forall i, j :: 0 <= i < |blk.phis| && 0 <= j < |blk.phis[i].incoming| ==>
          var (pred, op) := blk.phis[i].incoming[j];
          pred < |fn.blocks| && b in Successors(fn.blocks[pred].term) && Resolvable(fn, op))
    && (forall i :: 0 <= i < |blk.phis| ==> OneValuePerPred(blk.phis[i].incoming))
  }

  ghost predicate Shape(fn: Function) {
    && |fn.blocks| > 0
    && fn.blocks[0].phis == []
    && UniqueIds(fn)
    && forall b :: 0 <= b < |fn.blocks| ==> BlockShape(fn, b)
  }
}
