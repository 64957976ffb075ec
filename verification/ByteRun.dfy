/**
 The emitted program on mailboxes that are bytes in shared memory. Between two accesses to
 a mailbox's value or flag any core and the host may run. Seen through the flags this is
 the program on one-slot mailboxes, so all that holds of the latter holds here.
 */
module ByteRun {
  import opened Common
  import opened Source
  import opened SourceRun
  import opened Target
  import opened CoreInvariant
  import opened SystemInvariant
  import opened Progress
  import opened Partitioning
  import Mailbox

  type Bytes = seq<Mailbox.Byte>

  /** How values are stored: how many bytes mailbox `c` holds beside its flag, and what they mean. */
  datatype Wire = Wire(size: nat -> nat, encode: (nat, Value) -> Bytes, decode: (nat, Bytes) -> Value)

  /** Every value the sequential run passes through a mailbox survives being stored in it. */
  ghost predicate WireOk(x: Setup, w: Wire) {
    && (forall c, v :: |w.encode(c, v)| == w.size(c))
    && (forall c, t: nat :: c in x.plan.chans && Live(x.job, t) && BlockOf(x.job, t) == x.plan.chans[c].block ==>
          Survives(w, c, ValueAt(x.job, t, x.plan.chans[c].src)))
  }

  predicate Survives(w: Wire, c: nat, v: Value) {
    w.decode(c, w.encode(c, v)) == v
  }

  // ---------- Integers in bytes, the least significant one first ----------

  function ToBytes(v: int, k: nat): (r: Bytes)
    ensures |r| == k
    decreases k
  {
    if k == 0 then [] else [v % 256] + ToBytes(v / 256, k - 1)
  }

  function FromBytes(bytes: Bytes): nat {
    if bytes == [] then 0 else bytes[0] + 256 * FromBytes(bytes[1..])
  }

  /** The number of values `k` bytes can tell apart. */
  function Range(k: nat): nat {
    if k == 0 then 1 else 256 * Range(k - 1)
  }

  lemma {:induction false} BytesRoundTrip(v: int, k: nat)
    requires 0 <= v < Range(k)
    ensures FromBytes(ToBytes(v, k)) == v
    decreases k
  {
    if k > 0 {
      BytesRoundTrip(v / 256, k - 1);
      assert ToBytes(v, k)[1..] == ToBytes(v / 256, k - 1);
    }
  }

  function LittleEndian(width: nat -> nat): Wire {
    Wire(width, (c: nat, v: Value) => ToBytes(v, width(c)), (c: nat, bytes: Bytes) => FromBytes(bytes))
  }

  /** Stored this way, values survive if each fits in the bytes of its mailbox. */
  lemma FittingValuesSurvive(x: Setup, width: nat -> nat)
    requires forall c, t: nat :: c in x.plan.chans && Live(x.job, t) && BlockOf(x.job, t) == x.plan.chans[c].block ==>
      0 <= ValueAt(x.job, t, x.plan.chans[c].src) < Range(width(c))
    ensures WireOk(x, LittleEndian(width))
  {
    hide Live, BlockOf, ValueAt, Range;
    var w := LittleEndian(width);
    forall c, t: nat | c in x.plan.chans && Live(x.job, t) && BlockOf(x.job, t) == x.plan.chans[c].block
      ensures Survives(w, c, ValueAt(x.job, t, x.plan.chans[c].src))
    {
      BytesRoundTrip(ValueAt(x.job, t, x.plan.chans[c].src), width(c));
    }
  }

  // ---------- States ----------

  /** Within a send, `done` bytes are in place; within a receive, `buf` has been loaded. */
  datatype Micro = Between | Copying(done: nat) | Loading(buf: Bytes)

  /** `sys` is all but the mailboxes between cores; those are in `structs`, value first and flag last. */
  datatype Fine = Fine(sys: Sys, structs: map<nat, Bytes>, micro: map<Part, Micro>)

  function Boot(x: Setup, w: Wire): Fine {
    Fine(Initial(x.tgt), map c | c in x.plan.chans :: seq(w.size(c) + 1, _ => 0), map[])
  }

  function MicroOf(f: Fine, p: Part): Micro {
    if p in f.micro then f.micro[p] else Between
  }

  function StructOf(f: Fine, c: nat): Bytes {
    if c in f.structs then f.structs[c] else []
  }

  function Flag(struct: Bytes): Mailbox.Byte {
    if struct == [] then 0 else struct[|struct| - 1]
  }

  function Payload(struct: Bytes): Bytes {
    if struct == [] then [] else struct[..|struct| - 1]
  }

  function WithFlag(struct: Bytes, flag: Mailbox.Byte): Bytes {
    if struct == [] then [] else struct[|struct| - 1 := flag]
  }

  /** The mailboxes whose flag is set, with what they hold. */
  function Full(w: Wire, structs: map<nat, Bytes>): map<nat, Value> {
    map c | c in structs && Flag(structs[c]) != 0 :: w.decode(c, Payload(structs[c]))
  }

  /** The state seen through the flags. */
  function Whole(w: Wire, f: Fine): Sys {
    f.sys.(slots := f.sys.slots + Full(w, f.structs))
  }

  // ---------- Steps ----------

  /** Core `p` is at a send to or a receive from another core. */
  predicate AtTraffic(x: Setup, s: Sys, p: Part) {
    && p in s.cores && AtInstruction(x.tgt, p, s.cores[p])
    && var inst := NextInst(x.tgt, p, s.cores[p]); inst.Send? || inst.Receive?
  }

  function InstOf(x: Setup, s: Sys, p: Part): TInst
    requires AtTraffic(x, s, p)
  {
    NextInst(x.tgt, p, s.cores[p])
  }

  /** The bytes a core at a send copies. */
  function Message(x: Setup, w: Wire, s: Sys, p: Part): Bytes
    requires AtTraffic(x, s, p) && InstOf(x, s, p).Send?
  {
    w.encode(InstOf(x, s, p).chan, EvalT(s.cores[p].regs, InstOf(x, s, p).value))
  }

  /** Polls until the flag is clear, copies the value byte by byte, sets the flag. */
  function SendStep(x: Setup, w: Wire, f: Fine, p: Part): Fine
    requires AtTraffic(x, f.sys, p) && InstOf(x, f.sys, p).Send?
  {
    var inst := InstOf(x, f.sys, p);
    var c := inst.chan;
    var struct := StructOf(f, c);
    if MicroOf(f, p).Copying? then
      var done := MicroOf(f, p).done;
      var bytes := Message(x, w, f.sys, p);
      if done < |Payload(struct)| && done < |bytes| then
        f.(structs := f.structs[c := struct[done := bytes[done]]], micro := f.micro[p := Copying(done + 1)])
      else
        var core := CoreAfter(x.tgt, x.job.sem, p, f.sys.cores[p], inst, 0, 0);
        var sent := f.sys.sent[c := Tally(f.sys.sent, c) + 1];
        f.(sys := f.sys.(cores := f.sys.cores[p := core], sent := sent),
           structs := f.structs[c := WithFlag(struct, 1)], micro := f.micro[p := Between])
    else if Flag(struct) != 0 then f
    else f.(micro := f.micro[p := Copying(0)])
  }

  /** Polls until the flag is set, loads the value byte by byte, clears the flag. */
  function ReceiveStep(x: Setup, w: Wire, f: Fine, p: Part): Fine
    requires AtTraffic(x, f.sys, p) && InstOf(x, f.sys, p).Receive?
  {
    var inst := InstOf(x, f.sys, p);
    var c := inst.chan;
    var struct := StructOf(f, c);
    if MicroOf(f, p).Loading? then
      var buf := MicroOf(f, p).buf;
      if |buf| < |Payload(struct)| then
        f.(micro := f.micro[p := Loading(buf + [struct[|buf|]])])
      else
        var core := CoreAfter(x.tgt, x.job.sem, p, f.sys.cores[p], inst, w.decode(c, buf), 0);
        var received := f.sys.received[c := Tally(f.sys.received, c) + 1];
        f.(sys := f.sys.(cores := f.sys.cores[p := core], received := received),
           structs := f.structs[c := WithFlag(struct, 0)], micro := f.micro[p := Between])
    else if Flag(struct) == 0 then f
    else f.(micro := f.micro[p := Loading([])])
  }

  /** One access to shared memory, or one whole step that needs no mailbox between cores; nothing while waiting. */
  function Next(x: Setup, w: Wire, f: Fine, a: Actor): Fine {
    if a.OnCore? && AtTraffic(x, f.sys, a.part) then
      if InstOf(x, f.sys, a.part).Send? then SendStep(x, w, f, a.part) else ReceiveStep(x, w, f, a.part)
    else if Enabled(x.tgt, f.sys, a) then f.(sys := Do(x.tgt, x.job, f.sys, a))
    else f
  }

  /** The step is the last of an instruction, or the whole of one. */
  predicate Completes(x: Setup, f: Fine, a: Actor) {
    if a.OnCore? && AtTraffic(x, f.sys, a.part) then
      var size := |Payload(StructOf(f, InstOf(x, f.sys, a.part).chan))|;
      match MicroOf(f, a.part)
      case Between => false
      case Copying(done) => InstOf(x, f.sys, a.part).Send? && done >= size
      case Loading(buf) => InstOf(x, f.sys, a.part).Receive? && |buf| >= size
    else Enabled(x.tgt, f.sys, a)
  }

  function FineAfter(x: Setup, w: Wire, sched: seq<Actor>): Fine {
    if sched == [] then Boot(x, w) else Next(x, w, FineAfter(x, w, sched[..|sched| - 1]), sched[|sched| - 1])
  }

  /** The steps of a byte-level schedule at which instructions are completed. */
  function Coarse(x: Setup, w: Wire, sched: seq<Actor>): seq<Actor> {
    if sched == [] then []
    else
      var a := sched[|sched| - 1];
      Coarse(x, w, sched[..|sched| - 1])
      + (if Completes(x, FineAfter(x, w, sched[..|sched| - 1]), a) then [a] else [])
  }

  // ---------- What every step keeps ----------

  ghost predicate StructsOk(x: Setup, w: Wire, f: Fine) {
    && (forall c :: c in f.structs <==> c in x.plan.chans)
    && (forall c :: c in f.structs ==> |f.structs[c]| == w.size(c) + 1)
    && (forall c :: c in x.plan.chans ==> c !in f.sys.slots)
  }

  /** A core that copies has found the flag clear and put the start of its message in place. */
  ghost predicate CopyingOk(x: Setup, w: Wire, f: Fine, p: Part, done: nat) {
    && AtTraffic(x, f.sys, p) && InstOf(x, f.sys, p).Send?
    && var struct := StructOf(f, InstOf(x, f.sys, p).chan);
       var bytes := Message(x, w, f.sys, p);
       && Flag(struct) == 0 && done <= |Payload(struct)| == |bytes| && Payload(struct)[..done] == bytes[..done]
  }

  /** A core that loads has found the flag set and has the start of what is there. */
  ghost predicate LoadingOk(x: Setup, f: Fine, p: Part, buf: Bytes) {
    && AtTraffic(x, f.sys, p) && InstOf(x, f.sys, p).Receive?
    && var struct := StructOf(f, InstOf(x, f.sys, p).chan);
       Flag(struct) != 0 && buf <= Payload(struct)
  }

  ghost predicate MicroOk(x: Setup, w: Wire, f: Fine, p: Part) {
    match MicroOf(f, p)
    case Between => true
    case Copying(done) => CopyingOk(x, w, f, p, done)
    case Loading(buf) => LoadingOk(x, f, p, buf)
  }

  ghost predicate FineOk(x: Setup, w: Wire, f: Fine) {
    && SysOk(x, Whole(w, f))
    && StructsOk(x, w, f)
    && forall p :: MicroOk(x, w, f, p)
  }

  /** What a core is in the middle of depends on its own state and on the mailbox it is at. */
  lemma MicroStays(x: Setup, w: Wire, f: Fine, f': Fine, p: Part)
    requires MicroOk(x, w, f, p) && MicroOf(f', p) == MicroOf(f, p)
    requires MicroOf(f, p) != Between ==> p in f.sys.cores && p in f'.sys.cores && f'.sys.cores[p] == f.sys.cores[p]
    requires AtTraffic(x, f.sys, p) && MicroOf(f, p) != Between ==>
      StructOf(f', InstOf(x, f.sys, p).chan) == StructOf(f, InstOf(x, f.sys, p).chan)
    ensures MicroOk(x, w, f', p)
  {
    hide StructOf, Flag, Payload, AtInstruction, NextInst, EvalT;
  }

  /** A mailbox has one core that sends to it and one that receives from it. */
  lemma OneUser(x: Setup, s: Sys, p: Part, q: Part)
    requires Compiled(x) && SysOk(x, s) && AtTraffic(x, s, p) && AtTraffic(x, s, q)
    requires InstOf(x, s, p).chan == InstOf(x, s, q).chan && InstOf(x, s, p).Send? == InstOf(x, s, q).Send?
    ensures p == q
  {
    hide Compiled, CoreOk, MailboxesOk, MemoryOk, ReturnOk, ArgumentsOk, HostOk, AtInstruction;
    ChannelUse(x, p, s.cores[p]);
    ChannelUse(x, q, s.cores[q]);
  }

  lemma TrafficKnown(x: Setup, s: Sys, p: Part)
    requires Compiled(x) && SysOk(x, s) && AtTraffic(x, s, p)
    ensures InstOf(x, s, p).chan in x.plan.chans
  {
    hide Compiled, CoreOk, MailboxesOk, MemoryOk, ReturnOk, ArgumentsOk, HostOk, AtInstruction;
    ChannelUse(x, p, s.cores[p]);
  }

  lemma FullSet(w: Wire, structs: map<nat, Bytes>, c: nat, struct: Bytes)
    requires c in structs
    ensures var full := Full(w, structs); var full' := Full(w, structs[c := struct]);
      if Flag(struct) != 0 then full' == full[c := w.decode(c, Payload(struct))] else full' == full - {c}
  {
    hide Flag, Payload;
  }

  // ---------- Steps that touch no mailbox between cores ----------

  /** A slot of the host's is seen alike on either level. */
  lemma OutsideSlot(x: Setup, w: Wire, f: Fine, c: nat, v: Value)
    requires StructsOk(x, w, f) && c !in x.plan.chans
    ensures c in Whole(w, f).slots <==> c in f.sys.slots
    ensures c in f.sys.slots ==> Whole(w, f).slots[c] == f.sys.slots[c]
    ensures f.sys.slots[c := v] + Full(w, f.structs) == Whole(w, f).slots[c := v]
  {
    hide Flag, Payload;
  }

  lemma OutsideStays(x: Setup, w: Wire, f: Fine, s': Sys, c: nat, v: Value)
    requires StructsOk(x, w, f) && c !in x.plan.chans && s'.slots == f.sys.slots[c := v]
    ensures StructsOk(x, w, f.(sys := s'))
  {
  }

  /** The host's sends look at one slot and fill it. */
  lemma HostSends(tgt: Target, job: Job, s: Sys, slots: map<nat, Value>)
    requires s.hostSent < |tgt.host| && (tgt.host[s.hostSent].chan in slots <==> tgt.host[s.hostSent].chan in s.slots)
    ensures Enabled(tgt, s.(slots := slots), Host) <==> Enabled(tgt, s, Host)
    ensures Enabled(tgt, s, Host) ==>
      var m := tgt.host[s.hostSent]; var v := ReadArg(job.args, m.index);
      var s' := Do(tgt, job, s, Host);
      && Do(tgt, job, s.(slots := slots), Host) == s'.(slots := slots[m.chan := v])
      && s'.slots == s.slots[m.chan := v] && s'.cores == s.cores
  {
  }

  lemma HostSendAlike(x: Setup, w: Wire, f: Fine)
    requires Compiled(x) && StructsOk(x, w, f) && f.sys.hostSent < |x.tgt.host|
    ensures Enabled(x.tgt, Whole(w, f), Host) <==> Enabled(x.tgt, f.sys, Host)
    ensures Enabled(x.tgt, f.sys, Host) ==>
      var s' := Do(x.tgt, x.job, f.sys, Host);
      && Whole(w, f.(sys := s')) == Do(x.tgt, x.job, Whole(w, f), Host)
      && StructsOk(x, w, f.(sys := s')) && s'.cores == f.sys.cores
  {
    hide Compiled;
    var m := x.tgt.host[f.sys.hostSent];
    var v := ReadArg(x.job.args, m.index);
    ArgumentChannels(x, f.sys.hostSent);
    OutsideSlot(x, w, f, m.chan, v);
    HostSends(x.tgt, x.job, f.sys, Whole(w, f).slots);
    hide StructsOk, Full, Enabled, Do, ReadArg;
    if Enabled(x.tgt, f.sys, Host) {
      OutsideStays(x, w, f, Do(x.tgt, x.job, f.sys, Host), m.chan, v);
    }
  }

  /** The rest of what the host does looks at no slot. */
  lemma HostEnds(tgt: Target, job: Job, s: Sys, slots: map<nat, Value>)
    requires s.hostSent >= |tgt.host|
    ensures Enabled(tgt, s.(slots := slots), Host) <==> Enabled(tgt, s, Host)
    ensures Enabled(tgt, s, Host) ==>
      var s' := Do(tgt, job, s, Host);
      && Do(tgt, job, s.(slots := slots), Host) == s'.(slots := slots)
      && s'.slots == s.slots && s'.cores == s.cores
  {
  }

  lemma HostEndAlike(x: Setup, w: Wire, f: Fine)
    requires StructsOk(x, w, f) && f.sys.hostSent >= |x.tgt.host|
    ensures Enabled(x.tgt, Whole(w, f), Host) <==> Enabled(x.tgt, f.sys, Host)
    ensures Enabled(x.tgt, f.sys, Host) ==>
      var s' := Do(x.tgt, x.job, f.sys, Host);
      && Whole(w, f.(sys := s')) == Do(x.tgt, x.job, Whole(w, f), Host)
      && StructsOk(x, w, f.(sys := s')) && s'.cores == f.sys.cores
  {
    HostEnds(x.tgt, x.job, f.sys, Whole(w, f).slots);
    hide Full, Enabled, Do;
  }

  lemma PrologueChannel(x: Setup, p: Part, i: nat)
    requires Compiled(x) && p in x.tgt.parts && i < |PrologueOf(x.tgt, p)|
    ensures PrologueOf(x.tgt, p)[i].chan !in x.plan.chans
  {
    hide Shape;
    var r := PrologueOf(x.tgt, p)[i];
    assert ArgSend(r.index, p, r.chan) in x.tgt.host;
    var k :| 0 <= k < |x.tgt.host| && x.tgt.host[k] == ArgSend(r.index, p, r.chan);
    hide Compiled;
    ArgumentChannels(x, k);
  }

  /** All cores but `p` are the same. */
  predicate OnlyCore(s: Sys, s': Sys, p: Part) {
    p in s.cores && p in s'.cores && s'.cores == s.cores[p := s'.cores[p]]
  }

  /** An argument receive looks at one slot and leaves all as they are. */
  lemma PrologueReads(tgt: Target, job: Job, s: Sys, slots: map<nat, Value>, p: Part)
    requires p in s.cores && s.cores[p].argsRead < |PrologueOf(tgt, p)|
    requires var c := PrologueOf(tgt, p)[s.cores[p].argsRead].chan;
      (c in slots <==> c in s.slots) && (c in s.slots ==> slots[c] == s.slots[c])
    ensures Enabled(tgt, s.(slots := slots), OnCore(p)) <==> Enabled(tgt, s, OnCore(p))
    ensures Enabled(tgt, s, OnCore(p)) ==>
      var s' := Do(tgt, job, s, OnCore(p));
      && Do(tgt, job, s.(slots := slots), OnCore(p)) == s'.(slots := slots)
      && s'.slots == s.slots && OnlyCore(s, s', p)
  {
    hide RunInst, AtInstruction, CanRun;
  }

  lemma PrologueAlike(x: Setup, w: Wire, f: Fine, p: Part)
    requires Compiled(x) && StructsOk(x, w, f) && p in x.tgt.parts && p in f.sys.cores
    requires f.sys.cores[p].argsRead < |PrologueOf(x.tgt, p)|
    ensures Enabled(x.tgt, Whole(w, f), OnCore(p)) <==> Enabled(x.tgt, f.sys, OnCore(p))
    ensures Enabled(x.tgt, f.sys, OnCore(p)) ==>
      var s' := Do(x.tgt, x.job, f.sys, OnCore(p));
      && Whole(w, f.(sys := s')) == Do(x.tgt, x.job, Whole(w, f), OnCore(p))
      && StructsOk(x, w, f.(sys := s')) && OnlyCore(f.sys, s', p)
  {
    hide Compiled;
    PrologueChannel(x, p, f.sys.cores[p].argsRead);
    OutsideSlot(x, w, f, PrologueOf(x.tgt, p)[f.sys.cores[p].argsRead].chan, 0);
    PrologueReads(x.tgt, x.job, f.sys, Whole(w, f).slots, p);
    hide Full, Enabled, Do, OnlyCore;
  }

  /** An instruction that is no communication between cores leaves the slots alone. */
  lemma LocalInst(tgt: Target, sem: Semantics, s: Sys, slots: map<nat, Value>, p: Part, inst: TInst)
    requires p in s.cores && |s.cores[p].visits| > 0 && !inst.Send? && !inst.Receive?
    ensures CanRun(s.(slots := slots), inst) <==> CanRun(s, inst)
    ensures CanRun(s, inst) ==>
      var s' := RunInst(tgt, sem, s, p, inst);
      && RunInst(tgt, sem, s.(slots := slots), p, inst) == s'.(slots := slots)
      && s'.slots == s.slots && OnlyCore(s, s', p)
  {
    hide CoreAfter, Computed, EvalT, EvalAllT;
  }

  lemma LocalStep(tgt: Target, job: Job, s: Sys, slots: map<nat, Value>, p: Part)
    requires p in s.cores && s.cores[p].argsRead >= |PrologueOf(tgt, p)|
    requires AtInstruction(tgt, p, s.cores[p]) ==>
      var inst := NextInst(tgt, p, s.cores[p]); !inst.Send? && !inst.Receive?
    ensures Enabled(tgt, s.(slots := slots), OnCore(p)) <==> Enabled(tgt, s, OnCore(p))
    ensures Enabled(tgt, s, OnCore(p)) ==>
      var s' := Do(tgt, job, s, OnCore(p));
      && Do(tgt, job, s.(slots := slots), OnCore(p)) == s'.(slots := slots)
      && s'.slots == s.slots && OnlyCore(s, s', p)
  {
    if AtInstruction(tgt, p, s.cores[p]) {
      LocalInst(tgt, job.sem, s, slots, p, NextInst(tgt, p, s.cores[p]));
    }
    hide RunInst, CanRun, OnlyCore, NextInst;
  }

  lemma LocalAlike(x: Setup, w: Wire, f: Fine, p: Part)
    requires StructsOk(x, w, f) && !AtTraffic(x, f.sys, p) && p in f.sys.cores
    requires f.sys.cores[p].argsRead >= |PrologueOf(x.tgt, p)|
    ensures Enabled(x.tgt, Whole(w, f), OnCore(p)) <==> Enabled(x.tgt, f.sys, OnCore(p))
    ensures Enabled(x.tgt, f.sys, OnCore(p)) ==>
      var s' := Do(x.tgt, x.job, f.sys, OnCore(p));
      && Whole(w, f.(sys := s')) == Do(x.tgt, x.job, Whole(w, f), OnCore(p))
      && StructsOk(x, w, f.(sys := s')) && OnlyCore(f.sys, s', p)
  {
    LocalStep(x.tgt, x.job, f.sys, Whole(w, f).slots, p);
    hide Full, Enabled, Do, OnlyCore, AtInstruction, NextInst;
  }

  lemma OtherAlike(x: Setup, w: Wire, f: Fine, a: Actor)
    requires Compiled(x) && FineOk(x, w, f) && !(a.OnCore? && AtTraffic(x, f.sys, a.part))
    ensures Enabled(x.tgt, Whole(w, f), a) <==> Enabled(x.tgt, f.sys, a)
    ensures Enabled(x.tgt, f.sys, a) ==>
      var s' := Do(x.tgt, x.job, f.sys, a);
      && Whole(w, f.(sys := s')) == Do(x.tgt, x.job, Whole(w, f), a)
      && StructsOk(x, w, f.(sys := s')) && (if a.Host? then s'.cores == f.sys.cores else OnlyCore(f.sys, s', a.part))
  {
    hide Compiled, StructsOk, MicroOk, MailboxesOk, MemoryOk, ReturnOk, ArgumentsOk, HostOk, CoreOk, Do, AtTraffic;
    match a
    case Host =>
      hide Enabled, Whole;
      if f.sys.hostSent < |x.tgt.host| {
        HostSendAlike(x, w, f);
      } else {
        HostEndAlike(x, w, f);
      }
    case OnCore(p) =>
      if p in f.sys.cores {
        assert p in x.tgt.parts;
        hide Enabled, Whole;
        if f.sys.cores[p].argsRead < |PrologueOf(x.tgt, p)| {
          PrologueAlike(x, w, f, p);
        } else {
          LocalAlike(x, w, f, p);
        }
      }
  }

  lemma OthersStay(x: Setup, w: Wire, f: Fine, s': Sys, a: Actor)
    requires (forall q :: MicroOk(x, w, f, q)) && (a.OnCore? ==> !AtTraffic(x, f.sys, a.part))
    requires if a.Host? then s'.cores == f.sys.cores else OnlyCore(f.sys, s', a.part)
    ensures forall q :: MicroOk(x, w, f.(sys := s'), q)
  {
    var f' := f.(sys := s');
    forall q ensures MicroOk(x, w, f', q) {
      assert MicroOk(x, w, f, q);
      hide StructOf, Flag, Payload, AtInstruction, NextInst, EvalT;
      if MicroOf(f, q) != Between {
        assert AtTraffic(x, f.sys, q);
        MicroStays(x, w, f, f', q);
      }
    }
  }

  /** Such a step is the same step on one-slot mailboxes, and possible when that is. */
  lemma OtherStepKeeps(x: Setup, w: Wire, f: Fine, a: Actor)
    requires Compiled(x) && FineOk(x, w, f) && !(a.OnCore? && AtTraffic(x, f.sys, a.part))
    ensures Completes(x, f, a) <==> Enabled(x.tgt, Whole(w, f), a)
    ensures Whole(w, Next(x, w, f, a)) ==
      if Completes(x, f, a) then Do(x.tgt, x.job, Whole(w, f), a) else Whole(w, f)
    ensures FineOk(x, w, Next(x, w, f, a))
  {
    OtherAlike(x, w, f, a);
    hide Compiled, SysOk, StructsOk, MicroOk, Whole, Enabled, Do, OnlyCore, AtTraffic;
    if Completes(x, f, a) {
      StepKeeps(x, Whole(w, f), a);
      OthersStay(x, w, f, Do(x.tgt, x.job, f.sys, a), a);
    }
  }

  // ---------- Accesses to a mailbox ----------

  /** From `f` to `f'` only core `p` moved, and only the mailbox it is at changed. */
  ghost predicate OnlyAt(x: Setup, f: Fine, f': Fine, p: Part)
    requires AtTraffic(x, f.sys, p)
  {
    && (forall q :: q != p ==> MicroOf(f', q) == MicroOf(f, q))
    && (f'.sys.cores == f.sys.cores || OnlyCore(f.sys, f'.sys, p))
    && (forall c :: c != InstOf(x, f.sys, p).chan ==> StructOf(f', c) == StructOf(f, c))
  }

  /** Nobody else is in the middle of something at a mailbox that is clear for its sender or set for its receiver. */
  lemma OthersAway(x: Setup, w: Wire, f: Fine, f': Fine, p: Part, q: Part)
    requires Compiled(x) && FineOk(x, w, f) && AtTraffic(x, f.sys, p) && OnlyAt(x, f, f', p) && q != p
    requires var inst := InstOf(x, f.sys, p); inst.Send? <==> Flag(StructOf(f, inst.chan)) == 0
    ensures MicroOk(x, w, f', q)
  {
    hide Compiled, SysOk, StructsOk, Flag, StructOf, Payload, AtInstruction, NextInst, EvalT;
    assert MicroOk(x, w, f, q);
    if MicroOf(f, q) != Between {
      assert AtTraffic(x, f.sys, q);
      if InstOf(x, f.sys, q).chan == InstOf(x, f.sys, p).chan {
        OneUser(x, Whole(w, f), p, q);
        assert false;
      }
      MicroStays(x, w, f, f', q);
    }
  }

  lemma SendRuns(x: Setup, s: Sys, p: Part)
    requires AtTraffic(x, s, p) && InstOf(x, s, p).Send?
    ensures var inst := InstOf(x, s, p);
      && (Enabled(x.tgt, s, OnCore(p)) <==> inst.chan !in s.slots)
      && (inst.chan !in s.slots ==>
            Do(x.tgt, x.job, s, OnCore(p)) ==
            s.(cores := s.cores[p := CoreAfter(x.tgt, x.job.sem, p, s.cores[p], inst, 0, 0)],
               slots := s.slots[inst.chan := EvalT(s.cores[p].regs, inst.value)],
               sent := s.sent[inst.chan := Tally(s.sent, inst.chan) + 1]))
  {
    hide CoreAfter, EvalT, Tally;
  }

  lemma ReceiveRuns(x: Setup, s: Sys, p: Part)
    requires AtTraffic(x, s, p) && InstOf(x, s, p).Receive?
    ensures var inst := InstOf(x, s, p);
      && (Enabled(x.tgt, s, OnCore(p)) <==> inst.chan in s.slots)
      && (inst.chan in s.slots ==>
            Do(x.tgt, x.job, s, OnCore(p)) ==
            s.(cores := s.cores[p := CoreAfter(x.tgt, x.job.sem, p, s.cores[p], inst, s.slots[inst.chan], 0)],
               slots := s.slots - {inst.chan},
               received := s.received[inst.chan := Tally(s.received, inst.chan) + 1]))
  {
    hide CoreAfter, EvalT, Tally;
  }

  /** A mailbox between cores is full exactly if its flag is set. */
  lemma InsideSlot(x: Setup, w: Wire, f: Fine, c: nat)
    requires StructsOk(x, w, f) && c in x.plan.chans
    ensures c in f.structs && StructOf(f, c) == f.structs[c] && |StructOf(f, c)| == w.size(c) + 1
    ensures c in Whole(w, f).slots <==> Flag(StructOf(f, c)) != 0
    ensures c in Whole(w, f).slots ==> Whole(w, f).slots[c] == w.decode(c, Payload(StructOf(f, c)))
  {
    hide Flag, Payload;
  }

  /** What the flag and the bytes of mailbox `c` say after a change, and what they said of all others. */
  lemma StructSet(x: Setup, w: Wire, f: Fine, c: nat, struct: Bytes)
    requires StructsOk(x, w, f) && c in x.plan.chans && |struct| == w.size(c) + 1
    ensures StructsOk(x, w, f.(structs := f.structs[c := struct]))
    ensures f.sys.slots + Full(w, f.structs[c := struct]) ==
      if Flag(struct) != 0 then Whole(w, f).slots[c := w.decode(c, Payload(struct))] else Whole(w, f).slots - {c}
  {
    FullSet(w, f.structs, c, struct);
    assert c !in f.sys.slots;
    hide Flag, Payload, Full;
    Merged(f.sys.slots, Full(w, f.structs), c, w.decode(c, Payload(struct)));
  }

  lemma Merged(slots: map<nat, Value>, full: map<nat, Value>, c: nat, v: Value)
    requires c !in slots
    ensures slots + full[c := v] == (slots + full)[c := v] && slots + (full - {c}) == (slots + full) - {c}
  {
  }

  lemma PayloadIs(struct: Bytes, flag: Mailbox.Byte)
    requires struct != []
    ensures |WithFlag(struct, flag)| == |struct| && Flag(WithFlag(struct, flag)) == flag
    ensures Payload(WithFlag(struct, flag)) == Payload(struct)
  {
  }

  lemma ByteCopied(struct: Bytes, done: nat, bytes: Bytes)
    requires done < |Payload(struct)| == |bytes| && Payload(struct)[..done] == bytes[..done]
    ensures |struct| > done
    ensures var struct' := struct[done := bytes[done]];
      && |struct'| == |struct| && Flag(struct') == Flag(struct)
      && |Payload(struct')| == |bytes| && Payload(struct')[..done + 1] == bytes[..done + 1]
  {
    var struct' := struct[done := bytes[done]];
    assert Payload(struct')[..done + 1] == Payload(struct)[..done] + [bytes[done]];
    assert bytes[..done + 1] == bytes[..done] + [bytes[done]];
  }

  /** What a core at a send finds, and what it is to send. */
  lemma AtSend(x: Setup, w: Wire, f: Fine, p: Part)
    requires Compiled(x) && WireOk(x, w) && FineOk(x, w, f) && AtTraffic(x, f.sys, p) && InstOf(x, f.sys, p).Send?
    ensures var c := InstOf(x, f.sys, p).chan; var struct := StructOf(f, c);
      && c in x.plan.chans && c in f.structs && struct == f.structs[c] && |struct| == w.size(c) + 1
      && |Payload(struct)| == |Message(x, w, f.sys, p)|
      && (c in Whole(w, f).slots <==> Flag(struct) != 0)
    ensures var inst := InstOf(x, f.sys, p);
      Flag(StructOf(f, inst.chan)) == 0 ==>
        w.decode(inst.chan, Message(x, w, f.sys, p)) == EvalT(f.sys.cores[p].regs, inst.value)
  {
    hide Compiled, CoreOk, MailboxesOk, MemoryOk, ReturnOk, ArgumentsOk, HostOk, MicroOk, AtInstruction, EvalT, BlockOf;
    hide ValueAt, Flag;
    var s := Whole(w, f);
    var inst := InstOf(x, f.sys, p);
    TrafficKnown(x, s, p);
    InsideSlot(x, w, f, inst.chan);
    if Flag(StructOf(f, inst.chan)) == 0 {
      SentValue(x, s, p);
      ChannelUse(x, p, s.cores[p]);
      var t := VisitOf(s.cores[p]);
      InStepHere(x, s, p);
      assert Survives(w, inst.chan, ValueAt(x.job, t, x.plan.chans[inst.chan].src));
    }
  }

  lemma InStepHere(x: Setup, s: Sys, p: Part)
    requires SysOk(x, s) && p in s.cores
    ensures |s.cores[p].visits| > 0 && Live(x.job, VisitOf(s.cores[p]))
  {
    hide MailboxesOk, MemoryOk, ReturnOk, ArgumentsOk, HostOk, PhaseOk, ArgsHeld, ClonesHeld, ReceivedHeld, HistoryOk;
  }

  lemma MicrosOk(x: Setup, w: Wire, f: Fine, f': Fine, p: Part)
    requires Compiled(x) && FineOk(x, w, f) && AtTraffic(x, f.sys, p) && OnlyAt(x, f, f', p)
    requires var inst := InstOf(x, f.sys, p); inst.Send? <==> Flag(StructOf(f, inst.chan)) == 0
    requires MicroOk(x, w, f', p)
    ensures forall q :: MicroOk(x, w, f', q)
  {
    hide Compiled, FineOk, OnlyAt, MicroOk, AtTraffic, InstOf, Flag, StructOf;
    forall q ensures MicroOk(x, w, f', q) {
      if q != p {
        OthersAway(x, w, f, f', p, q);
      }
    }
  }

  lemma SameStructs(x: Setup, w: Wire, f: Fine, f': Fine)
    requires StructsOk(x, w, f) && f'.structs == f.structs && f'.sys.slots == f.sys.slots
    ensures StructsOk(x, w, f')
  {
  }

  lemma SendBegins(x: Setup, w: Wire, f: Fine, p: Part)
    requires Compiled(x) && WireOk(x, w) && FineOk(x, w, f) && AtTraffic(x, f.sys, p) && InstOf(x, f.sys, p).Send?
    requires !MicroOf(f, p).Copying?
    ensures FineOk(x, w, SendStep(x, w, f, p)) && Whole(w, SendStep(x, w, f, p)) == Whole(w, f)
  {
    hide Compiled, WireOk, SysOk, StructsOk, Message, AtTraffic, InstOf, Full, Flag, Payload, CoreAfter;
    AtSend(x, w, f, p);
    var f' := SendStep(x, w, f, p);
    if f' != f {
      SameStructs(x, w, f, f');
      assert MicroOk(x, w, f', p);
      hide MicroOk;
      MicrosOk(x, w, f, f', p);
    }
  }

  lemma SendCopies(x: Setup, w: Wire, f: Fine, p: Part)
    requires Compiled(x) && WireOk(x, w) && FineOk(x, w, f) && AtTraffic(x, f.sys, p) && InstOf(x, f.sys, p).Send?
    requires MicroOf(f, p).Copying? && !Completes(x, f, OnCore(p))
    ensures FineOk(x, w, SendStep(x, w, f, p)) && Whole(w, SendStep(x, w, f, p)) == Whole(w, f)
  {
    hide Compiled, WireOk, SysOk, StructsOk, Message, AtTraffic, InstOf, Full, CoreAfter;
    AtSend(x, w, f, p);
    var f' := SendStep(x, w, f, p);
    var c := InstOf(x, f.sys, p).chan;
    assert MicroOk(x, w, f, p);
    ByteCopied(StructOf(f, c), MicroOf(f, p).done, Message(x, w, f.sys, p));
    hide Flag, Payload;
    StructSet(x, w, f, c, f'.structs[c]);
    SameStructs(x, w, f.(structs := f'.structs), f');
    assert Whole(w, f).slots - {c} == Whole(w, f).slots;
    assert MicroOk(x, w, f', p);
    hide MicroOk;
    MicrosOk(x, w, f, f', p);
  }

  /** Setting the flag is the send. */
  lemma SendEnds(x: Setup, w: Wire, f: Fine, p: Part)
    requires Compiled(x) && WireOk(x, w) && FineOk(x, w, f) && AtTraffic(x, f.sys, p) && InstOf(x, f.sys, p).Send?
    requires Completes(x, f, OnCore(p))
    ensures Enabled(x.tgt, Whole(w, f), OnCore(p)) && FineOk(x, w, SendStep(x, w, f, p))
    ensures Whole(w, SendStep(x, w, f, p)) == Do(x.tgt, x.job, Whole(w, f), OnCore(p))
  {
    hide Compiled, WireOk, SysOk, StructsOk, Message, Full, CoreAfter, AtInstruction, NextInst, EvalT;
    hide Do, Enabled, Tally;
    AtSend(x, w, f, p);
    var f' := SendStep(x, w, f, p);
    var c := InstOf(x, f.sys, p).chan;
    var struct := StructOf(f, c);
    assert MicroOk(x, w, f, p);
    assert Payload(struct) == Message(x, w, f.sys, p);
    PayloadIs(struct, 1);
    SendRuns(x, Whole(w, f), p);
    StepKeeps(x, Whole(w, f), OnCore(p));
    hide Flag, Payload, WithFlag;
    StructSet(x, w, f, c, WithFlag(struct, 1));
    SameStructs(x, w, f.(structs := f'.structs), f');
    assert MicroOk(x, w, f', p);
    hide MicroOk;
    MicrosOk(x, w, f, f', p);
  }

  lemma AtReceive(x: Setup, w: Wire, f: Fine, p: Part)
    requires Compiled(x) && FineOk(x, w, f) && AtTraffic(x, f.sys, p) && InstOf(x, f.sys, p).Receive?
    ensures var c := InstOf(x, f.sys, p).chan; var struct := StructOf(f, c);
      && c in x.plan.chans && c in f.structs && struct == f.structs[c] && |struct| == w.size(c) + 1
      && (c in Whole(w, f).slots <==> Flag(struct) != 0)
      && (c in Whole(w, f).slots ==> Whole(w, f).slots[c] == w.decode(c, Payload(struct)))
  {
    hide Compiled, SysOk, MicroOk, AtInstruction, Flag, Full;
    TrafficKnown(x, Whole(w, f), p);
    InsideSlot(x, w, f, InstOf(x, f.sys, p).chan);
  }

  lemma ReceiveLoads(x: Setup, w: Wire, f: Fine, p: Part)
    requires Compiled(x) && FineOk(x, w, f) && AtTraffic(x, f.sys, p) && InstOf(x, f.sys, p).Receive?
    requires !Completes(x, f, OnCore(p))
    ensures FineOk(x, w, ReceiveStep(x, w, f, p)) && Whole(w, ReceiveStep(x, w, f, p)) == Whole(w, f)
  {
    hide Compiled, SysOk, StructsOk, AtTraffic, InstOf, Full, CoreAfter;
    AtReceive(x, w, f, p);
    var f' := ReceiveStep(x, w, f, p);
    assert MicroOk(x, w, f, p);
    if f' != f {
      SameStructs(x, w, f, f');
      assert MicroOk(x, w, f', p);
      hide MicroOk, Flag, Payload;
      MicrosOk(x, w, f, f', p);
    }
  }

  /** Clearing the flag is the receive. */
  lemma ReceiveEnds(x: Setup, w: Wire, f: Fine, p: Part)
    requires Compiled(x) && FineOk(x, w, f) && AtTraffic(x, f.sys, p) && InstOf(x, f.sys, p).Receive?
    requires Completes(x, f, OnCore(p))
    ensures Enabled(x.tgt, Whole(w, f), OnCore(p)) && FineOk(x, w, ReceiveStep(x, w, f, p))
    ensures Whole(w, ReceiveStep(x, w, f, p)) == Do(x.tgt, x.job, Whole(w, f), OnCore(p))
  {
    hide Compiled, SysOk, StructsOk, Full, CoreAfter, AtInstruction, NextInst, EvalT, Do, Enabled, Tally;
    AtReceive(x, w, f, p);
    var f' := ReceiveStep(x, w, f, p);
    var c := InstOf(x, f.sys, p).chan;
    var struct := StructOf(f, c);
    assert MicroOk(x, w, f, p);
    assert MicroOf(f, p).buf == Payload(struct);
    PayloadIs(struct, 0);
    ReceiveRuns(x, Whole(w, f), p);
    StepKeeps(x, Whole(w, f), OnCore(p));
    hide Flag, Payload, WithFlag;
    StructSet(x, w, f, c, WithFlag(struct, 0));
    SameStructs(x, w, f.(structs := f'.structs), f');
    assert MicroOk(x, w, f', p);
    hide MicroOk;
    MicrosOk(x, w, f, f', p);
  }

  /** Every step is a step on one-slot mailboxes or, seen through the flags, none at all. */
  lemma StepRefines(x: Setup, w: Wire, f: Fine, a: Actor)
    requires Compiled(x) && WireOk(x, w) && FineOk(x, w, f)
    ensures Completes(x, f, a) ==> Enabled(x.tgt, Whole(w, f), a)
    ensures Whole(w, Next(x, w, f, a)) ==
      if Completes(x, f, a) then Do(x.tgt, x.job, Whole(w, f), a) else Whole(w, f)
    ensures FineOk(x, w, Next(x, w, f, a))
  {
    hide Compiled, WireOk, FineOk, Whole, Enabled, Do, AtTraffic, InstOf, SendStep, ReceiveStep, StructOf, Payload;
    if a.OnCore? && AtTraffic(x, f.sys, a.part) {
      var p := a.part;
      TrafficKind(x, f.sys, p);
      if InstOf(x, f.sys, p).Send? {
        if Completes(x, f, a) {
          SendEnds(x, w, f, p);
        } else if MicroOf(f, p).Copying? {
          SendCopies(x, w, f, p);
        } else {
          SendBegins(x, w, f, p);
        }
      } else if Completes(x, f, a) {
        ReceiveEnds(x, w, f, p);
      } else {
        ReceiveLoads(x, w, f, p);
      }
    } else {
      OtherStepKeeps(x, w, f, a);
    }
  }

  lemma TrafficKind(x: Setup, s: Sys, p: Part)
    requires AtTraffic(x, s, p)
    ensures InstOf(x, s, p).Send? || InstOf(x, s, p).Receive?
  {
  }

  // ---------- The accesses are those of the mailbox on its own ----------

  /** Mailbox `c` as a core at a send of one message, or at a receive, has it before it. */
  function View(f: Fine, p: Part, c: nat): Mailbox.State {
    Mailbox.State(
      StructOf(f, c),
      match MicroOf(f, p) case Copying(done) => Mailbox.Copying(done) case _ => Mailbox.Polling,
      match MicroOf(f, p) case Loading(buf) => Mailbox.Loading(buf) case _ => Mailbox.Waiting,
      0, 0, [])
  }

  /** A step of a core at a send is the sender's step there, and completes the send when that does. */
  lemma SendIsSenderStep(x: Setup, w: Wire, f: Fine, p: Part)
    requires Compiled(x) && WireOk(x, w) && FineOk(x, w, f) && AtTraffic(x, f.sys, p) && InstOf(x, f.sys, p).Send?
    ensures var c := InstOf(x, f.sys, p).chan; var line := Mailbox.Line(w.size(c), [Message(x, w, f.sys, p)]);
      var f' := Next(x, w, f, OnCore(p));
      && Mailbox.InBounds(line, View(f, p, c))
      && var r := Mailbox.SenderNext(line, View(f, p, c));
         && StructOf(f', c) == r.mem && View(f', p, c).sender == r.sender
         && (Completes(x, f, OnCore(p)) <==> r.sent == 1)
  {
    hide Compiled, SysOk, StructsOk, Message, CoreAfter, AtInstruction, NextInst;
    AtSend(x, w, f, p);
    assert MicroOk(x, w, f, p);
    hide WireOk, FineOk;
  }

  /** A step of a core at a receive is the receiver's there; the last is its last two, load done and flag cleared. */
  lemma ReceiveIsReceiverStep(x: Setup, w: Wire, f: Fine, p: Part)
    requires Compiled(x) && FineOk(x, w, f) && AtTraffic(x, f.sys, p) && InstOf(x, f.sys, p).Receive?
    ensures var c := InstOf(x, f.sys, p).chan; var line := Mailbox.Line(w.size(c), []);
      var f' := Next(x, w, f, OnCore(p));
      && Mailbox.InBounds(line, View(f, p, c))
      && var r := Mailbox.ReceiverNext(line, View(f, p, c));
         if Completes(x, f, OnCore(p)) then
           var r' := Mailbox.ReceiverNext(line, r);
           StructOf(f', c) == r'.mem && View(f', p, c).receiver == r'.receiver && r'.freed == 1
         else
           StructOf(f', c) == r.mem && View(f', p, c).receiver == r.receiver && r.freed == 0
  {
    hide Compiled, SysOk, StructsOk, CoreAfter, AtInstruction, NextInst;
    AtReceive(x, w, f, p);
    assert MicroOk(x, w, f, p);
    hide FineOk;
  }

  // ---------- Whole runs ----------

  lemma BootOk(x: Setup, w: Wire)
    requires Compiled(x)
    ensures FineOk(x, w, Boot(x, w)) && Whole(w, Boot(x, w)) == Initial(x.tgt)
  {
    hide Compiled, SysOk;
    InitialOk(x);
    assert Full(w, Boot(x, w).structs) == map[];
  }

  /**
   However the byte steps of the mailboxes and the steps of the cores and the host interleave,
   the instructions completed form a schedule of the program on one-slot mailboxes, and the
   state seen through the flags is the one that schedule leads to.
   */
  lemma {:induction false} BytesRefineSlots(x: Setup, w: Wire, sched: seq<Actor>)
    requires Compiled(x) && WireOk(x, w)
    ensures FineOk(x, w, FineAfter(x, w, sched))
    ensures ValidSchedule(x.tgt, x.job, Coarse(x, w, sched))
    ensures Whole(w, FineAfter(x, w, sched)) == After(x.tgt, x.job, Coarse(x, w, sched))
  {
    hide Compiled, WireOk, FineOk, Whole, Enabled, Do, Next, Completes, Boot, Initial;
    if sched == [] {
      BootOk(x, w);
    } else {
      var a := sched[|sched| - 1];
      BytesRefineSlots(x, w, sched[..|sched| - 1]);
      StepRefines(x, w, FineAfter(x, w, sched[..|sched| - 1]), a);
      var before := Coarse(x, w, sched[..|sched| - 1]);
      assert (before + [a])[..|before|] == before;
      assert before + [] == before;
    }
  }

  /** A finished run is the sequential run, every flag is clear, and no core is in the middle of anything. */
  lemma BytesPreserveMeaning(x: Setup, w: Wire, sched: seq<Actor>) returns (n: nat)
    requires Compiled(x) && WireOk(x, w) && Finished(FineAfter(x, w, sched).sys)
    ensures var f := FineAfter(x, w, sched);
      && EndsAt(x.job, n) && Completed(x, Whole(w, f), n)
      && (forall c :: c in x.plan.chans ==> Flag(StructOf(f, c)) == 0)
      && (forall p :: MicroOf(f, p) == Between)
  {
    hide Compiled, WireOk, FineAfter, Coarse, After, ValidSchedule, FineOk;
    BytesRefineSlots(x, w, sched);
    var f := FineAfter(x, w, sched);
    n := MeaningPreserved(x, Coarse(x, w, sched));
    FinishedAtRest(x, w, f, n);
  }

  lemma FinishedAtRest(x: Setup, w: Wire, f: Fine, n: nat)
    requires FineOk(x, w, f) && Completed(x, Whole(w, f), n)
    ensures forall c :: c in x.plan.chans ==> Flag(StructOf(f, c)) == 0
    ensures forall p :: MicroOf(f, p) == Between
  {
    hide CoreOk, MailboxesOk, MemoryOk, ReturnOk, ArgumentsOk, HostOk, Returned, Count, Flag;
    forall c | c in x.plan.chans ensures Flag(StructOf(f, c)) == 0 {
      InsideSlot(x, w, f, c);
    }
    forall p ensures MicroOf(f, p) == Between {
      assert MicroOk(x, w, f, p);
    }
  }

  /** How many accesses a core at a mailbox is away from its last one, if it need not wait. */
  function Left(x: Setup, f: Fine, a: Actor): nat {
    if a.OnCore? && AtTraffic(x, f.sys, a.part) then
      var size := |Payload(StructOf(f, InstOf(x, f.sys, a.part).chan))|;
      match MicroOf(f, a.part)
      case Between => size + 1
      case Copying(done) => if done < size then size - done else 0
      case Loading(buf) => if |buf| < size then size - |buf| else 0
    else 0
  }

  lemma LeftFalls(x: Setup, w: Wire, f: Fine, a: Actor)
    requires Compiled(x) && WireOk(x, w) && FineOk(x, w, f)
    requires Enabled(x.tgt, Whole(w, f), a) && !Completes(x, f, a)
    ensures Left(x, Next(x, w, f, a), a) < Left(x, f, a)
  {
    hide Compiled, WireOk, SysOk, StructsOk, Whole, Enabled, Message, CoreAfter, AtInstruction, NextInst, EvalT;
    if a.OnCore? && AtTraffic(x, f.sys, a.part) {
      var p := a.part;
      assert MicroOk(x, w, f, p);
      if InstOf(x, f.sys, p).Send? {
        AtSend(x, w, f, p);
        SendOpen(x, w, f, p);
      } else {
        AtReceive(x, w, f, p);
        ReceiveOpen(x, w, f, p);
      }
    } else {
      OtherStepKeeps(x, w, f, a);
      assert false;
    }
  }

  lemma SendOpen(x: Setup, w: Wire, f: Fine, p: Part)
    requires AtTraffic(x, f.sys, p) && InstOf(x, f.sys, p).Send? && Enabled(x.tgt, Whole(w, f), OnCore(p))
    ensures InstOf(x, f.sys, p).chan !in Whole(w, f).slots
  {
    SendRuns(x, Whole(w, f), p);
  }

  lemma ReceiveOpen(x: Setup, w: Wire, f: Fine, p: Part)
    requires AtTraffic(x, f.sys, p) && InstOf(x, f.sys, p).Receive? && Enabled(x.tgt, Whole(w, f), OnCore(p))
    ensures InstOf(x, f.sys, p).chan in Whole(w, f).slots
  {
    ReceiveRuns(x, Whole(w, f), p);
  }

  /** An actor that can run an instruction on one-slot mailboxes completes it if it is given enough steps. */
  lemma {:induction false} InstructionCompletes(x: Setup, w: Wire, sched: seq<Actor>, a: Actor)
    returns (more: seq<Actor>)
    requires Compiled(x) && WireOk(x, w)
    requires Enabled(x.tgt, Whole(w, FineAfter(x, w, sched)), a)
    ensures Coarse(x, w, sched + more) == Coarse(x, w, sched) + [a]
    decreases Left(x, FineAfter(x, w, sched), a)
  {
    hide Compiled, WireOk, FineOk, Whole, Enabled, Do, Next, Completes, Left;
    var f := FineAfter(x, w, sched);
    BytesRefineSlots(x, w, sched);
    assert (sched + [a])[..|sched|] == sched;
    more := [a];
    if !Completes(x, f, a) {
      StepRefines(x, w, f, a);
      LeftFalls(x, w, f, a);
      var rest := InstructionCompletes(x, w, sched + [a], a);
      assert sched + [a] + rest == sched + ([a] + rest);
      more := [a] + rest;
    }
  }

  /** No interleaving gets stuck: until everything has finished, some actor completes an instruction. */
  lemma BytesDeadlockFree(x: Setup, w: Wire, sched: seq<Actor>) returns (a: Actor, more: seq<Actor>)
    requires Compiled(x) && WireOk(x, w) && !Finished(FineAfter(x, w, sched).sys)
    ensures Coarse(x, w, sched + more) == Coarse(x, w, sched) + [a]
  {
    hide Compiled, WireOk, FineOk, FineAfter, Coarse, After, Enabled;
    BytesRefineSlots(x, w, sched);
    var coarse := Coarse(x, w, sched);
    DeadlockFreedom(x, coarse);
    a :| ValidSchedule(x.tgt, x.job, coarse + [a]);
    assert (coarse + [a])[..|coarse|] == coarse;
    more := InstructionCompletes(x, w, sched, a);
  }

  /** If the sequential run ends, every interleaving can be continued until everything has finished. */
  lemma {:induction false} BytesComplete(x: Setup, w: Wire, sched: seq<Actor>, n: nat) returns (full: seq<Actor>)
    requires Compiled(x) && WireOk(x, w) && EndsAt(x.job, n)
    ensures sched <= full && Finished(FineAfter(x, w, full).sys)
    decreases RunLength(x, n) - |Coarse(x, w, sched)|
  {
    hide Compiled, WireOk, FineOk, FineAfter, Coarse, After, ValidSchedule, RunLength;
    BytesRefineSlots(x, w, sched);
    RunsEnd(x, Coarse(x, w, sched), n);
    if Finished(FineAfter(x, w, sched).sys) {
      full := sched;
    } else {
      var a, more := BytesDeadlockFree(x, w, sched);
      BytesRefineSlots(x, w, sched + more);
      RunsEnd(x, Coarse(x, w, sched + more), n);
      full := BytesComplete(x, w, sched + more, n);
    }
  }
}
