/**
 A mailbox in shared memory, byte by byte: the value, and behind it a ready flag. One
 core sends a list of messages, one receives; each step reads or writes one byte, and
 the two interleave in any way.
 */
module Mailbox {
  import opened Common
  import opened OneSlot

  type Byte = b: int | 0 <= b < 256
  type Message = seq<Byte>

  /** Spinning until the flag is clear, or copying the value with `done` bytes in place. */
  datatype Sender = Polling | Copying(done: nat)

  /** Spinning until the flag is set, loading the value byte by byte, or about to clear the flag. */
  datatype Receiver = Waiting | Loading(buf: Message) | Freeing

  /** `sent` counts completed sends, `freed` cleared flags; `loads` are the values loaded so far. */
  datatype State = State(
    mem: seq<Byte>,
    sender: Sender,
    receiver: Receiver,
    sent: nat,
    freed: nat,
    loads: seq<Message>)

  datatype Party = SenderStep | ReceiverStep

  /** A mailbox for values of `size` bytes and the messages sent through it. */
  datatype Line = Line(size: nat, msgs: seq<Message>)

  ghost predicate LineOk(line: Line) {
    forall k :: 0 <= k < |line.msgs| ==> |line.msgs[k]| == line.size
  }

  function Fresh(line: Line): State {
    State(seq(line.size + 1, _ => 0), Polling, Waiting, 0, 0, [])
  }

  predicate InBounds(line: Line, s: State) {
    |s.mem| == line.size + 1
  }

  function SenderNext(line: Line, s: State): (r: State)
    requires InBounds(line, s)
    ensures InBounds(line, r)
  {
    if s.sent >= |line.msgs| then s
    else
      match s.sender
      case Polling => if s.mem[line.size] != 0 then s else s.(sender := Copying(0))
      case Copying(done) =>
        if done < line.size && done < |line.msgs[s.sent]| then
          s.(mem := s.mem[done := line.msgs[s.sent][done]], sender := Copying(done + 1))
        else
          s.(mem := s.mem[line.size := 1], sender := Polling, sent := s.sent + 1)
  }

  function ReceiverNext(line: Line, s: State): (r: State)
    requires InBounds(line, s)
    ensures InBounds(line, r)
  {
    match s.receiver
    case Waiting => if s.mem[line.size] == 0 then s else s.(receiver := Loading([]))
    case Loading(buf) =>
      if |buf| < line.size then s.(receiver := Loading(buf + [s.mem[|buf|]]))
      else s.(receiver := Freeing, loads := s.loads + [buf])
    case Freeing => s.(mem := s.mem[line.size := 0], receiver := Waiting, freed := s.freed + 1)
  }

  function Next(line: Line, s: State, who: Party): (r: State)
    requires InBounds(line, s)
    ensures InBounds(line, r)
  {
    match who
    case SenderStep => SenderNext(line, s)
    case ReceiverStep => ReceiverNext(line, s)
  }

  function Run(line: Line, sched: seq<Party>): (s: State)
    ensures InBounds(line, s)
  {
    if sched == [] then Fresh(line)
    else Next(line, Run(line, sched[..|sched| - 1]), sched[|sched| - 1])
  }

  // ---------- What every step keeps ----------

  ghost predicate Valid(line: Line, s: State) {
    && LineOk(line)
    && InBounds(line, s)
    && s.mem[line.size] <= 1
    && s.sent == s.freed + s.mem[line.size] && s.sent <= |line.msgs|
    && |s.loads| == s.freed + (if s.receiver.Freeing? then 1 else 0)
    && |s.loads| <= |line.msgs| && s.loads == line.msgs[..|s.loads|]
    && (s.mem[line.size] == 1 ==> s.sender.Polling? && s.mem[..line.size] == line.msgs[s.freed])
    && (s.mem[line.size] == 0 ==> s.receiver.Waiting?)
    && (s.sender.Copying? ==>
          && s.sent < |line.msgs| && s.sender.done <= line.size
          && s.mem[..s.sender.done] == line.msgs[s.sent][..s.sender.done])
    && (s.receiver.Loading? ==> s.receiver.buf <= line.msgs[s.freed])
  }

  lemma StepKeeps(line: Line, s: State, who: Party)
    requires Valid(line, s)
    ensures Valid(line, Next(line, s, who))
  {
    match who
    case SenderStep =>
      if s.sent < |line.msgs| && s.sender.Copying? && s.sender.done < line.size {
        var done := s.sender.done;
        assert s.mem[done := line.msgs[s.sent][done]][..done + 1] == s.mem[..done] + [line.msgs[s.sent][done]];
      } else if s.sent < |line.msgs| && s.sender.Copying? {
        assert s.mem[line.size := 1][..line.size] == s.mem[..line.size];
        assert line.msgs[s.sent][..line.size] == line.msgs[s.sent];
      }
    case ReceiverStep =>
      if s.receiver.Loading? && |s.receiver.buf| < line.size {
        var i := |s.receiver.buf|;
        assert s.mem[i] == s.mem[..line.size][i];
      } else if s.receiver.Loading? {
        assert s.receiver.buf == line.msgs[s.freed];
      }
  }

  lemma {:induction false} RunKeeps(line: Line, sched: seq<Party>)
    requires LineOk(line)
    ensures Valid(line, Run(line, sched))
  {
    if sched != [] {
      RunKeeps(line, sched[..|sched| - 1]);
      StepKeeps(line, Run(line, sched[..|sched| - 1]), sched[|sched| - 1]);
    }
  }

  /** Under any interleaving the k-th load is the k-th message, and the flag says whether a message is outstanding. */
  lemma MailboxSafety(line: Line, sched: seq<Party>)
    requires LineOk(line)
    ensures var s := Run(line, sched);
      && |s.loads| <= |line.msgs| && s.loads == line.msgs[..|s.loads|]
      && s.freed <= s.sent <= s.freed + 1
      && (s.mem[line.size] != 0 <==> s.sent == s.freed + 1)
  {
    RunKeeps(line, sched);
  }

  // ---------- The mailbox seen as one slot ----------

  function SlotOf(line: Line, s: State): Option<Message>
    requires InBounds(line, s)
  {
    if s.mem[line.size] == 0 then None else Some(s.mem[..line.size])
  }

  /** A step that completes a send fills the slot with that message; one that frees takes what was loaded. */
  function EventOf(line: Line, s: State, who: Party): Event<Message>
    requires InBounds(line, s)
  {
    var r := Next(line, s, who);
    if r.sent > s.sent && s.sent < |line.msgs| then Put(line.msgs[s.sent])
    else if r.freed > s.freed && |s.loads| > 0 then Take(s.loads[|s.loads| - 1])
    else Idle
  }

  /** Every byte step is a step of the one-slot mailbox or no step of it at all. */
  lemma RefinesSlot(line: Line, s: State, who: Party)
    requires Valid(line, s)
    ensures SlotStep(SlotOf(line, s), EventOf(line, s, who), SlotOf(line, Next(line, s, who)))
  {
    StepKeeps(line, s, who);
    var r := Next(line, s, who);
    assert r.mem[line.size] == s.mem[line.size] == 1 ==> r.mem[..line.size] == s.mem[..line.size];
  }

  // ---------- Progress ----------

  /** Steps that change something, if all messages are to go through. */
  function WorkDone(line: Line, s: State): nat {
    s.sent * (line.size + 2) + (if s.sender.Copying? then 1 + s.sender.done else 0)
    + s.freed * (line.size + 3)
    + (match s.receiver case Waiting => 0 case Loading(buf) => 1 + |buf| case Freeing => line.size + 2)
  }

  /** Until every message has been freed, the sender or the receiver can move; a move is one unit of work. */
  lemma Progress(line: Line, s: State)
    requires Valid(line, s)
    ensures forall who :: Next(line, s, who) == s || WorkDone(line, Next(line, s, who)) == WorkDone(line, s) + 1
    ensures s.freed < |line.msgs| <==> exists who :: Next(line, s, who) != s
  {
    if s.freed < |line.msgs| {
      if s.mem[line.size] == 0 {
        assert Next(line, s, SenderStep) != s;
      } else {
        ReceiverMoves(line, s);
        assert Next(line, s, ReceiverStep) != s;
      }
    } else {
      assert Next(line, s, SenderStep) == s && Next(line, s, ReceiverStep) == s;
    }
    forall who ensures Next(line, s, who) == s || WorkDone(line, Next(line, s, who)) == WorkDone(line, s) + 1 {
      OneUnit(line, s, who);
    }
  }

  lemma ReceiverMoves(line: Line, s: State)
    requires Valid(line, s) && s.mem[line.size] == 1
    ensures Next(line, s, ReceiverStep) != s
  {
  }

  lemma OneUnit(line: Line, s: State, who: Party)
    requires Valid(line, s)
    ensures Next(line, s, who) == s || WorkDone(line, Next(line, s, who)) == WorkDone(line, s) + 1
  {
    var r := Next(line, s, who);
    if r.sent == s.sent + 1 {
      assert r.sent * (line.size + 2) == s.sent * (line.size + 2) + line.size + 2;
    } else if r.freed == s.freed + 1 {
      assert r.freed * (line.size + 3) == s.freed * (line.size + 3) + line.size + 3;
    }
  }

  // ---------- The operations as they run undisturbed ----------

  /** The struct in shared memory: value, ready flag. */
  class Slot {
    const size: nat
    const bytes: array<Byte>

    ghost predicate Ok()
      reads this, bytes
    {
      bytes.Length == size + 1
    }

    ghost function Contents(): Option<Message>
      reads this, bytes
      requires Ok()
    {
      if bytes[size] == 0 then None else Some(bytes[..size])
    }

    constructor (size: nat)
      ensures Ok() && this.size == size && Contents() == None && fresh(bytes)
    {
      this.size := size;
      bytes := new Byte[size + 1](_ => 0);
    }

    /** Copies `src` to the front of the struct, byte by byte. */
    method VolatileCopy(src: array<Byte>)
      requires Ok() && src.Length == size && src != bytes
      modifies bytes
      ensures bytes[..] == src[..] + [old(bytes[size])]
    {
      var at := 0;
      var len := size;
      while len > 0
        invariant at + len == size
        invariant bytes[..at] == src[..at] && bytes[size] == old(bytes[size])
      {
        bytes[at] := src[at];
        at := at + 1;
        len := len - 1;
      }
    }

    /** A send past its spin loop, undisturbed: it fills the empty slot. */
    method Send(value: array<Byte>)
      requires Ok() && value.Length == size && value != bytes
      requires Contents() == None
      modifies bytes
      ensures Contents() == Some(value[..])
    {
      VolatileCopy(value);
      bytes[size] := 1;
      assert bytes[..size] == value[..];
    }

    /** A receive past its spin loop hands out the struct itself; the caller loads from it. */
    method Receive() returns (at: array<Byte>)
      requires Ok() && Contents() != None
      ensures at == bytes && Contents() == Some(at[..size])
    {
      at := bytes;
    }

    method FreeComms()
      requires Ok()
      modifies bytes
      ensures Contents() == None && bytes[..size] == old(bytes[..size])
    {
      bytes[size] := 0;
    }
  }

  function Solo(line: Line, s: State, who: Party, n: nat): (r: State)
    requires InBounds(line, s)
    ensures InBounds(line, r)
  {
    if n == 0 then s else Next(line, Solo(line, s, who, n - 1), who)
  }

  /** The same send in the step model: size + 2 sender steps fill the empty slot. */
  lemma {:induction false} SoloSend(line: Line, s: State)
    requires Valid(line, s) && s.sender.Polling? && s.mem[line.size] == 0 && s.sent < |line.msgs|
    ensures var r := Solo(line, s, SenderStep, line.size + 2);
      && SlotOf(line, s) == None && SlotOf(line, r) == Some(line.msgs[s.sent])
      && r.sent == s.sent + 1 && r.receiver == s.receiver
  {
    SoloCopies(line, s, line.size);
    var r := Solo(line, s, SenderStep, line.size + 1);
    assert r.mem[line.size := 1][..line.size] == r.mem[..line.size];
    assert line.msgs[s.sent][..line.size] == line.msgs[s.sent];
  }

  lemma {:induction false} SoloCopies(line: Line, s: State, n: nat)
    requires Valid(line, s) && s.sender.Polling? && s.mem[line.size] == 0 && s.sent < |line.msgs|
    requires n <= line.size
    ensures var r := Solo(line, s, SenderStep, n + 1);
      r == s.(mem := line.msgs[s.sent][..n] + s.mem[n..], sender := Copying(n))
  {
    if n > 0 {
      SoloCopies(line, s, n - 1);
      var m := line.msgs[s.sent];
      assert (m[..n - 1] + s.mem[n - 1..])[n - 1 := m[n - 1]] == m[..n] + s.mem[n..];
    } else {
      assert Solo(line, s, SenderStep, 0) == s;
      assert line.msgs[s.sent][..0] + s.mem[0..] == s.mem;
    }
  }
}
