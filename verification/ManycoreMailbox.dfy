/**
 The same mailbox on the manycore: the sender prepares the struct in its own memory and
 copies it, rounded up to whole words, into the receiver's memory by remote stores that
 arrive in order but late. A remote load returns after the core's earlier remote stores
 have arrived.
 */
module ManycoreMailbox {
  import opened Common
  import opened Mailbox
  import opened OneSlot

  // ---------- Sizes and addresses ----------

  const WORD := 4

  /** How many bytes a send copies: value and flag, rounded up to words. */
  function AlignedSize(size: nat): nat {
    (size + 1 + 3) / WORD * WORD
  }

  /** The struct as declared: value, one flag byte, and a word of padding at the next word boundary. */
  function StructSize(size: nat): nat {
    AlignedSize(size) + WORD
  }

  /** The address of the word that holds the flag. */
  function ReadyWord(addr: nat, size: nat): nat {
    (addr + size) / WORD * WORD
  }

  /** The copy covers value and flag, ends with the flag's word, and stays inside the struct. */
  lemma CopyCovers(size: nat)
    ensures size + 1 <= AlignedSize(size) <= size + WORD
    ensures AlignedSize(size) == size / WORD * WORD + WORD
    ensures AlignedSize(size) % WORD == 0
    ensures AlignedSize(size) <= StructSize(size)
  {
  }

  /** The polled word lies inside the struct for every size exactly when the struct is word-aligned. */
  lemma ReadyWordInside(addr: nat)
    ensures addr % WORD == 0 <==>
      forall size :: 0 <= size ==>
        addr <= ReadyWord(addr, size) && ReadyWord(addr, size) + WORD <= addr + AlignedSize(size)
  {
    if addr % WORD != 0 {
      assert ReadyWord(addr, 0) < addr;
    } else {
      forall size | 0 <= size ensures ReadyWord(addr, size) == addr + size / WORD * WORD {}
    }
  }

  // ---------- The protocol ----------

  /**
   One send: poll the receiver's flag word, clear the local copy of that word, copy the
   value into the local struct, set the local flag, issue the remote stores.
   */
  datatype RemoteSender = Probing | Resetting | Filling(done: nat) | Flagging | Issuing(done: nat)

  /** A remote store on its way: an offset in the struct and a byte. */
  datatype Store = Store(offset: nat, byte: Byte)

  /** `local` is the struct at the sender, `remote` at the receiver; `landed` counts flags that arrived set. */
  datatype Tiles = Tiles(
    local: seq<Byte>,
    remote: seq<Byte>,
    flight: seq<Store>,
    sender: RemoteSender,
    receiver: Receiver,
    sent: nat,
    landed: nat,
    freed: nat,
    loads: seq<Message>)

  datatype Party = SenderStep | NetworkStep | ReceiverStep

  function Boot(line: Line): Tiles {
    var zeros := seq(StructSize(line.size), _ => 0);
    Tiles(zeros, zeros, [], Probing, Waiting, 0, 0, 0, [])
  }

  ghost predicate InBounds(line: Line, s: Tiles) {
    && |s.local| == |s.remote| == StructSize(line.size)
    && forall k :: 0 <= k < |s.flight| ==> s.flight[k].offset < AlignedSize(line.size)
  }

  function WithWord(mem: seq<Byte>, at: nat, word: seq<Byte>): (r: seq<Byte>)
    requires |word| == WORD && at + WORD <= |mem|
    ensures |r| == |mem|
  {
    mem[..at] + word + mem[at + WORD..]
  }

  function SenderNext(line: Line, s: Tiles): (r: Tiles)
    requires InBounds(line, s)
    ensures InBounds(line, r)
  {
    var size := line.size;
    var word := size / WORD * WORD;
    if s.sent >= |line.msgs| then s
    else
      match s.sender
      case Probing =>
        if s.flight != [] then s
        else
          var got := s.(local := WithWord(s.local, word, s.remote[word..word + WORD]));
          if got.local[size] != 0 then got else got.(sender := Resetting)
      case Resetting => s.(local := WithWord(s.local, word, [0, 0, 0, 0]), sender := Filling(0))
      case Filling(done) =>
        if done < size && done < |line.msgs[s.sent]| then
          s.(local := s.local[done := line.msgs[s.sent][done]], sender := Filling(done + 1))
        else s.(sender := Flagging)
      case Flagging => s.(local := s.local[size := 1], sender := Issuing(0))
      case Issuing(done) =>
        if done < AlignedSize(size) then
          s.(flight := s.flight + [Store(done, s.local[done])], sender := Issuing(done + 1))
        else s.(sender := Probing, sent := s.sent + 1)
  }

  /** The oldest store in flight arrives. */
  function NetworkNext(line: Line, s: Tiles): (r: Tiles)
    requires InBounds(line, s)
    ensures InBounds(line, r)
  {
    if s.flight == [] then s
    else
      var store := s.flight[0];
      s.(flight := s.flight[1..],
         remote := s.remote[store.offset := store.byte],
         landed := s.landed + (if store.offset == line.size && store.byte != 0 then 1 else 0))
  }

  function ReceiverNext(line: Line, s: Tiles): (r: Tiles)
    requires InBounds(line, s)
    ensures InBounds(line, r)
  {
    match s.receiver
    case Waiting => if s.remote[line.size] == 0 then s else s.(receiver := Loading([]))
    case Loading(buf) =>
      if |buf| < line.size then s.(receiver := Loading(buf + [s.remote[|buf|]]))
      else s.(receiver := Freeing, loads := s.loads + [buf])
    case Freeing => s.(remote := s.remote[line.size := 0], receiver := Waiting, freed := s.freed + 1)
  }

  function Next(line: Line, s: Tiles, who: Party): (r: Tiles)
    requires InBounds(line, s)
    ensures InBounds(line, r)
  {
    match who
    case SenderStep => SenderNext(line, s)
    case NetworkStep => NetworkNext(line, s)
    case ReceiverStep => ReceiverNext(line, s)
  }

  function Run(line: Line, sched: seq<Party>): (s: Tiles)
    ensures InBounds(line, s)
  {
    if sched == [] then Boot(line)
    else Next(line, Run(line, sched[..|sched| - 1]), sched[|sched| - 1])
  }

  // ---------- What every step keeps ----------

  function MessageAt(line: Line, k: int): (m: Message)
    ensures |m| == line.size
  {
    if 0 <= k < |line.msgs| && |line.msgs[k]| == line.size then line.msgs[k] else seq(line.size, _ => 0)
  }

  /** Byte `j` of what one send puts on the network: the value, the flag, zeros up to the word boundary. */
  function ImageByte(line: Line, k: int, j: int): Byte {
    if 0 <= j < line.size then MessageAt(line, k)[j] else if j == line.size then 1 else 0
  }

  /** The message whose stores are in flight or last arrived, if any. */
  function Current(s: Tiles): int {
    if s.sender.Issuing? then s.sent else s.sent - 1
  }

  function Issued(line: Line, s: Tiles): nat {
    if s.sender.Issuing? then s.sender.done else AlignedSize(line.size)
  }

  /** How many of the current message's stores have arrived. */
  function Arrived(line: Line, s: Tiles): int {
    Issued(line, s) - |s.flight|
  }

  /** The sender's local struct while it prepares message `sent`. */
  ghost predicate LocalOk(line: Line, s: Tiles)
    requires InBounds(line, s)
  {
    var size := line.size;
    match s.sender
    case Filling(done) =>
      && done <= size
      && forall k :: (0 <= k < done || size <= k < AlignedSize(size)) ==> s.local[k] == Prepared(line, s.sent, k)
    case Flagging => forall k :: 0 <= k < AlignedSize(size) ==> s.local[k] == Prepared(line, s.sent, k)
    case Issuing(done) =>
      && done <= AlignedSize(size)
      && forall k :: 0 <= k < AlignedSize(size) ==> s.local[k] == ImageByte(line, s.sent, k)
    case _ => true
  }

  /** The same bytes before the flag is set. */
  function Prepared(line: Line, k: int, j: int): Byte {
    if 0 <= j < line.size then MessageAt(line, k)[j] else 0
  }

  /** What is in flight is a run of the current message's stores, in order. */
  ghost predicate FlightOk(line: Line, s: Tiles) {
    && 0 <= Arrived(line, s)
    && (Current(s) < 0 ==> s.flight == [])
    && forall k :: 0 <= k < |s.flight| ==>
         s.flight[k] == Store(Arrived(line, s) + k, ImageByte(line, Current(s), Arrived(line, s) + k))
  }

  predicate FlagArrived(line: Line, s: Tiles) {
    Arrived(line, s) > line.size
  }

  /** The receiver's struct agrees with the arrivals and with the receiver. */
  ghost predicate RemoteOk(line: Line, s: Tiles)
    requires InBounds(line, s)
  {
    var flag := s.remote[line.size];
    && flag <= 1 && s.landed == s.freed + flag
    && s.landed == (if FlagArrived(line, s) then Current(s) + 1 else Current(s))
    && (!FlagArrived(line, s) ==> flag == 0)
    && (0 <= Current(s) ==>
          forall k :: 0 <= k < line.size && k < Arrived(line, s) ==> s.remote[k] == MessageAt(line, Current(s))[k])
    && (flag == 0 ==> s.receiver.Waiting?)
    && (s.receiver.Loading? ==>
          && |s.receiver.buf| <= line.size
          && forall k :: 0 <= k < |s.receiver.buf| ==> s.receiver.buf[k] == MessageAt(line, s.freed)[k])
  }

  /** The last word of the struct, at either end, is never written. */
  ghost predicate PaddingClear(line: Line, s: Tiles)
    requires InBounds(line, s)
  {
    forall k :: AlignedSize(line.size) <= k < StructSize(line.size) ==> s.local[k] == s.remote[k] == 0
  }

  ghost predicate Valid(line: Line, s: Tiles) {
    && LineOk(line) && InBounds(line, s)
    && s.sent <= |line.msgs| && (!s.sender.Probing? ==> s.sent < |line.msgs|)
    && LocalOk(line, s) && FlightOk(line, s) && RemoteOk(line, s) && PaddingClear(line, s)
    // a send begins only when nothing is left from the one before
    && (s.sender.Resetting? || s.sender.Filling? || s.sender.Flagging? ==> s.flight == [] && s.freed == s.sent)
    && |s.loads| == s.freed + (if s.receiver.Freeing? then 1 else 0)
    && |s.loads| <= |line.msgs| && s.loads == line.msgs[..|s.loads|]
  }

  // ---------- The sender's steps ----------

  lemma ProbeKeeps(line: Line, s: Tiles)
    requires Valid(line, s) && s.sender.Probing?
    ensures Valid(line, SenderNext(line, s))
  {
    CopyCovers(line.size);
    hide AlignedSize, ImageByte, MessageAt;
  }

  lemma ResetKeeps(line: Line, s: Tiles)
    requires Valid(line, s) && s.sender.Resetting?
    ensures Valid(line, SenderNext(line, s))
  {
    CopyCovers(line.size);
    hide AlignedSize, ImageByte, MessageAt;
  }

  lemma FillKeeps(line: Line, s: Tiles)
    requires Valid(line, s) && s.sender.Filling?
    ensures Valid(line, SenderNext(line, s))
  {
    CopyCovers(line.size);
    hide AlignedSize, ImageByte;
    assert |line.msgs[s.sent]| == line.size;
  }

  lemma FlagKeeps(line: Line, s: Tiles)
    requires Valid(line, s) && s.sender.Flagging?
    ensures Valid(line, SenderNext(line, s))
  {
    CopyCovers(line.size);
    hide AlignedSize, MessageAt;
  }

  lemma IssueKeeps(line: Line, s: Tiles)
    requires Valid(line, s) && s.sender.Issuing?
    ensures Valid(line, SenderNext(line, s))
  {
    CopyCovers(line.size);
    hide AlignedSize, ImageByte, MessageAt;
  }

  lemma SenderKeeps(line: Line, s: Tiles)
    requires Valid(line, s)
    ensures Valid(line, SenderNext(line, s))
  {
    hide Valid, SenderNext;
    match s.sender
    case Probing => ProbeKeeps(line, s);
    case Resetting => ResetKeeps(line, s);
    case Filling(_) => FillKeeps(line, s);
    case Flagging => FlagKeeps(line, s);
    case Issuing(_) => IssueKeeps(line, s);
  }

  // ---------- Arrivals and the receiver ----------

  lemma NetworkKeeps(line: Line, s: Tiles)
    requires Valid(line, s)
    ensures Valid(line, NetworkNext(line, s))
  {
    CopyCovers(line.size);
    hide AlignedSize, MessageAt;
    if s.flight != [] {
      assert s.flight[0] == Store(Arrived(line, s), ImageByte(line, Current(s), Arrived(line, s)));
    }
  }

  lemma SeeKeeps(line: Line, s: Tiles)
    requires Valid(line, s) && s.receiver.Waiting?
    ensures Valid(line, ReceiverNext(line, s))
  {
    CopyCovers(line.size);
    hide AlignedSize, ImageByte;
  }

  lemma LoadKeeps(line: Line, s: Tiles)
    requires Valid(line, s) && s.receiver.Loading?
    ensures Valid(line, ReceiverNext(line, s))
  {
    CopyCovers(line.size);
    hide AlignedSize, ImageByte;
    if |s.receiver.buf| == line.size {
      assert s.receiver.buf == line.msgs[s.freed];
    }
  }

  lemma FreeKeeps(line: Line, s: Tiles)
    requires Valid(line, s) && s.receiver.Freeing?
    ensures Valid(line, ReceiverNext(line, s))
  {
    CopyCovers(line.size);
    hide AlignedSize, ImageByte;
  }

  lemma ReceiverKeeps(line: Line, s: Tiles)
    requires Valid(line, s)
    ensures Valid(line, ReceiverNext(line, s))
  {
    match s.receiver
    case Waiting => SeeKeeps(line, s);
    case Loading(_) => LoadKeeps(line, s);
    case Freeing => FreeKeeps(line, s);
  }

  lemma {:induction false} RunKeeps(line: Line, sched: seq<Party>)
    requires LineOk(line)
    ensures Valid(line, Run(line, sched))
  {
    CopyCovers(line.size);
    if sched != [] {
      var before := Run(line, sched[..|sched| - 1]);
      RunKeeps(line, sched[..|sched| - 1]);
      hide Valid;
      match sched[|sched| - 1]
      case SenderStep => SenderKeeps(line, before);
      case NetworkStep => NetworkKeeps(line, before);
      case ReceiverStep => ReceiverKeeps(line, before);
    }
  }

  // ---------- Results ----------

  /**
   Under any interleaving and any delay the k-th load is the k-th message, and the flag says
   whether one is outstanding.
   */
  lemma ManycoreSafety(line: Line, sched: seq<Party>)
    requires LineOk(line)
    ensures var s := Run(line, sched);
      && |s.loads| <= |line.msgs| && s.loads == line.msgs[..|s.loads|]
      && s.freed <= s.landed <= s.freed + 1
      && (s.remote[line.size] != 0 <==> s.landed == s.freed + 1)
      && s.sent <= s.landed + 1 && s.landed <= s.sent + 1
  {
    RunKeeps(line, sched);
  }

  /** The flag lands after every byte of its value, and what lands after the flag is padding that disturbs neither. */
  lemma FlagLandsLast(line: Line, s: Tiles)
    requires Valid(line, s) && s.flight != []
    ensures var r := NetworkNext(line, s);
      if FlagArrived(line, s) then
        r.landed == s.landed && r.remote[..line.size + 1] == s.remote[..line.size + 1]
      else if FlagArrived(line, r) then
        && s.remote[line.size] == 0 && r.remote[line.size] == 1 && r.landed == s.landed + 1
        && s.landed < |line.msgs| && r.remote[..line.size] == s.remote[..line.size] == line.msgs[s.landed]
      else
        s.remote[line.size] == r.remote[line.size] == 0 && r.landed == s.landed && r.receiver.Waiting?
  {
    CopyCovers(line.size);
    hide AlignedSize;
    assert s.flight[0] == Store(Arrived(line, s), ImageByte(line, Current(s), Arrived(line, s)));
    if Current(s) < |line.msgs| {
      assert |line.msgs[Current(s)]| == line.size;
    }
  }

  /** No step of any run writes the struct's last word, at either end, or anything behind the struct. */
  lemma StaysInside(line: Line, sched: seq<Party>)
    requires LineOk(line)
    ensures var s := Run(line, sched);
      && |s.local| == |s.remote| == StructSize(line.size)
      && (forall k :: AlignedSize(line.size) <= k < StructSize(line.size) ==> s.local[k] == s.remote[k] == 0)
      && (forall k :: 0 <= k < |s.flight| ==> s.flight[k].offset < AlignedSize(line.size))
  {
    RunKeeps(line, sched);
  }

  function SlotOf(line: Line, s: Tiles): Option<Message>
    requires InBounds(line, s)
  {
    if s.remote[line.size] == 0 then None else Some(s.remote[..line.size])
  }

  function EventOf(line: Line, s: Tiles, who: Party): Event<Message>
    requires InBounds(line, s)
  {
    var r := Next(line, s, who);
    if r.landed > s.landed then Put(MessageAt(line, s.landed))
    else if r.freed > s.freed && |s.loads| > 0 then Take(s.loads[|s.loads| - 1])
    else Idle
  }

  /** The remote mailbox is the same one-slot mailbox: its flag landing is the put, its flag cleared the take. */
  lemma RefinesSlot(line: Line, s: Tiles, who: Party)
    requires Valid(line, s)
    ensures SlotStep(SlotOf(line, s), EventOf(line, s, who), SlotOf(line, Next(line, s, who)))
  {
    CopyCovers(line.size);
    hide AlignedSize, MessageAt;
    match who
    case SenderStep => SenderLeavesRemote(line, s);
    case NetworkStep => NetworkRefines(line, s);
    case ReceiverStep =>
      if s.receiver.Freeing? {
        FreedIsSlot(line, s);
      }
  }

  lemma SenderLeavesRemote(line: Line, s: Tiles)
    requires InBounds(line, s)
    ensures var r := SenderNext(line, s); r.remote == s.remote && r.landed == s.landed && r.freed == s.freed
  {
  }

  lemma NetworkRefines(line: Line, s: Tiles)
    requires Valid(line, s)
    ensures SlotStep(SlotOf(line, s), EventOf(line, s, NetworkStep), SlotOf(line, NetworkNext(line, s)))
  {
    CopyCovers(line.size);
    hide AlignedSize;
    if s.flight != [] {
      FlagLandsLast(line, s);
      var r := NetworkNext(line, s);
      assert s.remote[..line.size + 1][..line.size] == s.remote[..line.size];
      assert r.remote[..line.size + 1][..line.size] == r.remote[..line.size];
      assert s.remote[..line.size + 1][line.size] == s.remote[line.size];
      assert r.remote[..line.size + 1][line.size] == r.remote[line.size];
    }
  }

  lemma FreedIsSlot(line: Line, s: Tiles)
    requires Valid(line, s) && s.receiver.Freeing?
    ensures |s.loads| > 0 && SlotOf(line, s) == Some(s.loads[|s.loads| - 1])
  {
    CopyCovers(line.size);
    hide AlignedSize;
    assert |line.msgs[s.freed]| == line.size;
    assert s.remote[..line.size] == line.msgs[s.freed];
  }

  /** How far the sender is with the message at hand, counting every step but the polls. */
  function SendProgress(line: Line, s: Tiles): nat {
    match s.sender
    case Probing => 0
    case Resetting => 1
    case Filling(done) => 2 + done
    case Flagging => line.size + 3
    case Issuing(done) => line.size + 4 + done
  }

  function ReceiveProgress(line: Line, s: Tiles): nat {
    match s.receiver
    case Waiting => 0
    case Loading(buf) => 1 + |buf|
    case Freeing => line.size + 2
  }

  function StoresIssued(line: Line, s: Tiles): nat {
    s.sent * AlignedSize(line.size) + (if s.sender.Issuing? then s.sender.done else 0)
  }

  /** Steps done on the way of all messages: by the sender, by the network, by the receiver. */
  function WorkDone(line: Line, s: Tiles): int {
    s.sent * (AlignedSize(line.size) + line.size + 5) + SendProgress(line, s)
    + StoresIssued(line, s) - |s.flight|
    + s.freed * (line.size + 3) + ReceiveProgress(line, s)
  }

  /** A poll that finds the flag set: it refreshes the local copy of the flag's word and no more. */
  predicate IsPoll(s: Tiles, r: Tiles) {
    s.sender.Probing? && r == s.(local := r.local)
  }

  /** The step changes nothing, or is such a poll. */
  ghost predicate Idles(line: Line, s: Tiles, who: Party)
    requires InBounds(line, s)
  {
    Next(line, s, who) == s || (who.SenderStep? && IsPoll(s, Next(line, s, who)))
  }

  ghost predicate Works(line: Line, s: Tiles, who: Party)
    requires InBounds(line, s)
  {
    WorkDone(line, Next(line, s, who)) == WorkDone(line, s) + 1
  }

  /** A send is counted off when its last store has been issued. */
  lemma SenderWorks(line: Line, s: Tiles)
    requires Valid(line, s)
    ensures Idles(line, s, Party.SenderStep) || Works(line, s, Party.SenderStep)
  {
    CopyCovers(line.size);
    hide AlignedSize, ImageByte, FlightOk, RemoteOk, PaddingClear, WithWord;
    var r := SenderNext(line, s);
    if s.sent < |line.msgs| {
      assert |line.msgs[s.sent]| == line.size;
      if r.sent == s.sent + 1 {
        var a, b := AlignedSize(line.size) + line.size + 5, AlignedSize(line.size);
        assert s.sender.done == b;
        NextMultiple(s.sent, a);
        NextMultiple(s.sent, b);
      }
    }
  }

  lemma NextMultiple(n: nat, w: nat)
    ensures (n + 1) * w == n * w + w
  {
  }

  lemma NetworkWorks(line: Line, s: Tiles)
    requires Valid(line, s)
    ensures Idles(line, s, Party.NetworkStep) || Works(line, s, Party.NetworkStep)
  {
    hide LocalOk, FlightOk, RemoteOk, PaddingClear, AlignedSize;
  }

  lemma ReceiverWorks(line: Line, s: Tiles)
    requires Valid(line, s)
    ensures Idles(line, s, Party.ReceiverStep) || Works(line, s, Party.ReceiverStep)
  {
    CopyCovers(line.size);
    hide LocalOk, FlightOk, PaddingClear, AlignedSize, MessageAt;
    NextMultiple(s.freed, line.size + 3);
  }

  /**
   Every step but a poll is one unit of work, and such a step exists until all messages
   have been freed and all stores have arrived, and only until then.
   */
  lemma Progress(line: Line, s: Tiles)
    requires Valid(line, s)
    ensures forall who :: Idles(line, s, who) || Works(line, s, who)
    ensures (exists who :: Works(line, s, who)) <==> s.freed < |line.msgs| || s.sent < |line.msgs| || s.flight != []
  {
    hide Works, Idles, LocalOk, FlightOk, RemoteOk, PaddingClear;
    forall who ensures Idles(line, s, who) || Works(line, s, who) {
      StepWorks(line, s, who);
    }
    if s.freed < |line.msgs| || s.sent < |line.msgs| || s.flight != [] {
      var who := Mover(line, s);
    } else {
      forall who ensures !Works(line, s, who) {
        AllStill(line, s, who);
      }
    }
  }

  lemma StepWorks(line: Line, s: Tiles, who: Party)
    requires Valid(line, s)
    ensures Idles(line, s, who) || Works(line, s, who)
  {
    hide Valid, Works, Idles;
    match who
    case SenderStep => SenderWorks(line, s);
    case NetworkStep => NetworkWorks(line, s);
    case ReceiverStep => ReceiverWorks(line, s);
  }

  /** Who can take a step that is no poll. */
  lemma Mover(line: Line, s: Tiles) returns (who: Party)
    requires Valid(line, s) && (s.freed < |line.msgs| || s.sent < |line.msgs| || s.flight != [])
    ensures Works(line, s, who)
  {
    CopyCovers(line.size);
    hide AlignedSize, LocalOk, FlightOk, RemoteOk, PaddingClear, WorkDone;
    if s.flight != [] {
      who := Party.NetworkStep;
      NetworkWorks(line, s);
      assert |NetworkNext(line, s).flight| < |s.flight|;
    } else if s.remote[line.size] != 0 {
      who := Party.ReceiverStep;
      ReceiverWorks(line, s);
      assert Next(line, s, who) != s;
    } else {
      who := Party.SenderStep;
      SenderWorks(line, s);
      SenderMoves(line, s);
    }
  }

  lemma AllStill(line: Line, s: Tiles, who: Party)
    requires Valid(line, s) && s.freed >= |line.msgs| && s.flight == [] && s.sent >= |line.msgs|
    ensures !Works(line, s, who)
  {
    CopyCovers(line.size);
    hide AlignedSize, ImageByte, MessageAt, WorkDone;
    assert Next(line, s, who) == s;
  }

  lemma SenderMoves(line: Line, s: Tiles)
    requires Valid(line, s) && s.flight == [] && s.remote[line.size] == 0
    requires s.freed < |line.msgs| || s.sent < |line.msgs|
    ensures SenderNext(line, s) != s && !IsPoll(s, SenderNext(line, s))
  {
    CopyCovers(line.size);
    hide AlignedSize, ImageByte, MessageAt;
    if s.sender.Probing? {
      ProbedFlag(line, s);
    }
  }

  lemma ProbedFlag(line: Line, s: Tiles)
    requires InBounds(line, s)
    ensures var word := line.size / WORD * WORD;
      && word + WORD <= |s.remote|
      && WithWord(s.local, word, s.remote[word..word + WORD])[line.size] == s.remote[line.size]
  {
    CopyCovers(line.size);
  }
}
