/**
 The state of an emission in progress, the primitive changes emission makes to it, and
 what each of them keeps.
 */
module Emission {
  import opened Source
  import opened Target
  import opened Projection
  import opened Correspondence
  import opened Demand

  /** What is being emitted. */
  datatype Input = Input(fn: Function, place: Placement, parts: seq<Part>)

  /**
   `comms` are the mailboxes defined so far; `code` holds the instructions appended to
   each clone; `phiOrder` and `incoming` are the phis created and the entries added to
   them; `mapped` are the instructions that have clones; `argMap` the mailboxes of
   arguments; `logs` the order of appends per block.
   */
  datatype Emitted = Emitted(
    commsId: nat,
    comms: map<nat, Chan>,
    code: map<(Part, BlockId), seq<TInst>>,
    phiOrder: map<(Part, BlockId), seq<Id>>,
    incoming: map<Id, seq<(BlockId, TOp)>>,
    mapped: set<Id>,
    argMap: map<(Part, nat), nat>,
    prologue: map<Part, seq<ArgReceive>>,
    hostSends: seq<ArgSend>,
    logs: seq<seq<Entry>>)

  function PlanOf(e: Emitted): Plan {
    Plan(e.comms, e.argMap, e.logs)
  }

  function CodeIn(e: Emitted, p: Part, b: BlockId): seq<TInst> {
    if (p, b) in e.code then e.code[(p, b)] else []
  }

  function LogIn(e: Emitted, b: BlockId): seq<Entry> {
    if b < |e.logs| then e.logs[b] else []
  }

  /** What core `p` has of block `b`, by the log. */
  function Have(e: Emitted, p: Part, b: BlockId): seq<TInst> {
    Project(LogIn(e, b), p)
  }

  // ---------- What every primitive keeps ----------

  ghost predicate CodeFollowsLogs(i: Input, e: Emitted) {
    && |e.logs| == |i.fn.blocks|
    && forall p, b :: p in i.parts && 0 <= b < |i.fn.blocks| ==>
         (p, b) in e.code && e.code[(p, b)] == Project(e.logs[b], p)
  }

  ghost predicate CommsPaired(i: Input, e: Emitted) {
    forall c {:trigger e.comms[c]} :: c in e.comms ==>
      var ch := e.comms[c];
      && c < e.commsId
      && ch.block < |i.fn.blocks| && ch.from in i.parts && ch.to in i.parts && ch.from != ch.to
      && c in Sends(Have(e, ch.from, ch.block)) && c in Receives(Have(e, ch.to, ch.block))
  }

  ghost predicate ArgsPaired(i: Input, e: Emitted) {
    ArgsReceived(i, e) && ArgsSent(e)
  }

  /** Every argument mailbox has its own number and is read in the prologue of its core. */
  ghost predicate ArgsReceived(i: Input, e: Emitted) {
    && (forall p :: p in e.prologue <==> p in i.parts)
    && (forall p, k :: (p, k) in e.argMap ==>
          var c := e.argMap[(p, k)];
          c < e.commsId && c !in e.comms && p in i.parts && ArgReceive(k, c) in e.prologue[p])
    && (forall p :: p in e.prologue ==> ReceivedOnce(e.prologue[p]))
  }

  /** The host writes what the prologues read, each mailbox once. */
  ghost predicate ArgsSent(e: Emitted) {
    && (forall m :: m in e.hostSends ==> (m.to, m.index) in e.argMap && e.argMap[(m.to, m.index)] == m.chan)
    && (forall p, r :: p in e.prologue && r in e.prologue[p] ==> ArgSend(r.index, p, r.chan) in e.hostSends)
    && (forall a, b :: 0 <= a < b < |e.hostSends| ==> e.hostSends[a].chan != e.hostSends[b].chan)
  }

  ghost predicate EmitOk(i: Input, e: Emitted) {
    && CodeFollowsLogs(i, e)
    && LogsOk(i.fn, i.place, PlanOf(e))
    && CommsPaired(i, e)
    && ArgsPaired(i, e)
  }

  /** Emission only adds. */
  ghost predicate Grows(e: Emitted, e': Emitted) {
    && (forall c :: c in e.comms ==> c in e'.comms && e'.comms[c] == e.comms[c])
    && (forall a :: a in e.argMap ==> a in e'.argMap && e'.argMap[a] == e.argMap[a])
    && |e.logs| == |e'.logs|
    && (forall b :: 0 <= b < |e.logs| ==> e.logs[b] <= e'.logs[b])
    && e.mapped <= e'.mapped
  }

  lemma GrowsTransitively(e1: Emitted, e2: Emitted, e3: Emitted)
    requires Grows(e1, e2) && Grows(e2, e3)
    ensures Grows(e1, e3)
  {
  }

  lemma HaveGrows(e: Emitted, e': Emitted, p: Part, b: BlockId)
    requires Grows(e, e')
    ensures Clones(Have(e, p, b)) <= Clones(Have(e', p, b))
    ensures Sends(Have(e, p, b)) <= Sends(Have(e', p, b))
    ensures Receives(Have(e, p, b)) <= Receives(Have(e', p, b))
  {
    var log := LogIn(e, b);
    var log' := LogIn(e', b);
    assert log == log'[..|log|] && log' == log'[..|log'|];
    LogPrefix(log', p, |log|, |log'|);
  }

  /** An operand once resolved stays resolved. */
  lemma OperandStays(i: Input, e: Emitted, e': Emitted, p: Part, b: BlockId, op: Operand, t: TOp)
    requires Grows(e, e')
    requires OperandOk(i.place, PlanOf(e), BlockAt(i.fn, b), p, Have(e, p, b), op, t)
    ensures OperandOk(i.place, PlanOf(e'), BlockAt(i.fn, b), p, Have(e', p, b), op, t)
  {
    HaveGrows(e, e', p, b);
  }

  /** With more mailboxes known, a good log is still good. */
  lemma LogStays(i: Input, plan: Plan, plan': Plan, b: BlockId, log: seq<Entry>)
    requires forall c :: c in plan.chans ==> c in plan'.chans && plan'.chans[c] == plan.chans[c]
    requires forall a :: a in plan.argChans ==> a in plan'.argChans
    requires LogOk(i.fn, i.place, plan, b, log)
    ensures LogOk(i.fn, i.place, plan', b, log)
  {
    forall m | 0 <= m < |log|
      ensures EntryOk(i.fn, i.place, plan', b, log[..m], log[m])
    {
      assert EntryOk(i.fn, i.place, plan, b, log[..m], log[m]);
      InstStays(i, plan, plan', log[m].part, b, Project(log[..m], log[m].part), log[m].inst);
    }
  }

  lemma InstStays(i: Input, plan: Plan, plan': Plan, p: Part, b: BlockId, pre: seq<TInst>, x: TInst)
    requires forall c :: c in plan.chans ==> c in plan'.chans && plan'.chans[c] == plan.chans[c]
    requires forall a :: a in plan.argChans ==> a in plan'.argChans
    requires InstOk(i.fn, i.place, plan, p, b, pre, x)
    ensures InstOk(i.fn, i.place, plan', p, b, pre, x)
  {
    if x.Clone? {
      var blk := BlockAt(i.fn, b);
      var k :| 0 <= k < |blk.body| && CloneOk(i.place, plan, blk, p, pre, x, k);
      assert CloneOk(i.place, plan', blk, p, pre, x, k);
    }
  }

  lemma LogAppend(i: Input, plan: Plan, b: BlockId, log: seq<Entry>, e: Entry)
    requires LogOk(i.fn, i.place, plan, b, log) && EntryOk(i.fn, i.place, plan, b, log, e)
    ensures LogOk(i.fn, i.place, plan, b, log + [e])
  {
    var log' := log + [e];
    forall m | 0 <= m < |log'| ensures EntryOk(i.fn, i.place, plan, b, log'[..m], log'[m]) {
      if m < |log| {
        assert log'[..m] == log[..m] && log'[m] == log[m];
        assert EntryOk(i.fn, i.place, plan, b, log[..m], log[m]);
      } else {
        assert log'[..m] == log;
      }
    }
  }

  // ---------- Appending one instruction ----------

  function WithInst(e: Emitted, p: Part, b: BlockId, x: TInst): Emitted
    requires b < |e.logs|
  {
    e.(code := e.code[(p, b) := CodeIn(e, p, b) + [x]], logs := e.logs[b := e.logs[b] + [Entry(p, x)]])
  }

  lemma InstShape(e: Emitted, p: Part, b: BlockId, x: TInst)
    requires b < |e.logs|
    ensures var e' := WithInst(e, p, b, x);
      && Grows(e, e')
      && (forall q :: Have(e', q, b) == Have(e, q, b) + (if q == p then [x] else []))
      && (forall a :: a != b ==> LogIn(e', a) == LogIn(e, a))
  {
    forall q ensures Have(WithInst(e, p, b, x), q, b) == Have(e, q, b) + (if q == p then [x] else []) {
      ProjectAppend(e.logs[b], Entry(p, x), q);
    }
  }

  lemma CodeStillFollows(i: Input, e: Emitted, p: Part, b: BlockId, x: TInst)
    requires CodeFollowsLogs(i, e) && p in i.parts && b < |i.fn.blocks|
    ensures CodeFollowsLogs(i, WithInst(e, p, b, x))
  {
    hide Project;
    var e' := WithInst(e, p, b, x);
    forall q, a | q in i.parts && 0 <= a < |i.fn.blocks|
      ensures (q, a) in e'.code && e'.code[(q, a)] == Project(e'.logs[a], q)
    {
      ProjectAppend(e.logs[b], Entry(p, x), q);
    }
  }

  lemma CommsStay(i: Input, e: Emitted, e': Emitted)
    requires CommsPaired(i, e) && Grows(e, e') && e'.comms == e.comms && e'.commsId >= e.commsId
    ensures CommsPaired(i, e')
  {
    forall c | c in e'.comms
      ensures c in Sends(Have(e', e'.comms[c].from, e'.comms[c].block))
      ensures c in Receives(Have(e', e'.comms[c].to, e'.comms[c].block))
    {
      HaveGrows(e, e', e.comms[c].from, e.comms[c].block);
      HaveGrows(e, e', e.comms[c].to, e.comms[c].block);
    }
  }

  /** Appending an instruction the log allows keeps everything and adds exactly that instruction. */
  lemma InstKeeps(i: Input, e: Emitted, p: Part, b: BlockId, x: TInst)
    requires EmitOk(i, e) && p in i.parts && b < |i.fn.blocks|
    requires !x.Send? && !x.Receive?
    requires InstOk(i.fn, i.place, PlanOf(e), p, b, Have(e, p, b), x)
    ensures var e' := WithInst(e, p, b, x);
      && b < |e.logs| && EmitOk(i, e') && Grows(e, e')
      && Have(e', p, b) == Have(e, p, b) + [x]
      && (forall q :: q != p ==> Have(e', q, b) == Have(e, q, b))
      && (forall a :: a != b ==> LogIn(e', a) == LogIn(e, a))
  {
    hide InstOk, LogOk, Have, Grows;
    var e' := WithInst(e, p, b, x);
    InstShape(e, p, b, x);
    CodeStillFollows(i, e, p, b, x);
    assert Have(e, p, b) == Project(e.logs[b], p) by { HaveIs(e, p, b); }
    LogsAfter(i, e, e', b, Entry(p, x));
    CommsStay(i, e, e');
  }

  lemma HaveIs(e: Emitted, p: Part, b: BlockId)
    requires b < |e.logs|
    ensures Have(e, p, b) == Project(e.logs[b], p)
  {
  }

  lemma LogsAfter(i: Input, e: Emitted, e': Emitted, b: BlockId, x: Entry)
    requires LogsOk(i.fn, i.place, PlanOf(e)) && b < |e.logs|
    requires e'.comms == e.comms && e'.argMap == e.argMap && e'.logs == e.logs[b := e.logs[b] + [x]]
    requires EntryOk(i.fn, i.place, PlanOf(e), b, e.logs[b], x)
    ensures LogsOk(i.fn, i.place, PlanOf(e'))
  {
    hide EntryOk;
    forall a | 0 <= a < |e'.logs| ensures LogOk(i.fn, i.place, PlanOf(e'), a, e'.logs[a]) {
      if a == b {
        LogAppend(i, PlanOf(e), b, e.logs[b], x);
        LogStays(i, PlanOf(e), PlanOf(e'), b, e'.logs[b]);
      } else {
        LogStays(i, PlanOf(e), PlanOf(e'), a, e.logs[a]);
      }
    }
  }

  // ---------- Appending a send and its receive ----------

  /** A new mailbox for the value of `src`, its send appended on `from` and its receive on `to`, in clones of `b`. */
  function WithPair(e: Emitted, b: BlockId, from: Part, to: Part, src: Id): Emitted
    requires b < |e.logs|
  {
    var c := e.commsId;
    var e0 := e.(commsId := c + 1, comms := e.comms[c := Chan(b, from, to, src)]);
    WithInst(WithInst(e0, from, b, Send(TReg(InstR(src)), to, c)), to, b, Receive(from, c))
  }

  /** Mailboxes named in a good log are known ones. */
  lemma {:induction false} KnownChannels(i: Input, e: Emitted, p: Part, b: BlockId)
    requires EmitOk(i, e)
    ensures forall c :: c in Sends(Have(e, p, b)) || c in Receives(Have(e, p, b)) ==> c in e.comms
  {
    hide CommsPaired, ArgsPaired, OperandOk, RefOk, CloneOk;
    if b < |e.logs| {
      forall c | c in Sends(Have(e, p, b)) || c in Receives(Have(e, p, b)) ensures c in e.comms {
        var code := Have(e, p, b);
        var k: nat;
        if c in Sends(code) {
          k := SendIndex(code, c);
        } else {
          k := ReceiveIndex(code, c);
        }
        LocateSpec(e.logs[b], p, k);
        var m := Locate(e.logs[b], p, k);
        assert EntryOk(i.fn, i.place, PlanOf(e), b, e.logs[b][..m], e.logs[b][m]);
      }
    }
  }

  lemma PairShape(e: Emitted, b: BlockId, from: Part, to: Part, src: Id)
    requires b < |e.logs| && from != to && e.commsId !in e.comms
    ensures var c := e.commsId; var e' := WithPair(e, b, from, to, src);
      && Grows(e, e')
      && Have(e', from, b) == Have(e, from, b) + [Send(TReg(InstR(src)), to, c)]
      && Have(e', to, b) == Have(e, to, b) + [Receive(from, c)]
      && (forall q :: q != from && q != to ==> Have(e', q, b) == Have(e, q, b))
      && (forall a :: a != b ==> LogIn(e', a) == LogIn(e, a))
  {
    var c := e.commsId;
    var e0 := e.(commsId := c + 1, comms := e.comms[c := Chan(b, from, to, src)]);
    var e1 := WithInst(e0, from, b, Send(TReg(InstR(src)), to, c));
    InstShape(e0, from, b, Send(TReg(InstR(src)), to, c));
    InstShape(e1, to, b, Receive(from, c));
    assert Grows(e, e0);
    GrowsTransitively(e, e0, e1);
    GrowsTransitively(e, e1, WithPair(e, b, from, to, src));
    forall q ensures Have(e0, q, b) == Have(e, q, b) {}
  }

  /** Communicating a value that its core has keeps everything. */
  lemma PairKeeps(i: Input, e: Emitted, b: BlockId, from: Part, to: Part, src: Id)
    requires EmitOk(i, e) && b < |i.fn.blocks| && from in i.parts && to in i.parts && from != to
    requires src in i.place && i.place[src] == from
    requires InBody(BlockAt(i.fn, b), src) ==> src in Clones(Have(e, from, b))
    ensures EmitOk(i, WithPair(e, b, from, to, src)) && Grows(e, WithPair(e, b, from, to, src))
  {
    hide LogOk, Grows, InstOk, Have;
    var c := e.commsId;
    var e' := WithPair(e, b, from, to, src);
    NewChannel(i, e);
    PairShape(e, b, from, to, src);
    PairCode(i, e, b, from, to, src);
    PairLogs(i, e, b, from, to, src);
    PairComms(i, e, b, from, to, src);
    PairArgs(i, e, b, from, to, src);
  }

  lemma NewChannel(i: Input, e: Emitted)
    requires EmitOk(i, e)
    ensures e.commsId !in e.comms
  {
    hide LogOk;
  }

  /** The next number names neither a mailbox between cores nor one for an argument. */
  lemma NewNumber(i: Input, e: Emitted)
    requires EmitOk(i, e)
    ensures e.commsId !in e.comms && forall p, k :: (p, k) in e.argMap ==> e.argMap[(p, k)] != e.commsId
  {
    hide LogsOk, CodeFollowsLogs;
  }

  lemma PairCode(i: Input, e: Emitted, b: BlockId, from: Part, to: Part, src: Id)
    requires CodeFollowsLogs(i, e) && b < |i.fn.blocks| && from in i.parts && to in i.parts
    ensures CodeFollowsLogs(i, WithPair(e, b, from, to, src))
  {
    var c := e.commsId;
    var e0 := e.(commsId := c + 1, comms := e.comms[c := Chan(b, from, to, src)]);
    CodeStillFollows(i, e0, from, b, Send(TReg(InstR(src)), to, c));
    CodeStillFollows(i, WithInst(e0, from, b, Send(TReg(InstR(src)), to, c)), to, b, Receive(from, c));
  }

  lemma PairLogs(i: Input, e: Emitted, b: BlockId, from: Part, to: Part, src: Id)
    requires EmitOk(i, e) && b < |i.fn.blocks| && from in i.parts && to in i.parts && from != to
    requires src in i.place && i.place[src] == from
    requires InBody(BlockAt(i.fn, b), src) ==> src in Clones(Have(e, from, b))
    ensures LogsOk(i.fn, i.place, PlanOf(WithPair(e, b, from, to, src)))
  {
    hide LogOk, CodeFollowsLogs, CommsPaired, ArgsPaired;
    var c := e.commsId;
    var send := Entry(from, Send(TReg(InstR(src)), to, c));
    var receive := Entry(to, Receive(from, c));
    var e0 := e.(commsId := c + 1, comms := e.comms[c := Chan(b, from, to, src)]);
    NewChannel(i, e);
    KnownChannels(i, e, from, b);
    KnownChannels(i, e, to, b);
    LogsKnown(i, e, e0);
    var e1 := WithInst(e0, from, b, send.inst);
    assert EntryOk(i.fn, i.place, PlanOf(e0), b, e0.logs[b], send);
    LogsAfter(i, e0, e1, b, send);
    ProjectAppend(e0.logs[b], send, from);
    ProjectAppend(e0.logs[b], send, to);
    AppendOne(Project(e0.logs[b], from), send.inst);
    assert EntryOk(i.fn, i.place, PlanOf(e1), b, e1.logs[b], receive);
    LogsAfter(i, e1, WithInst(e1, to, b, receive.inst), b, receive);
  }

  lemma LogsKnown(i: Input, e: Emitted, e': Emitted)
    requires LogsOk(i.fn, i.place, PlanOf(e)) && e'.logs == e.logs
    requires forall c :: c in e.comms ==> c in e'.comms && e'.comms[c] == e.comms[c]
    requires forall a :: a in e.argMap ==> a in e'.argMap
    ensures LogsOk(i.fn, i.place, PlanOf(e'))
  {
    hide LogOk;
    forall a | 0 <= a < |e.logs| ensures LogOk(i.fn, i.place, PlanOf(e'), a, e.logs[a]) {
      LogStays(i, PlanOf(e), PlanOf(e'), a, e.logs[a]);
    }
  }

  lemma PairArgs(i: Input, e: Emitted, b: BlockId, from: Part, to: Part, src: Id)
    requires EmitOk(i, e) && b < |i.fn.blocks|
    ensures ArgsPaired(i, WithPair(e, b, from, to, src))
  {
    hide LogsOk, Have, Sends, Receives, CodeFollowsLogs, CommsPaired;
  }

  lemma PairComms(i: Input, e: Emitted, b: BlockId, from: Part, to: Part, src: Id)
    requires EmitOk(i, e) && b < |i.fn.blocks| && from in i.parts && to in i.parts && from != to
    ensures CommsPaired(i, WithPair(e, b, from, to, src))
  {
    hide LogsOk, Have, Sends, Receives, Grows, ArgsPaired;
    assert |e.logs| == |i.fn.blocks|;
    hide CodeFollowsLogs;
    var e' := WithPair(e, b, from, to, src);
    NewChannel(i, e);
    PairShape(e, b, from, to, src);
    AppendOne(Have(e, from, b), Send(TReg(InstR(src)), to, e.commsId));
    AppendOne(Have(e, to, b), Receive(from, e.commsId));
    forall c | c in e'.comms
      ensures var ch := e'.comms[c];
        c in Sends(Have(e', ch.from, ch.block)) && c in Receives(Have(e', ch.to, ch.block))
    {
      if c in e.comms {
        HaveGrows(e, e', e.comms[c].from, e.comms[c].block);
        HaveGrows(e, e', e.comms[c].to, e.comms[c].block);
      }
    }
  }

  // ---------- What there is so far ----------

  /** The mailboxes between cores, and the arguments with a mailbox. */
  function Got(e: Emitted): Needs {
    Needs(Bag(e.comms, e.commsId), e.argMap.Keys)
  }

  lemma SameGot(e: Emitted, e': Emitted)
    requires e'.comms == e.comms && e'.commsId == e.commsId && e'.argMap == e.argMap
    ensures Got(e') == Got(e)
  {
  }

  /** An exchange adds one mailbox. */
  lemma PairGot(e: Emitted, b: BlockId, from: Part, to: Part, src: Id)
    requires b < |e.logs|
    ensures Got(WithPair(e, b, from, to, src)) == Plus(Got(e), Needs(multiset{Chan(b, from, to, src)}, {}))
  {
    SameBag(e.comms, WithPair(e, b, from, to, src).comms, e.commsId);
  }

  /** An argument mailbox adds one argument. */
  lemma ArgGot(e: Emitted, p: Part, k: nat)
    requires p in e.prologue && e.commsId !in e.comms
    ensures Got(WithArg(e, p, k)) == Plus(Got(e), Needs(multiset{}, {(p, k)}))
  {
    assert WithArg(e, p, k).argMap.Keys == e.argMap.Keys + {(p, k)};
  }

  // ---------- Arguments ----------

  /** A new mailbox for argument `k` on core `p`, read at the head of its entry block and written by the host. */
  function WithArg(e: Emitted, p: Part, k: nat): Emitted
    requires p in e.prologue
  {
    var c := e.commsId;
    e.(commsId := c + 1,
       argMap := e.argMap[(p, k) := c],
       prologue := e.prologue[p := [ArgReceive(k, c)] + e.prologue[p]],
       hostSends := e.hostSends + [ArgSend(k, p, c)])
  }

  lemma ArgKeeps(i: Input, e: Emitted, p: Part, k: nat)
    requires EmitOk(i, e) && p in i.parts && (p, k) !in e.argMap
    ensures EmitOk(i, WithArg(e, p, k)) && Grows(e, WithArg(e, p, k))
  {
    hide LogOk;
    var e' := WithArg(e, p, k);
    LogsKnown(i, e, e');
    assert Grows(e, e');
    NewChannel(i, e);
    CommsStay(i, e, e');
    ArgsStay(i, e, p, k);
  }

  lemma ArgsStay(i: Input, e: Emitted, p: Part, k: nat)
    requires ArgsPaired(i, e) && CommsPaired(i, e) && p in i.parts && (p, k) !in e.argMap
    ensures ArgsPaired(i, WithArg(e, p, k))
  {
    hide Have;
    assert e.commsId !in e.comms;
    hide CommsPaired;
    assert forall r :: r in e.prologue[p] ==> (p, r.index) in e.argMap by { ReceivedAreMapped(e, p); }
    ReceivedStay(i, e, p, k);
    hide ArgsSent;
    assert forall q, j :: (q, j) in e.argMap ==> e.argMap[(q, j)] != e.commsId;
    SentStay(i, e, p, k);
  }

  lemma ReceivedAreMapped(e: Emitted, p: Part)
    requires ArgsSent(e) && p in e.prologue
    ensures forall r :: r in e.prologue[p] ==> (p, r.index) in e.argMap
  {
    forall r | r in e.prologue[p] ensures (p, r.index) in e.argMap {
      assert ArgSend(r.index, p, r.chan) in e.hostSends;
    }
  }

  lemma ReceivedStay(i: Input, e: Emitted, p: Part, k: nat)
    requires ArgsReceived(i, e) && p in i.parts && (p, k) !in e.argMap && e.commsId !in e.comms
    requires forall r :: r in e.prologue[p] ==> (p, r.index) in e.argMap
    ensures ArgsReceived(i, WithArg(e, p, k))
  {
    forall m | 0 <= m < |e.prologue[p]| ensures e.prologue[p][m].index != k {
      assert e.prologue[p][m] in e.prologue[p];
    }
    var e' := WithArg(e, p, k);
    assert e'.prologue[p][0] == ArgReceive(k, e.commsId);
    assert forall r :: r in e.prologue[p] ==> r in e'.prologue[p];
  }

  lemma SentStay(i: Input, e: Emitted, p: Part, k: nat)
    requires ArgsSent(e) && p in e.prologue && (p, k) !in e.argMap
    requires forall q, j :: (q, j) in e.argMap ==> e.argMap[(q, j)] != e.commsId
    ensures ArgsSent(WithArg(e, p, k))
  {
    var e' := WithArg(e, p, k);
    assert forall m :: m in e'.hostSends <==> m in e.hostSends || m == ArgSend(k, p, e.commsId);
    assert forall q, r :: q in e'.prologue && r in e'.prologue[q] ==>
      (q in e.prologue && r in e.prologue[q]) || (q == p && r == ArgReceive(k, e.commsId));
    SendsDiffer(e.hostSends, ArgSend(k, p, e.commsId));
  }

  lemma SendsDiffer(sends: seq<ArgSend>, more: ArgSend)
    requires forall a, b :: 0 <= a < b < |sends| ==> sends[a].chan != sends[b].chan
    ensures (forall m :: m in sends ==> m.chan != more.chan) ==>
      forall a, b :: 0 <= a < b < |sends + [more]| ==> (sends + [more])[a].chan != (sends + [more])[b].chan
  {
    assert forall a :: 0 <= a < |sends| ==> sends[a] in sends;
  }

  // ---------- Traffic: appends that add sends, receives and argument mailboxes only ----------

  predicate Free(code: seq<TInst>) {
    forall k :: 0 <= k < |code| ==> !IsTerminator(code[k])
  }

  /** From `e` to `e'` only communication was added, and only to the clones of `blocks`. */
  ghost predicate OnlyTraffic(e: Emitted, e': Emitted, blocks: set<BlockId>) {
    && Grows(e, e')
    && e'.phiOrder == e.phiOrder && e'.incoming == e.incoming && e'.mapped == e.mapped
    && (forall b :: b !in blocks ==> LogIn(e', b) == LogIn(e, b))
    && (forall q, b :: SameWork(Have(e, q, b), Have(e', q, b)))
  }

  ghost predicate SameWork(code: seq<TInst>, code': seq<TInst>) {
    && Clones(code') == Clones(code) && ClonedIds(code') == ClonedIds(code)
    && MemClones(code') == MemClones(code) && Returns(code') == Returns(code)
    && (Free(code) ==> Free(code'))
  }

  lemma NoTraffic(e: Emitted, blocks: set<BlockId>)
    ensures OnlyTraffic(e, e, blocks)
  {
  }

  lemma MoreTraffic(e1: Emitted, e2: Emitted, e3: Emitted, blocks: set<BlockId>)
    requires OnlyTraffic(e1, e2, blocks) && OnlyTraffic(e2, e3, blocks)
    ensures OnlyTraffic(e1, e3, blocks)
  {
    hide Grows, Have, SameWork;
    GrowsTransitively(e1, e2, e3);
    forall q, b ensures SameWork(Have(e1, q, b), Have(e3, q, b)) {
      WorkTransitive(Have(e1, q, b), Have(e2, q, b), Have(e3, q, b));
    }
  }

  lemma WorkTransitive(a: seq<TInst>, b: seq<TInst>, c: seq<TInst>)
    requires SameWork(a, b) && SameWork(b, c)
    ensures SameWork(a, c)
  {
    hide Clones, ClonedIds, MemClones, Returns, Free;
  }

  lemma WiderTraffic(e: Emitted, e': Emitted, blocks: set<BlockId>, more: set<BlockId>)
    requires OnlyTraffic(e, e', blocks) && blocks <= more
    ensures OnlyTraffic(e, e', more)
  {
    hide Grows, Have, SameWork;
  }

  lemma PairTraffic(e: Emitted, b: BlockId, from: Part, to: Part, src: Id)
    requires b < |e.logs| && from != to && e.commsId !in e.comms
    ensures OnlyTraffic(e, WithPair(e, b, from, to, src), {b})
  {
    hide Grows, Have, Clones, ClonedIds, MemClones, Returns;
    var c := e.commsId;
    var e' := WithPair(e, b, from, to, src);
    PairShape(e, b, from, to, src);
    AppendOne(Have(e, from, b), Send(TReg(InstR(src)), to, c));
    AppendOne(Have(e, to, b), Receive(from, c));
    forall q, a ensures SameWork(Have(e, q, a), Have(e', q, a)) {
      if a != b {
        SameLogSameCode(e, e', q, a);
      }
    }
  }

  lemma SameLogSameCode(e: Emitted, e': Emitted, p: Part, b: BlockId)
    requires LogIn(e', b) == LogIn(e, b)
    ensures Have(e', p, b) == Have(e, p, b)
  {
  }

  lemma ArgTraffic(e: Emitted, p: Part, k: nat)
    requires p in e.prologue && (p, k) !in e.argMap
    ensures OnlyTraffic(e, WithArg(e, p, k), {})
  {
    hide Clones, ClonedIds, MemClones, Returns, Project;
    forall q, a ensures Have(WithArg(e, p, k), q, a) == Have(e, q, a) {}
  }
}
