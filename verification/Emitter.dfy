/**
 The emitter: it keeps the builders and tables of an emission and fills them in three
 passes over the blocks in dominance order.
 */
module Emitter {
  import opened Common
  import opened Source
  import opened Target
  import opened Projection
  import opened Correspondence
  import opened Demand
  import opened Emission
  import opened Passes
  import opened BlockOrder
  import opened Assembly

  class Emitter {
    const input: Input
    var commsId: nat
    var comms: map<nat, Chan>
    var code: map<(Part, BlockId), seq<TInst>>
    var phiOrder: map<(Part, BlockId), seq<Id>>
    var incoming: map<Id, seq<(BlockId, TOp)>>
    var mapped: set<Id>
    var argMap: map<(Part, nat), nat>
    var prologue: map<Part, seq<ArgReceive>>
    var hostSends: seq<ArgSend>
    var launched: set<Part>
    ghost var logs: seq<seq<Entry>>

    ghost function Snap(): Emitted
      reads this
    {
      Emitted(commsId, comms, code, phiOrder, incoming, mapped, argMap, prologue, hostSends, logs)
    }

    ghost predicate Ok()
      reads this
    {
      EmitOk(input, Snap())
    }

    /** An empty clone of every block for every core. */
    constructor (fn: Function, place: Placement, parts: seq<Part>)
      ensures input == Input(fn, place, parts)
      ensures Ok() && launched == {} && mapped == {} && incoming == map[] && Got(Snap()) == NOTHING
      ensures forall b :: 0 <= b < |fn.blocks| ==> LogIn(Snap(), b) == []
      ensures forall p, b :: p in parts && 0 <= b < |fn.blocks| ==> (p, b) in phiOrder && phiOrder[(p, b)] == []
    {
      input := Input(fn, place, parts);
      commsId := 0;
      comms := map[];
      code := map p, b | p in parts && 0 <= b < |fn.blocks| :: (p, b) := [];
      phiOrder := map p, b | p in parts && 0 <= b < |fn.blocks| :: (p, b) := [];
      incoming := map[];
      mapped := {};
      argMap := map[];
      prologue := map p | p in parts :: [];
      hostSends := [];
      launched := {};
      logs := seq(|fn.blocks|, b => []);
      new;
      hide EmitOk;
      assert Snap() == NothingEmitted(input);
      NothingEmittedOk(input);
    }

    /** Defines a mailbox under the next number. */
    method NewCommsAddr(chan: Chan) returns (id: nat)
      requires Ok()
      modifies `commsId, `comms
      ensures id !in old(comms) && forall p, k :: (p, k) in argMap ==> argMap[(p, k)] != id
      ensures id == old(commsId) && commsId == id + 1 && comms == old(comms)[id := chan]
    {
      NewNumber(input, Snap());
      id := commsId;
      commsId := commsId + 1;
      comms := comms[id := chan];
    }

    /** Appends at the end of core `p`'s clone of `b`. */
    method Build(p: Part, b: BlockId, inst: TInst)
      modifies `code
      ensures code == old(code)[(p, b) := (if (p, b) in old(code) then old(code)[(p, b)] else []) + [inst]]
    {
      code := code[(p, b) := (if (p, b) in code then code[(p, b)] else []) + [inst]];
    }

    /** Appends an instruction that is not communication. */
    method Append(p: Part, b: BlockId, inst: TInst)
      requires b < |logs|
      modifies `code, `logs
      ensures Snap() == WithInst(old(Snap()), p, b, inst)
    {
      Build(p, b, inst);
      logs := logs[b := logs[b] + [Entry(p, inst)]];
    }

    /** Receives `src` where it is used, then sends it from where it is defined. */
    method ReceiveThenSend(b: BlockId, from: Part, to: Part, src: Id) returns (t: TOp)
      requires Ok() && b < |logs| && from != to
      modifies `commsId, `comms, `code, `logs
      ensures Snap() == WithPair(old(Snap()), b, from, to, src)
      ensures t == TReg(ChanR(old(commsId))) && commsId == old(commsId) + 1
    {
      hide Have, Project;
      PairCodeOrder(Snap(), b, from, to, src);
      var id := NewCommsAddr(Chan(b, from, to, src));
      Build(to, b, Receive(from, id));
      Build(from, b, Send(TReg(InstR(src)), to, id));
      logs := logs[b := logs[b] + [Entry(from, Send(TReg(InstR(src)), to, id))]];
      logs := logs[b := logs[b] + [Entry(to, Receive(from, id))]];
      t := TReg(ChanR(id));
    }

    /** The same exchange with the two ends appended in the other order. */
    method SendThenReceive(b: BlockId, from: Part, to: Part, src: Id) returns (t: TOp)
      requires Ok() && b < |logs| && from != to
      modifies `commsId, `comms, `code, `logs
      ensures Snap() == WithPair(old(Snap()), b, from, to, src)
      ensures t == TReg(ChanR(old(commsId))) && commsId == old(commsId) + 1
    {
      var id := NewCommsAddr(Chan(b, from, to, src));
      Build(from, b, Send(TReg(InstR(src)), to, id));
      Build(to, b, Receive(from, id));
      logs := logs[b := logs[b] + [Entry(from, Send(TReg(InstR(src)), to, id))]];
      logs := logs[b := logs[b] + [Entry(to, Receive(from, id))]];
      t := TReg(ChanR(id));
    }

    /** Argument `k` on core `p`: received once, at the head of the core's entry block. */
    method ReceiveArgFromHost(p: Part, k: nat) returns (t: TOp)
      requires Ok() && p in input.parts
      modifies this
      ensures Ok() && OnlyTraffic(old(Snap()), Snap(), {})
      ensures Snap() == if (p, k) in old(argMap) then old(Snap()) else WithArg(old(Snap()), p, k)
      ensures (p, k) in argMap && t == TReg(ArgR(k))
      ensures old(launched) <= launched <= old(launched) + {p}
    {
      hide EmitOk, OnlyTraffic;
      InParts(input, Snap(), p);
      if (p, k) !in argMap {
        ArgKeeps(input, Snap(), p, k);
        ArgTraffic(Snap(), p, k);
        launched := launched + {p};
        var id := commsId;
        commsId := commsId + 1;
        argMap := argMap[(p, k) := id];
        prologue := prologue[p := [ArgReceive(k, id)] + prologue[p]];
        hostSends := hostSends + [ArgSend(k, p, id)];
      } else {
        NoTraffic(Snap(), {});
      }
      t := TReg(ArgR(k));
    }

    /** Rewrites one operand of an instruction of core `p`'s clone of `b`. */
    method ReplaceOperand(op: Operand, p: Part, b: BlockId) returns (t: TOp)
      requires Ok() && p in input.parts && b < |input.fn.blocks|
      requires op.Ref? && op.id in mapped ==> Available(input, Snap(), b, op.id)
      modifies this
      ensures Ok() && OnlyTraffic(old(Snap()), Snap(), {b})
      ensures op.Ref? && op.id !in mapped ==> t == Unmapped(op) && Snap() == old(Snap())
      ensures (op.Ref? ==> op.id in mapped) ==>
        OperandOk(input.place, PlanOf(Snap()), BlockAt(input.fn, b), p, Have(Snap(), p, b), op, t)
      ensures (op.Ref? ==> op.id in mapped) ==>
        Got(Snap()) == Plus(Got(old(Snap())), NeedOf(input.place, b, op, p))
      ensures old(launched) <= launched <= old(launched) + {p}
    {
      hide EmitOk, OnlyTraffic, Have, OperandOk, WithPair, Clones, ClonedIds, Got, Plus;
      NoTraffic(Snap(), {b});
      ReadsHere(input, Snap(), b, p, op);
      ReadGot(input, Snap(), b, p, op);
      match op
      case Const(v) => t := TConst(v);
      case Arg(k) =>
        t := ReceiveArgFromHost(p, k);
        WiderTraffic(old(Snap()), Snap(), {}, {b});
        ReadsHere(input, Snap(), b, p, op);
      case Ref(id) =>
        if id !in mapped {
          t := Unmapped(op);
        } else if input.place[id] != p {
          PairFetches(input, Snap(), b, p, id);
          LogSize(input, Snap());
          t := ReceiveThenSend(b, input.place[id], p, id);
        } else {
          t := TReg(InstR(id));
        }
    }

    /** Fetches the value a phi on core `p` takes from `pred`, in the clones of `pred`. */
    method FetchIncoming(op: Operand, p: Part, pred: BlockId) returns (t: TOp)
      requires Ok() && p in input.parts && pred < |input.fn.blocks|
      requires op.Ref? && op.id in mapped ==> Available(input, Snap(), pred, op.id)
      modifies this
      ensures Ok() && OnlyTraffic(old(Snap()), Snap(), {pred})
      ensures op.Ref? && op.id !in mapped ==> t == Unmapped(op) && Snap() == old(Snap())
      ensures (op.Ref? ==> op.id in mapped) ==>
        OperandOk(input.place, PlanOf(Snap()), BlockAt(input.fn, pred), p, Have(Snap(), p, pred), op, t)
      ensures (op.Ref? ==> op.id in mapped) ==>
        Got(Snap()) == Plus(Got(old(Snap())), NeedOf(input.place, pred, op, p))
      ensures (op.Ref? ==> op.id in mapped) ==> SourceOf(input, p, op, t)
      ensures old(commsId) <= commsId && (FromMailbox(t) ==> old(commsId) == t.reg.chan < commsId)
      ensures old(launched) <= launched <= old(launched) + {p}
    {
      hide EmitOk, OnlyTraffic, Have, OperandOk, WithPair, Clones, ClonedIds, Got, Plus;
      NoTraffic(Snap(), {pred});
      ReadsHere(input, Snap(), pred, p, op);
      ReadGot(input, Snap(), pred, p, op);
      match op
      case Const(v) => t := TConst(v);
      case Arg(k) =>
        t := ReceiveArgFromHost(p, k);
        WiderTraffic(old(Snap()), Snap(), {}, {pred});
        ReadsHere(input, Snap(), pred, p, op);
      case Ref(id) =>
        if id !in mapped {
          t := Unmapped(op);
        } else if p != input.place[id] {
          PairFetches(input, Snap(), pred, p, id);
          LogSize(input, Snap());
          t := SendThenReceive(pred, input.place[id], p, id);
        } else {
          t := TReg(InstR(id));
        }
    }

    // ----- First pass -----

    /** Clones body instruction `k` of block `b` on its core. */
    method EmitInst(b: BlockId, k: nat)
      requires Ok() && b < |input.fn.blocks| && k < |BlockAt(input.fn, b).body|
      requires BodyEmitted(input, Snap(), b, k) && OpenBlock(input, Snap(), b)
      requires var inst := BlockAt(input.fn, b).body[k];
        && inst.id in input.place && input.place[inst.id] in input.parts && (inst.mem ==> input.place[inst.id] == 0)
        && forall j :: 0 <= j < |inst.args| ==> Operable(input, Snap(), b, inst.args[j])
      modifies this
      ensures Ok() && Grows(old(Snap()), Snap())
      ensures BodyEmitted(input, Snap(), b, k + 1) && OpenBlock(input, Snap(), b)
      ensures mapped == old(mapped) + {BlockAt(input.fn, b).body[k].id}
      ensures var inst := BlockAt(input.fn, b).body[k];
        Got(Snap()) == Plus(Got(old(Snap())), OperandsNeed(input.place, b, inst.args, CoreOf(input.place, inst.id)))
      ensures phiOrder == old(phiOrder) && incoming == old(incoming)
      ensures forall a :: a != b ==> LogIn(Snap(), a) == LogIn(old(Snap()), a)
      ensures forall q :: Returns(Have(Snap(), q, b)) == Returns(Have(old(Snap()), q, b))
      ensures launched == old(launched) + {input.place[BlockAt(input.fn, b).body[k].id]}
    {
      hide EmitOk, Have, OperandOk, Clones, ClonedIds, MemClones, Returns, BodyEmitted;
      hide Got, Plus, NeedOf, OperandsNeed, Bag;
      ghost var e0 := Snap();
      var inst := BlockAt(input.fn, b).body[k];
      var p := input.place[inst.id];
      launched := launched + {p};
      mapped := mapped + {inst.id};
      ghost var e1 := Snap();
      MappedOnly(input, e0, e1, b, k);
      NoOperands(input.place, b, inst.args, p, Got(e1));
      var args: seq<TOp> := [];
      NoTraffic(e1, {b});
      for j := 0 to |inst.args|
        invariant Ok() && OnlyTraffic(e1, Snap(), {b}) && launched == old(launched) + {p}
        invariant Got(Snap()) == Plus(Got(e1), OperandsNeed(input.place, b, inst.args[..j], p))
        invariant |args| == j
        invariant forall a :: 0 <= a < j ==>
          OperandOk(input.place, PlanOf(Snap()), BlockAt(input.fn, b), p, Have(Snap(), p, b), inst.args[a], args[a])
      {
        ghost var e := Snap();
        assert Operable(input, e0, b, inst.args[j]);
        AvailableStays(input, e0, e1, b, inst.args[j]);
        AvailableStays(input, e1, e, b, inst.args[j]);
        OperandsNext(input.place, b, inst.args, j, p);
        MoreNeeded(Got(e1), OperandsNeed(input.place, b, inst.args[..j], p), NeedOf(input.place, b, inst.args[j], p));
        var t := ReplaceOperand(inst.args[j], p, b);
        MoreTraffic(e1, e, Snap(), {b});
        forall a | 0 <= a < j
          ensures OperandOk(input.place, PlanOf(Snap()), BlockAt(input.fn, b), p, Have(Snap(), p, b),
                            inst.args[a], args[a])
        {
          OperandStays(input, e, Snap(), p, b, inst.args[a], args[a]);
        }
        args := args + [t];
      }
      assert inst.args[..|inst.args|] == inst.args;
      BodyStays(input, e1, Snap(), {b}, b, k);
      OpenStays(input, e1, Snap(), {b}, b);
      CloneAppended(input, Snap(), b, k, args);
      ghost var e2 := Snap();
      Append(p, b, Clone(inst.id, inst.code, args, inst.mem));
      SameGot(e2, Snap());
      GrowsTransitively(e0, e1, e2);
      GrowsTransitively(e0, e2, Snap());
      TrafficReturns(e1, e2, {b}, b);
    }

    /** Creates one phi without entries at the end of core `p`'s clone of `b`. */
    method CreatePhi(id: Id, p: Part, b: BlockId)
      requires (p, b) in phiOrder
      modifies `phiOrder, `incoming, `mapped, `launched
      ensures phiOrder == old(phiOrder)[(p, b) := old(phiOrder)[(p, b)] + [id]]
      ensures incoming == old(incoming)[id := []]
      ensures mapped == old(mapped) + {id} && launched == old(launched) + {p}
    {
      launched := launched + {p};
      phiOrder := phiOrder[(p, b) := phiOrder[(p, b)] + [id]];
      incoming := incoming[id := []];
      mapped := mapped + {id};
    }

    /** Creates the empty phis of block `b`, each on its core. */
    method CreatePhis(b: BlockId)
      requires b < |input.fn.blocks| && InputOk(input)
      requires forall p :: p in input.parts ==> (p, b) in phiOrder && phiOrder[(p, b)] == []
      modifies `phiOrder, `incoming, `mapped, `launched
      ensures PhisCreated(input, Snap(), b)
      ensures mapped == old(mapped) + PhiIds(BlockAt(input.fn, b).phis)
      ensures incoming == old(incoming) + EmptyEntries(PhiIds(BlockAt(input.fn, b).phis))
      ensures forall key :: key in old(phiOrder) && key.1 != b ==>
        key in phiOrder && phiOrder[key] == old(phiOrder)[key]
      ensures Launches(input.parts, old(launched), launched)
      ensures forall id :: id in PhiIds(BlockAt(input.fn, b).phis) ==> id in input.place && input.place[id] in launched
    {
      hide InputOk;
      var phis := BlockAt(input.fn, b).phis;
      NoPhis(phis, input.place);
      MoreEntries(incoming, {}, 0);
      hide PhiIds, PhisOn, EmptyEntries;
      for k := 0 to |phis|
        invariant PhisUpTo(input, b, old(phiOrder), phiOrder, k)
        invariant mapped == old(mapped) + PhiIds(phis[..k])
        invariant incoming == old(incoming) + EmptyEntries(PhiIds(phis[..k]))
        invariant Launches(input.parts, old(launched), launched)
        invariant forall id :: id in PhiIds(phis[..k]) ==> id in input.place && input.place[id] in launched
      {
        hide PhisUpTo;
        PhiPlaced(input, b, k);
        PhisUpToNext(input, b, old(phiOrder), phiOrder, k);
        MorePhis(phis, k, input.place);
        MoreEntries(old(incoming), PhiIds(phis[..k]), phis[k].id);
        CreatePhi(phis[k].id, input.place[phis[k].id], b);
      }
      assert phis[..|phis|] == phis;
    }

    /** Ends every core's clone of `b` with its terminator. */
    method CloseWith(b: BlockId, terms: map<Part, TInst>)
      requires Ok() && b < |input.fn.blocks| && DistinctParts(input.parts) && OpenBlock(input, Snap(), b)
      requires forall p :: p in input.parts ==>
        p in terms && IsTerminator(terms[p])
        && InstOk(input.fn, input.place, PlanOf(Snap()), p, b, Have(Snap(), p, b), terms[p])
      modifies `code, `logs
      ensures Ok() && Grows(old(Snap()), Snap()) && ClosedBlock(input, Snap(), b)
      ensures forall a :: a != b ==> LogIn(Snap(), a) == LogIn(old(Snap()), a)
      ensures Got(Snap()) == Got(old(Snap()))
      ensures forall p :: p in input.parts ==> Have(Snap(), p, b) == Have(old(Snap()), p, b) + [terms[p]]
      ensures forall p :: p !in input.parts ==> Have(Snap(), p, b) == Have(old(Snap()), p, b)
    {
      hide EmitOk, InstOk, Have, Free, Grows, Terminated;
      ghost var e0 := Snap();
      var parts := input.parts;
      NoTerms(input, e0, b, terms);
      for n := 0 to |parts|
        invariant TermsAppended(input, e0, Snap(), b, terms, n)
      {
        NextTerm(input, e0, Snap(), b, terms, n);
        Append(parts[n], b, terms[parts[n]]);
      }
      assert parts[..|parts|] == parts;
      SameGot(e0, Snap());
      forall p | p in parts ensures Terminated(Have(Snap(), p, b)) {
        TerminatedByAppend(Have(e0, p, b), terms[p]);
      }
    }

    /**
     Sends the returned value to the host. For a constant there is no function to store it in,
     and emission breaks off.
     */
    method CallSendReturn(b: BlockId) returns (ok: bool)
      requires Ok() && b < |input.fn.blocks| && InputOk(input)
      requires BlockAt(input.fn, b).term.Ret? && BlockAt(input.fn, b).term.value.Some?
      requires OpenBlock(input, Snap(), b) && forall q :: Returns(Have(Snap(), q, b)) == 0
      requires BodyEmitted(input, Snap(), b, |BlockAt(input.fn, b).body|)
      requires Operable(input, Snap(), b, BlockAt(input.fn, b).term.value.value)
      modifies this
      ensures ok <==> CanBeSent(BlockAt(input.fn, b).term)
      ensures ok ==> Ok() && Grows(old(Snap()), Snap()) && OpenBlock(input, Snap(), b)
      ensures ok ==> BodyEmitted(input, Snap(), b, |BlockAt(input.fn, b).body|) && ReturnEmitted(input, Snap(), b)
      ensures phiOrder == old(phiOrder) && incoming == old(incoming) && mapped == old(mapped)
      ensures ok ==> forall a :: a != b ==> LogIn(Snap(), a) == LogIn(old(Snap()), a)
      ensures ok ==>
        Got(Snap()) == Plus(Got(old(Snap())), ReturnNeeds(input.place, b, BlockAt(input.fn, b).term))
      ensures Launches(input.parts, old(launched), launched)
    {
      hide InputOk, EmitOk, Have, OperandOk, BodyEmitted, OpenBlock, Clones, ClonedIds, MemClones, Returns, Grows;
      hide Got, Plus, NeedOf;
      ReturnPlaced(input, b);
      ghost var e0 := Snap();
      var term := BlockAt(input.fn, b).term;
      var p := input.place[term.id];
      var t := ReplaceOperand(term.value.value, p, b);
      ghost var e := Snap();
      ConstantsKept(input.place, PlanOf(e), BlockAt(input.fn, b), p, Have(e, p, b), term.value.value, t);
      if t.TConst? {
        return false;
      }
      BodyStays(input, e0, e, {b}, b, |BlockAt(input.fn, b).body|);
      OpenStays(input, e0, e, {b}, b);
      TrafficReturns(e0, e, {b}, b);
      ReturnAppended(input, e, b, t);
      Append(p, b, SendReturn(t));
      SameGot(e, Snap());
      GrowsTransitively(e0, e, Snap());
      ok := true;
    }

    /** Sends the returned value to the host, if there is one, and returns on every core. */
    method EmitReturn(b: BlockId) returns (ok: bool)
      requires Ok() && b < |input.fn.blocks| && InputOk(input) && BlockAt(input.fn, b).term.Ret?
      requires OpenBlock(input, Snap(), b) && forall q :: Returns(Have(Snap(), q, b)) == 0
      requires BodyEmitted(input, Snap(), b, |BlockAt(input.fn, b).body|)
      requires BlockAt(input.fn, b).term.value.Some? ==>
        Operable(input, Snap(), b, BlockAt(input.fn, b).term.value.value)
      modifies this
      ensures ok <==> CanBeSent(BlockAt(input.fn, b).term)
      ensures ok ==> Ok() && Grows(old(Snap()), Snap()) && ClosedBlock(input, Snap(), b)
      ensures ok ==> BodyEmitted(input, Snap(), b, |BlockAt(input.fn, b).body|) && ReturnEmitted(input, Snap(), b)
      ensures phiOrder == old(phiOrder) && incoming == old(incoming) && mapped == old(mapped)
      ensures ok ==> forall a :: a != b ==> LogIn(Snap(), a) == LogIn(old(Snap()), a)
      ensures ok ==>
        Got(Snap()) == Plus(Got(old(Snap())), ReturnNeeds(input.place, b, BlockAt(input.fn, b).term))
      ensures ok ==> Launches(input.parts, old(launched), launched)
      ensures ok ==>
        BlockAt(input.fn, b).term.id in input.place && input.place[BlockAt(input.fn, b).term.id] in launched
    {
      hide InputOk, EmitOk, Have, BodyEmitted, OpenBlock, ClosedBlock, Clones, ClonedIds, MemClones, Returns, Operable;
      hide Got, Plus, NeedOf;
      ReturnPlaced(input, b);
      DistinctInput(input);
      ghost var e0 := Snap();
      var term := BlockAt(input.fn, b).term;
      if term.value.Some? {
        ok := CallSendReturn(b);
        if !ok {
          return;
        }
      } else {
        NoTraffic(e0, {});
        NoneNeeded(Got(e0));
      }
      launched := launched + {input.place[term.id]};
      ghost var e1 := Snap();
      hide Grows, ReturnEmitted;
      CloseWith(b, map q | q in input.parts :: RetVoid);
      GrowsTransitively(e0, e1, Snap());
      forall q
        ensures Clones(Have(Snap(), q, b)) == Clones(Have(e1, q, b))
        ensures ClonedIds(Have(Snap(), q, b)) == ClonedIds(Have(e1, q, b))
        ensures MemClones(Have(Snap(), q, b)) == MemClones(Have(e1, q, b))
        ensures Returns(Have(Snap(), q, b)) == Returns(Have(e1, q, b))
      {
        if q in input.parts {
          TermOnly(Have(e1, q, b), RetVoid);
        }
      }
      ClosedKeeps(input, e1, Snap(), b);
      ok := true;
    }

    /** Clones the body of block `b`, one instruction after the other. */
    method EmitBody(b: BlockId)
      requires Ok() && b < |input.fn.blocks| && InputOk(input)
      requires UsesMapped(input, Snap(), b) && PhiIds(BlockAt(input.fn, b).phis) <= mapped
      requires BodyEmitted(input, Snap(), b, 0) && OpenBlock(input, Snap(), b)
      modifies this
      ensures Ok() && Grows(old(Snap()), Snap())
      ensures BodyEmitted(input, Snap(), b, |BlockAt(input.fn, b).body|) && OpenBlock(input, Snap(), b)
      ensures Got(Snap()) == Plus(Got(old(Snap())), InstsNeed(input.place, b, BlockAt(input.fn, b).body))
      ensures phiOrder == old(phiOrder) && incoming == old(incoming) && old(mapped) <= mapped
      ensures forall a :: a != b ==> LogIn(Snap(), a) == LogIn(old(Snap()), a)
      ensures forall q :: Returns(Have(Snap(), q, b)) == Returns(Have(old(Snap()), q, b))
      ensures Launches(input.parts, old(launched), launched) && BodyDone(input, mapped, launched, b)
    {
      hide InputOk, EmitOk, Have, BodyEmitted, OpenBlock, Clones, ClonedIds, MemClones, Returns;
      hide UsesMapped, Operable, Grows, Got, Plus, OperandsNeed, InstsNeed, Bag, CoreOf, PhiIds;
      ghost var e0 := Snap();
      var body := BlockAt(input.fn, b).body;
      NoInsts(input.place, b, body, Got(e0));
      SelfGrows(e0);
      for k := 0 to |body|
        invariant Ok() && Grows(e0, Snap()) && BodyEmitted(input, Snap(), b, k) && OpenBlock(input, Snap(), b)
        invariant Got(Snap()) == Plus(Got(e0), InstsNeed(input.place, b, body[..k]))
        invariant phiOrder == old(phiOrder) && incoming == old(incoming)
        invariant old(mapped) <= mapped && forall j :: 0 <= j < k ==> body[j].id in mapped
        invariant forall a :: a != b ==> LogIn(Snap(), a) == LogIn(e0, a)
        invariant forall q :: Returns(Have(Snap(), q, b)) == Returns(Have(e0, q, b))
        invariant Launches(input.parts, old(launched), launched)
        invariant forall j :: 0 <= j < k ==> body[j].id in input.place && input.place[body[j].id] in launched
      {
        BodyPlaced(input, b, k);
        ArgsReady(input, e0, Snap(), b, k);
        ghost var e := Snap();
        EmitInst(b, k);
        InstsNext(input.place, b, body, k);
        MoreNeeded(Got(e0), InstsNeed(input.place, b, body[..k]),
                   OperandsNeed(input.place, b, body[k].args, CoreOf(input.place, body[k].id)));
        GrowsTransitively(e0, e, Snap());
      }
      assert body[..|body|] == body;
    }

    /** First pass over one block: phis, then the other instructions, then a return. */
    method EmitBlock(b: BlockId) returns (ok: bool)
      requires Ok() && b < |input.fn.blocks| && InputOk(input)
      requires LogIn(Snap(), b) == [] && UsesMapped(input, Snap(), b)
      requires forall p :: p in input.parts ==> (p, b) in phiOrder && phiOrder[(p, b)] == []
      modifies this
      ensures ok <==> CanBeSent(BlockAt(input.fn, b).term)
      ensures ok ==> Ok() && Grows(old(Snap()), Snap()) && BlockEmitted(input, Snap(), b)
      ensures ok ==> forall a :: a != b ==> LogIn(Snap(), a) == LogIn(old(Snap()), a)
      ensures forall key :: key in old(phiOrder) && key.1 != b ==>
        key in phiOrder && phiOrder[key] == old(phiOrder)[key]
      ensures incoming == old(incoming) + EmptyEntries(PhiIds(BlockAt(input.fn, b).phis))
      ensures ok ==>
        Got(Snap()) == Plus(Got(old(Snap())), StraightNeeds(input.place, b, BlockAt(input.fn, b)))
      ensures ok ==> Launches(input.parts, old(launched), launched) && BlockLaunched(input, launched, b)
    {
      hide InputOk, EmitOk, Have, BodyEmitted, OpenBlock, ClosedBlock, PhisCreated;
      hide Clones, ClonedIds, MemClones, Returns, UsesMapped, Operable, Grows, ReturnEmitted;
      hide EmptyEntries, BlockEmitted, Got, Plus, InstsNeed, ReturnNeeds;
      ghost var e0 := Snap();
      var blk := BlockAt(input.fn, b);
      NothingYet(input, e0, b);
      CreatePhis(b);
      PhiFieldsOnly(input, e0, Snap());
      ghost var e1 := Snap();
      MappedBody(input, e0, e1, b);
      SameGot(e0, e1);
      UsesStay(input, e0, e1, b);
      EmitBody(b);
      ghost var e2 := Snap();
      GrowsTransitively(e0, e1, e2);
      MoreNeeded(Got(e0), InstsNeed(input.place, b, blk.body), ReturnNeeds(input.place, b, blk.term));
      BranchesReturnNothing(input.place, b, blk.term, Got(e2));
      if blk.term.Ret? {
        if blk.term.value.Some? {
          ReturnReady(input, e1, e2, b);
        }
        var sent := EmitReturn(b);
        if !sent {
          return false;
        }
        GrowsTransitively(e0, e2, Snap());
      }
      BlockComplete(input, e1, Snap(), b);
      ok := true;
    }

    method EmitStraightline(sorted: seq<BlockId>) returns (ok: bool)
      requires Ok() && InputOk(input) && UsesDominated(input.fn) && DominanceOrder(input.fn, sorted)
      requires forall b :: 0 <= b < |input.fn.blocks| ==> LogIn(Snap(), b) == []
      requires forall p, b :: p in input.parts && 0 <= b < |input.fn.blocks| ==>
        (p, b) in phiOrder && phiOrder[(p, b)] == []
      modifies this
      ensures ok <==> ReturnsSendable(input.fn)
      ensures ok ==> Ok() && AllEmitted(input, Snap())
      ensures ok ==>
        Got(Snap()) == Plus(Got(old(Snap())), SumOver(UpTo(|input.fn.blocks|), StraightOf(input.fn, input.place)))
      ensures ok ==> Launches(input.parts, old(launched), launched)
      ensures ok ==> forall b :: 0 <= b < |input.fn.blocks| ==>
        PhisEmpty(input, Snap(), b) && BlockLaunched(input, launched, b)
    {
      hide EmitOk, InputOk, UsesDominated, BlockEmitted, UsesMapped, BlockLaunched, Dominates, PhisEmpty;
      hide Got, Plus, SumOver, UpTo, StraightNeeds;
      ghost var needs := StraightOf(input.fn, input.place);
      NoBlocks(sorted, needs, Got(Snap()));
      for n := 0 to |sorted|
        invariant Ok() && Launches(input.parts, old(launched), launched)
        invariant Got(Snap()) == Plus(Got(old(Snap())), SumOver(sorted[..n], needs))
        invariant forall m :: 0 <= m < n ==> BlockEmitted(input, Snap(), sorted[m])
        invariant forall m :: 0 <= m < n ==> CanBeSent(BlockAt(input.fn, sorted[m]).term)
        invariant forall m :: 0 <= m < n ==>
          PhisEmpty(input, Snap(), sorted[m]) && BlockLaunched(input, launched, sorted[m])
        invariant forall m :: n <= m < |sorted| ==> LogIn(Snap(), sorted[m]) == []
        invariant forall p, m :: p in input.parts && n <= m < |sorted| ==>
          (p, sorted[m]) in phiOrder && phiOrder[(p, sorted[m])] == []
      {
        ghost var e := Snap();
        ghost var wasLaunched := launched;
        UsesFromOrder(input, e, sorted, n);
        var sent := EmitBlock(sorted[n]);
        if !sent {
          return false;
        }
        forall m | 0 <= m < n
          ensures BlockEmitted(input, Snap(), sorted[m]) && PhisEmpty(input, Snap(), sorted[m])
          ensures BlockLaunched(input, launched, sorted[m])
        {
          GrownTable(e, Snap());
          BlockElsewhere(input, e, Snap(), sorted[m]);
          EmptyStays(input, e, Snap(), sorted[m], BlockAt(input.fn, sorted[n]).phis);
          LaunchedStays(input, wasLaunched, launched, sorted[m]);
        }
        CreatedEmpty(input, e, Snap(), sorted[n]);
        BlocksNext(sorted, n, needs);
        MoreNeeded(Got(old(Snap())), SumOver(sorted[..n], needs), needs(sorted[n]));
      }
      assert sorted[..|sorted|] == sorted;
      SumOfAll(sorted, |input.fn.blocks|, needs);
      forall b | 0 <= b < |input.fn.blocks|
        ensures BlockEmitted(input, Snap(), b) && PhisEmpty(input, Snap(), b) && BlockLaunched(input, launched, b)
        ensures CanBeSent(input.fn.blocks[b].term)
      {
        assert b in sorted;
        var m :| 0 <= m < |sorted| && sorted[m] == b;
      }
      ok := true;
    }

    // ----- Second pass -----

    /** Gives phi `k` of block `b` its entries, fetching each value in the predecessor's clones. */
    method RepairPhi(b: BlockId, k: nat)
      requires Ok() && InputOk(input) && AllEmitted(input, Snap())
      requires b < |input.fn.blocks| && k < |BlockAt(input.fn, b).phis|
      requires var id := BlockAt(input.fn, b).phis[k].id; id in incoming && incoming[id] == []
      modifies this
      ensures Ok() && AllEmitted(input, Snap()) && Grows(old(Snap()), Snap())
      ensures var phi := BlockAt(input.fn, b).phis[k];
        && phi.id in input.place && phi.id in incoming
        && EntriesFilled(input, Snap(), input.place[phi.id], phi.incoming, incoming[phi.id])
        && (OneValuePerPred(incoming[phi.id]) <==> PhiRepeatsLocal(input.place, phi))
      ensures forall id :: id in old(incoming) && id != BlockAt(input.fn, b).phis[k].id ==>
        id in incoming && incoming[id] == old(incoming)[id]
      ensures var phi := BlockAt(input.fn, b).phis[k];
        Got(Snap()) == Plus(Got(old(Snap())), EntriesNeed(input.place, phi.incoming, CoreOf(input.place, phi.id)))
      ensures Launches(input.parts, old(launched), launched)
    {
      hide EmitOk, InputOk, AllEmitted, Have, OperandOk, Available, Unclosed, OneValuePerPred, PhiRepeatsLocal;
      hide Got, Plus, NeedOf, EntriesNeed;
      ghost var e0 := Snap();
      var phi := BlockAt(input.fn, b).phis[k];
      PhiPlaced(input, b, k);
      var p := input.place[phi.id];
      var entries: seq<(BlockId, TOp)> := [];
      NoTraffic(e0, Unclosed(input));
      NoEntries(input.place, phi.incoming, p, Got(e0));
      for j := 0 to |phi.incoming|
        invariant Ok() && AllEmitted(input, Snap()) && OnlyTraffic(e0, Snap(), Unclosed(input))
        invariant Got(Snap()) == Plus(Got(e0), EntriesNeed(input.place, phi.incoming[..j], p))
        invariant Launches(input.parts, old(launched), launched)
        invariant EntriesFilled(input, Snap(), p, phi.incoming[..j], entries) && MailboxesBelow(entries, commsId)
      {
        ghost var e := Snap();
        var (pred, op) := phi.incoming[j];
        PhiEntry(input, b, k, j);
        BuiltAll(input, e);
        ReadAnywhere(input, e, pred, op);
        var t := FetchIncoming(op, p, pred);
        EntriesNext(input.place, phi.incoming, j, p);
        MoreNeeded(Got(e0), EntriesNeed(input.place, phi.incoming[..j], p), NeedOf(input.place, pred, op, p));
        WiderTraffic(e, Snap(), {pred}, Unclosed(input));
        MoreTraffic(e0, e, Snap(), Unclosed(input));
        AllStay(input, e, Snap());
        EntriesStay(input, e, Snap(), p, phi.incoming[..j], entries);
        entries := entries + [(pred, t)];
        assert phi.incoming[..j + 1] == phi.incoming[..j] + [phi.incoming[j]];
        OneMoreEntry(input, Snap(), p, phi.incoming[..j], entries[..j], phi.incoming[j], (pred, t));
        assert entries[..j] + [(pred, t)] == entries;
      }
      assert phi.incoming[..|phi.incoming|] == phi.incoming;
      ghost var e1 := Snap();
      incoming := incoming[phi.id := incoming[phi.id] + entries];
      assert incoming[phi.id] == entries;
      SameGot(e1, Snap());
      IncomingOnly(input, e1, Snap());
      GrowsTransitively(e0, e1, Snap());
      EntriesStay(input, e1, Snap(), p, phi.incoming, entries);
      PhiEntriesAgree(input, b, k);
      EntriesAgree(input, Snap(), p, phi, incoming[phi.id]);
    }

    method RepairBlockPhis(b: BlockId)
      requires Ok() && InputOk(input) && AllEmitted(input, Snap())
      requires b < |input.fn.blocks| && PhisEmpty(input, Snap(), b)
      modifies this
      ensures Ok() && AllEmitted(input, Snap()) && Grows(old(Snap()), Snap())
      ensures PhisFilled(input, Snap(), b)
      ensures Got(Snap()) == Plus(Got(old(Snap())), PhisNeed(input.place, BlockAt(input.fn, b).phis))
      ensures forall id :: id in old(incoming) && !IsPhi(BlockAt(input.fn, b), id) ==>
        id in incoming && incoming[id] == old(incoming)[id]
      ensures Launches(input.parts, old(launched), launched)
    {
      hide EmitOk, InputOk, AllEmitted, EntriesFilled, Grows, Got, Plus, EntriesNeed, PhisNeed;
      ghost var e0 := Snap();
      var phis := BlockAt(input.fn, b).phis;
      SelfGrows(e0);
      NoPhisNeed(input.place, phis, Got(e0));
      for k := 0 to |phis|
        invariant Ok() && AllEmitted(input, Snap()) && Grows(e0, Snap())
        invariant Got(Snap()) == Plus(Got(e0), PhisNeed(input.place, phis[..k]))
        invariant FilledTo(input, Snap(), b, k)
        invariant forall j :: k <= j < |phis| ==> phis[j].id in incoming && incoming[phis[j].id] == []
        invariant forall id :: id in old(incoming) && !IsPhi(BlockAt(input.fn, b), id) ==>
          id in incoming && incoming[id] == old(incoming)[id]
        invariant Launches(input.parts, old(launched), launched)
      {
        ghost var e := Snap();
        forall j | 0 <= j < |phis| && j != k ensures phis[j].id != phis[k].id {
          PhiIdsDiffer(input, b, j, b, k);
        }
        assert IsPhi(BlockAt(input.fn, b), phis[k].id);
        RepairPhi(b, k);
        PhisNext(input.place, phis, k);
        MoreNeeded(Got(e0), PhisNeed(input.place, phis[..k]),
                   EntriesNeed(input.place, phis[k].incoming, CoreOf(input.place, phis[k].id)));
        GrowsTransitively(e0, e, Snap());
        FilledStays(input, e, Snap(), b, k);
      }
      assert phis[..|phis|] == phis;
    }

    method RepairPhis(sorted: seq<BlockId>)
      requires Ok() && InputOk(input) && AllEmitted(input, Snap()) && DominanceOrder(input.fn, sorted)
      requires forall b :: 0 <= b < |input.fn.blocks| ==> PhisEmpty(input, Snap(), b)
      modifies this
      ensures Ok() && AllEmitted(input, Snap()) && Launches(input.parts, old(launched), launched)
      ensures forall b :: 0 <= b < |input.fn.blocks| ==> PhisFilled(input, Snap(), b)
      ensures Got(Snap()) ==
        Plus(Got(old(Snap())), SumOver(UpTo(|input.fn.blocks|), PhisOf(input.fn, input.place)))
    {
      hide EmitOk, InputOk, AllEmitted, PhisFilled, PhisEmpty, IsPhi, Got, Plus, SumOver, UpTo, PhisNeed;
      ghost var needs := PhisOf(input.fn, input.place);
      NoBlocks(sorted, needs, Got(Snap()));
      for n := 0 to |sorted|
        invariant Ok() && AllEmitted(input, Snap()) && Launches(input.parts, old(launched), launched)
        invariant Got(Snap()) == Plus(Got(old(Snap())), SumOver(sorted[..n], needs))
        invariant forall m :: 0 <= m < n ==> PhisFilled(input, Snap(), sorted[m])
        invariant forall m :: n <= m < |sorted| ==> PhisEmpty(input, Snap(), sorted[m])
      {
        ghost var e := Snap();
        RepairBlockPhis(sorted[n]);
        BlocksNext(sorted, n, needs);
        MoreNeeded(Got(old(Snap())), SumOver(sorted[..n], needs), needs(sorted[n]));
        forall m | 0 <= m < n ensures PhisFilled(input, Snap(), sorted[m]) {
          OthersFilled(input, e, Snap(), sorted[m], sorted[n]);
        }
        forall m | n < m < |sorted| ensures PhisEmpty(input, Snap(), sorted[m]) {
          OthersEmpty(input, e, Snap(), sorted[m], sorted[n]);
        }
      }
      assert sorted[..|sorted|] == sorted;
      SumOfAll(sorted, |input.fn.blocks|, needs);
      forall b | 0 <= b < |input.fn.blocks| ensures PhisFilled(input, Snap(), b) {
        assert b in sorted;
        var m :| 0 <= m < |sorted| && sorted[m] == b;
      }
    }

    // ----- Third pass -----

    /** Appends block `b`'s branch to every core, broadcasting its condition from the core that has it. */
    method RepairBranch(b: BlockId)
      requires Ok() && InputOk(input) && b < |input.fn.blocks| && OpenBlock(input, Snap(), b)
      requires forall d :: 0 <= d < |input.fn.blocks| ==> Built(input, Snap(), d)
      requires !BlockAt(input.fn, b).term.Ret?
      requires BlockAt(input.fn, b).term.CondBr? ==> BlockAt(input.fn, b).term.cond.Ref?
      modifies this
      ensures Ok() && ClosedBlock(input, Snap(), b)
      ensures Grows(old(Snap()), Snap())
      ensures forall d :: 0 <= d < |input.fn.blocks| ==> Built(input, Snap(), d)
      ensures forall a :: a != b ==> LogIn(Snap(), a) == LogIn(old(Snap()), a)
      ensures incoming == old(incoming) && Launches(input.parts, old(launched), launched)
      ensures Got(Snap()) ==
        Plus(Got(old(Snap())), BranchNeeds(input.place, b, BlockAt(input.fn, b).term, input.parts))
    {
      hide EmitOk, InputOk, Have, Built, OperandOk, RefOk, Got, Plus, BroadcastNeeds;
      hide OpenBlock, ClosedBlock, Available, Clones, ClonedIds, MemClones, Returns;
      DistinctInput(input);
      ghost var e0 := Snap();
      ghost var e1 := e0;
      var terms: map<Part, TInst>;
      match BlockAt(input.fn, b).term {
        case Br(d) =>
          NoTraffic(e0, {b});
          NoneNeeded(Got(e0));
          terms := map q | q in input.parts :: Jump(d);
          forall q | q in input.parts
            ensures InstOk(input.fn, input.place, PlanOf(e0), q, b, Have(e0, q, b), terms[q])
          {
          }
        case CondBr(cond, d1, d2) =>
          var conds := BroadcastValue(b, cond);
          e1 := Snap();
          terms := map q | q in input.parts :: Branch(conds[q], d1, d2);
          forall q | q in input.parts
            ensures InstOk(input.fn, input.place, PlanOf(e1), q, b, Have(e1, q, b), terms[q])
          {
          }
      }
      OpenStays(input, e0, e1, {b}, b);
      forall d | 0 <= d < |input.fn.blocks| ensures Built(input, e1, d) {
        BuiltStays(input, e0, e1, {b}, d);
      }
      hide InstOk, OnlyTraffic;
      InsertBranches(b, terms);
      TrafficGrows(e0, e1, {b});
      GrowsTransitively(e0, e1, Snap());
    }

    /** Ends every core's clone of the built block `b` with its branch. */
    method InsertBranches(b: BlockId, terms: map<Part, TInst>)
      requires Ok() && b < |input.fn.blocks| && DistinctParts(input.parts) && OpenBlock(input, Snap(), b)
      requires forall d :: 0 <= d < |input.fn.blocks| ==> Built(input, Snap(), d)
      requires forall p :: p in input.parts ==>
        p in terms && IsTerminator(terms[p])
        && InstOk(input.fn, input.place, PlanOf(Snap()), p, b, Have(Snap(), p, b), terms[p])
      modifies `code, `logs
      ensures Ok() && Grows(old(Snap()), Snap()) && ClosedBlock(input, Snap(), b)
      ensures Got(Snap()) == Got(old(Snap()))
      ensures forall d :: 0 <= d < |input.fn.blocks| ==> Built(input, Snap(), d)
      ensures forall a :: a != b ==> LogIn(Snap(), a) == LogIn(old(Snap()), a)
    {
      hide EmitOk, InstOk, Have, Built, OpenBlock, ClosedBlock, Clones, ClonedIds, MemClones, Returns, Grows, Got;
      ghost var e := Snap();
      CloseWith(b, terms);
      forall q
        ensures Clones(Have(Snap(), q, b)) == Clones(Have(e, q, b))
        ensures ClonedIds(Have(Snap(), q, b)) == ClonedIds(Have(e, q, b))
        ensures MemClones(Have(Snap(), q, b)) == MemClones(Have(e, q, b))
        ensures Returns(Have(Snap(), q, b)) == Returns(Have(e, q, b))
      {
        if q in input.parts {
          TermOnly(Have(e, q, b), terms[q]);
        }
      }
      forall d | 0 <= d < |input.fn.blocks| ensures Built(input, Snap(), d) {
        BuiltAfterClose(input, e, Snap(), b, d);
      }
    }

    /** Sends the condition of `b` from its core to each other core; returns what each core is to test. */
    method BroadcastValue(b: BlockId, cond: Operand) returns (conds: map<Part, TOp>)
      requires Ok() && InputOk(input) && b < |input.fn.blocks| && cond.Ref?
      requires BlockAt(input.fn, b).term.CondBr? && BlockAt(input.fn, b).term.cond == cond
      requires forall d :: 0 <= d < |input.fn.blocks| ==> Built(input, Snap(), d)
      modifies this
      ensures Ok() && OnlyTraffic(old(Snap()), Snap(), {b}) && Launches(input.parts, old(launched), launched)
      ensures forall q | q in input.parts :: q in conds && ReadsOn(input, Snap(), b, q, cond, conds[q])
      ensures Got(Snap()) == Plus(Got(old(Snap())), BroadcastNeeds(input.place, b, cond, input.parts))
    {
      hide EmitOk, InputOk, Have, Built, OperandOk, Clones, ClonedIds, Got, Plus, BroadcastNeeds;
      ghost var e0 := Snap();
      BranchCondition(input, b);
      ReadAnywhere(input, e0, b, cond);
      var p0 := input.place[cond.id];
      NeedsNone(input.place, b, cond);
      NoneNeeded(Got(e0));
      var own := ReplaceOperand(cond, p0, b);
      conds := map[];
      var parts := input.parts;
      NoParts(input.place, b, cond, parts, Got(e0));
      hide NeedOf;
      for n := 0 to |parts|
        invariant Ok() && OnlyTraffic(e0, Snap(), {b}) && Launches(input.parts, old(launched), launched)
        invariant Got(Snap()) == Plus(Got(e0), BroadcastNeeds(input.place, b, cond, parts[..n]))
        invariant OperandOk(input.place, PlanOf(Snap()), BlockAt(input.fn, b), p0, Have(Snap(), p0, b), cond, own)
        invariant forall q | q in parts[..n] :: q in conds && ReadsOn(input, Snap(), b, q, cond, conds[q])
      {
        var q := parts[n];
        ghost var e := Snap();
        assert parts[..n + 1] == parts[..n] + [q];
        BroadcastNext(input.place, b, cond, parts, n);
        MoreNeeded(Got(e0), BroadcastNeeds(input.place, b, cond, parts[..n]), NeedOf(input.place, b, cond, q));
        NoneNeeded(Got(e));
        if q != p0 {
          TrafficGrows(e0, e, {b});
          AvailableStays(input, e0, e, b, cond);
          var t := FetchIncoming(cond, q, b);
          MoreTraffic(e0, e, Snap(), {b});
          forall a | a in parts[..n] ensures ReadsOn(input, Snap(), b, a, cond, conds[a])
          {
            OperandStays(input, e, Snap(), a, b, cond, conds[a]);
          }
          OperandStays(input, e, Snap(), p0, b, cond, own);
          conds := conds[q := t];
        } else {
          conds := conds[q := own];
        }
      }
      assert parts[..|parts|] == parts;
    }

    method RepairBranches(sorted: seq<BlockId>) returns (ok: bool)
      requires Ok() && InputOk(input) && AllEmitted(input, Snap()) && DominanceOrder(input.fn, sorted)
      requires forall b :: 0 <= b < |input.fn.blocks| ==> PhisFilled(input, Snap(), b)
      modifies this
      ensures ok <==> BranchesOnCores(input.fn)
      ensures ok ==> Ok() && forall b :: 0 <= b < |input.fn.blocks| ==>
        Built(input, Snap(), b) && ClosedBlock(input, Snap(), b) && PhisFilled(input, Snap(), b)
      ensures ok ==>
        Got(Snap()) ==
        Plus(Got(old(Snap())), SumOver(UpTo(|input.fn.blocks|), BranchesOf(input.fn, input.place, input.parts)))
      ensures Launches(input.parts, old(launched), launched)
    {
      hide EmitOk, InputOk, Built, PhisFilled, OpenBlock, ClosedBlock, Grows, Dominates;
      hide Got, Plus, SumOver, UpTo, BroadcastNeeds;
      ghost var needs := BranchesOf(input.fn, input.place, input.parts);
      NoBlocks(sorted, needs, Got(Snap()));
      forall m | 0 <= m < |sorted|
        ensures Built(input, Snap(), sorted[m]) && AwaitsBranch(input, Snap(), sorted[m])
      {
        assert BlockEmitted(input, Snap(), sorted[m]);
      }
      BuiltAll(input, Snap());
      for n := 0 to |sorted|
        invariant Ok() && Launches(input.parts, old(launched), launched)
        invariant Got(Snap()) == Plus(Got(old(Snap())), SumOver(sorted[..n], needs))
        invariant forall b :: 0 <= b < |input.fn.blocks| ==> Built(input, Snap(), b) && PhisFilled(input, Snap(), b)
        invariant forall m :: 0 <= m < n ==>
          ClosedBlock(input, Snap(), sorted[m]) && HasCore(BlockAt(input.fn, sorted[m]).term)
        invariant forall m :: n <= m < |sorted| ==> AwaitsBranch(input, Snap(), sorted[m])
      {
        var b := sorted[n];
        assert AwaitsBranch(input, Snap(), sorted[n]);
        if !HasCore(BlockAt(input.fn, b).term) {
          return false;
        }
        BlocksNext(sorted, n, needs);
        MoreNeeded(Got(old(Snap())), SumOver(sorted[..n], needs), needs(b));
        NoneNeeded(Got(Snap()));
        if !BlockAt(input.fn, b).term.Ret? {
          ghost var e := Snap();
          RepairBranch(b);
          forall d | 0 <= d < |input.fn.blocks| ensures PhisFilled(input, Snap(), d) {
            PhisStay(input, e, Snap(), d);
          }
          forall m | 0 <= m < |sorted| && m != n
            ensures m < n ==> ClosedBlock(input, Snap(), sorted[m])
            ensures m > n ==> AwaitsBranch(input, Snap(), sorted[m])
          {
            EndsStay(input, e, Snap(), sorted[m]);
          }
        }
      }
      assert sorted[..|sorted|] == sorted;
      SumOfAll(sorted, |input.fn.blocks|, needs);
      forall b | 0 <= b < |input.fn.blocks| ensures ClosedBlock(input, Snap(), b) && HasCore(input.fn.blocks[b].term) {
        assert b in sorted;
        var m :| 0 <= m < |sorted| && sorted[m] == b;
      }
      ok := true;
    }

    /** The module written out at the end. */
    method Program() returns (tgt: Target)
      ensures tgt == ProgramOf(input, Snap())
    {
      tgt := Target(
        input.parts, ClonesOf(input, phiOrder, incoming, code), prologue, hostSends, input.fn.returnsValue);
    }
  }

  // ---------- A whole emission ----------

  predicate Ascending(s: seq<Part>) {
    forall i, j :: 0 <= i < j < |s| ==> s[i] < s[j]
  }

  function InsertPart(s: seq<Part>, p: Part): seq<Part> {
    if s == [] || p < s[0] then [p] + s
    else if p == s[0] then s
    else [s[0]] + InsertPart(s[1..], p)
  }

  lemma AscendingPrepend(x: Part, rest: seq<Part>)
    requires Ascending(rest) && forall q :: q in rest ==> x < q
    ensures Ascending([x] + rest)
  {
    var s := [x] + rest;
    forall i, j | 0 <= i < j < |s| ensures s[i] < s[j] {
      assert s[j] == rest[j - 1] && rest[j - 1] in rest;
    }
  }

  lemma AscendingRest(s: seq<Part>)
    requires Ascending(s) && s != []
    ensures Ascending(s[1..]) && (forall q :: q in s[1..] ==>
      s[0] < q) && (forall q :: q in s <==> q == s[0] || q in s[1..])
  {
    assert s == [s[0]] + s[1..];
    forall q | q in s[1..] ensures s[0] < q {
      var k :| 0 <= k < |s[1..]| && s[1..][k] == q;
      assert s[k + 1] == q;
    }
  }

  lemma {:induction false} InsertPartSpec(s: seq<Part>, p: Part)
    requires Ascending(s)
    ensures Ascending(InsertPart(s, p)) && forall q :: q in InsertPart(s, p) <==> q in s || q == p
  {
    if s == [] {
    } else {
      AscendingRest(s);
      if p < s[0] {
        AscendingPrepend(p, s);
      } else if p != s[0] {
        InsertPartSpec(s[1..], p);
        AscendingPrepend(s[0], InsertPart(s[1..], p));
      }
    }
  }

  /** The cores that hold at least one instruction, in ascending order. */
  method NonemptyPartitions(place: Placement) returns (parts: seq<Part>)
    ensures Ascending(parts) && forall p :: p in parts <==> p in place.Values
  {
    parts := [];
    var rest := place.Keys;
    while rest != {}
      invariant rest <= place.Keys && Ascending(parts)
      invariant forall id :: id in place.Keys - rest ==> place[id] in parts
      invariant forall p :: p in parts ==> p in place.Values
      decreases |rest|
    {
      var id :| id in rest;
      assert place[id] in place.Values;
      hide Ascending, InsertPart;
      InsertPartSpec(parts, place[id]);
      parts := InsertPart(parts, place[id]);
      rest := rest - {id};
    }
  }

  predicate BlockPlaced(blk: Block, place: Placement) {
    && (forall k :: 0 <= k < |blk.phis| ==> blk.phis[k].id in place)
    && (forall k :: 0 <= k < |blk.body| ==> blk.body[k].id in place)
    && (blk.term.Ret? ==> blk.term.id in place)
  }

  /** Every instruction but the branches has a core. */
  predicate FullyPlaced(fn: Function, place: Placement) {
    forall b :: 0 <= b < |fn.blocks| ==> BlockPlaced(fn.blocks[b], place)
  }

  predicate MemoryOnCoreZero(fn: Function, place: Placement) {
    forall b, k | 0 <= b < |fn.blocks| && 0 <= k < |fn.blocks[b].body| ::
      var inst := fn.blocks[b].body[k]; inst.mem && inst.id in place ==> place[inst.id] == 0
  }

  /**
   Emission gets to its end: no unreachable block, no instruction without a core, no constant
   returned, no branch on a constant or an argument.
   */
  ghost predicate Emittable(fn: Function, place: Placement) {
    && (forall b :: 0 <= b < |fn.blocks| ==> Reachable(GraphOf(fn), b))
    && FullyPlaced(fn, place)
    && ReturnsSendable(fn)
    && BranchesOnCores(fn)
  }

  predicate IsInstruction(fn: Function, id: Id) {
    exists b | 0 <= b < |fn.blocks| ::
      Defines(fn.blocks[b], id) || (fn.blocks[b].term.Ret? && fn.blocks[b].term.id == id)
  }

  lemma GraphIsValid(fn: Function)
    requires Shape(fn)
    ensures ValidGraph(GraphOf(fn))
  {
    hide UniqueIds;
    forall n: nat, m | n < |GraphOf(fn)| && m in GraphOf(fn)[n] ensures m < |GraphOf(fn)| {
      assert GraphOf(fn)[n] == Successors(fn.blocks[n].term);
      assert BlockShape(fn, n);
    }
  }

  lemma DefinedIsPlaced(i: Input, b: BlockId, id: Id)
    requires FullyPlaced(i.fn, i.place) && Defines(BlockAt(i.fn, b), id)
    ensures id in i.place
  {
    assert b < |i.fn.blocks| && BlockPlaced(i.fn.blocks[b], i.place);
  }

  lemma InputIsOk(i: Input)
    requires Shape(i.fn) && MemoryOnCoreZero(i.fn, i.place) && FullyPlaced(i.fn, i.place)
    requires Ascending(i.parts) && forall p :: p in i.parts <==> p in i.place.Values
    ensures InputOk(i)
  {
    hide Shape, Defines;
    forall id | id in i.place ensures i.place[id] in i.parts {
      var p := i.place[id];
      assert p in i.place.Values;
    }
    forall b: BlockId, id | Defines(BlockAt(i.fn, b), id) ensures id in i.place {
      DefinedIsPlaced(i, b, id);
    }
    forall b | 0 <= b < |i.fn.blocks| && i.fn.blocks[b].term.Ret? ensures i.fn.blocks[b].term.id in i.place {
      assert BlockPlaced(i.fn.blocks[b], i.place);
    }
    forall b, k | 0 <= b < |i.fn.blocks| && 0 <= k < |i.fn.blocks[b].body| && i.fn.blocks[b].body[k].mem
      ensures i.fn.blocks[b].body[k].id in i.place && i.place[i.fn.blocks[b].body[k].id] == 0
    {
      assert BlockPlaced(i.fn.blocks[b], i.place);
    }
  }

  lemma OrderIsDominance(fn: Function)
    requires Shape(fn) && ValidGraph(GraphOf(fn)) && SortBlocks(GraphOf(fn)).Success?
    ensures DominanceOrder(fn, SortBlocks(GraphOf(fn)).value)
  {
    hide Shape, SortBlocks, Dominates;
    SortBlocksSpec(GraphOf(fn));
  }

  lemma PartsLaunched(i: Input, launched: set<Part>)
    requires forall b :: 0 <= b < |i.fn.blocks| ==> BlockLaunched(i, launched, b)
    requires forall id :: id in i.place ==> IsInstruction(i.fn, id)
    requires forall p :: p in i.parts <==> p in i.place.Values
    ensures forall p :: p in i.parts ==> p in launched
  {
    hide Defines;
    forall p | p in i.parts ensures p in launched {
      var id :| id in i.place && i.place[id] == p;
      assert IsInstruction(i.fn, id);
      var b :| 0 <= b < |i.fn.blocks| &&
        (Defines(i.fn.blocks[b], id) || (i.fn.blocks[b].term.Ret? && i.fn.blocks[b].term.id == id));
      assert BlockLaunched(i, launched, b);
    }
  }

  /**
   The clones of `fn` for the cores of `place`, and the cores that the host will launch.
   `plan` records the mailboxes and the order of appends.
   */
  method EmitLlvm(fn: Function, place: Placement) returns (r: Result<Target>, launched: set<Part>, ghost plan: Plan)
    requires Shape(fn) && UsesDominated(fn) && MemoryOnCoreZero(fn, place)
    ensures r.Success? <==> Emittable(fn, place)
    ensures r.Success? ==> Ascending(r.value.parts) && forall p :: p in r.value.parts <==> p in place.Values
    ensures r.Success? ==> Translates(fn, place, r.value, plan) && Exact(fn, place, r.value, plan)
    ensures r.Success? && place != map[] ==> (Implements(fn, place, r.value, plan) <==> RepeatsLocal(fn, place))
    ensures r.Success? && (forall id :: id in place ==> IsInstruction(fn, id)) ==>
      forall p :: p in r.value.parts ==> p in launched
    ensures r.Success? ==> forall p :: p in launched ==> p in r.value.parts
  {
    hide Shape, UsesDominated, MemoryOnCoreZero, ReturnsSendable, BranchesOnCores;
    hide IsInstruction, Implements, Translates, Exact, EmitOk, InputOk, Got, Plus, SumOver;
    hide AllEmitted, PhisFilled, PhisEmpty, BlockLaunched, Built, ClosedBlock, ProgramOf, Reachable, GraphOf;
    r, launched, plan := Failure, {}, Plan(map[], map[], []);
    GraphIsValid(fn);
    var graph := GraphOf(fn);
    SortBlocksSpec(graph);
    GraphSize(fn);
    hide SortBlocks;
    var sorted := SortBlocks(graph);
    if sorted.Failure? || !FullyPlaced(fn, place) {
      return;
    }
    OrderIsDominance(fn);
    hide FullyPlaced, DominanceOrder;
    var parts := NonemptyPartitions(place);
    var emitter := new Emitter(fn, place, parts);
    InputIsOk(emitter.input);
    var ok := emitter.EmitStraightline(sorted.value);
    if !ok {
      return;
    }
    ghost var launchedFirst := emitter.launched;
    emitter.RepairPhis(sorted.value);
    ok := emitter.RepairBranches(sorted.value);
    launched := emitter.launched;
    if !ok {
      return;
    }
    plan := PlanOf(emitter.Snap());
    AllNeeded(emitter.input, Got(emitter.Snap()));
    CompleteIsExact(emitter.input, emitter.Snap());
    if place != map[] {
      CoresExist(place, parts);
      CompleteImplements(emitter.input, emitter.Snap());
    }
    if forall id :: id in place ==> IsInstruction(fn, id) {
      forall b | 0 <= b < |fn.blocks| ensures BlockLaunched(emitter.input, launched, b) {
        LaunchedStays(emitter.input, launchedFirst, launched, b);
      }
      PartsLaunched(emitter.input, launched);
    }
    var tgt := emitter.Program();
    ProgramParts(emitter.input, emitter.Snap());
    r := Success(tgt);
  }

  lemma AllNeeded(i: Input, got: Needs)
    requires var blocks := UpTo(|i.fn.blocks|);
      got ==
      Plus(
        Plus(Plus(NOTHING, SumOver(blocks, StraightOf(i.fn, i.place))), SumOver(blocks, PhisOf(i.fn, i.place))),
        SumOver(blocks, BranchesOf(i.fn, i.place, i.parts)))
    ensures got == FunctionNeeds(i.fn, i.place, i.parts)
  {
    hide SumOver;
  }

  lemma GraphSize(fn: Function)
    requires Shape(fn)
    ensures |GraphOf(fn)| == |fn.blocks| > 0
  {
  }

  lemma CoresExist(place: Placement, parts: seq<Part>)
    requires place != map[] && forall p :: p in parts <==> p in place.Values
    ensures |parts| > 0
  {
    var id :| id in place;
    var p := place[id];
    assert p in place.Values;
    assert p in parts;
  }

  lemma ProgramParts(i: Input, e: Emitted)
    ensures ProgramOf(i, e).parts == i.parts
  {
  }
}
