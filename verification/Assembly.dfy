/**
 The finished program of an emission, and the proof that it is a faithful partitioning.
 */
module Assembly {
  import opened Source
  import opened Target
  import opened Projection
  import opened Correspondence
  import opened Demand
  import opened Emission
  import opened Passes

  function PhiNodes(order: seq<Id>, incoming: map<Id, seq<(BlockId, TOp)>>): (r: seq<TPhi>)
    ensures |r| == |order|
    ensures forall k :: 0 <= k < |order| ==> r[k].id == order[k]
  {
    seq(|order|, k requires 0 <= k < |order| => TPhi(order[k], if order[k] in incoming then incoming[order[k]] else []))
  }

  /** The clones as the builders hold them. */
  function ClonesOf(i: Input, phiOrder: map<(Part, BlockId), seq<Id>>, incoming: map<Id, seq<(BlockId, TOp)>>,
                    code: map<(Part, BlockId), seq<TInst>>): map<(Part, BlockId), TBlock>
  {
    map p, b | p in i.parts && 0 <= b < |i.fn.blocks| ::
      (p, b) := TBlock(
        PhiNodes(if (p, b) in phiOrder then phiOrder[(p, b)] else [], incoming),
        if (p, b) in code then code[(p, b)] else [])
  }

  function ProgramOf(i: Input, e: Emitted): Target {
    Target(i.parts, ClonesOf(i, e.phiOrder, e.incoming, e.code), e.prologue, e.hostSends, i.fn.returnsValue)
  }

  /** Every block is built, ends in its terminators, and has its phis filled. */
  ghost predicate Complete(i: Input, e: Emitted) {
    forall b :: 0 <= b < |i.fn.blocks| ==> Built(i, e, b) && ClosedBlock(i, e, b) && PhisFilled(i, e, b)
  }

  lemma CodeIsHave(i: Input, e: Emitted, p: Part, b: BlockId)
    requires CodeFollowsLogs(i, e) && p in i.parts && b < |i.fn.blocks|
    ensures CodeOf(ProgramOf(i, e), p, b) == Have(e, p, b) == Project(LogOf(PlanOf(e), b), p)
  {
  }

  lemma ClonesAreComplete(i: Input, e: Emitted)
    requires CodeFollowsLogs(i, e) && InputOk(i) && Complete(i, e)
    ensures ClonesComplete(i.fn, i.place, ProgramOf(i, e))
  {
    hide InputOk, CodeFollowsLogs, CodeOf, Have, Clones, ClonedIds, MemClones;
    forall b, k | 0 <= b < |i.fn.blocks| && 0 <= k < |i.fn.blocks[b].body|
      ensures var id := i.fn.blocks[b].body[k].id;
        id in i.place && id in Clones(CodeOf(ProgramOf(i, e), i.place[id], b))
    {
      BodyPlaced(i, b, k);
      assert Built(i, e, b);
      CodeIsHave(i, e, i.place[i.fn.blocks[b].body[k].id], b);
    }
  }

  lemma ClonesAreInOrder(i: Input, e: Emitted)
    requires CodeFollowsLogs(i, e) && Complete(i, e)
    ensures ClonesInOrder(i.fn, i.place, ProgramOf(i, e))
    ensures forall p, b :: p in i.parts && 0 <= b < |i.fn.blocks| ==> Terminated(CodeOf(ProgramOf(i, e), p, b))
  {
    hide CodeFollowsLogs, CodeOf, Have, Clones, ClonedIds, MemClones, PlacedOn, PhisFilled, Terminated;
    forall p, b | p in i.parts && 0 <= b < |i.fn.blocks|
      ensures ClonedIds(CodeOf(ProgramOf(i, e), p, b)) == PlacedOn(i.fn.blocks[b].body, i.place, p)
      ensures Terminated(CodeOf(ProgramOf(i, e), p, b))
    {
      assert Built(i, e, b) && ClosedBlock(i, e, b);
      CodeIsHave(i, e, p, b);
      assert i.fn.blocks[b].body[..|i.fn.blocks[b].body|] == i.fn.blocks[b].body;
    }
  }

  lemma ReturnsAreSent(i: Input, e: Emitted)
    requires CodeFollowsLogs(i, e) && InputOk(i) && Complete(i, e)
    ensures ReturnsSent(i.fn, i.place, ProgramOf(i, e))
  {
    hide InputOk, CodeFollowsLogs, CodeOf, Have, Returns;
    forall b | 0 <= b < |i.fn.blocks| && i.fn.blocks[b].term.Ret?
      ensures var term := i.fn.blocks[b].term;
        term.id in i.place && (term.value.Some? ==> Returns(CodeOf(ProgramOf(i, e), i.place[term.id], b)) == 1)
    {
      ReturnPlaced(i, b);
      assert Built(i, e, b);
      CodeIsHave(i, e, i.place[i.fn.blocks[b].term.id], b);
    }
  }

  lemma ChannelsMatch(i: Input, e: Emitted)
    requires CodeFollowsLogs(i, e) && CommsPaired(i, e)
    ensures ChansMatched(i.fn, ProgramOf(i, e), PlanOf(e))
  {
    hide CodeFollowsLogs, CodeOf, Have, Sends, Receives;
    forall c | c in e.comms
      ensures var ch := e.comms[c];
        && c in Sends(CodeOf(ProgramOf(i, e), ch.from, ch.block))
        && c in Receives(CodeOf(ProgramOf(i, e), ch.to, ch.block))
    {
      CodeIsHave(i, e, e.comms[c].from, e.comms[c].block);
      CodeIsHave(i, e, e.comms[c].to, e.comms[c].block);
    }
  }

  lemma ArgumentsMatch(i: Input, e: Emitted)
    requires ArgsPaired(i, e)
    ensures ArgsMatched(i.fn, ProgramOf(i, e), PlanOf(e))
  {
  }

  /** `PhisOn` keeps the phis of one core, each once. */
  lemma {:induction false} PhisOnSpec(phis: seq<Phi>, place: Placement, p: Part)
    requires forall k, j :: 0 <= k < j < |phis| ==> phis[k].id != phis[j].id
    ensures var r := PhisOn(phis, place, p);
      && (forall x :: x in r ==> exists k :: 0 <= k < |phis| && phis[k].id == x && x in place && place[x] == p)
      && (forall k :: 0 <= k < |phis| && phis[k].id in place && place[phis[k].id] == p ==> phis[k].id in r)
      && (forall a, b :: 0 <= a < b < |r| ==> r[a] != r[b])
  {
    if phis != [] {
      var n := |phis| - 1;
      PhisOnSpec(phis[..n], place, p);
      assert forall k :: 0 <= k < n ==> phis[..n][k] == phis[k];
      var before := PhisOn(phis[..n], place, p);
      assert PhisOn(phis, place, p) == before + OwnPhi(phis[n].id, place, p);
      hide PhisOn;
      forall a | 0 <= a < |before| ensures before[a] != phis[n].id {
        assert before[a] in before;
      }
      assert phis[n].id in place && place[phis[n].id] == p ==> (before + [phis[n].id])[|before|] == phis[n].id;
    }
  }

  /** Repaired entries for one predecessor agree exactly if they need no mailbox: two mailboxes give two values. */
  lemma EntriesAgree(i: Input, e: Emitted, p: Part, phi: Phi, ts: seq<(BlockId, TOp)>)
    requires phi.id in i.place && i.place[phi.id] == p
    requires EntriesFilled(i, e, p, phi.incoming, ts) && OneValuePerPred(phi.incoming)
    ensures OneValuePerPred(ts) <==> PhiRepeatsLocal(i.place, phi)
  {
    hide Have, RefOk;
    forall j, k | 0 <= j < k < |ts| && ts[j].0 == ts[k].0
      ensures ts[j].1 == ts[k].1 <==> ReadsLocally(i.place, phi.id, phi.incoming[j].1)
    {
      assert EntryFilled(i, e, p, phi.incoming[j], ts[j]) && EntryFilled(i, e, p, phi.incoming[k], ts[k]);
      assert SourceOf(i, p, phi.incoming[j].1, ts[j].1) && SourceOf(i, p, phi.incoming[k].1, ts[k].1);
    }
    forall j, k | 0 <= j < k < |ts| && phi.incoming[j].0 == phi.incoming[k].0 ensures ts[j].0 == ts[k].0 {
      assert EntryFilled(i, e, p, phi.incoming[j], ts[j]) && EntryFilled(i, e, p, phi.incoming[k], ts[k]);
    }
    hide EntriesFilled, ReadsLocally;
  }

  lemma PhiEntriesAgree(i: Input, b: BlockId, k: nat)
    requires InputOk(i) && b < |i.fn.blocks| && k < |BlockAt(i.fn, b).phis|
    ensures OneValuePerPred(BlockAt(i.fn, b).phis[k].incoming)
  {
    hide Placed, UniqueIds;
    assert BlockShape(i.fn, b);
  }

  /** A repaired phi is the clone of its source phi. */
  lemma NodeOk(i: Input, e: Emitted, p: Part, b: BlockId, k: nat, node: TPhi)
    requires CodeFollowsLogs(i, e) && InputOk(i) && p in i.parts && b < |i.fn.blocks|
    requires k < |BlockAt(i.fn, b).phis| && PhisFilled(i, e, b)
    requires var id := BlockAt(i.fn, b).phis[k].id;
      i.place[id] == p && node == TPhi(id, e.incoming[id])
    ensures PhiTakes(i.fn, i.place, ProgramOf(i, e), PlanOf(e), p, node, BlockAt(i.fn, b).phis[k])
    ensures OneValuePerPred(node.incoming) <==> PhiRepeatsLocal(i.place, BlockAt(i.fn, b).phis[k])
  {
    hide InputOk, CodeFollowsLogs, CodeOf, Have, OperandOk, OneValuePerPred, PhiRepeatsLocal, SourceOf, OwnMailboxes;
    var phi := BlockAt(i.fn, b).phis[k];
    PhiEntriesAgree(i, b, k);
    EntriesAgree(i, e, p, phi, e.incoming[phi.id]);
    assert EntriesFilled(i, e, p, phi.incoming, e.incoming[phi.id]);
    forall j | 0 <= j < |phi.incoming|
      ensures node.incoming[j].0 == phi.incoming[j].0
      ensures OperandOk(i.place, PlanOf(e), BlockAt(i.fn, phi.incoming[j].0), p,
                        CodeOf(ProgramOf(i, e), p, phi.incoming[j].0), phi.incoming[j].1, node.incoming[j].1)
    {
      PhiEntry(i, b, k, j);
      assert EntryFilled(i, e, p, phi.incoming[j], e.incoming[phi.id][j]);
      CodeIsHave(i, e, p, phi.incoming[j].0);
    }
  }

  /** Each repaired phi of a clone stands for the source phi it was created for. */
  lemma NodeTakes(i: Input, e: Emitted, p: Part, b: BlockId, a: nat) returns (k: nat)
    requires CodeFollowsLogs(i, e) && InputOk(i) && p in i.parts && b < |i.fn.blocks|
    requires PhisCreated(i, e, b) && PhisFilled(i, e, b) && a < |CloneOf(ProgramOf(i, e), p, b).phis|
    ensures var phis := BlockAt(i.fn, b).phis; var node := CloneOf(ProgramOf(i, e), p, b).phis[a];
      && a < |PhisOn(phis, i.place, p)| && node.id == PhisOn(phis, i.place, p)[a]
      && k < |phis| && PhiTakes(i.fn, i.place, ProgramOf(i, e), PlanOf(e), p, node, phis[k])
      && (OneValuePerPred(node.incoming) <==> PhiRepeatsLocal(i.place, phis[k]))
  {
    hide InputOk, CodeFollowsLogs, EntriesFilled, PhiTakes, PhisOn, PhiRepeatsLocal, OneValuePerPred;
    var phis := BlockAt(i.fn, b).phis;
    var order := PhisOn(phis, i.place, p);
    assert CloneOf(ProgramOf(i, e), p, b).phis == PhiNodes(order, e.incoming);
    PhisPlacedOn(i, b, p);
    assert order[a] in order;
    k :| 0 <= k < |phis| && phis[k].id == order[a] && order[a] in i.place && i.place[order[a]] == p;
    NodeOk(i, e, p, b, k, CloneOf(ProgramOf(i, e), p, b).phis[a]);
  }

  lemma PhisPlacedOn(i: Input, b: BlockId, p: Part)
    requires InputOk(i) && b < |i.fn.blocks|
    ensures var phis := BlockAt(i.fn, b).phis; var r := PhisOn(phis, i.place, p);
      && (forall x :: x in r ==> exists k :: 0 <= k < |phis| && phis[k].id == x && x in i.place && i.place[x] == p)
      && (forall k :: 0 <= k < |phis| && phis[k].id in i.place && i.place[phis[k].id] == p ==> phis[k].id in r)
      && (forall a, c :: 0 <= a < c < |r| ==> r[a] != r[c])
  {
    hide InputOk, PhisOn;
    var phis := BlockAt(i.fn, b).phis;
    forall k, j | 0 <= k < j < |phis| ensures phis[k].id != phis[j].id {
      PhiIdsDiffer(i, b, k, b, j);
    }
    PhisOnSpec(phis, i.place, p);
  }

  lemma NodesTakeOver(i: Input, e: Emitted, p: Part, b: BlockId)
    requires CodeFollowsLogs(i, e) && InputOk(i) && p in i.parts && b < |i.fn.blocks|
    requires PhisCreated(i, e, b) && PhisFilled(i, e, b)
    ensures var tgt := ProgramOf(i, e);
      PhisTakeOver(i.fn, i.place, tgt, PlanOf(e), p, BlockAt(i.fn, b).phis, CloneOf(tgt, p, b).phis)
  {
    hide InputOk, CodeFollowsLogs, PhisFilled, PhiTakes, PhisOn, PhisCreated, PhiRepeatsLocal, OneValuePerPred;
    hide ProgramOf, PlanOf, CloneOf, BlockAt;
    NodesCounted(i, e, p, b);
    var tgt := ProgramOf(i, e);
    var phis := BlockAt(i.fn, b).phis;
    forall a | 0 <= a < |CloneOf(tgt, p, b).phis|
      ensures CloneOf(tgt, p, b).phis[a].id == PhisOn(phis, i.place, p)[a]
      ensures TakesSomePhi(i.fn, i.place, tgt, PlanOf(e), p, CloneOf(tgt, p, b).phis[a], phis)
    {
      var k := NodeTakes(i, e, p, b, a);
    }
  }

  lemma PhisAreTranslated(i: Input, e: Emitted)
    requires CodeFollowsLogs(i, e) && InputOk(i) && Complete(i, e)
    ensures PhisTranslated(i.fn, i.place, ProgramOf(i, e), PlanOf(e))
  {
    hide InputOk, CodeFollowsLogs, PhisFilled, PhisCreated, PhisTakeOver, Complete;
    forall p, b | p in ProgramOf(i, e).parts && 0 <= b < |i.fn.blocks|
      ensures PhisTakeOver(i.fn, i.place, ProgramOf(i, e), PlanOf(e), p, i.fn.blocks[b].phis,
                           CloneOf(ProgramOf(i, e), p, b).phis)
    {
      BuiltHasPhis(i, e, b);
      NodesTakeOver(i, e, p, b);
    }
  }

  lemma NodesCounted(i: Input, e: Emitted, p: Part, b: BlockId)
    requires PhisCreated(i, e, b) && p in i.parts && b < |i.fn.blocks|
    ensures |CloneOf(ProgramOf(i, e), p, b).phis| == |PhisOn(BlockAt(i.fn, b).phis, i.place, p)|
  {
    hide PhisOn;
  }

  lemma PhisAreOk(i: Input, e: Emitted, p: Part, b: BlockId)
    requires CodeFollowsLogs(i, e) && InputOk(i) && p in i.parts && b < |i.fn.blocks|
    requires PhisCreated(i, e, b) && PhisFilled(i, e, b) && RepeatsLocal(i.fn, i.place)
    ensures PhisOk(i.fn, i.place, ProgramOf(i, e), PlanOf(e), p, b)
  {
    hide InputOk, CodeFollowsLogs, EntriesFilled, PhiTakes, PhisOn, PhiRepeatsLocal, OneValuePerPred;
    var phis := BlockAt(i.fn, b).phis;
    var tgt := ProgramOf(i, e);
    var nodes := CloneOf(tgt, p, b).phis;
    var order := PhisOn(phis, i.place, p);
    assert nodes == PhiNodes(order, e.incoming);
    PhisPlacedOn(i, b, p);
    forall a | 0 <= a < |nodes|
      ensures ClonesSomePhi(i.fn, i.place, tgt, PlanOf(e), p, nodes[a], phis)
    {
      var k := NodeTakes(i, e, p, b, a);
      assert PhiRepeatsLocal(i.place, i.fn.blocks[b].phis[k]);
      assert PhiOk(i.fn, i.place, tgt, PlanOf(e), p, nodes[a], phis[k]);
    }
    forall k | 0 <= k < |phis| ensures phis[k].id in i.place {
      PhiPlaced(i, b, k);
    }
    forall k | 0 <= k < |phis| && i.place[phis[k].id] == p
      ensures exists a :: 0 <= a < |nodes| && nodes[a].id == phis[k].id
    {
      var a :| 0 <= a < |order| && order[a] == phis[k].id;
      assert nodes[a].id == phis[k].id;
    }
  }

  /** A phi clone that is in order says that its source phi's repeats are local. */
  lemma PhisOkAreLocal(i: Input, e: Emitted, b: BlockId, k: nat)
    requires CodeFollowsLogs(i, e) && InputOk(i) && b < |i.fn.blocks| && k < |i.fn.blocks[b].phis|
    requires PhisCreated(i, e, b) && PhisFilled(i, e, b)
    requires forall p :: p in i.parts ==> PhisOk(i.fn, i.place, ProgramOf(i, e), PlanOf(e), p, b)
    ensures PhiRepeatsLocal(i.place, i.fn.blocks[b].phis[k])
  {
    hide InputOk, CodeFollowsLogs, EntriesFilled, PhisOn, PhiRepeatsLocal, OneValuePerPred, OperandOk, CodeOf;
    var phi := i.fn.blocks[b].phis[k];
    PhiPlaced(i, b, k);
    PhiEntriesAgree(i, b, k);
    var p := i.place[phi.id];
    var nodes := CloneOf(ProgramOf(i, e), p, b).phis;
    assert PhisOk(i.fn, i.place, ProgramOf(i, e), PlanOf(e), p, b);
    var a :| 0 <= a < |nodes| && nodes[a].id == phi.id;
    assert ClonesSomePhi(i.fn, i.place, ProgramOf(i, e), PlanOf(e), p, nodes[a], i.fn.blocks[b].phis);
    assert nodes[a].incoming == e.incoming[phi.id];
    EntriesAgree(i, e, p, phi, e.incoming[phi.id]);
  }

  lemma ClonesAreWellFormed(i: Input, e: Emitted)
    requires CodeFollowsLogs(i, e) && InputOk(i) && Complete(i, e) && RepeatsLocal(i.fn, i.place)
    ensures ClonesWellFormed(i.fn, i.place, ProgramOf(i, e), PlanOf(e))
  {
    hide InputOk, CodeFollowsLogs, CodeOf, Have, Terminated;
    hide PhisOk, PhisFilled, BodyEmitted, PhisCreated, ReturnEmitted;
    var tgt := ProgramOf(i, e);
    forall p, b | p in tgt.parts && 0 <= b < |i.fn.blocks|
      ensures Terminated(CodeOf(tgt, p, b)) && PhisOk(i.fn, i.place, tgt, PlanOf(e), p, b)
    {
      assert Built(i, e, b) && ClosedBlock(i, e, b) && PhisFilled(i, e, b);
      CodeIsHave(i, e, p, b);
      PhisAreOk(i, e, p, b);
    }
  }

  /** What the three passes leave has everything the function calls for, once. */
  lemma CompleteIsExact(i: Input, e: Emitted)
    requires EmitOk(i, e) && InputOk(i) && Complete(i, e) && Got(e) == FunctionNeeds(i.fn, i.place, i.parts)
    ensures Translates(i.fn, i.place, ProgramOf(i, e), PlanOf(e))
    ensures Exact(i.fn, i.place, ProgramOf(i, e), PlanOf(e))
  {
    hide Shape, Placed, LogsOk, Have, CodeOf, ClonesComplete, ReturnsSent, ChansMatched, ArgsMatched;
    hide Complete, PhisTranslated, ClonesInOrder, Terminated, FunctionNeeds, MailboxesMatch, Bag;
    var tgt := ProgramOf(i, e);
    ClonesAreComplete(i, e);
    ReturnsAreSent(i, e);
    ChannelsMatch(i, e);
    ArgumentsMatch(i, e);
    ClonesAreInOrder(i, e);
    PhisAreTranslated(i, e);
    BagMatches(PlanOf(e), FunctionNeeds(i.fn, i.place, i.parts), e.commsId);
    forall p, b | p in tgt.parts && 0 <= b < |i.fn.blocks|
      ensures CodeOf(tgt, p, b) == Project(LogOf(PlanOf(e), b), p)
    {
      CodeIsHave(i, e, p, b);
    }
  }

  /**
   It is a faithful partitioning exactly if no phi names a predecessor twice with a value
   of another core.
   */
  lemma CompleteImplements(i: Input, e: Emitted)
    requires EmitOk(i, e) && InputOk(i) && Complete(i, e) && |i.parts| > 0
    requires Translates(i.fn, i.place, ProgramOf(i, e), PlanOf(e))
    ensures Implements(i.fn, i.place, ProgramOf(i, e), PlanOf(e)) <==> RepeatsLocal(i.fn, i.place)
  {
    hide Shape, Placed, Translates, CommsPaired, ArgsPaired, Have, LogsOk;
    hide CodeOf, PhisOk, Built, ClosedBlock, PhisFilled, PhiRepeatsLocal, Terminated;
    var tgt := ProgramOf(i, e);
    if RepeatsLocal(i.fn, i.place) {
      ClonesAreWellFormed(i, e);
    }
    if ClonesWellFormed(i.fn, i.place, tgt, PlanOf(e)) {
      forall b, k | 0 <= b < |i.fn.blocks| && 0 <= k < |i.fn.blocks[b].phis|
        ensures PhiRepeatsLocal(i.place, i.fn.blocks[b].phis[k])
      {
        BuiltHasPhis(i, e, b);
        PhisOkAreLocal(i, e, b, k);
      }
    }
  }

  lemma BuiltHasPhis(i: Input, e: Emitted, b: BlockId)
    requires Complete(i, e) && b < |i.fn.blocks|
    ensures PhisCreated(i, e, b) && PhisFilled(i, e, b)
  {
    hide PhisFilled, PhisCreated, BodyEmitted, ReturnEmitted, ClosedBlock;
    assert Built(i, e, b);
  }
}
