/**
 Which mailboxes an exact program has: those of the operands that are used on another core
 than they are defined on.
 */
module Traffic {
  import opened Common
  import opened Source
  import opened Target
  import opened Correspondence
  import opened Demand

  /** Operand `op` is read on core `p` in the clones of block `b`. */
  ghost predicate UsedAt(fn: Function, place: Placement, parts: seq<Part>, b: BlockId, op: Operand, p: Part) {
    || (b < |fn.blocks| && UsedByBody(fn.blocks[b].body, place, op, p))
    || (b < |fn.blocks| && UsedByReturn(fn.blocks[b].term, place, op, p))
    || (exists c :: 0 <= c < |fn.blocks| && UsedByPhis(fn.blocks[c].phis, place, b, op, p))
    || (b < |fn.blocks| && UsedByBranch(fn.blocks[b].term, parts, op, p))
  }

  ghost predicate UsedByBody(body: seq<Inst>, place: Placement, op: Operand, p: Part) {
    exists k :: 0 <= k < |body| && op in body[k].args && CoreOf(place, body[k].id) == p
  }

  predicate UsedByReturn(term: Term, place: Placement, op: Operand, p: Part) {
    term.Ret? && term.value == Some(op) && CoreOf(place, term.id) == p
  }

  /** A phi reads what it takes from `b` at the end of `b`. */
  ghost predicate UsedByPhis(phis: seq<Phi>, place: Placement, b: BlockId, op: Operand, p: Part) {
    exists k :: 0 <= k < |phis| && (b, op) in phis[k].incoming && CoreOf(place, phis[k].id) == p
  }

  predicate UsedByBranch(term: Term, parts: seq<Part>, op: Operand, p: Part) {
    term.CondBr? && term.cond == op && p in parts
  }

  // ---------- What is needed is what is used ----------

  datatype Item = Mailbox(chan: Chan) | Argument(part: Part, index: nat)

  predicate Wants(needs: Needs, x: Item) {
    match x
    case Mailbox(ch) => ch in needs.chans
    case Argument(p, k) => (p, k) in needs.args
  }

  /** Reading `op` on `p` in the clones of `b` takes `x`. */
  predicate Takes(place: Placement, b: BlockId, op: Operand, p: Part, x: Item) {
    Wants(NeedOf(place, b, op, p), x)
  }

  lemma WantsEither(n: Needs, m: Needs, x: Item)
    ensures Wants(Plus(n, m), x) <==> Wants(n, x) || Wants(m, x)
  {
  }

  lemma {:induction false} OperandsWant(place: Placement, b: BlockId, ops: seq<Operand>, to: Part, x: Item)
    ensures Wants(OperandsNeed(place, b, ops, to), x) <==> exists op :: op in ops && Takes(place, b, op, to, x)
  {
    if ops != [] {
      var n := |ops| - 1;
      assert ops == ops[..n] + [ops[n]];
      OperandsWant(place, b, ops[..n], to, x);
      WantsEither(OperandsNeed(place, b, ops[..n], to), NeedOf(place, b, ops[n], to), x);
      hide Wants;
      assert Takes(place, b, ops[n], to, x) <==> Wants(NeedOf(place, b, ops[n], to), x);
    }
  }

  lemma {:induction false} BodyWants(place: Placement, b: BlockId, body: seq<Inst>, x: Item)
    ensures Wants(InstsNeed(place, b, body), x) <==>
      exists op, p :: UsedByBody(body, place, op, p) && Takes(place, b, op, p, x)
  {
    if body != [] {
      var n := |body| - 1;
      var last := body[n];
      var to := CoreOf(place, last.id);
      BodyWants(place, b, body[..n], x);
      OperandsWant(place, b, last.args, to, x);
      WantsEither(InstsNeed(place, b, body[..n]), OperandsNeed(place, b, last.args, to), x);
      hide Wants, Takes, OperandsNeed;
      forall op, p ensures UsedByBody(body, place, op, p) <==>
        UsedByBody(body[..n], place, op, p) || (op in last.args && p == to)
      {
        UsedByMore(body, place, op, p);
      }
    }
  }

  lemma UsedByMore(body: seq<Inst>, place: Placement, op: Operand, p: Part)
    requires body != []
    ensures var n := |body| - 1;
      UsedByBody(body, place, op, p) <==>
      UsedByBody(body[..n], place, op, p) || (op in body[n].args && p == CoreOf(place, body[n].id))
  {
    var n := |body| - 1;
    assert forall k :: 0 <= k < n ==> body[..n][k] == body[k];
  }

  lemma {:induction false} EntriesWant(place: Placement, entries: seq<(BlockId, Operand)>, to: Part, x: Item)
    ensures Wants(EntriesNeed(place, entries, to), x) <==>
      exists b: BlockId, op :: (b, op) in entries && Takes(place, b, op, to, x)
  {
    if entries != [] {
      var n := |entries| - 1;
      assert entries == entries[..n] + [entries[n]];
      EntriesWant(place, entries[..n], to, x);
      WantsEither(EntriesNeed(place, entries[..n], to), NeedOf(place, entries[n].0, entries[n].1, to), x);
      hide Wants;
      assert Takes(place, entries[n].0, entries[n].1, to, x) <==>
        Wants(NeedOf(place, entries[n].0, entries[n].1, to), x);
      assert (entries[n].0, entries[n].1) == entries[n];
    }
  }

  lemma {:induction false} PhisWant(place: Placement, phis: seq<Phi>, x: Item)
    ensures Wants(PhisNeed(place, phis), x) <==>
      exists b: BlockId, op, p :: UsedByPhis(phis, place, b, op, p) && Takes(place, b, op, p, x)
  {
    if phis != [] {
      var n := |phis| - 1;
      var last := phis[n];
      var to := CoreOf(place, last.id);
      PhisWant(place, phis[..n], x);
      EntriesWant(place, last.incoming, to, x);
      WantsEither(PhisNeed(place, phis[..n]), EntriesNeed(place, last.incoming, to), x);
      hide Wants, Takes, EntriesNeed;
      forall b: BlockId, op, p ensures UsedByPhis(phis, place, b, op, p) <==>
        UsedByPhis(phis[..n], place, b, op, p) || ((b, op) in last.incoming && p == to)
      {
        UsedByMorePhis(phis, place, b, op, p);
      }
    }
  }

  lemma UsedByMorePhis(phis: seq<Phi>, place: Placement, b: BlockId, op: Operand, p: Part)
    requires phis != []
    ensures var n := |phis| - 1;
      UsedByPhis(phis, place, b, op, p) <==>
      UsedByPhis(phis[..n], place, b, op, p) || ((b, op) in phis[n].incoming && p == CoreOf(place, phis[n].id))
  {
    var n := |phis| - 1;
    assert forall k :: 0 <= k < n ==> phis[..n][k] == phis[k];
  }

  lemma {:induction false} BroadcastWants(place: Placement, b: BlockId, cond: Operand, parts: seq<Part>, x: Item)
    ensures Wants(BroadcastNeeds(place, b, cond, parts), x) <==> exists p :: p in parts && Takes(place, b, cond, p, x)
  {
    if parts != [] {
      var n := |parts| - 1;
      assert parts == parts[..n] + [parts[n]];
      BroadcastWants(place, b, cond, parts[..n], x);
      WantsEither(BroadcastNeeds(place, b, cond, parts[..n]), NeedOf(place, b, cond, parts[n]), x);
      hide Wants;
      assert Takes(place, b, cond, parts[n], x) <==> Wants(NeedOf(place, b, cond, parts[n]), x);
    }
  }

  lemma {:induction false} SumWants(blocks: seq<BlockId>, f: BlockId -> Needs, x: Item)
    ensures Wants(SumOver(blocks, f), x) <==> exists b: BlockId :: b in blocks && Wants(f(b), x)
  {
    if blocks != [] {
      var n := |blocks| - 1;
      assert blocks == blocks[..n] + [blocks[n]];
      SumWants(blocks[..n], f, x);
      WantsEither(SumOver(blocks[..n], f), f(blocks[n]), x);
      hide Wants;
    }
  }

  lemma AllWant(n: nat, f: BlockId -> Needs, x: Item)
    ensures Wants(SumOver(UpTo(n), f), x) <==> exists b: BlockId :: b < n && Wants(f(b), x)
  {
    SumWants(UpTo(n), f, x);
    hide Wants, SumOver;
    forall b: BlockId ensures b < n <==> b in UpTo(n) {
      assert b < n ==> UpTo(n)[b] == b;
    }
    if exists b: BlockId :: b < n && Wants(f(b), x) {
      var b: BlockId :| b < n && Wants(f(b), x);
      assert b in UpTo(n);
    }
  }

  lemma StraightWants(place: Placement, b: BlockId, blk: Block, x: Item)
    ensures Wants(StraightNeeds(place, b, blk), x) <==> exists op, p ::
      (UsedByBody(blk.body, place, op, p) || UsedByReturn(blk.term, place, op, p)) && Takes(place, b, op, p, x)
  {
    BodyWants(place, b, blk.body, x);
    WantsEither(InstsNeed(place, b, blk.body), ReturnNeeds(place, b, blk.term), x);
    hide InstsNeed, UsedByBody;
    if blk.term.Ret? && blk.term.value.Some? {
      var op := blk.term.value.value;
      assert UsedByReturn(blk.term, place, op, CoreOf(place, blk.term.id));
      assert Takes(place, b, op, CoreOf(place, blk.term.id), x) <==> Wants(ReturnNeeds(place, b, blk.term), x);
    }
    hide Takes;
  }

  lemma BranchWants(place: Placement, b: BlockId, term: Term, parts: seq<Part>, x: Item)
    ensures Wants(BranchNeeds(place, b, term, parts), x) <==>
      exists op, p :: UsedByBranch(term, parts, op, p) && Takes(place, b, op, p, x)
  {
    if term.CondBr? {
      BroadcastWants(place, b, term.cond, parts, x);
      if Wants(BranchNeeds(place, b, term, parts), x) {
        var p :| p in parts && Takes(place, b, term.cond, p, x);
        assert UsedByBranch(term, parts, term.cond, p) && Takes(place, b, term.cond, p, x);
      }
      forall op, p | UsedByBranch(term, parts, op, p) && Takes(place, b, op, p, x)
        ensures Wants(BranchNeeds(place, b, term, parts), x)
      {
      }
    }
  }

  /** The use of an operand in some block takes `x`. */
  ghost predicate SomeUseTakes(fn: Function, place: Placement, parts: seq<Part>, x: Item) {
    exists b: BlockId, op, p :: UsedAt(fn, place, parts, b, op, p) && Takes(place, b, op, p, x)
  }

  ghost predicate BlockWantsIt(fn: Function, place: Placement, parts: seq<Part>, b: BlockId, x: Item) {
    || Wants(StraightOf(fn, place)(b), x)
    || Wants(PhisOf(fn, place)(b), x)
    || Wants(BranchesOf(fn, place, parts)(b), x)
  }

  lemma BlockWants(fn: Function, place: Placement, parts: seq<Part>, b: BlockId, x: Item)
    requires b < |fn.blocks|
    requires BlockWantsIt(fn, place, parts, b, x)
    ensures SomeUseTakes(fn, place, parts, x)
  {
    var blk := fn.blocks[b];
    StraightWants(place, b, blk, x);
    PhisWant(place, blk.phis, x);
    BranchWants(place, b, blk.term, parts, x);
    hide Wants, Takes, UsedByBody, UsedByPhis, UsedByReturn, UsedByBranch, StraightNeeds, PhisNeed, BranchNeeds;
    if Wants(PhisOf(fn, place)(b), x) {
      var a: BlockId, op, p :| UsedByPhis(blk.phis, place, a, op, p) && Takes(place, a, op, p, x);
      assert UsedAt(fn, place, parts, a, op, p);
    } else if Wants(StraightOf(fn, place)(b), x) {
      var op, p :|
        (UsedByBody(blk.body, place, op, p) || UsedByReturn(blk.term, place, op, p)) && Takes(place, b, op, p, x);
      assert UsedAt(fn, place, parts, b, op, p);
    } else {
      var op, p :| UsedByBranch(blk.term, parts, op, p) && Takes(place, b, op, p, x);
      assert UsedAt(fn, place, parts, b, op, p);
    }
  }

  lemma UseIsWanted(fn: Function, place: Placement, parts: seq<Part>, b: BlockId, op: Operand, p: Part, x: Item)
    returns (c: BlockId)
    requires UsedAt(fn, place, parts, b, op, p) && Takes(place, b, op, p, x)
    ensures c < |fn.blocks|
    ensures BlockWantsIt(fn, place, parts, c, x)
  {
    hide Wants, Takes, UsedByBody, UsedByPhis, UsedByReturn, UsedByBranch, StraightNeeds, PhisNeed, BranchNeeds;
    if exists d :: 0 <= d < |fn.blocks| && UsedByPhis(fn.blocks[d].phis, place, b, op, p) {
      var d :| 0 <= d < |fn.blocks| && UsedByPhis(fn.blocks[d].phis, place, b, op, p);
      c := d;
      PhisWant(place, fn.blocks[c].phis, x);
    } else {
      c := b;
      StraightWants(place, b, fn.blocks[b], x);
      BranchWants(place, b, fn.blocks[b].term, parts, x);
    }
  }

  lemma SomeUse(fn: Function, place: Placement, parts: seq<Part>, x: Item) returns (c: BlockId)
    requires SomeUseTakes(fn, place, parts, x)
    ensures c < |fn.blocks|
    ensures BlockWantsIt(fn, place, parts, c, x)
  {
    hide UsedAt, Takes, Wants;
    var b: BlockId, op, p :| UsedAt(fn, place, parts, b, op, p) && Takes(place, b, op, p, x);
    c := UseIsWanted(fn, place, parts, b, op, p, x);
  }

  /** Something is called for exactly if the use of some operand takes it. */
  lemma NeedsAreUses(fn: Function, place: Placement, parts: seq<Part>, x: Item)
    ensures Wants(FunctionNeeds(fn, place, parts), x) <==> SomeUseTakes(fn, place, parts, x)
  {
    hide SumOver, Wants, Takes, UsedAt, SomeUseTakes, StraightNeeds, PhisNeed, BranchNeeds;
    var n := |fn.blocks|;
    var straight, phis, branches := StraightOf(fn, place), PhisOf(fn, place), BranchesOf(fn, place, parts);
    var one, two, three := SumOver(UpTo(n), straight), SumOver(UpTo(n), phis), SumOver(UpTo(n), branches);
    WantsEither(Plus(one, two), three, x);
    WantsEither(one, two, x);
    AllWant(n, straight, x);
    AllWant(n, phis, x);
    AllWant(n, branches, x);
    if Wants(FunctionNeeds(fn, place, parts), x) {
      var b: BlockId :| b < n && (Wants(straight(b), x) || Wants(phis(b), x) || Wants(branches(b), x));
      BlockWants(fn, place, parts, b, x);
    }
    if SomeUseTakes(fn, place, parts, x) {
      var c := SomeUse(fn, place, parts, x);
    }
  }

  // ---------- The mailboxes of a program ----------

  lemma TakesMailbox(fn: Function, place: Placement, parts: seq<Part>, ch: Chan)
    ensures SomeUseTakes(fn, place, parts, Mailbox(ch)) <==>
      && ch.src in place && place[ch.src] == ch.from != ch.to
      && UsedAt(fn, place, parts, ch.block, Ref(ch.src), ch.to)
  {
    hide UsedAt;
    forall b: BlockId, op, p ensures Takes(place, b, op, p, Mailbox(ch)) <==>
      ch == Chan(b, ch.from, p, ch.src) && op == Ref(ch.src) && ch.src in place && place[ch.src] == ch.from != p
    {
    }
    hide Takes;
  }

  lemma TakesArgument(fn: Function, place: Placement, parts: seq<Part>, p: Part, k: nat)
    ensures SomeUseTakes(fn, place, parts, Argument(p, k)) <==>
      exists b: BlockId :: UsedAt(fn, place, parts, b, Arg(k), p)
  {
    hide UsedAt;
    forall b: BlockId, op, q ensures Takes(place, b, op, q, Argument(p, k)) <==> op == Arg(k) && p == q {
    }
    hide Takes;
  }

  /** There is a mailbox for a value, a block and two cores exactly if the value is used so on another core. */
  lemma MailboxesAreUses(fn: Function, place: Placement, tgt: Target, plan: Plan, ch: Chan)
    requires Exact(fn, place, tgt, plan)
    ensures (exists c :: c in plan.chans && plan.chans[c] == ch) <==>
      && ch.src in place && place[ch.src] == ch.from != ch.to
      && UsedAt(fn, place, tgt.parts, ch.block, Ref(ch.src), ch.to)
  {
    var needs := FunctionNeeds(fn, place, tgt.parts);
    assert MailboxesMatch(plan, needs);
    hide Exact, FunctionNeeds, UsedAt, SomeUseTakes;
    NeedsAreUses(fn, place, tgt.parts, Mailbox(ch));
    TakesMailbox(fn, place, tgt.parts, ch);
    assert |Numbers(plan.chans, ch)| == needs.chans[ch];
    if exists c :: c in plan.chans && plan.chans[c] == ch {
      var c :| c in plan.chans && plan.chans[c] == ch;
      assert c in Numbers(plan.chans, ch);
    } else {
      assert Numbers(plan.chans, ch) == {};
    }
  }

  /** A core is passed an argument exactly if it uses it. */
  lemma ArgumentsAreUses(fn: Function, place: Placement, tgt: Target, plan: Plan, p: Part, k: nat)
    requires Exact(fn, place, tgt, plan)
    ensures (p, k) in plan.argChans <==> exists b: BlockId :: UsedAt(fn, place, tgt.parts, b, Arg(k), p)
  {
    var needs := FunctionNeeds(fn, place, tgt.parts);
    assert MailboxesMatch(plan, needs);
    hide Exact;
    hide FunctionNeeds, UsedAt, SomeUseTakes;
    NeedsAreUses(fn, place, tgt.parts, Argument(p, k));
    TakesArgument(fn, place, tgt.parts, p, k);
  }

  predicate Crosses(place: Placement, op: Operand, to: Part) {
    op.Ref? && op.id in place && place[op.id] != to
  }

  lemma OneMailbox(place: Placement, b: BlockId, op: Operand, to: Part)
    ensures |NeedOf(place, b, op, to).chans| == if Crosses(place, op, to) then 1 else 0
  {
  }

  /** Which of the operands come from another core. */
  function Crossing(place: Placement, ops: seq<Operand>, to: Part): set<nat> {
    set j: nat | j < |ops| && Crosses(place, ops[j], to)
  }

  lemma CrossingNext(place: Placement, ops: seq<Operand>, to: Part)
    requires ops != []
    ensures var n := |ops| - 1;
      |Crossing(place, ops, to)| == |Crossing(place, ops[..n], to)| + (if Crosses(place, ops[n], to) then 1 else 0)
  {
    hide Crosses;
    var n := |ops| - 1;
    var few := Crossing(place, ops[..n], to);
    assert Crossing(place, ops, to) == few + (if Crosses(place, ops[n], to) then {n} else {});
    assert n !in few;
  }

  /** An instruction has one mailbox for each operand from another core. */
  lemma {:induction false} OperandMailboxes(place: Placement, b: BlockId, ops: seq<Operand>, to: Part)
    ensures |OperandsNeed(place, b, ops, to).chans| == |Crossing(place, ops, to)|
  {
    hide Crosses, NeedOf;
    if ops == [] {
      assert Crossing(place, ops, to) == {};
    } else {
      var n := |ops| - 1;
      OperandMailboxes(place, b, ops[..n], to);
      CrossingNext(place, ops, to);
      OneMailbox(place, b, ops[n], to);
      hide Crossing;
    }
  }

  function Values(entries: seq<(BlockId, Operand)>): (r: seq<Operand>)
    ensures |r| == |entries| && forall j :: 0 <= j < |entries| ==> r[j] == entries[j].1
  {
    seq(|entries|, j requires 0 <= j < |entries| => entries[j].1)
  }

  /** So does a phi for each entry. */
  lemma {:induction false} EntryMailboxes(place: Placement, entries: seq<(BlockId, Operand)>, to: Part)
    ensures |EntriesNeed(place, entries, to).chans| == |Crossing(place, Values(entries), to)|
  {
    hide Crosses, NeedOf;
    if entries == [] {
      assert Crossing(place, Values(entries), to) == {};
    } else {
      var n := |entries| - 1;
      EntryMailboxes(place, entries[..n], to);
      assert Values(entries)[..n] == Values(entries[..n]);
      CrossingNext(place, Values(entries), to);
      OneMailbox(place, entries[n].0, entries[n].1, to);
      hide Crossing, Values;
    }
  }

  /** A condition is passed to every core but its own, once. */
  lemma {:induction false} BranchMailboxes(place: Placement, b: BlockId, id: Id, parts: seq<Part>)
    requires id in place && forall i, j :: 0 <= i < j < |parts| ==> parts[i] != parts[j]
    ensures |BroadcastNeeds(place, b, Ref(id), parts).chans| == |parts| - (if place[id] in parts then 1 else 0)
  {
    if parts != [] {
      var n := |parts| - 1;
      assert parts == parts[..n] + [parts[n]];
      BranchMailboxes(place, b, id, parts[..n]);
    }
  }

  lemma OneFewer(plan: Plan, needs: Needs, c: nat)
    requires MailboxesMatch(plan, needs) && c in plan.chans
    ensures plan.chans[c] in needs.chans
    ensures var ch := plan.chans[c];
      MailboxesMatch(plan.(chans := plan.chans - {c}), needs.(chans := needs.chans - multiset{ch}))
  {
    var ch := plan.chans[c];
    assert c in Numbers(plan.chans, ch);
    forall x
      ensures |Numbers(plan.chans - {c}, x)| == (needs.chans - multiset{ch})[x]
    {
      assert Numbers(plan.chans - {c}, x) == Numbers(plan.chans, x) - (if x == ch then {c} else {});
      assert |Numbers(plan.chans, x)| == needs.chans[x];
    }
  }

  lemma NoMailboxes(plan: Plan, needs: Needs)
    requires MailboxesMatch(plan, needs) && plan.chans == map[]
    ensures needs.chans == multiset{}
  {
    forall ch ensures needs.chans[ch] == 0 {
      assert Numbers(plan.chans, ch) == {};
    }
  }

  /** All in all there are as many mailboxes between cores as are called for. */
  lemma {:induction false} AllMailboxes(plan: Plan, needs: Needs)
    requires MailboxesMatch(plan, needs)
    ensures |plan.chans| == |needs.chans|
    decreases plan.chans.Keys
  {
    hide MailboxesMatch;
    if plan.chans == map[] {
      NoMailboxes(plan, needs);
    } else {
      var c :| c in plan.chans;
      OneFewer(plan, needs, c);
      AllMailboxes(plan.(chans := plan.chans - {c}), needs.(chans := needs.chans - multiset{plan.chans[c]}));
      assert |plan.chans| == |plan.chans - {c}| + 1 by {
        assert plan.chans == (plan.chans - {c})[c := plan.chans[c]];
      }
    }
  }
}
