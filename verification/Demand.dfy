/**
 How much an emitted program holds: each instruction is cloned once, and there are as many
 mailboxes as the placement of the function's operands calls for.
 */
module Demand {
  import opened Source
  import opened Target
  import opened Projection
  import opened Correspondence
  import opened BlockOrder

  // ---------- Clones ----------

  /** The instructions of a body placed on core `p`, in order. */
  function PlacedOn(body: seq<Inst>, place: Placement, p: Part): seq<Id> {
    if body == [] then []
    else
      var last := body[|body| - 1];
      PlacedOn(body[..|body| - 1], place, p) + OwnInst(last.id, place, p)
  }

  function OwnInst(id: Id, place: Placement, p: Part): seq<Id> {
    if id in place && place[id] == p then [id] else []
  }

  /** The phis placed on core `p`, in order. */
  function PhisOn(phis: seq<Phi>, place: Placement, p: Part): seq<Id> {
    if phis == [] then []
    else
      var last := phis[|phis| - 1];
      PhisOn(phis[..|phis| - 1], place, p) + OwnPhi(last.id, place, p)
  }

  function OwnPhi(id: Id, place: Placement, p: Part): seq<Id> {
    if id in place && place[id] == p then [id] else []
  }

  lemma PlacedOnNext(body: seq<Inst>, k: nat, place: Placement, p: Part)
    requires k < |body|
    ensures PlacedOn(body[..k + 1], place, p) == PlacedOn(body[..k], place, p) + OwnInst(body[k].id, place, p)
  {
    assert body[..k + 1][..k] == body[..k];
  }

  /** The clones of a block on a core are of the instructions placed there, in order. */
  ghost predicate ClonesInOrder(fn: Function, place: Placement, tgt: Target) {
    forall p, b :: p in tgt.parts && 0 <= b < |fn.blocks| ==>
      ClonedIds(CodeOf(tgt, p, b)) == PlacedOn(fn.blocks[b].body, place, p)
  }

  predicate IsCloneOf(x: TInst, id: Id) {
    x.Clone? && x.id == id
  }

  lemma {:induction false} PlacedOnSpec(body: seq<Inst>, place: Placement, p: Part)
    requires forall j, k :: 0 <= j < k < |body| ==> body[j].id != body[k].id
    ensures var r := PlacedOn(body, place, p);
      && (forall id :: id in r ==> id in place && place[id] == p && Holds(body, id))
      && (forall m, n :: 0 <= m < n < |r| ==> r[m] != r[n])
  {
    if body != [] {
      var n := |body| - 1;
      PlacedOnSpec(body[..n], place, p);
      var before := PlacedOn(body[..n], place, p);
      assert PlacedOn(body, place, p) == before + OwnInst(body[n].id, place, p);
      assert Holds(body, body[n].id);
      forall id | id in before ensures id != body[n].id && Holds(body, id) {
        var k :| 0 <= k < n && body[..n][k].id == id;
        assert body[k] == body[..n][k];
      }
      assert forall m :: 0 <= m < |before| ==> before[m] in before;
    }
  }

  predicate Holds(body: seq<Inst>, id: Id) {
    exists k :: 0 <= k < |body| && body[k].id == id
  }

  lemma {:induction false} PlacedOnHas(body: seq<Inst>, place: Placement, k: nat)
    requires k < |body| && body[k].id in place
    ensures body[k].id in PlacedOn(body, place, place[body[k].id])
  {
    if k < |body| - 1 {
      PlacedOnHas(body[..|body| - 1], place, k);
    }
  }

  /** Where instruction `i` of the code, a clone, stands among the clones. */
  lemma {:induction false} ClonePosition(code: seq<TInst>, i: nat)
    requires i < |code| && code[i].Clone?
    ensures |ClonedIds(code[..i])| < |ClonedIds(code)| && ClonedIds(code)[|ClonedIds(code[..i])|] == code[i].id
  {
    var n := |code| - 1;
    if i < n {
      ClonePosition(code[..n], i);
      assert code[..n][..i] == code[..i];
    }
  }

  lemma {:induction false} LaterClone(code: seq<TInst>, i: nat, j: nat)
    requires i < j <= |code| && code[i].Clone?
    ensures |ClonedIds(code[..i])| < |ClonedIds(code[..j])|
  {
    ClonePosition(code[..j], i);
    assert code[..j][..i] == code[..i];
  }

  lemma {:induction false} CloneAt(code: seq<TInst>, id: Id) returns (i: nat)
    requires id in ClonedIds(code)
    ensures i < |code| && IsCloneOf(code[i], id)
  {
    var n := |code| - 1;
    if IsCloneOf(code[n], id) {
      i := n;
    } else {
      i := CloneAt(code[..n], id);
    }
  }

  lemma SamePosition(code: seq<TInst>, i: nat, j: nat)
    requires i < |code| && j < |code| && code[i].Clone? && code[j].Clone? && code[i].id == code[j].id
    requires forall m, n :: 0 <= m < n < |ClonedIds(code)| ==> ClonedIds(code)[m] != ClonedIds(code)[n]
    ensures i == j
  {
    hide ClonedIds;
    ClonePosition(code, i);
    ClonePosition(code, j);
    if i < j {
      LaterClone(code, i, j);
    } else if j < i {
      LaterClone(code, j, i);
    }
  }

  lemma BodyIdsDiffer(fn: Function, b: BlockId)
    requires Shape(fn) && b < |fn.blocks|
    ensures forall j, k :: 0 <= j < k < |fn.blocks[b].body| ==> fn.blocks[b].body[j].id != fn.blocks[b].body[k].id
  {
    hide BlockShape;
    assert BlockAt(fn, b) == fn.blocks[b];
  }

  lemma OneBlock(fn: Function, b: BlockId, c: BlockId, j: nat, k: nat)
    requires Shape(fn) && b < |fn.blocks| && c < |fn.blocks|
    requires j < |fn.blocks[b].body| && k < |fn.blocks[c].body| && fn.blocks[b].body[j].id == fn.blocks[c].body[k].id
    ensures b == c
  {
    hide BlockShape;
    var id := fn.blocks[b].body[j].id;
    assert InBody(BlockAt(fn, b), id) && InBody(BlockAt(fn, c), id);
    assert Defines(BlockAt(fn, b), id) && Defines(BlockAt(fn, c), id);
  }

  lemma CloneIsPlaced(fn: Function, place: Placement, tgt: Target, p: Part, b: BlockId, i: nat) returns (k: nat)
    requires Shape(fn) && ClonesInOrder(fn, place, tgt) && p in tgt.parts && b < |fn.blocks|
    requires i < |CodeOf(tgt, p, b)| && CodeOf(tgt, p, b)[i].Clone?
    ensures k < |fn.blocks[b].body| && fn.blocks[b].body[k].id == CodeOf(tgt, p, b)[i].id
    ensures fn.blocks[b].body[k].id in place && place[fn.blocks[b].body[k].id] == p
  {
    hide Shape, ClonedIds, PlacedOn;
    var code := CodeOf(tgt, p, b);
    ClonePosition(code, i);
    BodyIdsDiffer(fn, b);
    PlacedOnSpec(fn.blocks[b].body, place, p);
    var m := |ClonedIds(code[..i])|;
    assert PlacedOn(fn.blocks[b].body, place, p)[m] == code[i].id;
    assert Holds(fn.blocks[b].body, code[i].id);
    k :| 0 <= k < |fn.blocks[b].body| && fn.blocks[b].body[k].id == code[i].id;
  }

  /** Every body instruction has one clone in the whole program: on its core, in the clone of its block. */
  lemma ClonedOnce(fn: Function, place: Placement, tgt: Target, b: BlockId, k: nat) returns (i: nat)
    requires Shape(fn) && ClonesInOrder(fn, place, tgt) && b < |fn.blocks| && k < |fn.blocks[b].body|
    requires fn.blocks[b].body[k].id in place && place[fn.blocks[b].body[k].id] in tgt.parts
    ensures var id := fn.blocks[b].body[k].id; var p := place[id];
      && i < |CodeOf(tgt, p, b)| && IsCloneOf(CodeOf(tgt, p, b)[i], id)
      && forall q, c: BlockId, j ::
           q in tgt.parts && c < |fn.blocks| && 0 <= j < |CodeOf(tgt, q, c)| && IsCloneOf(CodeOf(tgt, q, c)[j], id) ==>
           q == p && c == b && j == i
  {
    var id := fn.blocks[b].body[k].id;
    var p := place[id];
    PlacedOnHas(fn.blocks[b].body, place, k);
    i := CloneAt(CodeOf(tgt, p, b), id);
    hide Shape, ClonedIds, PlacedOn, CodeOf;
    forall q, c: BlockId, j | q in tgt.parts && c < |fn.blocks| && 0 <= j < |CodeOf(tgt, q, c)|
      && IsCloneOf(CodeOf(tgt, q, c)[j], id)
      ensures q == p && c == b && j == i
    {
      var m := CloneIsPlaced(fn, place, tgt, q, c, j);
      OneBlock(fn, c, b, m, k);
      BodyIdsDiffer(fn, b);
      PlacedOnSpec(fn.blocks[b].body, place, p);
      SamePosition(CodeOf(tgt, p, b), i, j);
    }
  }

  // ---------- Mailboxes ----------

  /** Mailboxes between cores, as often as they are needed, and arguments by the core that needs them. */
  datatype Needs = Needs(chans: multiset<Chan>, args: set<(Part, nat)>)

  const NOTHING := Needs(multiset{}, {})

  function Plus(a: Needs, b: Needs): Needs {
    Needs(a.chans + b.chans, a.args + b.args)
  }

  function CoreOf(place: Placement, id: Id): Part {
    if id in place then place[id] else 0
  }

  /** What it takes to read an operand on core `to` in the clones of block `b`. */
  function NeedOf(place: Placement, b: BlockId, op: Operand, to: Part): Needs {
    match op
    case Const(_) => NOTHING
    case Arg(k) => Needs(multiset{}, {(to, k)})
    case Ref(id) =>
      if id in place && place[id] != to then Needs(multiset{Chan(b, place[id], to, id)}, {}) else NOTHING
  }

  /** Each operand of an instruction is read on the instruction's core. */
  function OperandsNeed(place: Placement, b: BlockId, ops: seq<Operand>, to: Part): Needs {
    if ops == [] then NOTHING
    else
      var n := |ops| - 1;
      Plus(OperandsNeed(place, b, ops[..n], to), NeedOf(place, b, ops[n], to))
  }

  function InstsNeed(place: Placement, b: BlockId, body: seq<Inst>): Needs {
    if body == [] then NOTHING
    else
      var n := |body| - 1;
      Plus(InstsNeed(place, b, body[..n]), OperandsNeed(place, b, body[n].args, CoreOf(place, body[n].id)))
  }

  /** A returned value is read on the core of the return. */
  function ReturnNeeds(place: Placement, b: BlockId, term: Term): Needs {
    if term.Ret? && term.value.Some? then NeedOf(place, b, term.value.value, CoreOf(place, term.id)) else NOTHING
  }

  function StraightNeeds(place: Placement, b: BlockId, blk: Block): Needs {
    Plus(InstsNeed(place, b, blk.body), ReturnNeeds(place, b, blk.term))
  }

  /** Each entry of a phi is read on the phi's core, in the clones of the predecessor. */
  function EntriesNeed(place: Placement, entries: seq<(BlockId, Operand)>, to: Part): Needs {
    if entries == [] then NOTHING
    else
      var n := |entries| - 1;
      Plus(EntriesNeed(place, entries[..n], to), NeedOf(place, entries[n].0, entries[n].1, to))
  }

  function PhisNeed(place: Placement, phis: seq<Phi>): Needs {
    if phis == [] then NOTHING
    else
      var n := |phis| - 1;
      Plus(PhisNeed(place, phis[..n]), EntriesNeed(place, phis[n].incoming, CoreOf(place, phis[n].id)))
  }

  /** A branch condition is read on every core. */
  function BroadcastNeeds(place: Placement, b: BlockId, cond: Operand, parts: seq<Part>): Needs {
    if parts == [] then NOTHING
    else
      var n := |parts| - 1;
      Plus(BroadcastNeeds(place, b, cond, parts[..n]), NeedOf(place, b, cond, parts[n]))
  }

  function BranchNeeds(place: Placement, b: BlockId, term: Term, parts: seq<Part>): Needs {
    if term.CondBr? then BroadcastNeeds(place, b, term.cond, parts) else NOTHING
  }

  // ----- Sums over the blocks of a function, one for each pass -----

  function StraightOf(fn: Function, place: Placement): BlockId -> Needs {
    (b: BlockId) => StraightNeeds(place, b, BlockAt(fn, b))
  }

  function PhisOf(fn: Function, place: Placement): BlockId -> Needs {
    (b: BlockId) => PhisNeed(place, BlockAt(fn, b).phis)
  }

  function BranchesOf(fn: Function, place: Placement, parts: seq<Part>): BlockId -> Needs {
    (b: BlockId) => BranchNeeds(place, b, BlockAt(fn, b).term, parts)
  }

  function SumOver(blocks: seq<BlockId>, f: BlockId -> Needs): Needs {
    if blocks == [] then NOTHING
    else
      var n := |blocks| - 1;
      Plus(SumOver(blocks[..n], f), f(blocks[n]))
  }

  function UpTo(n: nat): (r: seq<BlockId>)
    ensures |r| == n && forall b :: 0 <= b < n ==> r[b] == b
  {
    seq(n, b => b)
  }

  /** All a function's placement calls for. */
  function FunctionNeeds(fn: Function, place: Placement, parts: seq<Part>): Needs {
    var blocks := UpTo(|fn.blocks|);
    Plus(
      Plus(SumOver(blocks, StraightOf(fn, place)), SumOver(blocks, PhisOf(fn, place))),
      SumOver(blocks, BranchesOf(fn, place, parts)))
  }

  lemma PlusAgain(a: Needs, b: Needs, c: Needs)
    ensures Plus(Plus(a, b), c) == Plus(a, Plus(b, c)) && Plus(Plus(a, b), c) == Plus(Plus(a, c), b)
    ensures Plus(a, NOTHING) == a == Plus(NOTHING, a)
  {
  }

  lemma SumNext(blocks: seq<BlockId>, b: BlockId, f: BlockId -> Needs)
    ensures SumOver(blocks + [b], f) == Plus(SumOver(blocks, f), f(b))
  {
    assert (blocks + [b])[..|blocks|] == blocks;
  }

  /** One step of a sum that started at `start`. */
  lemma MoreNeeded(start: Needs, sum: Needs, need: Needs)
    ensures Plus(Plus(start, sum), need) == Plus(start, Plus(sum, need))
  {
    PlusAgain(start, sum, need);
  }

  lemma NoneNeeded(start: Needs)
    ensures Plus(start, NOTHING) == start
  {
    PlusAgain(start, start, start);
  }

  lemma OperandsNext(place: Placement, b: BlockId, ops: seq<Operand>, j: nat, to: Part)
    requires j < |ops|
    ensures OperandsNeed(place, b, ops[..j + 1], to) ==
      Plus(OperandsNeed(place, b, ops[..j], to), NeedOf(place, b, ops[j], to))
  {
    assert ops[..j + 1][..j] == ops[..j];
  }

  lemma NoOperands(place: Placement, b: BlockId, ops: seq<Operand>, to: Part, start: Needs)
    ensures Plus(start, OperandsNeed(place, b, ops[..0], to)) == start
  {
    NoneNeeded(start);
  }

  lemma NoInsts(place: Placement, b: BlockId, body: seq<Inst>, start: Needs)
    ensures Plus(start, InstsNeed(place, b, body[..0])) == start
  {
    NoneNeeded(start);
  }

  lemma NoEntries(place: Placement, entries: seq<(BlockId, Operand)>, to: Part, start: Needs)
    ensures Plus(start, EntriesNeed(place, entries[..0], to)) == start
  {
    NoneNeeded(start);
  }

  lemma NoPhisNeed(place: Placement, phis: seq<Phi>, start: Needs)
    ensures Plus(start, PhisNeed(place, phis[..0])) == start
  {
    NoneNeeded(start);
  }

  lemma NoParts(place: Placement, b: BlockId, cond: Operand, parts: seq<Part>, start: Needs)
    ensures Plus(start, BroadcastNeeds(place, b, cond, parts[..0])) == start
  {
    NoneNeeded(start);
  }

  lemma NoBlocks(blocks: seq<BlockId>, f: BlockId -> Needs, start: Needs)
    ensures Plus(start, SumOver(blocks[..0], f)) == start
  {
    NoneNeeded(start);
  }

  lemma BranchesReturnNothing(place: Placement, b: BlockId, term: Term, start: Needs)
    ensures !term.Ret? ==> Plus(start, ReturnNeeds(place, b, term)) == start
  {
    NoneNeeded(start);
  }

  /** On its own core a value is there. */
  lemma NeedsNone(place: Placement, b: BlockId, op: Operand)
    ensures op.Ref? && op.id in place ==> NeedOf(place, b, op, place[op.id]) == NOTHING
  {
  }

  lemma InstsNext(place: Placement, b: BlockId, body: seq<Inst>, k: nat)
    requires k < |body|
    ensures InstsNeed(place, b, body[..k + 1]) ==
      Plus(InstsNeed(place, b, body[..k]), OperandsNeed(place, b, body[k].args, CoreOf(place, body[k].id)))
  {
    assert body[..k + 1][..k] == body[..k];
  }

  lemma EntriesNext(place: Placement, entries: seq<(BlockId, Operand)>, j: nat, to: Part)
    requires j < |entries|
    ensures EntriesNeed(place, entries[..j + 1], to) ==
      Plus(EntriesNeed(place, entries[..j], to), NeedOf(place, entries[j].0, entries[j].1, to))
  {
    assert entries[..j + 1][..j] == entries[..j];
  }

  lemma PhisNext(place: Placement, phis: seq<Phi>, k: nat)
    requires k < |phis|
    ensures PhisNeed(place, phis[..k + 1]) ==
      Plus(PhisNeed(place, phis[..k]), EntriesNeed(place, phis[k].incoming, CoreOf(place, phis[k].id)))
  {
    assert phis[..k + 1][..k] == phis[..k];
  }

  lemma BroadcastNext(place: Placement, b: BlockId, cond: Operand, parts: seq<Part>, n: nat)
    requires n < |parts|
    ensures BroadcastNeeds(place, b, cond, parts[..n + 1]) ==
      Plus(BroadcastNeeds(place, b, cond, parts[..n]), NeedOf(place, b, cond, parts[n]))
  {
    assert parts[..n + 1][..n] == parts[..n];
  }

  lemma BlocksNext(blocks: seq<BlockId>, n: nat, f: BlockId -> Needs)
    requires n < |blocks|
    ensures SumOver(blocks[..n + 1], f) == Plus(SumOver(blocks[..n], f), f(blocks[n]))
  {
    assert blocks[..n + 1][..n] == blocks[..n];
  }

  lemma {:induction false} SumWithout(blocks: seq<BlockId>, f: BlockId -> Needs, i: nat)
    requires i < |blocks|
    ensures SumOver(blocks, f) == Plus(SumOver(blocks[..i] + blocks[i + 1..], f), f(blocks[i]))
  {
    hide Plus;
    var n := |blocks| - 1;
    if i == n {
      assert blocks[..i] + blocks[i + 1..] == blocks[..n];
    } else {
      var front := blocks[..n];
      assert front[..i] == blocks[..i];
      var few := front[..i] + front[i + 1..];
      assert blocks[..i] + blocks[i + 1..] == few + [blocks[n]];
      SumWithout(front, f, i);
      SumNext(few, blocks[n], f);
      PlusAgain(SumOver(few, f), f(blocks[i]), f(blocks[n]));
    }
  }

  lemma Removed(s: seq<BlockId>, i: nat)
    requires i < |s|
    ensures multiset(s[..i] + s[i + 1..]) == multiset(s) - multiset{s[i]}
  {
    assert s == s[..i] + [s[i]] + s[i + 1..];
  }

  /** Where the last of `blocks` stands in a permutation of them, and what is left without it. */
  lemma LastElsewhere(blocks: seq<BlockId>, others: seq<BlockId>) returns (i: nat)
    requires blocks != [] && multiset(blocks) == multiset(others)
    ensures i < |others| && others[i] == blocks[|blocks| - 1]
    ensures multiset(blocks[..|blocks| - 1]) == multiset(others[..i] + others[i + 1..])
  {
    var n := |blocks| - 1;
    assert blocks[n] in multiset(blocks);
    assert blocks[n] in others;
    i :| 0 <= i < |others| && others[i] == blocks[n];
    Removed(others, i);
    Removed(blocks, n);
    assert blocks[..n] + blocks[n + 1..] == blocks[..n];
  }

  /** The order of the blocks does not matter. */
  lemma {:induction false} SumPermuted(blocks: seq<BlockId>, others: seq<BlockId>, f: BlockId -> Needs)
    requires multiset(blocks) == multiset(others)
    ensures SumOver(blocks, f) == SumOver(others, f)
    decreases |blocks|
  {
    if blocks == [] {
      assert |others| == |multiset(others)| == 0;
    } else {
      hide Plus;
      var i := LastElsewhere(blocks, others);
      SumWithout(others, f, i);
      SumPermuted(blocks[..|blocks| - 1], others[..i] + others[i + 1..], f);
    }
  }

  lemma {:induction false} CountOnce(s: seq<BlockId>, b: BlockId)
    requires Distinct(s)
    ensures multiset(s)[b] == if b in s then 1 else 0
  {
    if s != [] {
      var n := |s| - 1;
      CountOnce(s[..n], b);
      assert s == s[..n] + [s[n]];
    }
  }

  /** So it may be any listing of all blocks. */
  lemma SumOfAll(sorted: seq<BlockId>, n: nat, f: BlockId -> Needs)
    requires Distinct(sorted) && Below(sorted, n) && forall b :: 0 <= b < n ==> b in sorted
    ensures SumOver(sorted, f) == SumOver(UpTo(n), f)
  {
    forall b: BlockId ensures multiset(sorted)[b] == multiset(UpTo(n))[b] {
      CountOnce(sorted, b);
      CountOnce(UpTo(n), b);
      assert b < n ==> UpTo(n)[b] == b;
    }
    SumPermuted(sorted, UpTo(n), f);
  }

  // ----- What the emitted program has -----

  /** The mailboxes numbered below `n`. */
  function Bag(chans: map<nat, Chan>, n: nat): multiset<Chan> {
    if n == 0 then multiset{}
    else Bag(chans, n - 1) + (if n - 1 in chans then multiset{chans[n - 1]} else multiset{})
  }

  lemma {:induction false} SameBag(chans: map<nat, Chan>, chans': map<nat, Chan>, n: nat)
    requires forall c :: 0 <= c < n ==> (c in chans <==> c in chans') && (c in chans ==> chans[c] == chans'[c])
    ensures Bag(chans, n) == Bag(chans', n)
  {
    if n > 0 {
      SameBag(chans, chans', n - 1);
    }
  }

  /** The numbers of the mailboxes that do what `ch` says. */
  function Numbers(chans: map<nat, Chan>, ch: Chan): set<nat> {
    set c | c in chans && chans[c] == ch
  }

  lemma {:induction false} BagCounts(chans: map<nat, Chan>, n: nat, ch: Chan)
    ensures |set c | c in Numbers(chans, ch) && c < n| == Bag(chans, n)[ch]
  {
    if n > 0 {
      BagCounts(chans, n - 1, ch);
      var few, all := set c | c in Numbers(chans, ch) && c < n - 1, set c | c in Numbers(chans, ch) && c < n;
      if n - 1 in chans && chans[n - 1] == ch {
        assert all == few + {n - 1};
      } else {
        assert all == few;
      }
    } else {
      assert (set c | c in Numbers(chans, ch) && c < n) == {};
    }
  }

  /** No argument is received twice. */
  predicate ReceivedOnce(prologue: seq<ArgReceive>) {
    forall m, n :: 0 <= m < n < |prologue| ==> prologue[m].index != prologue[n].index
  }

  /** The mailboxes are as many as needed, for each block, pair of cores and value; so are the arguments passed. */
  ghost predicate MailboxesMatch(plan: Plan, needs: Needs) {
    && (forall ch :: |Numbers(plan.chans, ch)| == needs.chans[ch])
    && plan.argChans.Keys == needs.args
  }

  lemma BagMatches(plan: Plan, needs: Needs, n: nat)
    requires Needs(Bag(plan.chans, n), plan.argChans.Keys) == needs && forall c :: c in plan.chans ==> c < n
    ensures MailboxesMatch(plan, needs)
  {
    forall ch ensures |Numbers(plan.chans, ch)| == needs.chans[ch] {
      BagCounts(plan.chans, n, ch);
      assert (set c | c in Numbers(plan.chans, ch) && c < n) == Numbers(plan.chans, ch);
    }
  }

  /** The clones of a block's phis on a core are of the phis placed there, in order, and take what these take. */
  ghost predicate PhisTranslated(fn: Function, place: Placement, tgt: Target, plan: Plan) {
    forall p, b :: p in tgt.parts && 0 <= b < |fn.blocks| ==>
      PhisTakeOver(fn, place, tgt, plan, p, fn.blocks[b].phis, CloneOf(tgt, p, b).phis)
  }

  ghost predicate PhisTakeOver(fn: Function, place: Placement, tgt: Target, plan: Plan, p: Part, phis: seq<Phi>,
                               tphis: seq<TPhi>)
  {
    && |tphis| == |PhisOn(phis, place, p)|
    && forall a :: 0 <= a < |tphis| ==>
         && tphis[a].id == PhisOn(phis, place, p)[a]
         && TakesSomePhi(fn, place, tgt, plan, p, tphis[a], phis)
  }

  predicate TakesSomePhi(fn: Function, place: Placement, tgt: Target, plan: Plan, p: Part, tphi: TPhi,
                         phis: seq<Phi>) {
    exists k :: 0 <= k < |phis| && PhiTakes(fn, place, tgt, plan, p, tphi, phis[k])
  }

  /**
   Nothing is missing and nothing is there twice: `tgt` consists of one clone of every
   block per core; in them each instruction and phi is cloned once, on its core and in
   order; and there are as many mailboxes as the placement calls for.
   */
  ghost predicate Exact(fn: Function, place: Placement, tgt: Target, plan: Plan) {
    && (forall p, b: nat :: (p, b) in tgt.blocks <==> p in tgt.parts && b < |fn.blocks|)
    && (forall p :: p in tgt.prologue <==> p in tgt.parts)
    && (forall p :: p in tgt.prologue ==> ReceivedOnce(tgt.prologue[p]))
    && (forall p, b :: p in tgt.parts && 0 <= b < |fn.blocks| ==> Terminated(CodeOf(tgt, p, b)))
    && ClonesInOrder(fn, place, tgt)
    && PhisTranslated(fn, place, tgt, plan)
    && MailboxesMatch(plan, FunctionNeeds(fn, place, tgt.parts))
  }
}
