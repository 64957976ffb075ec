/**
 The constraints a schedule of one basic block must satisfy, and the bounds the search
 works between.
 */
module Schedule {
  import opened Common
  import opened CostModel
  import BlockOrder

  /** An operand that is a constant or an argument, a global, or the value of an instruction. */
  datatype Use = Free | Global | Of(id: nat, pointer: bool)

  datatype Node = Node(id: nat, op: Opcode, uses: seq<Use>, memory: bool)

  datatype Placement = Placement(partition: int, startTime: int, endTime: int)

  /** What is known of an earlier instruction: where it was placed, and whether it touches memory. */
  datatype Earlier = Earlier(place: Placement, memory: bool)

  /** What passing a value from one core to another costs. */
  type CommsTable = (int, int) -> nat

  /** The number of hops on a grid of the given width. */
  function GridComms(columns: nat): CommsTable {
    (p: int, q: int) => if p >= 0 && q >= 0 && columns > 0 then CostForCommunication(p, q, columns) else 0
  }

  /** The same for all pairs, a core and itself included. */
  function ConstantComms(): CommsTable {
    (p: int, q: int) => 1
  }

  /** One block to be scheduled; `aliases` holds the pairs of instructions that may touch the same memory. */
  datatype Problem = Problem(
    nodes: seq<Node>,
    previous: map<nat, Earlier>,
    aliases: set<(nat, nat)>,
    rows: nat,
    columns: nat,
    comms: CommsTable)

  /** The cores form a grid, instructions are distinct, and earlier ones sit on cores of the grid. */
  ghost predicate Proper(pr: Problem) {
    && pr.rows > 0 && pr.columns > 0
    && DistinctIds(pr.nodes)
    && (forall id :: id in pr.previous ==> 0 <= pr.previous[id].place.partition < pr.rows * pr.columns)
  }

  predicate DistinctIds(nodes: seq<Node>) {
    forall i, j :: 0 <= i < j < |nodes| ==> nodes[i].id != nodes[j].id
  }

  function Cost(n: Node): nat {
    CostForInstruction(n.op)
  }

  function IndexOf(nodes: seq<Node>, id: nat): (r: Option<nat>)
    ensures r.Some? ==> r.value < |nodes| && nodes[r.value].id == id
    ensures r.None? ==> forall k :: 0 <= k < |nodes| ==> nodes[k].id != id
  {
    if nodes == [] then None
    else
      var n := |nodes| - 1;
      if nodes[n].id == id then Some(n)
      else
        var r := IndexOf(nodes[..n], id);
        assert forall k :: 0 <= k < n ==> nodes[k] == nodes[..n][k];
        r
  }

  // ---------- Feasible schedules ----------

  predicate NodeOk(pr: Problem, p: Placement, cost: nat, latest: int) {
    && 0 <= p.partition < pr.rows * pr.columns
    && 0 <= p.startTime && p.endTime == p.startTime + cost && p.endTime <= latest
  }

  predicate Disjoint(p: Placement, q: Placement) {
    p.partition == q.partition ==> q.endTime <= p.startTime || q.startTime >= p.endTime
  }

  /** Where and when the operand's value is ready; nothing is known of an instruction placed nowhere yet. */
  function Producer(pr: Problem, s: seq<Placement>, id: nat): Option<(int, int)>
    requires |s| == |pr.nodes|
  {
    match IndexOf(pr.nodes, id)
    case Some(j) => Some((s[j].partition, s[j].endTime))
    case None => if id in pr.previous then Some((pr.previous[id].place.partition, 0)) else None
  }

  predicate UseOk(pr: Problem, s: seq<Placement>, p: Placement, u: Use)
    requires |s| == |pr.nodes|
  {
    u.Of? ==>
      match Producer(pr, s, u.id)
      case None => true
      case Some((part, ready)) =>
        if u.pointer then p.partition == part && p.startTime >= ready
        else p.startTime >= ready + pr.comms(p.partition, part)
  }

  /** Earlier instruction `id` may touch the memory `n` touches. */
  predicate Aliases(pr: Problem, n: Node, id: nat) {
    n.memory && id in pr.previous && pr.previous[id].memory && (n.id, id) in pr.aliases
  }

  ghost predicate AliasesAt(pr: Problem, n: Node, core: int) {
    forall id :: Aliases(pr, n, id) ==> core == pr.previous[id].place.partition
  }

  ghost predicate MemoryOk(pr: Problem, n: Node, p: Placement) {
    AliasesAt(pr, n, p.partition)
  }

  /** `s` places instruction `i` of the block at `s[i]` and everything is over by `latest`. */
  ghost predicate Feasible(pr: Problem, s: seq<Placement>, latest: int) {
    && |s| == |pr.nodes|
    && (forall i :: 0 <= i < |s| ==> NodeOk(pr, s[i], Cost(pr.nodes[i]), latest))
    && (forall i, j :: 0 <= i < j < |s| ==> Disjoint(s[i], s[j]))
    && (forall i, k :: 0 <= i < |s| && 0 <= k < |pr.nodes[i].uses| ==> UseOk(pr, s, s[i], pr.nodes[i].uses[k]))
    && (forall i :: 0 <= i < |s| ==> MemoryOk(pr, pr.nodes[i], s[i]))
  }

  // ---------- Total time, and the area bound ----------

  function TotalTime(nodes: seq<Node>): nat {
    if nodes == [] then 0 else TotalTime(nodes[..|nodes| - 1]) + Cost(nodes[|nodes| - 1])
  }

  method SumTotalTime(nodes: seq<Node>) returns (sum: nat)
    ensures sum == TotalTime(nodes)
  {
    sum := 0;
    for i := 0 to |nodes|
      invariant sum == TotalTime(nodes[..i])
    {
      assert nodes[..i + 1][..i] == nodes[..i];
      sum := sum + Cost(nodes[i]);
    }
    assert nodes[..|nodes|] == nodes;
  }

  function Clip(t: int, limit: int): int {
    if t < limit then t else limit
  }

  /** The time the schedule's instructions run before `limit`, all added up. */
  function Before(s: seq<Placement>, limit: int): int {
    if s == [] then 0
    else
      var p := s[|s| - 1];
      Before(s[..|s| - 1], limit) + Clip(p.endTime, limit) - Clip(p.startTime, limit)
  }

  /** The cores that are running something at time `t`. */
  function BusyCores(s: seq<Placement>, t: int): seq<nat> {
    if s == [] then []
    else
      var p := s[|s| - 1];
      var rest := BusyCores(s[..|s| - 1], t);
      if p.startTime <= t < p.endTime && p.partition >= 0 then rest + [p.partition] else rest
  }

  lemma {:induction false} OneMoreUnit(s: seq<Placement>, t: int)
    requires forall i :: 0 <= i < |s| ==> s[i].startTime <= s[i].endTime && s[i].partition >= 0
    ensures Before(s, t + 1) == Before(s, t) + |BusyCores(s, t)|
  {
    if s != [] {
      OneMoreUnit(s[..|s| - 1], t);
    }
  }

  lemma {:induction false} BusyDistinct(s: seq<Placement>, t: int, cores: nat)
    requires forall i, j :: 0 <= i < j < |s| ==> Disjoint(s[i], s[j])
    requires forall i :: 0 <= i < |s| ==> 0 <= s[i].partition < cores
    ensures var busy := BusyCores(s, t);
      && BlockOrder.Distinct(busy) && BlockOrder.Below(busy, cores)
      && (forall c :: c in busy ==>
            exists i :: 0 <= i < |s| && s[i].partition == c && s[i].startTime <= t < s[i].endTime)
  {
    if s != [] {
      var n := |s| - 1;
      var before := s[..n];
      BusyDistinct(before, t, cores);
      var busy := BusyCores(before, t);
      forall c | c in busy
        ensures exists i :: 0 <= i < n && s[i].partition == c && s[i].startTime <= t < s[i].endTime
      {
        var i :| 0 <= i < n && before[i].partition == c && before[i].startTime <= t < before[i].endTime;
        assert s[i] == before[i];
      }
      if s[n].startTime <= t < s[n].endTime {
        forall c | c in busy ensures c != s[n].partition {
          var i :| 0 <= i < n && s[i].partition == c && s[i].startTime <= t < s[i].endTime;
          assert Disjoint(s[i], s[n]);
        }
        assert forall k :: 0 <= k < |busy| ==> busy[k] in busy;
      }
    }
  }

  lemma {:induction false} AreaUpTo(s: seq<Placement>, limit: nat, cores: nat)
    requires forall i, j :: 0 <= i < j < |s| ==> Disjoint(s[i], s[j])
    requires forall i :: 0 <= i < |s| ==> 0 <= s[i].partition < cores && 0 <= s[i].startTime <= s[i].endTime
    ensures Before(s, limit) <= cores * limit
  {
    if limit == 0 {
      NothingBeforeZero(s);
    } else {
      AreaUpTo(s, limit - 1, cores);
      OneMoreUnit(s, limit - 1);
      BusyDistinct(s, limit - 1, cores);
      BlockOrder.DistinctBound(BusyCores(s, limit - 1), cores);
      assert cores * limit == cores * (limit - 1) + cores;
    }
  }

  lemma {:induction false} NothingBeforeZero(s: seq<Placement>)
    requires forall i :: 0 <= i < |s| ==> 0 <= s[i].startTime <= s[i].endTime
    ensures Before(s, 0) == 0
  {
    if s != [] {
      NothingBeforeZero(s[..|s| - 1]);
    }
  }

  lemma {:induction false} AllBeforeLatest(nodes: seq<Node>, s: seq<Placement>, latest: int)
    requires |s| == |nodes|
    requires forall i :: 0 <= i < |s| ==>
      s[i].startTime <= s[i].endTime <= latest && s[i].endTime == s[i].startTime + Cost(nodes[i])
    ensures Before(s, latest) == TotalTime(nodes)
  {
    if s != [] {
      AllBeforeLatest(nodes[..|s| - 1], s[..|s| - 1], latest);
    }
  }

  /** The work of a block fits in the area of the grid over the schedule's length. */
  lemma AreaBound(pr: Problem, s: seq<Placement>, latest: int)
    requires Feasible(pr, s, latest) && pr.nodes != []
    ensures latest >= 0 && TotalTime(pr.nodes) <= pr.rows * pr.columns * latest
  {
    hide UseOk, MemoryOk;
    assert NodeOk(pr, s[0], Cost(pr.nodes[0]), latest);
    forall i | 0 <= i < |s| ensures NodeOk(pr, s[i], Cost(pr.nodes[i]), latest) {}
    AllBeforeLatest(pr.nodes, s, latest);
    AreaUpTo(s, latest, pr.rows * pr.columns);
  }

  /** On one core nothing beats the sum. */
  lemma OneCoreBound(pr: Problem, s: seq<Placement>, latest: int)
    requires Feasible(pr, s, latest) && pr.nodes != [] && pr.rows * pr.columns == 1
    ensures TotalTime(pr.nodes) <= latest
  {
    AreaBound(pr, s, latest);
  }

  // ---------- The critical path ----------

  predicate DependsOn(nodes: seq<Node>, i: nat, j: nat)
    requires i < |nodes| && j < |nodes|
  {
    exists k :: 0 <= k < |nodes[i].uses| && nodes[i].uses[k].Of? && nodes[i].uses[k].id == nodes[j].id
  }

  /** Instructions of the block, each using the one before it. */
  predicate IsChain(nodes: seq<Node>, chain: seq<nat>) {
    chain == [] ||
    var n := |chain| - 1;
    chain[n] < |nodes| && IsChain(nodes, chain[..n]) && (n > 0 ==> Linked(nodes, chain[n - 1], chain[n]))
  }

  predicate Linked(nodes: seq<Node>, j: nat, i: nat) {
    j < i < |nodes| && DependsOn(nodes, i, j)
  }

  /** A chain that ends at instruction `i`. */
  predicate ChainTo(nodes: seq<Node>, chain: seq<nat>, i: nat) {
    chain != [] && chain[|chain| - 1] == i && IsChain(nodes, chain)
  }

  /** A chain among the first `n` instructions. */
  predicate ChainBelow(nodes: seq<Node>, chain: seq<nat>, n: nat) {
    IsChain(nodes, chain) && (chain != [] ==> chain[|chain| - 1] < n)
  }

  function ChainCost(nodes: seq<Node>, chain: seq<nat>): nat {
    if chain == [] then 0
    else
      var last := chain[|chain| - 1];
      ChainCost(nodes, chain[..|chain| - 1]) + (if last < |nodes| then Cost(nodes[last]) else 0)
  }

  function Max(a: nat, b: nat): nat {
    if a > b then a else b
  }

  /** The heaviest chain that ends at instruction `i`. */
  function PathCost(nodes: seq<Node>, i: nat): nat
    requires i < |nodes|
    decreases i, 1, 0
  {
    StartCost(nodes, i, |nodes[i].uses|) + Cost(nodes[i])
  }

  /** The heaviest chain that ends in one of the first `k` operands of instruction `i`. */
  function StartCost(nodes: seq<Node>, i: nat, k: nat): nat
    requires i < |nodes| && k <= |nodes[i].uses|
    decreases i, 0, k
  {
    if k == 0 then 0
    else
      var rest := StartCost(nodes, i, k - 1);
      var u := nodes[i].uses[k - 1];
      if !u.Of? then rest
      else
        match IndexOf(nodes[..i], u.id)
        case None => rest
        case Some(j) => Max(PathCost(nodes, j), rest)
  }

  /** The longest path cost among the first `n` instructions. */
  function LongestPath(nodes: seq<Node>, n: nat): nat
    requires n <= |nodes|
  {
    if n == 0 then 0 else Max(PathCost(nodes, n - 1), LongestPath(nodes, n - 1))
  }

  lemma IndexAfter(nodes: seq<Node>, n: nat, id: nat)
    requires n < |nodes|
    ensures IndexOf(nodes[..n + 1], id) == if nodes[n].id == id then Some(n) else IndexOf(nodes[..n], id)
  {
    assert nodes[..n + 1][..n] == nodes[..n];
  }

  /** `pathCost` holds the path cost of each of the first `n` instructions. */
  ghost predicate PathTable(nodes: seq<Node>, n: nat, pathCost: map<nat, nat>)
    requires n <= |nodes|
  {
    && (forall id :: id in pathCost <==> IndexOf(nodes[..n], id).Some?)
    && (forall id :: id in pathCost ==> pathCost[id] == PathCost(nodes, IndexOf(nodes[..n], id).value))
  }

  lemma NextInTable(nodes: seq<Node>, n: nat, pathCost: map<nat, nat>)
    requires n < |nodes| && PathTable(nodes, n, pathCost)
    ensures PathTable(nodes, n + 1, pathCost[nodes[n].id := PathCost(nodes, n)])
  {
    hide IndexOf, PathCost;
    var table := pathCost[nodes[n].id := PathCost(nodes, n)];
    forall id
      ensures id in table <==> IndexOf(nodes[..n + 1], id).Some?
      ensures id in table ==> table[id] == PathCost(nodes, IndexOf(nodes[..n + 1], id).value)
    {
      IndexAfter(nodes, n, id);
    }
  }

  lemma NextOperand(nodes: seq<Node>, i: nat, k: nat, pathCost: map<nat, nat>)
    requires i < |nodes| && k < |nodes[i].uses| && PathTable(nodes, i, pathCost)
    ensures var u := nodes[i].uses[k];
      StartCost(nodes, i, k + 1) ==
        if u.Of? && u.id in pathCost then Max(pathCost[u.id], StartCost(nodes, i, k)) else StartCost(nodes, i, k)
  {
    hide IndexOf, PathCost;
  }

  /** The bound the search starts from below. */
  method CriticalPath(nodes: seq<Node>) returns (longest: nat)
    ensures longest == LongestPath(nodes, |nodes|)
  {
    hide IndexOf, PathCost, StartCost, PathTable;
    var pathCost: map<nat, nat> := map[];
    longest := 0;
    EmptyTable(nodes);
    for i := 0 to |nodes|
      invariant longest == LongestPath(nodes, i) && PathTable(nodes, i, pathCost)
    {
      var startCost := 0;
      NoOperand(nodes, i);
      for k := 0 to |nodes[i].uses|
        invariant startCost == StartCost(nodes, i, k)
      {
        var u := nodes[i].uses[k];
        NextOperand(nodes, i, k, pathCost);
        if u.Of? {
          if u.id in pathCost && pathCost[u.id] > startCost {
            startCost := pathCost[u.id];
          }
        }
      }
      PathCostIs(nodes, i);
      NextInTable(nodes, i, pathCost);
      pathCost := pathCost[nodes[i].id := startCost + Cost(nodes[i])];
      if pathCost[nodes[i].id] > longest {
        longest := pathCost[nodes[i].id];
      }
    }
  }

  lemma EmptyTable(nodes: seq<Node>)
    ensures PathTable(nodes, 0, map[])
  {
  }

  lemma NoOperand(nodes: seq<Node>, i: nat)
    requires i < |nodes|
    ensures StartCost(nodes, i, 0) == 0
  {
  }

  lemma PathCostIs(nodes: seq<Node>, i: nat)
    requires i < |nodes|
    ensures PathCost(nodes, i) == StartCost(nodes, i, |nodes[i].uses|) + Cost(nodes[i])
  {
  }

  /** No chain that ends at `i` is heavier than its path cost. */
  lemma {:induction false} NoHeavierChain(nodes: seq<Node>, i: nat, chain: seq<nat>)
    requires DistinctIds(nodes) && ChainTo(nodes, chain, i)
    ensures ChainCost(nodes, chain) <= PathCost(nodes, i)
    decreases |chain|
  {
    hide StartCost, IndexOf;
    var n := |chain| - 1;
    if n > 0 {
      var j := chain[n - 1];
      NoHeavierChain(nodes, j, chain[..n]);
      var k :| 0 <= k < |nodes[i].uses| && nodes[i].uses[k].Of? && nodes[i].uses[k].id == nodes[j].id;
      StartCostCovers(nodes, i, |nodes[i].uses|, k, j);
    }
  }

  lemma {:induction false} StartCostCovers(nodes: seq<Node>, i: nat, n: nat, k: nat, j: nat)
    requires i < |nodes| && k < n <= |nodes[i].uses| && j < i && DistinctIds(nodes)
    requires nodes[i].uses[k].Of? && nodes[i].uses[k].id == nodes[j].id
    ensures PathCost(nodes, j) <= StartCost(nodes, i, n)
  {
    hide PathCost, IndexOf;
    if k == n - 1 {
      IndexIs(nodes[..i], j);
    } else {
      StartCostCovers(nodes, i, n - 1, k, j);
    }
  }

  lemma IndexIs(nodes: seq<Node>, j: nat)
    requires j < |nodes| && DistinctIds(nodes)
    ensures IndexOf(nodes, nodes[j].id) == Some(j)
  {
  }

  /** A chain that ends at `i` and weighs its path cost. */
  lemma {:induction false} HeaviestTo(nodes: seq<Node>, i: nat) returns (chain: seq<nat>)
    requires i < |nodes|
    ensures ChainTo(nodes, chain, i) && ChainCost(nodes, chain) == PathCost(nodes, i)
    decreases i, 1, 0
  {
    hide StartCost;
    var front := HeaviestInto(nodes, i, |nodes[i].uses|);
    chain := front + [i];
    assert chain[..|front|] == front;
  }

  /** A chain that can go in front of `i` and weighs what its first `k` operands ask for. */
  lemma {:induction false} HeaviestInto(nodes: seq<Node>, i: nat, k: nat) returns (chain: seq<nat>)
    requires i < |nodes| && k <= |nodes[i].uses|
    ensures IsChain(nodes, chain) && ChainCost(nodes, chain) == StartCost(nodes, i, k)
    ensures chain != [] ==> Linked(nodes, chain[|chain| - 1], i)
    decreases i, 0, k
  {
    hide PathCost, IndexOf;
    if k == 0 {
      chain := [];
    } else {
      chain := HeaviestInto(nodes, i, k - 1);
      var u := nodes[i].uses[k - 1];
      if u.Of? {
        var at := IndexOf(nodes[..i], u.id);
        if at.Some? && PathCost(nodes, at.value) > StartCost(nodes, i, k - 1) {
          chain := HeaviestTo(nodes, at.value);
          assert DependsOn(nodes, i, at.value);
        }
      }
    }
  }

  /** The critical path is the weight of the heaviest dependence chain: none is heavier. */
  lemma {:induction false} NoneHeavier(nodes: seq<Node>, n: nat, chain: seq<nat>)
    requires n <= |nodes| && DistinctIds(nodes) && ChainBelow(nodes, chain, n)
    ensures ChainCost(nodes, chain) <= LongestPath(nodes, n)
  {
    hide PathCost, IsChain;
    if chain != [] {
      if chain[|chain| - 1] == n - 1 {
        NoHeavierChain(nodes, n - 1, chain);
      } else {
        NoneHeavier(nodes, n - 1, chain);
      }
    }
  }

  /** And one is as heavy. */
  lemma {:induction false} HeaviestChain(nodes: seq<Node>, n: nat) returns (chain: seq<nat>)
    requires n <= |nodes|
    ensures ChainBelow(nodes, chain, n) && ChainCost(nodes, chain) == LongestPath(nodes, n)
  {
    hide PathCost;
    if n == 0 {
      chain := [];
    } else if PathCost(nodes, n - 1) > LongestPath(nodes, n - 1) {
      chain := HeaviestTo(nodes, n - 1);
    } else {
      chain := HeaviestChain(nodes, n - 1);
    }
  }

  /** A chain visits each instruction at most once, so it weighs no more than the block. */
  lemma {:induction false} ChainWithinTotal(nodes: seq<Node>, chain: seq<nat>, n: nat)
    requires ChainBelow(nodes, chain, n) && n <= |nodes|
    ensures ChainCost(nodes, chain) <= TotalTime(nodes[..n])
    decreases n
  {
    if n > 0 {
      assert nodes[..n][..n - 1] == nodes[..n - 1];
      if |chain| > 0 && chain[|chain| - 1] == n - 1 {
        ChainWithinTotal(nodes, chain[..|chain| - 1], n - 1);
      } else {
        ChainWithinTotal(nodes, chain, n - 1);
      }
    }
  }

  /** Instruction `i` uses the result of `j` other than as a pointer. */
  predicate UsesValue(nodes: seq<Node>, i: nat, j: nat)
    requires i < |nodes| && j < |nodes|
  {
    exists k :: 0 <= k < |nodes[i].uses| && nodes[i].uses[k] == Of(nodes[j].id, false)
  }

  /** A value used in the block is ready before its user starts, and has been passed on unless it is a pointer. */
  lemma UserWaits(pr: Problem, s: seq<Placement>, latest: int, i: nat, j: nat)
    requires DistinctIds(pr.nodes) && Feasible(pr, s, latest)
    requires i < |pr.nodes| && j < |pr.nodes| && DependsOn(pr.nodes, i, j)
    ensures s[j].endTime <= s[i].startTime
    ensures UsesValue(pr.nodes, i, j) ==> s[j].endTime + pr.comms(s[i].partition, s[j].partition) <= s[i].startTime
  {
    IndexIs(pr.nodes, j);
    hide IndexOf;
    var k :| 0 <= k < |pr.nodes[i].uses| && pr.nodes[i].uses[k].Of? && pr.nodes[i].uses[k].id == pr.nodes[j].id;
    assert UseOk(pr, s, s[i], pr.nodes[i].uses[k]);
    if UsesValue(pr.nodes, i, j) {
      var v :| 0 <= v < |pr.nodes[i].uses| && pr.nodes[i].uses[v] == Of(pr.nodes[j].id, false);
      assert UseOk(pr, s, s[i], pr.nodes[i].uses[v]);
    }
  }

  /** With distances as costs a value is used no sooner than the steps of a shortest walk after it is ready. */
  lemma ValueTakesDistance(pr: Problem, s: seq<Placement>, latest: int, i: nat, k: nat, from: Cell, to: Cell)
    returns (steps: nat)
    requires Feasible(pr, s, latest) && pr.comms == GridComms(pr.columns)
    requires i < |pr.nodes| && k < |pr.nodes[i].uses| && pr.nodes[i].uses[k].Of? && !pr.nodes[i].uses[k].pointer
    requires Producer(pr, s, pr.nodes[i].uses[k].id).Some?
    requires InGrid(from, pr.rows, pr.columns) && InGrid(to, pr.rows, pr.columns)
    requires InRowOrder(s[i].partition, from, pr.columns)
    requires InRowOrder(Producer(pr, s, pr.nodes[i].uses[k].id).value.0, to, pr.columns)
    ensures StepsApart(from, to, steps, pr.rows, pr.columns)
    ensures s[i].startTime >= Producer(pr, s, pr.nodes[i].uses[k].id).value.1 + steps
  {
    var part := Producer(pr, s, pr.nodes[i].uses[k].id).value.0;
    assert UseOk(pr, s, s[i], pr.nodes[i].uses[k]);
    hide Feasible, Producer, StepsApart, CostForCommunication;
    CellBelow(from.row, from.column, pr.rows, pr.columns);
    CellBelow(to.row, to.column, pr.rows, pr.columns);
    CostIsDistance(pr.rows, pr.columns, s[i].partition, part, from, to);
    steps := CostForCommunication(s[i].partition, part, pr.columns);
  }

  lemma EndsByLatest(pr: Problem, s: seq<Placement>, latest: int, i: nat)
    requires Feasible(pr, s, latest) && i < |pr.nodes|
    ensures i < |s| && 0 <= s[i].startTime
    ensures s[i].endTime == s[i].startTime + Cost(pr.nodes[i]) && s[i].endTime <= latest
  {
    assert NodeOk(pr, s[i], Cost(pr.nodes[i]), latest);
  }

  /** In a feasible schedule a chain's cost has passed by the end of its last instruction. */
  lemma {:induction false} ChainTakesTime(pr: Problem, s: seq<Placement>, latest: int, i: nat, chain: seq<nat>)
    requires DistinctIds(pr.nodes) && Feasible(pr, s, latest) && ChainTo(pr.nodes, chain, i)
    ensures i < |s| && ChainCost(pr.nodes, chain) <= s[i].endTime
    decreases |chain|
  {
    hide Feasible;
    EndsByLatest(pr, s, latest, i);
    var n := |chain| - 1;
    if n > 0 {
      ChainTakesTime(pr, s, latest, chain[n - 1], chain[..n]);
      UserWaits(pr, s, latest, i, chain[n - 1]);
    }
  }

  /** The two bounds of the search are in order, and no feasible schedule is shorter than the lower one. */
  lemma BoundsHold(pr: Problem, s: seq<Placement>, latest: int)
    requires DistinctIds(pr.nodes)
    ensures LongestPath(pr.nodes, |pr.nodes|) <= TotalTime(pr.nodes)
    ensures Feasible(pr, s, latest) && pr.nodes != [] ==> LongestPath(pr.nodes, |pr.nodes|) <= latest
  {
    hide Feasible, LongestPath, TotalTime;
    var chain := HeaviestChain(pr.nodes, |pr.nodes|);
    ChainWithinTotal(pr.nodes, chain, |pr.nodes|);
    assert pr.nodes[..|pr.nodes|] == pr.nodes;
    if Feasible(pr, s, latest) && pr.nodes != [] {
      EndsByLatest(pr, s, latest, 0);
      if chain != [] {
        ChainTakesTime(pr, s, latest, chain[|chain| - 1], chain);
        EndsByLatest(pr, s, latest, chain[|chain| - 1]);
      }
    }
  }
}
