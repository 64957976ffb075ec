/**
 What earlier blocks demand of a block: a pointer keeps its users on its core, and so does
 memory that an earlier access may share. Instructions tied together in this way have a
 core in common exactly if no two demands on them differ. With that, whether a block has
 a feasible schedule is read off its instructions for either table of costs.
 */
module SchedulePins {
  import opened Common
  import opened CostModel
  import opened Schedule
  import opened SequentialSchedule
  import opened DependenceCycles
  import opened ScheduleExistence

  // ---------- Ties ----------

  /** Instruction `i` uses the result of `j` as a pointer. */
  predicate UsesPointer(nodes: seq<Node>, i: nat, j: nat)
    requires i < |nodes| && j < |nodes|
  {
    exists k :: 0 <= k < |nodes[i].uses| && nodes[i].uses[k] == Of(nodes[j].id, true)
  }

  /** A walk from `i` to `j` that the use of `j` by `i` closes. */
  predicate ClosedBy(nodes: seq<Node>, walk: seq<nat>, i: nat, j: nat) {
    IsCycle(nodes, walk) && walk[0] == i && walk[|walk| - 1] == j
  }

  /** Instruction `j` passes a value to `i` on a cycle. */
  ghost predicate PassesAround(nodes: seq<Node>, i: nat, j: nat) {
    i < |nodes| && j < |nodes| && UsesValue(nodes, i, j) && exists walk :: ClosedBy(nodes, walk, i, j)
  }

  /** One of the two uses the other as a pointer or, if `around`, is passed its value on a cycle. */
  ghost predicate Joined(nodes: seq<Node>, around: bool, i: nat, j: nat) {
    && i < |nodes| && j < |nodes|
    && (UsesPointer(nodes, i, j) || UsesPointer(nodes, j, i)
        || (around && (PassesAround(nodes, i, j) || PassesAround(nodes, j, i))))
  }

  ghost predicate TiePath(nodes: seq<Node>, around: bool, path: seq<nat>) {
    && path != [] && path[|path| - 1] < |nodes|
    && forall m :: 0 < m < |path| ==> Joined(nodes, around, path[m - 1], path[m])
  }

  /** The core a pointer from an earlier block ties its user to. */
  function PinsTo(pr: Problem, u: Use): Option<int> {
    if u.Of? && u.pointer && IndexOf(pr.nodes, u.id).None? && u.id in pr.previous
    then Some(pr.previous[u.id].place.partition) else None
  }

  /** Earlier blocks tie instruction `i` itself to `core`. */
  ghost predicate PinnedAt(pr: Problem, i: nat, core: int) {
    && i < |pr.nodes|
    && ((exists k :: 0 <= k < |pr.nodes[i].uses| && PinsTo(pr, pr.nodes[i].uses[k]) == Some(core))
        || (exists id :: Aliases(pr, pr.nodes[i], id) && pr.previous[id].place.partition == core))
  }

  /** Instruction `i` is tied, through others, to an instruction that is tied to `core`. */
  ghost predicate TiedTo(pr: Problem, around: bool, i: nat, core: int) {
    exists path :: TiePath(pr.nodes, around, path) && path[0] == i && PinnedAt(pr, path[|path| - 1], core)
  }

  /** Some instruction is tied to two cores. */
  ghost predicate PinConflict(pr: Problem, around: bool) {
    exists i: nat, c, d :: TiedTo(pr, around, i, c) && TiedTo(pr, around, i, d) && c != d
  }

  // ---------- Cores exist exactly without a conflict ----------

  /** Cores as demanded that are, if `around`, the same for instructions that pass values around a cycle. */
  ghost predicate CoresJoin(pr: Problem, around: bool, cores: seq<int>) {
    && CoresFit(pr, cores)
    && (around ==> forall i: nat, j: nat :: PassesAround(pr.nodes, i, j) ==> cores[i] == cores[j])
  }

  lemma PointerShares(pr: Problem, cores: seq<int>, i: nat, j: nat)
    requires DistinctIds(pr.nodes) && CoresFit(pr, cores)
    requires i < |pr.nodes| && j < |pr.nodes| && UsesPointer(pr.nodes, i, j)
    ensures cores[i] == cores[j]
  {
    IndexIs(pr.nodes, j);
    hide IndexOf;
    var k :| 0 <= k < |pr.nodes[i].uses| && pr.nodes[i].uses[k] == Of(pr.nodes[j].id, true);
    assert PointerAt(pr, cores, i, pr.nodes[i].uses[k]);
  }

  lemma JoinedShare(pr: Problem, around: bool, cores: seq<int>, i: nat, j: nat)
    requires DistinctIds(pr.nodes) && CoresJoin(pr, around, cores) && Joined(pr.nodes, around, i, j)
    ensures cores[i] == cores[j]
  {
    hide CoresFit, UsesPointer, PassesAround;
    assert |cores| == |pr.nodes| by { FitLength(pr, cores); }
    if UsesPointer(pr.nodes, i, j) {
      PointerShares(pr, cores, i, j);
    } else if UsesPointer(pr.nodes, j, i) {
      PointerShares(pr, cores, j, i);
    }
  }

  lemma FitLength(pr: Problem, cores: seq<int>)
    requires CoresFit(pr, cores)
    ensures |cores| == |pr.nodes|
  {
  }

  lemma PinHolds(pr: Problem, cores: seq<int>, i: nat, core: int)
    requires CoresFit(pr, cores) && PinnedAt(pr, i, core)
    ensures cores[i] == core
  {
    if k :| 0 <= k < |pr.nodes[i].uses| && PinsTo(pr, pr.nodes[i].uses[k]) == Some(core) {
      assert PointerAt(pr, cores, i, pr.nodes[i].uses[k]);
      hide IndexOf;
    } else {
      assert AliasesAt(pr, pr.nodes[i], cores[i]);
    }
  }

  lemma {:induction false} TieHolds(pr: Problem, around: bool, cores: seq<int>, path: seq<nat>)
    requires DistinctIds(pr.nodes) && CoresJoin(pr, around, cores) && TiePath(pr.nodes, around, path)
    ensures |cores| == |pr.nodes| && path[0] < |pr.nodes| && cores[path[0]] == cores[path[|path| - 1]]
    decreases |path|
  {
    FitLength(pr, cores);
    hide CoresJoin, UsesPointer, PassesAround;
    if |path| > 1 {
      assert Joined(pr.nodes, around, path[0], path[1]);
      assert forall m :: 0 < m < |path[1..]| ==> Joined(pr.nodes, around, path[m], path[m + 1]);
      TieHolds(pr, around, cores, path[1..]);
      JoinedShare(pr, around, cores, path[0], path[1]);
    }
  }

  lemma TiedHolds(pr: Problem, around: bool, cores: seq<int>, i: nat, core: int)
    requires DistinctIds(pr.nodes) && CoresJoin(pr, around, cores) && TiedTo(pr, around, i, core)
    ensures i < |cores| && cores[i] == core
  {
    hide CoresFit, Joined, PinnedAt;
    var path :| TiePath(pr.nodes, around, path) && path[0] == i && PinnedAt(pr, path[|path| - 1], core);
    TieHolds(pr, around, cores, path);
    PinHolds(pr, cores, path[|path| - 1], core);
  }

  /** Two instructions tied together are tied to the same cores. */
  lemma TiePasses(pr: Problem, around: bool, i: nat, j: nat, core: int)
    requires Joined(pr.nodes, around, i, j) && TiedTo(pr, around, j, core)
    ensures TiedTo(pr, around, i, core)
  {
    hide Joined, PinnedAt;
    var path :| TiePath(pr.nodes, around, path) && path[0] == j && PinnedAt(pr, path[|path| - 1], core);
    var longer := [i] + path;
    assert longer[|longer| - 1] == path[|path| - 1];
    forall m | 0 < m < |longer| ensures Joined(pr.nodes, around, longer[m - 1], longer[m]) {
      if m > 1 {
        assert Joined(pr.nodes, around, path[m - 2], path[m - 1]);
      }
    }
    assert TiePath(pr.nodes, around, longer);
  }

  lemma PinnedIsTied(pr: Problem, around: bool, i: nat, core: int)
    requires PinnedAt(pr, i, core)
    ensures TiedTo(pr, around, i, core)
  {
    assert TiePath(pr.nodes, around, [i]) && [i][0] == i;
  }

  /** The core an instruction is tied to; core 0 if it is tied to none. */
  ghost function CoreByTies(pr: Problem, around: bool, i: nat): int {
    if exists core :: TiedTo(pr, around, i, core) then
      var core :| TiedTo(pr, around, i, core);
      core
    else 0
  }

  lemma CoreByTiesIs(pr: Problem, around: bool, i: nat, core: int)
    requires !PinConflict(pr, around) && TiedTo(pr, around, i, core)
    ensures CoreByTies(pr, around, i) == core
  {
    hide TiedTo;
  }

  lemma JoinedByTies(pr: Problem, around: bool, i: nat, j: nat)
    requires !PinConflict(pr, around) && Joined(pr.nodes, around, i, j)
    ensures CoreByTies(pr, around, i) == CoreByTies(pr, around, j)
  {
    assert Joined(pr.nodes, around, j, i);
    hide TiedTo, Joined, PinConflict;
    if core :| TiedTo(pr, around, i, core) {
      TiePasses(pr, around, j, i, core);
      CoreByTiesIs(pr, around, i, core);
      CoreByTiesIs(pr, around, j, core);
    } else if core :| TiedTo(pr, around, j, core) {
      TiePasses(pr, around, i, j, core);
      assert false;
    }
  }

  lemma TiedInGrid(pr: Problem, around: bool, i: nat, core: int)
    requires Proper(pr) && TiedTo(pr, around, i, core)
    ensures 0 <= core < pr.rows * pr.columns
  {
    hide Joined, DistinctIds;
    var path :| TiePath(pr.nodes, around, path) && path[0] == i && PinnedAt(pr, path[|path| - 1], core);
  }

  ghost function CoresByTies(pr: Problem, around: bool): (cores: seq<int>)
    ensures |cores| == |pr.nodes|
  {
    seq(|pr.nodes|, i requires 0 <= i < |pr.nodes| => CoreByTies(pr, around, i))
  }

  lemma TiesPlacePointers(pr: Problem, around: bool, i: nat, k: nat)
    requires !PinConflict(pr, around) && i < |pr.nodes| && k < |pr.nodes[i].uses|
    ensures PointerAt(pr, CoresByTies(pr, around), i, pr.nodes[i].uses[k])
  {
    hide PinConflict, TiedTo, CoreByTies;
    var u := pr.nodes[i].uses[k];
    if u.Of? && u.pointer {
      var at := IndexOf(pr.nodes, u.id);
      hide IndexOf;
      if at.Some? {
        assert u == Of(pr.nodes[at.value].id, true);
        assert Joined(pr.nodes, around, i, at.value);
        hide Joined;
        JoinedByTies(pr, around, i, at.value);
      } else if u.id in pr.previous {
        var core := pr.previous[u.id].place.partition;
        assert PinsTo(pr, u) == Some(core);
        PinnedIsTied(pr, around, i, core);
        CoreByTiesIs(pr, around, i, core);
      }
    }
  }

  lemma TiesPlaceAliases(pr: Problem, around: bool, i: nat)
    requires !PinConflict(pr, around) && i < |pr.nodes|
    ensures AliasesAt(pr, pr.nodes[i], CoresByTies(pr, around)[i])
  {
    hide PinConflict, TiedTo, CoreByTies;
    forall id | Aliases(pr, pr.nodes[i], id)
      ensures CoresByTies(pr, around)[i] == pr.previous[id].place.partition
    {
      assert PinnedAt(pr, i, pr.previous[id].place.partition);
      PinnedIsTied(pr, around, i, pr.previous[id].place.partition);
      CoreByTiesIs(pr, around, i, pr.previous[id].place.partition);
    }
  }

  lemma TiesPlaceAll(pr: Problem, around: bool)
    requires Proper(pr) && !PinConflict(pr, around)
    ensures CoresJoin(pr, around, CoresByTies(pr, around))
  {
    hide Proper, PinConflict, TiedTo, PointerAt, AliasesAt, ClosedBy, UsesValue;
    var cores := CoresByTies(pr, around);
    forall i | 0 <= i < |cores| ensures 0 <= cores[i] < pr.rows * pr.columns && AliasesAt(pr, pr.nodes[i], cores[i]) {
      TiesPlaceAliases(pr, around, i);
      ZeroInGrid(pr);
      if core :| TiedTo(pr, around, i, core) {
        CoreByTiesIs(pr, around, i, core);
        TiedInGrid(pr, around, i, core);
      }
    }
    forall i, k | 0 <= i < |cores| && 0 <= k < |pr.nodes[i].uses|
      ensures PointerAt(pr, cores, i, pr.nodes[i].uses[k])
    {
      TiesPlacePointers(pr, around, i, k);
    }
    forall i: nat, j: nat | around && PassesAround(pr.nodes, i, j) ensures cores[i] == cores[j] {
      AroundIsJoined(pr.nodes, i, j);
      JoinedByTies(pr, around, i, j);
    }
  }

  lemma AroundIsJoined(nodes: seq<Node>, i: nat, j: nat)
    requires PassesAround(nodes, i, j)
    ensures Joined(nodes, true, i, j)
  {
  }

  /** The instructions have cores as demanded exactly if none is tied to two. */
  lemma CoresExist(pr: Problem, around: bool)
    requires Proper(pr)
    ensures (exists cores :: CoresJoin(pr, around, cores)) <==> !PinConflict(pr, around)
  {
    hide CoresJoin, TiedTo;
    if !PinConflict(pr, around) {
      TiesPlaceAll(pr, around);
    } else if cores :| CoresJoin(pr, around, cores) {
      var i: nat, c, d :| TiedTo(pr, around, i, c) && TiedTo(pr, around, i, d) && c != d;
      TiedHolds(pr, around, cores, i, c);
      TiedHolds(pr, around, cores, i, d);
      assert false;
    }
  }

  /** No table of costs makes up for an instruction tied to two cores. */
  lemma ConflictHasNoSchedule(pr: Problem, s: seq<Placement>, latest: int)
    requires Proper(pr) && PinConflict(pr, false)
    ensures !Feasible(pr, s, latest)
  {
    hide Feasible, CoresFit, PinConflict;
    if Feasible(pr, s, latest) {
      ScheduledCoresFit(pr, s, latest);
      assert CoresJoin(pr, false, CoresOf(s));
      CoresExist(pr, false);
      assert false;
    }
  }

  /** In particular, nor does one that uses pointers of earlier blocks on two cores. */
  lemma PinnedTwiceHasNoSchedule(pr: Problem, i: nat, k: nat, l: nat, s: seq<Placement>, latest: int)
    requires i < |pr.nodes| && k < |pr.nodes[i].uses| && l < |pr.nodes[i].uses|
    requires PinsTo(pr, pr.nodes[i].uses[k]).Some? && PinsTo(pr, pr.nodes[i].uses[l]).Some?
    requires PinsTo(pr, pr.nodes[i].uses[k]) != PinsTo(pr, pr.nodes[i].uses[l])
    ensures !Feasible(pr, s, latest)
  {
    hide PinsTo, Feasible, CoresFit;
    if Feasible(pr, s, latest) {
      ScheduledCoresFit(pr, s, latest);
      PinHolds(pr, CoresOf(s), i, PinsTo(pr, pr.nodes[i].uses[k]).value);
      PinHolds(pr, CoresOf(s), i, PinsTo(pr, pr.nodes[i].uses[l]).value);
      assert false;
    }
  }

  // ---------- Passing a value costs the same everywhere ----------

  /** With the same cost of one everywhere: exactly without a tie to two cores and without a costly cycle. */
  lemma ScheduleExistsAtConstantCost(pr: Problem)
    requires Proper(pr) && pr.comms == ConstantComms()
    ensures HasSchedule(pr) <==> !PinConflict(pr, false) && !CostlyCycle(pr.nodes, Same(1))
  {
    hide Proper, HasSchedule, PinConflict, CostlyCycle, CoresFit, PassOn;
    ScheduleExists(pr);
    CoresExist(pr, false);
    forall cores | CoresFit(pr, cores)
      ensures CoresJoin(pr, false, cores)
      ensures CostlyCycle(pr.nodes, PassOn(pr, cores)) <==> CostlyCycle(pr.nodes, Same(1))
    {
      ConstantPass(pr, cores);
      CostlyGrows(pr.nodes, PassOn(pr, cores), Same(1));
      CostlyGrows(pr.nodes, Same(1), PassOn(pr, cores));
    }
    forall cores | CoresJoin(pr, false, cores) ensures CoresFit(pr, cores) {}
  }

  lemma ConstantPass(pr: Problem, cores: seq<int>)
    requires CoresFit(pr, cores) && pr.comms == ConstantComms()
    ensures NoDearer(pr.nodes, PassOn(pr, cores), Same(1)) && NoDearer(pr.nodes, Same(1), PassOn(pr, cores))
  {
    FitLength(pr, cores);
    hide CoresFit, UsesValue;
  }

  // ---------- Passing a value costs the distance ----------

  /** A cycle can be entered at any of its uses. */
  lemma Rotated(nodes: seq<Node>, walk: seq<nat>, m: nat) returns (turned: seq<nat>)
    requires IsCycle(nodes, walk) && 0 < m < |walk|
    ensures ClosedBy(nodes, turned, walk[m], walk[m - 1])
  {
    hide IsWalk, Follows;
    var front, back := walk[..m], walk[m..];
    assert walk == front + back;
    WalkOfJoin(nodes, front, back);
    WalkOfJoin(nodes, back, front);
    turned := back + front;
    assert turned[|turned| - 1] == walk[m - 1];
  }

  lemma DistanceIsZero(pr: Problem, cores: seq<int>, i: nat, j: nat)
    requires Proper(pr) && pr.comms == GridComms(pr.columns) && CoresFit(pr, cores)
    requires i < |pr.nodes| && j < |pr.nodes|
    ensures PassOn(pr, cores)(i, j) == 0 <==> cores[i] == cores[j]
  {
    FitLength(pr, cores);
    assert 0 <= cores[i] < pr.rows * pr.columns && 0 <= cores[j] < pr.rows * pr.columns;
    hide CoresFit;
    CommunicationIsMetric(pr.rows, pr.columns, cores[i], cores[j], cores[i]);
  }

  /** Without a costly cycle, values passed around a cycle stay on their core. */
  lemma AroundStaysHome(pr: Problem, cores: seq<int>, i: nat, j: nat)
    requires Proper(pr) && pr.comms == GridComms(pr.columns) && CoresFit(pr, cores)
    requires !CostlyCycle(pr.nodes, PassOn(pr, cores)) && PassesAround(pr.nodes, i, j)
    ensures cores[i] == cores[j]
  {
    hide Proper, CoresFit, PassOn, IsWalk, Weight, Follows, UsesValue;
    var walk :| ClosedBy(pr.nodes, walk, i, j);
    assert CycleWeight(pr.nodes, PassOn(pr, cores), walk) == 0;
    DistanceIsZero(pr, cores, i, j);
  }

  /** Where they do, a cycle costs what its instructions cost. */
  lemma EdgeStaysHome(pr: Problem, cores: seq<int>, i: nat, j: nat, walk: seq<nat>)
    requires Proper(pr) && pr.comms == GridComms(pr.columns) && CoresJoin(pr, true, cores)
    requires ClosedBy(pr.nodes, walk, i, j)
    ensures EdgeCost(pr.nodes, PassOn(pr, cores), i, j) == 0
  {
    hide Proper, CoresFit, PassOn, IsCycle, UsesValue;
    if EdgeCost(pr.nodes, PassOn(pr, cores), i, j) != 0 {
      assert PassesAround(pr.nodes, i, j);
      DistanceIsZero(pr, cores, i, j);
    }
  }

  lemma CycleStaysHome(pr: Problem, cores: seq<int>, walk: seq<nat>)
    requires Proper(pr) && pr.comms == GridComms(pr.columns) && CoresJoin(pr, true, cores) && IsCycle(pr.nodes, walk)
    ensures CycleWeight(pr.nodes, PassOn(pr, cores), walk) == ChainCost(pr.nodes, walk)
  {
    hide Proper, CoresJoin, EdgeCost, PassOn, GridComms, IsWalk, Follows, Weight, ChainCost;
    forall m | 0 < m < |walk| ensures EdgeCost(pr.nodes, PassOn(pr, cores), walk[m], walk[m - 1]) == 0 {
      var turned := Rotated(pr.nodes, walk, m);
      EdgeStaysHome(pr, cores, walk[m], walk[m - 1], turned);
    }
    FreeWeight(pr.nodes, PassOn(pr, cores), walk);
    EdgeStaysHome(pr, cores, walk[0], walk[|walk| - 1], walk);
  }

  ghost predicate WorkingCycle(nodes: seq<Node>) {
    exists walk :: IsCycle(nodes, walk) && ChainCost(nodes, walk) > 0
  }

  /** On the grid fitting cores leave every cycle free exactly if values stay home on it and it does no work. */
  lemma FreeOnGrid(pr: Problem, cores: seq<int>)
    requires Proper(pr) && pr.comms == GridComms(pr.columns) && CoresFit(pr, cores)
    ensures !CostlyCycle(pr.nodes, PassOn(pr, cores)) <==> CoresJoin(pr, true, cores) && !WorkingCycle(pr.nodes)
  {
    FitLength(pr, cores);
    hide Proper, CoresFit, ClosedBy, UsesValue, PassOn, GridComms, IsWalk, Follows, Weight, ChainCost, Edge;
    if !CostlyCycle(pr.nodes, PassOn(pr, cores)) {
      forall i: nat, j: nat | PassesAround(pr.nodes, i, j) ensures cores[i] == cores[j] {
        AroundStaysHome(pr, cores, i, j);
      }
      forall walk | IsCycle(pr.nodes, walk) ensures ChainCost(pr.nodes, walk) == 0 {
        assert CycleWeight(pr.nodes, PassOn(pr, cores), walk) == 0;
        ChainWithinWeight(pr.nodes, PassOn(pr, cores), walk);
      }
    } else if CoresJoin(pr, true, cores) {
      var walk :| IsCycle(pr.nodes, walk) && CycleWeight(pr.nodes, PassOn(pr, cores), walk) > 0;
      CycleStaysHome(pr, cores, walk);
    }
  }

  /**
   With distances as costs: exactly if no cycle holds an instruction of positive cost and no
   instruction is tied to two cores, where passing a value around a cycle ties as well.
   */
  lemma ScheduleExistsOnGrid(pr: Problem)
    requires Proper(pr) && pr.comms == GridComms(pr.columns)
    ensures HasSchedule(pr) <==> !PinConflict(pr, true) && !WorkingCycle(pr.nodes)
  {
    hide Proper, HasSchedule, PinConflict, CostlyCycle, CoresFit, PassOn, GridComms, WorkingCycle;
    ScheduleExists(pr);
    CoresExist(pr, true);
    forall cores | CoresFit(pr, cores)
      ensures !CostlyCycle(pr.nodes, PassOn(pr, cores)) <==> CoresJoin(pr, true, cores) && !WorkingCycle(pr.nodes)
    {
      FreeOnGrid(pr, cores);
    }
  }

  // ---------- Any table ----------

  /** Earlier blocks tie the block to no core but `core`. */
  ghost predicate TiedToOne(pr: Problem, core: int) {
    0 <= core < pr.rows * pr.columns && forall i, c :: PinnedAt(pr, i, c) ==> c == core
  }

  /**
   A block tied to no core but one, on which passing a value is cheapest, has a schedule
   exactly if no cycle costs anything there.
   */
  lemma ScheduleExistsOnOneCore(pr: Problem, core: int)
    requires Proper(pr) && TiedToOne(pr, core) && PassAtLeast(pr, pr.comms(core, core))
    ensures HasSchedule(pr) <==> !CostlyCycle(pr.nodes, Same(pr.comms(core, core)))
  {
    hide Proper, HasSchedule, TiedToOne, PassAtLeast, CostlyCycle, CoresFit, PassOn;
    ScheduleExists(pr);
    var pass := Same(pr.comms(core, core));
    forall cores | CoresFit(pr, cores)
      ensures CostlyCycle(pr.nodes, pass) ==> CostlyCycle(pr.nodes, PassOn(pr, cores))
    {
      CheapestPass(pr, pr.comms(core, core), cores);
      CostlyGrows(pr.nodes, pass, PassOn(pr, cores));
    }
    var cores := AllOn(pr, core);
    CostlyGrows(pr.nodes, PassOn(pr, cores), pass);
  }

  lemma AllOn(pr: Problem, core: int) returns (cores: seq<int>)
    requires TiedToOne(pr, core)
    ensures CoresFit(pr, cores) && NoDearer(pr.nodes, PassOn(pr, cores), Same(pr.comms(core, core)))
  {
    cores := seq(|pr.nodes|, i => core);
    hide UsesValue;
    forall i, k | 0 <= i < |cores| && 0 <= k < |pr.nodes[i].uses|
      ensures PointerAt(pr, cores, i, pr.nodes[i].uses[k])
    {
      var pin := PinsTo(pr, pr.nodes[i].uses[k]);
      assert pin.Some? ==> PinnedAt(pr, i, pin.value);
      hide IndexOf;
    }
    forall i | 0 <= i < |cores| ensures AliasesAt(pr, pr.nodes[i], cores[i]) {
      forall id | Aliases(pr, pr.nodes[i], id) ensures core == pr.previous[id].place.partition {
        assert PinnedAt(pr, i, pr.previous[id].place.partition);
      }
    }
  }

  /** Within the block nothing uses itself or what comes later. */
  ghost predicate Ordered(nodes: seq<Node>) {
    forall i, j :: 0 <= i < |nodes| && 0 <= j < |nodes| && DependsOn(nodes, i, j) ==> j < i
  }

  lemma {:induction false} OrderedWalkRises(nodes: seq<Node>, walk: seq<nat>)
    requires Ordered(nodes) && IsWalk(nodes, walk) && walk != []
    ensures walk[0] <= walk[|walk| - 1]
  {
    hide DependsOn;
    if |walk| > 1 {
      OrderedWalkRises(nodes, walk[..|walk| - 1]);
    }
  }

  /** Whatever passing values costs, an ordered block has a schedule exactly if no instruction is tied to two cores. */
  lemma OrderedIsFeasible(pr: Problem)
    requires Proper(pr) && Ordered(pr.nodes)
    ensures HasSchedule(pr) <==> !PinConflict(pr, false)
  {
    hide Proper, HasSchedule, PinConflict, CostlyCycle, CoresFit, PassOn, Ordered;
    ScheduleExists(pr);
    CoresExist(pr, false);
    forall cores | CoresFit(pr, cores)
      ensures CoresJoin(pr, false, cores) && !CostlyCycle(pr.nodes, PassOn(pr, cores))
    {
      NoOrderedCycle(pr.nodes, PassOn(pr, cores));
    }
    forall cores | CoresJoin(pr, false, cores) ensures CoresFit(pr, cores) {}
  }

  lemma NoOrderedCycle(nodes: seq<Node>, pass: PassCost)
    requires Ordered(nodes)
    ensures !CostlyCycle(nodes, pass)
  {
    hide IsWalk, Weight, DependsOn;
    forall walk ensures !IsCycle(nodes, walk) {
      if IsCycle(nodes, walk) {
        OrderedWalkRises(nodes, walk);
        assert false;
      }
    }
  }
}
