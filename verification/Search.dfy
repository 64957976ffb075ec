/**
 The searches for a shortest schedule. The solver is an oracle: asked for a schedule that
 ends before a goal it gives one or gives up, and may answer the same question differently
 each time.
 */
module Search {
  import opened Common

  datatype Model<S> = Model(schedule: S, latest: int)

  /** The answer to question number `n`: a schedule with a latest time below the goal, or none. */
  type Solver<!S> = (nat, int) -> Option<Model<S>>

  ghost predicate Sound<S(!new)>(feasible: (S, int) -> bool, solver: Solver<S>) {
    forall n: nat, goal {:trigger solver(n, goal)} :: solver(n, goal).Some? ==>
      solver(n, goal).value.latest < goal && feasible(solver(n, goal).value.schedule, solver(n, goal).value.latest)
  }

  ghost predicate IsAnswer<S(!new)>(solver: Solver<S>, r: Option<Model<S>>) {
    exists n: nat, goal :: solver(n, goal) == r
  }

  /** A solver that never runs out of time. */
  ghost predicate Complete<S(!new)>(feasible: (S, int) -> bool, solver: Solver<S>) {
    forall n: nat, goal, s, latest :: solver(n, goal).None? && feasible(s, latest) ==> latest >= goal
  }

  ghost predicate AtLeast<S(!new)>(feasible: (S, int) -> bool, bound: int) {
    forall s, latest :: feasible(s, latest) ==> bound <= latest
  }

  /** The time a search settles for: its model's, or the starting bound when it has none. */
  function TimeOf<S>(best: Option<Model<S>>, upper: int): int {
    if best.Some? then best.value.latest else upper
  }

  // ---------- Logarithm ----------

  function CeilLog2(n: int): nat
    decreases if n < 0 then 0 else n
  {
    if n <= 1 then 0 else 1 + CeilLog2((n + 1) / 2)
  }

  lemma {:induction false} CeilLog2Is(n: nat)
    requires n > 0
    ensures n <= Pow2(CeilLog2(n))
    ensures n > 1 ==> Pow2(CeilLog2(n) - 1) < n
    decreases n
  {
    if n > 1 {
      CeilLog2Is((n + 1) / 2);
    }
  }

  lemma {:induction false} CeilLog2Grows(m: int, n: int)
    requires m <= n
    ensures CeilLog2(m) <= CeilLog2(n)
    decreases if n < 0 then 0 else n
  {
    if m > 1 {
      CeilLog2Grows((m + 1) / 2, (n + 1) / 2);
    }
  }

  // ---------- Binary search ----------

  /** What a search may answer: its starting bound, or the time of a feasible schedule below it. */
  ghost predicate Attained<S(!new)>(feasible: (S, int) -> bool, upper: int, time: int) {
    time == upper || (time < upper && exists s :: feasible(s, time))
  }

  /** At most `slack` above the latest time of every feasible schedule. */
  ghost predicate Within<S(!new)>(feasible: (S, int) -> bool, time: int, slack: nat) {
    forall s, latest :: feasible(s, latest) ==> time <= latest + slack
  }

  /** The midpoint, with the division of a non-negative difference. */
  function Midpoint(lower: int, upper: int): int {
    lower + (upper - lower) / 2
  }

  /** At most this many questions. */
  function CallBound(gap: int): nat {
    if gap <= 2 then 1 else CeilLog2(gap)
  }

  method BinarySearch<S(!new)>(ghost feasible: (S, int) -> bool, solver: Solver<S>, upperBound: int, lowerBound: int)
    returns (bestModel: Option<Model<S>>, calls: nat)
    requires lowerBound < upperBound && Sound(feasible, solver) && AtLeast(feasible, lowerBound)
    ensures bestModel.Some? ==>
      feasible(bestModel.value.schedule, bestModel.value.latest) && bestModel.value.latest < upperBound
    ensures Attained(feasible, upperBound, TimeOf(bestModel, upperBound))
    ensures 1 <= calls <= CallBound(upperBound - lowerBound)
    ensures Complete(feasible, solver) ==> Within(feasible, TimeOf(bestModel, upperBound), 1)
    // a schedule only one shorter than the bound is never found, whatever the solver
    ensures AtLeast(feasible, upperBound - 1) ==> bestModel == None
    ensures Complete(feasible, solver) ==> (bestModel == None <==> AtLeast(feasible, upperBound - 1))
    // an answer to the first question is not lost, and the result is an answer
    ensures solver(0, Midpoint(lowerBound, upperBound)).Some? ==> bestModel.Some?
    ensures bestModel.Some? ==> IsAnswer(solver, bestModel)
  {
    var lower, upper := lowerBound, upperBound;
    bestModel, calls := None, 0;
    while true
      invariant lower < upper && upper == TimeOf(bestModel, upperBound) && (bestModel.Some? ==> upper < upperBound)
      invariant calls > 0 ==> upper - lower >= 2
      invariant calls + CeilLog2(upper - lower) <= CeilLog2(upperBound - lowerBound)
      invariant AtLeast(feasible, upperBound - 1) ==> bestModel == None
      invariant calls == 0 ==> lower == lowerBound && upper == upperBound
      invariant bestModel.Some? ==> feasible(bestModel.value.schedule, bestModel.value.latest)
      invariant Complete(feasible, solver) ==> AtLeast(feasible, lower)
      invariant calls > 0 && solver(0, Midpoint(lowerBound, upperBound)).Some? ==> bestModel.Some?
      invariant bestModel.Some? ==> IsAnswer(solver, bestModel)
      decreases upper - lower
    {
      ghost var gap := upper - lower;
      var goal := Midpoint(lower, upper);
      var m := solver(calls, goal);
      calls := calls + 1;
      if m.None? {
        lower := goal;
      } else {
        upper := m.value.latest;
        bestModel := m;
      }
      CeilLog2Grows(upper - lower, (gap + 1) / 2);
      if upper - lower < 2 {
        break;
      }
    }
  }

  // ---------- Linear search ----------

  predicate Decreasing(goals: seq<int>) {
    forall i, j :: 0 <= i < j < |goals| ==> goals[j] < goals[i]
  }

  /** Each question but the last has an answer, and the next goal is its latest time. */
  predicate GoalsFollow<S(!new)>(solver: Solver<S>, goals: seq<int>) {
    if |goals| < 2 then true
    else
      var n := |goals| - 1;
      && GoalsFollow(solver, goals[..n])
      && solver(n - 1, goals[n - 1]).Some? && goals[n] == solver(n - 1, goals[n - 1]).value.latest
  }

  lemma NoGoals<S(!new)>(solver: Solver<S>)
    ensures GoalsFollow(solver, [])
  {
  }

  lemma OneMoreGoal<S(!new)>(solver: Solver<S>, goals: seq<int>, goal: int)
    requires GoalsFollow(solver, goals)
    requires goals != [] ==>
      var n := |goals| - 1; solver(n, goals[n]).Some? && goal == solver(n, goals[n]).value.latest
    ensures GoalsFollow(solver, goals + [goal])
  {
    assert (goals + [goal])[..|goals|] == goals;
  }

  method LinearSearch<S(!new)>(ghost feasible: (S, int) -> bool, solver: Solver<S>, upperBound: int, lowerBound: int)
    returns (bestModel: Option<Model<S>>, goals: seq<int>)
    requires lowerBound <= upperBound && Sound(feasible, solver) && AtLeast(feasible, lowerBound)
    ensures bestModel.Some? ==>
      feasible(bestModel.value.schedule, bestModel.value.latest) && bestModel.value.latest < upperBound
    ensures Attained(feasible, upperBound, TimeOf(bestModel, upperBound))
    ensures Decreasing(goals) && 1 <= |goals| <= upperBound - lowerBound + 1
    ensures Complete(feasible, solver) ==> Within(feasible, TimeOf(bestModel, upperBound), 0)
    ensures AtLeast(feasible, upperBound) ==> bestModel == None
    ensures Complete(feasible, solver) ==> (bestModel == None <==> AtLeast(feasible, upperBound))
    // each goal but the first is the latest time of the answer before it; the last question has no answer
    ensures goals[0] == upperBound && GoalsFollow(solver, goals) && solver(|goals| - 1, goals[|goals| - 1]).None?
    ensures bestModel == if |goals| == 1 then None else solver(|goals| - 2, goals[|goals| - 2])
  {
    hide GoalsFollow;
    var upper := upperBound;
    bestModel, goals := None, [];
    NoGoals(solver);
    while true
      invariant lowerBound <= upper && upper == TimeOf(bestModel, upperBound) && (bestModel.Some? ==>
        upper < upperBound)
      invariant Decreasing(goals) && (forall i :: 0 <= i < |goals| ==> upper < goals[i])
      invariant |goals| <= upperBound - upper
      invariant AtLeast(feasible, upperBound) ==> bestModel == None
      invariant bestModel.Some? ==> feasible(bestModel.value.schedule, bestModel.value.latest)
      invariant GoalsFollow(solver, goals) && (goals != [] ==> goals[0] == upperBound)
      invariant bestModel == if goals == [] then None else solver(|goals| - 1, goals[|goals| - 1])
      invariant goals == [] || bestModel.Some?
      decreases upper - lowerBound
    {
      var m := solver(|goals|, upper);
      OneMoreGoal(solver, goals, upper);
      goals := goals + [upper];
      if m.None? {
        break;
      }
      bestModel := m;
      upper := m.value.latest;
    }
  }

  /** With a complete solver the two searches settle for times at most one apart, the binary one never lower. */
  lemma SearchesAgree<S(!new)>(feasible: (S, int) -> bool, upper: int, binary: int, linear: int)
    requires Attained(feasible, upper, binary) && Within(feasible, binary, 1)
    requires Attained(feasible, upper, linear) && Within(feasible, linear, 0)
    ensures linear <= binary <= linear + 1
  {
  }

  // ---------- The OCaml loop ----------

  /** There the goal itself is still allowed, and the loop goes on one below the best time. */
  ghost predicate SoundUpTo<S(!new)>(feasible: (S, int) -> bool, solver: Solver<S>) {
    forall n: nat, goal {:trigger solver(n, goal)} :: solver(n, goal).Some? ==>
      solver(n, goal).value.latest <= goal && feasible(solver(n, goal).value.schedule, solver(n, goal).value.latest)
  }

  ghost predicate CompleteUpTo<S(!new)>(feasible: (S, int) -> bool, solver: Solver<S>) {
    forall n: nat, goal, s, latest :: solver(n, goal).None? && feasible(s, latest) ==> latest > goal
  }

  /** `n` numbers the questions. */
  function IncrementalSolveLoop<S(!new)>(ghost feasible: (S, int) -> bool, ghost floor: int,
                                         solver: Solver<S>, n: nat, goal: int, best: Option<Model<S>>): Option<Model<S>>
    requires SoundUpTo(feasible, solver) && AtLeast(feasible, floor)
    decreases if goal < floor then 0 else goal - floor + 1
  {
    match solver(n, goal)
    case Some(m) => IncrementalSolveLoop(feasible, floor, solver, n + 1, m.latest - 1, Some(m))
    case None => best
  }

  /** `r` is a shortest schedule, or there is none up to `goal`. */
  ghost predicate Shortest<S(!new)>(feasible: (S, int) -> bool, goal: int, r: Option<Model<S>>) {
    match r
    case Some(m) => Within(feasible, m.latest, 0)
    case None => Within(feasible, goal + 1, 0)
  }

  /** The loop ends with the shortest schedule not above its first goal, or with nothing if there is none. */
  lemma {:induction false} LoopFindsShortest<S(!new)>(feasible: (S, int) -> bool, floor: int, solver: Solver<S>,
                                                      n: nat, goal: int, best: Option<Model<S>>)
    requires SoundUpTo(feasible, solver) && AtLeast(feasible, floor)
    requires best.Some? ==> feasible(best.value.schedule, best.value.latest) && goal == best.value.latest - 1
    ensures var r := IncrementalSolveLoop(feasible, floor, solver, n, goal, best);
      && (best.Some? ==> r.Some? && r.value.latest <= best.value.latest)
      && (r.Some? ==> feasible(r.value.schedule, r.value.latest) && (best.None? ==> r.value.latest <= goal))
      && (CompleteUpTo(feasible, solver) ==> Shortest(feasible, goal, r))
      // the first answer decides whether there is a result, and a result is an answer
      && (best.None? ==> (r.Some? <==> solver(n, goal).Some?))
      && (r != best ==> IsAnswer(solver, r))
    decreases if goal < floor then 0 else goal - floor + 1
  {
    var m := solver(n, goal);
    if m.Some? {
      LoopFindsShortest(feasible, floor, solver, n + 1, m.value.latest - 1, m);
    } else if CompleteUpTo(feasible, solver) {
      forall s, latest | feasible(s, latest) ensures latest > goal {
        assert solver(n, goal).None? && feasible(s, latest);
      }
    }
  }
}
