/** The seven frontier-and-closed-set drivers of
    backend/service/implementation/TaskSchedulingSearch.py, each an
    instance of the shared `Search` loop, and iterative deepening, which runs
    the depth-limited driver with growing limits. */
module SchedulingDrivers {
  import opened Wrappers
  import opened Costs
  import opened SetupMatrices
  import opened TaskFamilies
  import opened SchedulingNodes
  import opened Schedules
  import opened SearchTrees
  import opened SchedulingSearch

  /** `_get_initial_state`: the start node (all bits set, last task 0, no
      cost) together with the initial bitmask. */
  function GetInitialState(tasks: seq<int>): (r: (Node, set<nat>))
    ensures IsStart(r.0, tasks) && r.1 == r.0.remaining
    ensures forall i: nat :: i in r.1 <==> i < |tasks|
  {
    var bits := AllBits(|tasks|);
    (NewNode(bits, 0, Fin(0), Fin(0), None), bits)
  }

  /** What every answer of a driver is: the reconstructed order of a
      schedule of the task list, priced from the idle machine. */
  ghost predicate Answers(tasks: seq<int>, m: SetupMatrix, r: Outcome, path: seq<int>)
  {
    r.Solved? ==> IsSchedule(tasks, path) && r.sequence == WithoutIdle(path) && r.cost == SequenceCost(m, 0, path)
  }

  /** `breadth_first_scheduling`: first in, first out; always finds a schedule. */
  method BreadthFirstScheduling(tasks: seq<int>, m: SetupMatrix) returns (r: Outcome, ghost path: seq<int>)
    ensures r.Solved? && Answers(tasks, m, r, path)
  {
    ghost var expanded, tree;
    r, path, expanded, tree := Search(tasks, m, Strategy(Fifo, PathCost, None), "", None);
  }

  /** `depth_first_scheduling`: last in, first out, successors pushed in
      reverse; always finds a schedule. */
  method DepthFirstScheduling(tasks: seq<int>, m: SetupMatrix) returns (r: Outcome, ghost path: seq<int>)
    ensures r.Solved? && Answers(tasks, m, r, path)
  {
    ghost var expanded, tree;
    r, path, expanded, tree := Search(tasks, m, Strategy(Lifo, PathCost, None), "", None);
  }

  /** `depth_limited_scheduling`: depth-first, expanding only nodes shallower
      than the limit; it finds a schedule exactly when the limit reaches the
      number of tasks (or there is nothing to schedule). */
  method DepthLimitedScheduling(tasks: seq<int>, m: SetupMatrix, depthLimit: int)
    returns (r: Outcome, ghost path: seq<int>)
    ensures Answers(tasks, m, r, path)
    ensures r.Solved? <==> |tasks| == 0 || depthLimit >= |tasks|
  {
    ghost var expanded, tree;
    r, path, expanded, tree := Search(tasks, m, Strategy(Lifo, PathCost, Some(depthLimit)), "", None);
  }

  /** A task other than the idle task 0 is listed. */
  predicate HasRealTask(tasks: seq<int>)
  {
    exists k :: 0 <= k < |tasks| && tasks[k] != 0
  }

  /** `iterative_deepening_scheduling`: limits 1 .. len(tasks) + 1, returning
      the first result with a non-empty sequence. It finds a schedule exactly
      when some listed task is not 0; an empty task list gives `([], inf)`. */
  method IterativeDeepeningScheduling(tasks: seq<int>, m: SetupMatrix) returns (r: Outcome, ghost path: seq<int>)
    ensures Answers(tasks, m, r, path)
    ensures r.Solved? <==> HasRealTask(tasks)
    ensures r.Solved? ==> r.sequence != []
  {
    path := [];
    var maxDepth := |tasks| + 1;
    for depthLimit := 1 to maxDepth + 1
      invariant HasRealTask(tasks) ==> depthLimit <= |tasks|
    {
      var result;
      result, path := DepthLimitedScheduling(tasks, m, depthLimit);
      if HasRealTask(tasks) && depthLimit == |tasks| {
        var k :| 0 <= k < |tasks| && tasks[k] != 0;
        assert tasks[k] in multiset(path);
        WithoutIdleMembers(path);
        assert tasks[k] in result.sequence;
      }
      if result.Solved? && result.sequence != [] {
        WithoutIdleMembers(path);
        var x := result.sequence[0];
        assert x in path && x != 0;
        assert x in multiset(tasks);
        var k :| 0 <= k < |tasks| && tasks[k] == x;
        return result, path;
      }
    }
    r := Exhausted;
  }

  /** `uniform_cost_scheduling`: ordered by cost so far; always finds a
      schedule, and no schedule of the task list costs less. */
  method UniformCostScheduling(tasks: seq<int>, m: SetupMatrix) returns (r: Outcome, ghost path: seq<int>)
    ensures r.Solved? && Answers(tasks, m, r, path)
    ensures forall p :: IsSchedule(tasks, p) ==> Le(r.cost, SequenceCost(m, 0, p))
  {
    ghost var expanded, tree;
    r, path, expanded, tree := Search(tasks, m, Strategy(Ordered, PathCost, None), "", None);
  }

  /** `greedy_scheduling`: ordered by the named estimate alone; always finds a schedule. */
  method GreedyScheduling(tasks: seq<int>, m: SetupMatrix, heuristic: string, families: Option<TaskFamily>)
    returns (r: Outcome, ghost path: seq<int>)
    requires HeuristicReady(m, tasks, heuristic)
    ensures r.Solved? && Answers(tasks, m, r, path)
  {
    ghost var expanded, tree;
    r, path, expanded, tree := Search(tasks, m, Strategy(Ordered, Estimate, None), heuristic, families);
  }

  /** `a_star_scheduling`: ordered by cost so far plus the named estimate;
      always finds a schedule. */
  method AStarScheduling(tasks: seq<int>, m: SetupMatrix, heuristic: string, families: Option<TaskFamily>)
    returns (r: Outcome, ghost path: seq<int>)
    requires HeuristicReady(m, tasks, heuristic)
    ensures r.Solved? && Answers(tasks, m, r, path)
  {
    ghost var expanded, tree;
    r, path, expanded, tree := Search(tasks, m, Strategy(Ordered, CostPlusEstimate, None), heuristic, families);
  }
}
