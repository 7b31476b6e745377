/** IDA* for task sequencing (`ida_star_scheduling` and `_ida_star_search`
    in backend/service/implementation/TaskSchedulingSearch.py): depth-first
    probes that cut off every node whose `g + h` exceeds a bound, with the
    bound raised to the least cut-off value between probes. The nodes on the
    current probe path form the arena; the last one is the node at hand. */
module SchedulingIda {
  import opened Wrappers
  import opened Costs
  import opened SetupMatrices
  import opened TaskFamilies
  import opened SchedulingNodes
  import opened Heuristics
  import opened Schedules
  import opened SearchTrees
  import opened SchedulingSearch
  import opened SchedulingDrivers
  import opened Admissibility
  import opened ProbeBounds

  /** What a probe returns: a solution (the Python tuple) or a new bound. */
  datatype IdaResult = Found(sequence: seq<int>, cost: Cost) | NextBound(bound: Cost)

  /** Every way to finish from `node` costs infinity in total. */
  ghost predicate Doomed(m: SetupMatrix, tasks: seq<int>, node: Node)
  {
    forall p :: multiset(p) == multiset(Selected(node.remaining, tasks)) ==>
      Add(node.g, SequenceCost(m, node.last, p)) == Inf
  }

  /** `_ida_star_search`: a node over the bound returns its `g + h`; a goal
      returns its sequence and cost; otherwise the successors are probed in
      order, the first solution is returned, and else the least value they
      returned. A solution costs at most the bound, and a new bound is always
      strictly above the old one (or infinite). */
  method IdaStarSearch(m: SetupMatrix, tasks: seq<int>, name: string, families: Option<TaskFamily>,
                       arena: seq<Node>, ghost choice: seq<nat>, bound: Cost)
    returns (res: IdaResult, ghost path: seq<int>)
    requires HeuristicReady(m, tasks, name)
    requires ArenaOk(m, tasks, arena, choice)
    requires HeuristicAgrees(m, name, families, arena[|arena| - 1], arena[|arena| - 1].h)
    requires IsGoalState(arena[|arena| - 1]) ==> arena[|arena| - 1].h == Fin(0)
    ensures res.Found? ==> IsSchedule(tasks, path) && res.sequence == WithoutIdle(path)
                           && res.cost == SequenceCost(m, 0, path) && Le(res.cost, bound)
    ensures res.NextBound? ==> Less(bound, res.bound) || res.bound == Inf
    ensures res.NextBound? && res.bound.Fin? ==> res.bound.n <= FCap(m, tasks)
    ensures res == NextBound(Inf) && TableListsTasks(m, tasks, name) ==> Doomed(m, tasks, arena[|arena| - 1])
    decreases |arena[|arena| - 1].remaining|, 1
  {
    path := [];
    var cur := |arena| - 1;
    var node := arena[cur];
    var f := Add(node.g, node.h);
    if Less(bound, f) {
      if f == Inf && TableListsTasks(m, tasks, name) {
        CutOffInArena(m, tasks, name, families, arena, choice);
      }
      ProbeValueCapped(m, tasks, name, families, arena, choice, cur);
      return NextBound(f), path;
    }
    if IsGoalState(node) {
      var r;
      r, path := Conclude(m, tasks, Strategy(Lifo, CostPlusEstimate, None), arena, choice, cur);
      return Found(r.sequence, r.cost), path;
    }
    res, path := ProbeChildren(m, tasks, name, families, arena, choice, bound);
  }

  /** A node cut off with an infinite `g + h` has no finite way to finish. */
  lemma CutOffDoomed(m: SetupMatrix, tasks: seq<int>, name: string, families: Option<TaskFamily>, node: Node)
    requires TableListsTasks(m, tasks, name) && forall i :: i in node.remaining ==> i < |tasks|
    requires HeuristicAgrees(m, name, families, node, node.h)
    requires Add(node.g, node.h) == Inf
    ensures Doomed(m, tasks, node)
  {
    forall p | multiset(p) == multiset(Selected(node.remaining, tasks))
      ensures Add(node.g, SequenceCost(m, node.last, p)) == Inf
    {
      if node.g.Fin? {
        InfiniteEstimateIsExact(m, tasks, name, families, node, p);
      }
    }
  }

  /** The same, for the node at hand of a well-formed probe path. */
  lemma CutOffInArena(m: SetupMatrix, tasks: seq<int>, name: string, families: Option<TaskFamily>,
                      arena: seq<Node>, choice: seq<nat>)
    requires ArenaOk(m, tasks, arena, choice) && TableListsTasks(m, tasks, name)
    requires HeuristicAgrees(m, name, families, arena[|arena| - 1], arena[|arena| - 1].h)
    requires Add(arena[|arena| - 1].g, arena[|arena| - 1].h) == Inf
    ensures Doomed(m, tasks, arena[|arena| - 1])
  {
    RemainingInRange(m, tasks, arena, choice, |arena| - 1);
    CutOffDoomed(m, tasks, name, families, arena[|arena| - 1]);
  }

  /** A node none of whose successors has a finite way to finish has none
      either. */
  lemma ChildrenDoomed(m: SetupMatrix, tasks: seq<int>, node: Node, cur: nat, succs: seq<Node>)
    requires SuccessorsOf(m, tasks, node, cur, succs)
    requires node.remaining != {} && forall b :: b in node.remaining ==> b < |tasks|
    requires forall j :: 0 <= j < |succs| ==> Doomed(m, tasks, succs[j])
    ensures Doomed(m, tasks, node)
  {
    var bits := SetBits(node.remaining, |tasks|);
    SetBitsSpec(node.remaining, |tasks|);
    forall p | multiset(p) == multiset(Selected(node.remaining, tasks))
      ensures Add(node.g, SequenceCost(m, node.last, p)) == Inf
    {
      var i :| i in node.remaining;
      SelectedNonEmpty(node.remaining, tasks, i);
      assert p != [];
      assert p[0] in multiset(Selected(node.remaining, tasks));
      SelectedMembership(node.remaining, tasks, p[0]);
      var b :| 0 <= b < |tasks| && b in node.remaining && tasks[b] == p[0];
      var k :| 0 <= k < |bits| && bits[k] == b;
      assert Succeeds(m, tasks, node, succs[k], b);
      DoomedThrough(m, tasks, node, succs[k], b, p);
    }
  }

  /** A way to finish that starts with task `b` finishes the successor that
      scheduled `b`. */
  lemma DoomedThrough(m: SetupMatrix, tasks: seq<int>, node: Node, child: Node, b: nat, p: seq<int>)
    requires Succeeds(m, tasks, node, child, b) && Doomed(m, tasks, child)
    requires multiset(p) == multiset(Selected(node.remaining, tasks))
    requires p != [] && p[0] == tasks[b]
    ensures Add(node.g, SequenceCost(m, node.last, p)) == Inf
  {
    var rest := p[1..];
    RestOfChild(tasks, node, child, b, p);
    assert p == [p[0]] + rest;
    var tail := SequenceCost(m, child.last, rest);
    assert Add(child.g, tail) == Inf;
    SequenceCostCons(m, node.last, p[0], rest);
    var step := GetSetupCost(m, node.last, tasks[b]);
    assert SequenceCost(m, node.last, p) == Add(step, tail);
    assert child.g == Add(node.g, step);
  }

  /** An order of a node's remaining tasks that starts with task `b` goes on
      with an order of the remaining tasks of the child that scheduled `b`. */
  lemma RestOfChild(tasks: seq<int>, node: Node, child: Node, b: nat, p: seq<int>)
    requires b in node.remaining && b < |tasks| && child.remaining == node.remaining - {b}
    requires multiset(p) == multiset(Selected(node.remaining, tasks))
    requires p != [] && p[0] == tasks[b]
    ensures multiset(p[1..]) == multiset(Selected(child.remaining, tasks))
  {
    SelectedRemove(node.remaining, tasks, b);
    TailMultiset(p, multiset(Selected(child.remaining, tasks)));
  }

  lemma TailMultiset(p: seq<int>, part: multiset<int>)
    requires p != [] && multiset(p) == part + multiset{p[0]}
    ensures multiset(p[1..]) == part
  {
    assert p == [p[0]] + p[1..];
    assert multiset(p[1..]) == multiset(p) - multiset{p[0]};
    assert (part + multiset{p[0]}) - multiset{p[0]} == part;
  }

  /** The successors of a node that is neither over the bound nor a goal,
      probed in order: the first solution, or else the least bound they
      returned. */
  method ProbeChildren(m: SetupMatrix, tasks: seq<int>, name: string, families: Option<TaskFamily>,
                       arena: seq<Node>, ghost choice: seq<nat>, bound: Cost)
    returns (res: IdaResult, ghost path: seq<int>)
    requires HeuristicReady(m, tasks, name)
    requires ArenaOk(m, tasks, arena, choice)
    requires !IsGoalState(arena[|arena| - 1])
    ensures res.Found? ==> IsSchedule(tasks, path) && res.sequence == WithoutIdle(path)
                           && res.cost == SequenceCost(m, 0, path) && Le(res.cost, bound)
    ensures res.NextBound? ==> Less(bound, res.bound) || res.bound == Inf
    ensures res.NextBound? && res.bound.Fin? ==> res.bound.n <= FCap(m, tasks)
    ensures res == NextBound(Inf) && TableListsTasks(m, tasks, name) ==> Doomed(m, tasks, arena[|arena| - 1])
    decreases |arena[|arena| - 1].remaining|, 0
  {
    path := [];
    var cur := |arena| - 1;
    var node := arena[cur];
    RemainingInRange(m, tasks, arena, choice, cur);
    var minCost := Inf;
    var succs := GenerateSuccessors(node, cur, m, tasks, name, families);
    ghost var bits := SetBits(node.remaining, |tasks|);
    for k := 0 to |succs|
      invariant Less(bound, minCost) || minCost == Inf
      invariant minCost.Fin? ==> minCost.n <= FCap(m, tasks)
      invariant minCost == Inf && TableListsTasks(m, tasks, name) ==> forall j :: 0 <= j < k ==> Doomed(m, tasks, succs[j])
    {
      var succ := succs[k].(depth := node.depth + 1);
      ProbeChild(m, tasks, name, families, arena, choice, succs, k, succ);
      var result, p := IdaStarSearch(m, tasks, name, families, arena + [succ], choice + [bits[k]], bound);
      if result.Found? {
        return result, p;
      } else if Less(result.bound, minCost) {
        minCost := result.bound;
      }
    }
    if minCost == Inf && TableListsTasks(m, tasks, name) {
      ChildrenDoomed(m, tasks, node, cur, succs);
    }
    res := NextBound(minCost);
  }

  /** The `k`-th successor of the node at hand, one level deeper, extends
      the probe path, has fewer tasks left, and has a zero estimate at the goal. */
  lemma ProbeChild(m: SetupMatrix, tasks: seq<int>, name: string, families: Option<TaskFamily>,
                   arena: seq<Node>, choice: seq<nat>, succs: seq<Node>, k: nat, succ: Node)
    requires ArenaOk(m, tasks, arena, choice)
    requires SuccessorsOf(m, tasks, arena[|arena| - 1], |arena| - 1, succs) && k < |succs|
    requires Estimated(m, name, families, succs[k])
    requires succ == succs[k].(depth := arena[|arena| - 1].depth + 1)
    ensures ArenaOk(m, tasks, arena + [succ], choice + [SetBits(arena[|arena| - 1].remaining, |tasks|)[k]])
    ensures |succ.remaining| < |arena[|arena| - 1].remaining|
    ensures HeuristicAgrees(m, name, families, succ, succ.h)
    ensures IsGoalState(succ) ==> succ.h == Fin(0)
  {
    ChildExtendsArena(m, tasks, arena, choice, succs, k, succ);
    AgreementIgnoresDepth(m, name, families, succs[k], succ);
  }

  /** The `k`-th successor, one level deeper, may be appended to the arena,
      and it has one task fewer left. */
  lemma ChildExtendsArena(m: SetupMatrix, tasks: seq<int>, arena: seq<Node>, choice: seq<nat>,
                          succs: seq<Node>, k: nat, succ: Node)
    requires ArenaOk(m, tasks, arena, choice)
    requires SuccessorsOf(m, tasks, arena[|arena| - 1], |arena| - 1, succs) && k < |succs|
    requires succ == succs[k].(depth := arena[|arena| - 1].depth + 1)
    ensures ArenaOk(m, tasks, arena + [succ], choice + [SetBits(arena[|arena| - 1].remaining, |tasks|)[k]])
    ensures |succ.remaining| < |arena[|arena| - 1].remaining|
  {
    var node := arena[|arena| - 1];
    var b := SetBits(node.remaining, |tasks|)[k];
    assert Succeeds(m, tasks, node, succ, b);
    ArenaAppend(m, tasks, arena, choice, |arena| - 1, succ, b);
    assert node.remaining == succ.remaining + {b};
  }

  /** The estimate does not depend on a node's depth. */
  lemma AgreementIgnoresDepth(m: SetupMatrix, name: string, families: Option<TaskFamily>, n: Node, n': Node)
    requires HeuristicAgrees(m, name, families, n, n.h)
    requires n' == n.(depth := n'.depth)
    ensures HeuristicAgrees(m, name, families, n', n'.h)
  {
    assert n'.remaining == n.remaining && n'.last == n.last && n'.h == n.h;
  }

  /** `ida_star_scheduling`: the first bound is the start node's estimate;
      each probe either solves, proves there is nothing below infinity, or
      raises the bound. The source loops until one of the first two happens;
      here at most `rounds` probes are made. The first bound is the start
      node's estimate, the bounds tried strictly increase, every bound after
      the first is a finite `g + h` and so at most `FCap`, and a solution
      costs at most the last of them. Since each probe raises the bound by
      at least one, `FCap` probes always conclude: with more rounds than
      that, and an estimate that reads the searched tasks, no schedule
      means every schedule costs infinity. */
  method IdaStarScheduling(tasks: seq<int>, m: SetupMatrix, name: string, families: Option<TaskFamily>, rounds: nat)
    returns (r: Outcome, ghost path: seq<int>, ghost bounds: seq<Cost>)
    requires HeuristicReady(m, tasks, name)
    ensures Answers(tasks, m, r, path)
    ensures |bounds| >= 1 && forall i :: 0 <= i < |bounds| - 1 ==> Less(bounds[i], bounds[i + 1])
    ensures HeuristicAgrees(m, name, families, GetInitialState(tasks).0, bounds[0])
    ensures forall i :: 1 <= i < |bounds| ==> bounds[i].Fin? && bounds[i].n <= FCap(m, tasks)
    ensures r.Solved? ==> Le(r.cost, bounds[|bounds| - 1])
    ensures r.Exhausted? && |bounds| <= rounds && TableListsTasks(m, tasks, name) ==>
              forall p :: IsSchedule(tasks, p) ==> SequenceCost(m, 0, p) == Inf
    ensures r.Exhausted? && rounds > FCap(m, tasks) && TableListsTasks(m, tasks, name) ==>
              forall p :: IsSchedule(tasks, p) ==> SequenceCost(m, 0, p) == Inf
  {
    var start := GetInitialState(tasks).0;
    var h := CalculateHeuristic(start, m, name, families);
    start := start.(h := h);
    assert ArenaOk(m, tasks, [start], [0]);
    r, path, bounds := ProbeRounds(m, tasks, name, families, start, rounds);
  }

  /** The `while True` loop of `ida_star_scheduling`: probe from the start
      node within the bound, stop on a solution or on an infinite next bound,
      otherwise retry with the bound the probe returned; at most `rounds`
      probes. The bounds strictly increase from the start's estimate, every
      later one is finite and at most `FCap`, and so more than `FCap` rounds
      always conclude. */
  method ProbeRounds(m: SetupMatrix, tasks: seq<int>, name: string, families: Option<TaskFamily>, start: Node, rounds: nat)
    returns (r: Outcome, ghost path: seq<int>, ghost bounds: seq<Cost>)
    requires HeuristicReady(m, tasks, name) && IsStart(start, tasks)
    requires ArenaOk(m, tasks, [start], [0])
    requires HeuristicAgrees(m, name, families, start, start.h)
    requires IsGoalState(start) ==> start.h == Fin(0)
    ensures Answers(tasks, m, r, path)
    ensures BoundsClimb(bounds, FCap(m, tasks)) && bounds[0] == start.h
    ensures r.Solved? ==> Le(r.cost, bounds[|bounds| - 1])
    ensures r.Exhausted? && |bounds| <= rounds && TableListsTasks(m, tasks, name) ==>
              forall p :: IsSchedule(tasks, p) ==> SequenceCost(m, 0, p) == Inf
    ensures r.Exhausted? && rounds > FCap(m, tasks) && TableListsTasks(m, tasks, name) ==>
              forall p :: IsSchedule(tasks, p) ==> SequenceCost(m, 0, p) == Inf
  {
    path := [];
    var bound := start.h;
    bounds := [bound];
    ghost var cap := FCap(m, tasks);
    for round := 0 to rounds
      invariant |bounds| == round + 1 && bounds[round] == bound && bounds[0] == start.h
      invariant BoundsClimb(bounds, cap)
    {
      var result, p := IdaStarSearch(m, tasks, name, families, [start], [0], bound);
      if result.Found? {
        return Solved(result.sequence, result.cost), p, bounds;
      } else if result.bound == Inf {
        if TableListsTasks(m, tasks, name) {
          StartDoomed(m, tasks, start);
        }
        return Exhausted, path, bounds;
      }
      NextBoundClimbs(bounds, result.bound, cap);
      bound := result.bound;
      bounds := bounds + [bound];
    }
    r := Exhausted;
    if rounds > cap {
      ClimbedPast(bounds, cap);
    }
  }

  /** The bounds an IDA* driver has tried: strictly increasing, and every
      one after the first a finite value of at most `cap`. Bounds are whole
      numbers, so the `k`-th of them is at least `k`. */
  ghost predicate BoundsClimb(bounds: seq<Cost>, cap: nat)
  {
    |bounds| >= 1
    && (forall i :: 0 <= i < |bounds| - 1 ==> Less(bounds[i], bounds[i + 1]))
    && (forall i :: 1 <= i < |bounds| ==> bounds[i].Fin? && i <= bounds[i].n <= cap)
  }

  lemma NextBoundClimbs(bounds: seq<Cost>, next: Cost, cap: nat)
    requires BoundsClimb(bounds, cap)
    requires Less(bounds[|bounds| - 1], next) && next.Fin? && next.n <= cap
    ensures BoundsClimb(bounds + [next], cap)
  {
    var k := |bounds| - 1;
    if k > 0 {
      assert k <= bounds[k].n;
    }
  }

  /** More climbing bounds than `cap` allows cannot exist. */
  lemma ClimbedPast(bounds: seq<Cost>, cap: nat)
    requires BoundsClimb(bounds, cap)
    ensures |bounds| <= cap + 1
  {
    var k := |bounds| - 1;
    if k > 0 {
      assert k <= bounds[k].n <= cap;
    }
  }

  /** From the start node, every way to finish is a schedule priced from the
      idle machine. */
  lemma StartDoomed(m: SetupMatrix, tasks: seq<int>, start: Node)
    requires IsStart(start, tasks) && Doomed(m, tasks, start)
    ensures forall p :: IsSchedule(tasks, p) ==> SequenceCost(m, 0, p) == Inf
  {
    SelectedAll(start.remaining, tasks);
  }
}
