/** Informed search over a weighted directed graph
    (backend/service/base/InformedSearch.py): `nodes` lists the state names
    and `graph[i]` the `(state, edge cost)` pairs leaving the `i`-th of them.
    Uniform cost, greedy and A* are the shared best-first loop with the
    priority `v1` of a child set to its path cost, its estimate, or both;
    IDA* runs that loop under a bound, raised to the mean of the priorities
    set aside until nothing is set aside. */
module GraphInformed {
  import opened Wrappers
  import opened Schedules
  import opened WeightedSearch
  import Uninformed = GraphUninformed

  /** `graph_successors`: the adjacency list of position `index`, read
      forwards (`step` 1) or backwards (`step` -1). */
  function GraphSuccessors(index: nat, graph: seq<seq<(string, nat)>>, step: int): (r: seq<(string, nat)>)
    requires index < |graph| && (step == 1 || step == -1)
    ensures |r| == |graph[index]|
    ensures forall k :: 0 <= k < |r| ==> r[k] == graph[index][if step == 1 then k else |r| - 1 - k]
  {
    if step == 1 then graph[index] else Reversed(graph[index])
  }

  /** Every node has an adjacency list, and every listed state is a node. */
  ghost predicate GraphOk(nodes: seq<string>, graph: seq<seq<(string, nat)>>)
  {
    |nodes| <= |graph| && forall i, e :: 0 <= i < |nodes| && e in graph[i] ==> e.0 in nodes
  }

  /** The successors the searches generate for a state: `graph_successors`
      of its first position, forwards; none for a state that is not a node
      (the searches never generate one). */
  function Adjacent(nodes: seq<string>, graph: seq<seq<(string, nat)>>, x: string): seq<(string, nat)>
  {
    if x in nodes && Uninformed.IndexOf(nodes, x) < |graph| then GraphSuccessors(Uninformed.IndexOf(nodes, x), graph, 1) else []
  }

  function AdjacencyOf(nodes: seq<string>, graph: seq<seq<(string, nat)>>): string -> seq<(string, nat)>
  {
    x => Adjacent(nodes, graph, x)
  }

  /** A well-formed graph never leads out of its nodes. */
  lemma GraphClosed(nodes: seq<string>, graph: seq<seq<(string, nat)>>)
    requires GraphOk(nodes, graph)
    ensures Closed(AdjacencyOf(nodes, graph), nodes)
  {
    forall x, e | x in nodes && e in AdjacencyOf(nodes, graph)(x)
      ensures e.0 in nodes
    {
      assert e in graph[Uninformed.IndexOf(nodes, x)];
    }
  }

  /** The precomputed estimates of `graph_heuristic`, for the first twenty
      node positions: row `i`, column `j` estimates the way between the
      `i`-th and the `j`-th node. */
  const Estimates: seq<seq<nat>> := [
      [0, 97, 59, 100, 53, 71, 66, 72, 91, 70, 74, 58, 62, 88, 70, 77, 67, 50, 93, 70],
      [70, 0, 80, 70, 62, 80, 97, 87, 100, 64, 57, 67, 72, 96, 72, 86, 84, 76, 54, 98],
      [78, 92, 0, 66, 50, 99, 71, 99, 56, 77, 52, 55, 64, 96, 96, 97, 72, 86, 91, 95],
      [69, 70, 99, 0, 68, 82, 85, 53, 60, 88, 64, 79, 78, 75, 96, 58, 92, 58, 73, 72],
      [83, 64, 83, 100, 0, 84, 99, 82, 86, 98, 56, 84, 83, 70, 76, 57, 51, 62, 95, 91],
      [88, 96, 73, 77, 83, 0, 87, 95, 50, 50, 78, 59, 52, 97, 88, 95, 84, 99, 77, 90],
      [56, 52, 73, 64, 97, 70, 0, 58, 69, 58, 95, 94, 89, 72, 53, 70, 96, 89, 75, 83],
      [51, 64, 93, 67, 67, 63, 88, 0, 93, 52, 97, 52, 100, 71, 87, 78, 55, 99, 69, 90],
      [84, 75, 90, 89, 62, 95, 91, 81, 0, 88, 60, 55, 71, 70, 82, 55, 90, 85, 63, 100],
      [82, 72, 69, 92, 52, 98, 61, 62, 100, 0, 87, 68, 63, 63, 73, 99, 75, 93, 91, 85],
      [94, 55, 100, 57, 77, 59, 62, 92, 86, 98, 0, 85, 67, 75, 87, 75, 84, 64, 79, 74],
      [85, 69, 84, 84, 55, 65, 56, 92, 54, 99, 98, 0, 99, 90, 68, 77, 86, 59, 75, 98],
      [92, 76, 77, 85, 51, 76, 88, 55, 75, 73, 60, 92, 0, 85, 80, 93, 82, 96, 66, 98],
      [92, 95, 65, 57, 90, 96, 73, 94, 96, 66, 75, 82, 50, 0, 87, 52, 70, 100, 61, 73],
      [88, 95, 76, 56, 72, 86, 59, 100, 85, 88, 58, 100, 98, 74, 0, 77, 91, 75, 79, 89],
      [95, 74, 96, 62, 95, 93, 66, 98, 70, 66, 61, 59, 70, 82, 92, 0, 77, 67, 90, 52],
      [63, 68, 83, 99, 61, 96, 81, 59, 83, 76, 86, 77, 94, 51, 74, 100, 0, 100, 85, 65],
      [54, 60, 65, 52, 68, 51, 91, 66, 89, 93, 87, 86, 75, 63, 64, 67, 82, 0, 60, 55],
      [51, 93, 100, 96, 57, 83, 50, 55, 59, 79, 81, 71, 76, 56, 93, 70, 93, 78, 0, 76],
      [83, 73, 53, 51, 95, 93, 93, 59, 90, 78, 70, 55, 71, 52, 84, 92, 91, 78, 88, 0]
    ]

  /** `graph_heuristic(nodes, destination, n)`: the table entry in the row of
      `destination` and the column of `n` (positions past the twentieth
      raise in the source). It is 0 exactly when the two states are the
      same, and between 50 and 100 otherwise. */
  function GraphHeuristic(nodes: seq<string>, destination: string, n: string): (h: nat)
    requires destination in nodes && n in nodes
    requires Uninformed.IndexOf(nodes, destination) < 20 && Uninformed.IndexOf(nodes, n) < 20
    ensures h == 0 <==> destination == n
    ensures destination != n ==> 50 <= h <= 100
  {
    var i, j := Uninformed.IndexOf(nodes, destination), Uninformed.IndexOf(nodes, n);
    EstimatesShape(i, j);
    Estimates[i][j]
  }

  lemma EstimatesShape(i: nat, j: nat)
    requires i < 20 && j < 20
    ensures |Estimates| == 20 && |Estimates[i]| == 20
    ensures i == j ==> Estimates[i][j] == 0
    ensures i != j ==> 50 <= Estimates[i][j] <= 100
  {
    if i < 5 {
      EstimatesRows0(i, j);
    } else if i < 10 {
      EstimatesRows5(i, j);
    } else if i < 15 {
      EstimatesRows10(i, j);
    } else {
      EstimatesRows15(i, j);
    }
  }

  /** The table facts for rows 0 to 4. */
  lemma EstimatesRows0(i: nat, j: nat)
    requires 0 <= i < 5 && j < 20
    ensures |Estimates| == 20 && |Estimates[i]| == 20
    ensures i == j ==> Estimates[i][j] == 0
    ensures i != j ==> 50 <= Estimates[i][j] <= 100
  {
  }

  /** The table facts for rows 5 to 9. */
  lemma EstimatesRows5(i: nat, j: nat)
    requires 5 <= i < 10 && j < 20
    ensures |Estimates| == 20 && |Estimates[i]| == 20
    ensures i == j ==> Estimates[i][j] == 0
    ensures i != j ==> 50 <= Estimates[i][j] <= 100
  {
  }

  /** The table facts for rows 10 to 14. */
  lemma EstimatesRows10(i: nat, j: nat)
    requires 10 <= i < 15 && j < 20
    ensures |Estimates| == 20 && |Estimates[i]| == 20
    ensures i == j ==> Estimates[i][j] == 0
    ensures i != j ==> 50 <= Estimates[i][j] <= 100
  {
  }

  /** The table facts for rows 15 to 19. */
  lemma EstimatesRows15(i: nat, j: nat)
    requires 15 <= i < 20 && j < 20
    ensures |Estimates| == 20 && |Estimates[i]| == 20
    ensures i == j ==> Estimates[i][j] == 0
    ensures i != j ==> 50 <= Estimates[i][j] <= 100
  {
  }

  /** What the graph drivers demand unless start is the goal: `nodes.index`
      finds the start, and every node has a well-formed adjacency list. */
  ghost predicate GraphReady(nodes: seq<string>, graph: seq<seq<(string, nat)>>, start: string, goal: string)
  {
    start != goal ==> start in nodes && GraphOk(nodes, graph)
  }

  /** The heuristic drivers also look the goal up in the table, which has
      twenty rows and columns. */
  ghost predicate EstimateReady(nodes: seq<string>, graph: seq<seq<(string, nat)>>, start: string, goal: string)
  {
    GraphReady(nodes, graph, start, goal) && (start != goal ==> goal in nodes && |nodes| <= 20)
  }

  /** `uniform_cost`: children ordered by path cost. */
  method UniformCost(start: string, goal: string, nodes: seq<string>, graph: seq<seq<(string, nat)>>)
    returns (r: SearchResult<string>, ghost weights: seq<nat>)
    requires GraphReady(nodes, graph, start, goal)
    ensures Answers(AdjacencyOf(nodes, graph), start, goal, r, weights)
    ensures r.NoPath? <==> start != goal && forall p, ws :: !Walk(AdjacencyOf(nodes, graph), p, ws, start, goal)
  {
    if start != goal {
      GraphClosed(nodes, graph);
    }
    r, weights := Drive(AdjacencyOf(nodes, graph), (g: nat, x: string) => g, nodes, start, goal);
  }

  /** `greedy`: children ordered by the estimate between them and the goal. */
  method Greedy(start: string, goal: string, nodes: seq<string>, graph: seq<seq<(string, nat)>>)
    returns (r: SearchResult<string>, ghost weights: seq<nat>)
    requires EstimateReady(nodes, graph, start, goal)
    ensures Answers(AdjacencyOf(nodes, graph), start, goal, r, weights)
    ensures r.NoPath? <==> start != goal && forall p, ws :: !Walk(AdjacencyOf(nodes, graph), p, ws, start, goal)
  {
    if start != goal {
      GraphClosed(nodes, graph);
    }
    var priority: (nat, string) --> nat := (g: nat, x: string) requires x in nodes && goal in nodes && |nodes| <= 20 =>
      GraphHeuristic(nodes, x, goal);
    r, weights := Drive(AdjacencyOf(nodes, graph), priority, nodes, start, goal);
  }

  /** The A* and IDA* priority of a child reached at path cost `g`. */
  function CostPlusEstimate(nodes: seq<string>, goal: string, g: nat, x: string): nat
    requires x in nodes && goal in nodes && |nodes| <= 20
  {
    g + GraphHeuristic(nodes, x, goal)
  }

  /** `a_star`: children ordered by path cost plus estimate. */
  method AStar(start: string, goal: string, nodes: seq<string>, graph: seq<seq<(string, nat)>>)
    returns (r: SearchResult<string>, ghost weights: seq<nat>)
    requires EstimateReady(nodes, graph, start, goal)
    ensures Answers(AdjacencyOf(nodes, graph), start, goal, r, weights)
    ensures r.NoPath? <==> start != goal && forall p, ws :: !Walk(AdjacencyOf(nodes, graph), p, ws, start, goal)
  {
    if start != goal {
      GraphClosed(nodes, graph);
    }
    var priority: (nat, string) --> nat := (g: nat, x: string) requires x in nodes && goal in nodes && |nodes| <= 20 =>
      CostPlusEstimate(nodes, goal, g, x);
    r, weights := Drive(AdjacencyOf(nodes, graph), priority, nodes, start, goal);
  }

  /** The mean of the priorities set aside in a round, the next bound. */
  function Mean(over: seq<nat>): real
    requires over != []
  {
    Total(over) as real / |over| as real
  }

  /** Values all above `b` sum to more than `b` times their number. */
  lemma {:induction false} TotalAbove(over: seq<nat>, b: real)
    requires over != [] && forall k :: 0 <= k < |over| ==> over[k] as real > b
    ensures Total(over) as real > |over| as real * b
  {
    var n := |over| - 1;
    if n > 0 {
      TotalAbove(over[..n], b);
      assert |over| as real * b == n as real * b + b;
    }
  }

  /** The mean of values all above `b` is above `b`: each IDA* round raises
      the bound. */
  lemma MeanAbove(over: seq<nat>, b: real)
    requires over != [] && forall k :: 0 <= k < |over| ==> over[k] as real > b
    ensures Mean(over) > b
  {
    TotalAbove(over, b);
    var n := |over| as real;
    assert Mean(over) * n == Total(over) as real;
  }

  /** Values between `lo` and `hi` have a mean between the two. */
  lemma MeanWithin(over: seq<nat>, lo: nat, hi: nat)
    requires over != [] && forall k :: 0 <= k < |over| ==> lo <= over[k] <= hi
    ensures lo as real <= Mean(over) <= hi as real
  {
    TotalBelow(over, hi);
    TotalAtLeast(over, lo);
    DivideWithin(Total(over), |over|, lo, hi);
  }

  lemma {:induction false} TotalAtLeast(over: seq<nat>, lo: nat)
    requires forall k :: 0 <= k < |over| ==> lo <= over[k]
    ensures |over| * lo <= Total(over)
    decreases |over|
  {
    if over != [] {
      TotalAtLeast(over[..|over| - 1], lo);
      assert |over| * lo == (|over| - 1) * lo + lo;
    }
  }

  lemma DivideWithin(t: nat, n: nat, lo: nat, hi: nat)
    requires n > 0 && n * lo <= t <= n * hi
    ensures lo as real <= t as real / n as real <= hi as real
  {
    assert (n * lo) as real == n as real * lo as real;
    assert (n * hi) as real == n as real * hi as real;
  }

  /** A bound on every IDA* priority: the dearest simple path plus the
      largest table estimate, 100. */
  ghost function RoundCap(nodes: seq<string>, graph: seq<seq<(string, nat)>>): nat
  {
    PathCap(AdjacencyOf(nodes, graph), nodes) + 100
  }

  /** No child's path cost plus estimate exceeds `RoundCap`. */
  lemma EstimateCapped(nodes: seq<string>, graph: seq<seq<(string, nat)>>, goal: string)
    requires goal in nodes && |nodes| <= 20
    ensures forall g: nat, x :: x in nodes && g <= PathCap(AdjacencyOf(nodes, graph), nodes) ==>
              CostPlusEstimate(nodes, goal, g, x) <= RoundCap(nodes, graph)
  {
    forall g: nat, x | x in nodes && g <= PathCap(AdjacencyOf(nodes, graph), nodes)
      ensures CostPlusEstimate(nodes, goal, g, x) <= RoundCap(nodes, graph)
    {
      assert GraphHeuristic(nodes, x, goal) <= 100;
    }
  }

  /** The bounds and set-aside priorities of the IDA* rounds so far: each
      bound after the first is the mean of the previous round's set-aside
      priorities, all of which exceed that round's bound and are at most
      `cap`; the bounds rise, and the latest is at least the number of
      rounds run. */
  ghost predicate MeanHistory(bounds: seq<real>, overs: seq<seq<nat>>, cap: nat)
  {
    |bounds| == |overs| + 1
    && (forall k :: 0 <= k < |bounds| - 1 ==> bounds[k] < bounds[k + 1])
    && (forall k :: 0 <= k < |overs| ==> overs[k] != [] && bounds[k + 1] == Mean(overs[k]))
    && (forall k, j :: 0 <= k < |overs| && 0 <= j < |overs[k]| ==> bounds[k] < overs[k][j] as real && overs[k][j] <= cap)
    && |overs| as real <= bounds[|overs|] <= cap as real
  }

  /** A round that sets aside priorities above its bound and within `cap`
      extends the history with their mean. */
  lemma MeanHistoryGrows(bounds: seq<real>, overs: seq<seq<nat>>, over: seq<nat>, cap: nat)
    requires MeanHistory(bounds, overs, cap) && over != []
    requires forall j :: 0 <= j < |over| ==> bounds[|overs|] < over[j] as real && over[j] <= cap
    ensures MeanHistory(bounds + [Mean(over)], overs + [over], cap)
  {
    var b := bounds[|overs|];
    var n := |overs|;
    forall j | 0 <= j < |over|
      ensures n + 1 <= over[j] <= cap
    {
      assert over[j] as real > n as real;
    }
    MeanAbove(over, b);
    MeanWithin(over, n + 1, cap);
    var bounds', overs' := bounds + [Mean(over)], overs + [over];
    assert bounds'[n] == b && bounds'[n + 1] == Mean(over);
    forall k, j | 0 <= k < |overs'| && 0 <= j < |overs'[k]|
      ensures bounds'[k] < overs'[k][j] as real && overs'[k][j] <= cap
    {
      if k < n {
        assert overs'[k] == overs[k] && bounds'[k] == bounds[k];
      }
    }
  }

  /** `ida_star`: the first bound is the estimate between start and goal;
      each round runs the best-first loop with children ordered by path cost
      plus estimate, keeping only those within the bound, and sets the next
      bound to the mean of the priorities it left out (`overs[k]` for round
      `k`). The source repeats until a round finds the goal or leaves
      nothing out; here at most `rounds` rounds run. Every priority set
      aside exceeds its round's bound and is at most `RoundCap`, so each
      round raises the bound by at least one and `RoundCap` rounds always
      conclude: with more rounds than that, no path means no walk. */
  method IdaStar(start: string, goal: string, nodes: seq<string>, graph: seq<seq<(string, nat)>>, rounds: nat)
    returns (r: SearchResult<string>, ghost weights: seq<nat>, ghost bounds: seq<real>, ghost overs: seq<seq<nat>>)
    requires EstimateReady(nodes, graph, start, goal)
    ensures Answers(AdjacencyOf(nodes, graph), start, goal, r, weights)
    ensures start != goal ==> |bounds| >= 1 && bounds[0] == GraphHeuristic(nodes, start, goal) as real && |overs| == |bounds| - 1
    ensures forall k :: 0 <= k < |bounds| - 1 ==> bounds[k] < bounds[k + 1]
    ensures forall k :: 0 <= k < |overs| && k + 1 < |bounds| ==> overs[k] != [] && bounds[k + 1] == Mean(overs[k])
    ensures forall k, j :: 0 <= k < |overs| && k < |bounds| && 0 <= j < |overs[k]| ==>
              bounds[k] < overs[k][j] as real && overs[k][j] <= RoundCap(nodes, graph)
    ensures r.NoPath? && |bounds| <= rounds ==> forall p, ws :: !Walk(AdjacencyOf(nodes, graph), p, ws, start, goal)
    ensures r.NoPath? && rounds > RoundCap(nodes, graph) ==> forall p, ws :: !Walk(AdjacencyOf(nodes, graph), p, ws, start, goal)
  {
    weights, bounds, overs := [], [], [];
    if start == goal {
      return StartIsGoal([start]), weights, bounds, overs;
    }
    GraphClosed(nodes, graph);
    var succ := AdjacencyOf(nodes, graph);
    var priority: (nat, string) --> nat := (g: nat, x: string) requires x in nodes && goal in nodes && |nodes| <= 20 =>
      CostPlusEstimate(nodes, goal, g, x);
    ghost var cap := RoundCap(nodes, graph);
    EstimateCapped(nodes, graph, goal);
    var bound := GraphHeuristic(nodes, start, goal) as real;
    bounds := [bound];
    for round := 0 to rounds
      invariant MeanHistory(bounds, overs, cap) && |overs| == round
      invariant bounds[0] == GraphHeuristic(nodes, start, goal) as real && bounds[round] == bound
    {
      var found, over;
      found, weights, over := BestFirst(succ, priority, nodes, start, goal, Some(bound), cap);
      if found.Some? {
        return Found(found.value.0, found.value.1), weights, bounds, overs;
      }
      if over == [] {
        return NoPath, weights, bounds, overs;
      }
      MeanHistoryGrows(bounds, overs, over, cap);
      bound := Mean(over);
      overs := overs + [over];
      bounds := bounds + [bound];
    }
    r := NoPath;
  }
}
