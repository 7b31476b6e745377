/** Bounds on the values an IDA* probe over task sequences
    (backend/service/implementation/TaskSchedulingSearch.py) can return.
    Every finite cost so far is a sum of one recorded change-over per task
    scheduled, and every finite estimate of
    backend/service/scheduling/TaskSchedulingHeuristics.py is a sum or a
    product of at most `|m.tasks| + 1` recorded change-overs, so a finite
    `g + h` never exceeds `FCap`. */
module ProbeBounds {
  import opened Wrappers
  import opened Costs
  import opened SetupMatrices
  import opened TaskFamilies
  import opened SchedulingNodes
  import opened Heuristics
  import opened Schedules
  import opened SpanningTrees
  import opened SearchTrees
  import opened SchedulingSearch

  /** The dearest recorded change-over. */
  ghost function MaxCost(costs: map<(int, int), nat>): (c: nat)
    ensures forall k :: k in costs ==> costs[k] <= c
    decreases |costs|
  {
    if costs == map[] then 0
    else
      var k :| k in costs;
      var rest := costs - {k};
      assert rest.Keys == costs.Keys - {k};
      var c := MaxCost(rest);
      assert forall j :: j in costs && j != k ==> j in rest && rest[j] == costs[j];
      if costs[k] < c then c else costs[k]
  }

  ghost function Dearest(m: SetupMatrix): nat
  {
    MaxCost(m.setupCosts)
  }

  /** A bound on every finite `g + h` of a probe over `tasks`: the cost so
      far is at most `|tasks|` change-overs, and every estimate at most
      `|m.tasks| + 1`. */
  ghost function FCap(m: SetupMatrix, tasks: seq<int>): nat
  {
    (|tasks| + |m.tasks| + 1) * Dearest(m)
  }

  lemma MulLe(a: nat, b: nat, c: nat, d: nat)
    requires a <= b && c <= d
    ensures a * c <= b * d
  {
    assert a * c <= b * c;
    assert b * c <= b * d;
  }

  /** The symmetrised cost, when finite, is one of the two recorded ones. */
  lemma SymCostCapped(m: SetupMatrix, a: int, b: int)
    ensures SymCost(m, a, b).Fin? ==> SymCost(m, a, b).n <= Dearest(m)
  {
    var x, y := GetSetupCost(m, a, b), GetSetupCost(m, b, a);
    assert SymCost(m, a, b) == x || SymCost(m, a, b) == y;
  }

  /** `min_cost_from_last`, when finite, is a recorded change-over. */
  lemma FromLastCapped(m: SetupMatrix, last: int, rem: seq<int>)
    requires |rem| > 0
    ensures MinFromLast(m, last, rem).Fin? ==> MinFromLast(m, last, rem).n <= Dearest(m)
  {
    var cs := CostsFrom(m, last, rem);
    var k :| 0 <= k < |cs| && cs[k] == MinOf(cs);
    assert cs[k] == GetSetupCost(m, last, rem[k]);
  }

  /** A spanning tree weighs at most one change-over per edge. */
  lemma {:induction false} TreeWeightCapped(m: SetupMatrix, order: seq<int>, links: seq<int>)
    requires |links| == |order| - 1
    ensures TreeWeight(m, order, links).Fin? ==> TreeWeight(m, order, links).n <= |links| * Dearest(m)
    decreases |links|
  {
    if links != [] {
      var n := |links| - 1;
      TreeWeightCapped(m, order[..n + 1], links[..n]);
      SymCostCapped(m, links[n], order[n + 1]);
      assert |links| * Dearest(m) == n * Dearest(m) + Dearest(m);
    }
  }

  lemma {:induction false} SumCapped(xs: seq<nat>, c: nat)
    requires forall k :: 0 <= k < |xs| ==> xs[k] <= c
    ensures SumNat(xs) <= |xs| * c
    decreases |xs|
  {
    if xs != [] {
      SumCapped(xs[1..], c);
      assert |xs| * c == (|xs| - 1) * c + c;
    }
  }

  lemma {:induction false} SelectedShorter(bits: set<nat>, list: seq<int>)
    ensures |Selected(bits, list)| <= |list|
    decreases |list|
  {
    if list != [] {
      SelectedShorter(bits, list[..|list| - 1]);
    }
  }

  /** h1 is one change-over from the last task plus at most one per
      remaining task. */
  lemma H1Capped(m: SetupMatrix, node: Node)
    requires Instance(m) && BitsInRange(node, m)
    ensures H1Of(m, node).Fin? ==> H1Of(m, node).n <= (|m.tasks| + 1) * Dearest(m)
  {
    if node.remaining != {} {
      SelectedOfInstance(m, node.remaining);
      var rem := Selected(node.remaining, m.tasks);
      var out := Outgoing(m, rem);
      var d := Dearest(m);
      FromLastCapped(m, node.last, rem);
      forall k | 0 <= k < |out|
        ensures out[k] <= d
      {
        MinOutFinite(m, rem, rem[k]);
        var cs := CostsFrom(m, rem[k], Without(rem, rem[k]));
        var j :| 0 <= j < |cs| && cs[j] == MinOf(cs);
        assert cs[j] == GetSetupCost(m, rem[k], Without(rem, rem[k])[j]);
      }
      SumCapped(out, d);
      SelectedShorter(node.remaining, m.tasks);
      if out != [] {
        SumAtLeastMax(out);
      }
      MulLe(|out|, |m.tasks|, d, d);
      assert (|m.tasks| + 1) * d == |m.tasks| * d + d;
    }
  }

  /** A list of distinct tasks drawn from `rem` is no longer than `rem`. */
  lemma DistinctWithin(order: seq<int>, rem: seq<int>)
    requires Distinct(order) && forall t :: t in order ==> t in rem
    ensures |order| <= |rem|
  {
    DistinctSetCard(order);
    SeqSetCard(rem);
    var a, b := set t | t in order, set t | t in rem;
    assert a <= b;
    assert |b| == |a| + |b - a|;
  }

  /** h2 is one change-over from the last task plus one per edge of a tree
      over the remaining tasks. */
  lemma H2Capped(m: SetupMatrix, node: Node, h: Cost)
    requires H2Agrees(m, node, h)
    ensures h.Fin? ==> h.n <= (|m.tasks| + 1) * Dearest(m)
  {
    if node.remaining != {} {
      var rem := Selected(node.remaining, m.tasks);
      SelectedShorter(node.remaining, m.tasks);
      if |rem| == 1 {
        FromLastCapped(m, node.last, rem);
        MulLe(1, |m.tasks| + 1, Dearest(m), Dearest(m));
      } else {
        var order, links :| PrimTree(rem, order, links) && h == Add(MinFromLast(m, node.last, rem), TreeWeight(m, order, links));
        TreeCostCapped(m, node.last, rem, order, links);
      }
    }
  }

  /** A change-over from the last task plus a spanning tree over the `rem`
      tasks is at most `|rem|` change-overs. */
  lemma TreeCostCapped(m: SetupMatrix, last: int, rem: seq<int>, order: seq<int>, links: seq<int>)
    requires |rem| <= |m.tasks| && PrimTree(rem, order, links)
    ensures Add(MinFromLast(m, last, rem), TreeWeight(m, order, links)).Fin? ==>
              Add(MinFromLast(m, last, rem), TreeWeight(m, order, links)).n <= (|m.tasks| + 1) * Dearest(m)
  {
    var d := Dearest(m);
    FromLastCapped(m, last, rem);
    TreeWeightCapped(m, order, links);
    DistinctWithin(order, rem);
    MulLe(|links|, |m.tasks|, d, d);
    assert (|m.tasks| + 1) * d == |m.tasks| * d + d;
  }

  /** The families of the remaining tasks are no more than the tasks. */
  lemma {:induction false} FamiliesFewer(f: TaskFamily, rem: seq<int>)
    ensures |FamiliesOf(f, rem)| <= |rem|
    decreases |rem|
  {
    if rem != [] {
      FamiliesFewer(f, rem[1..]);
      var head: set<string> := if rem[0] in f.families then {f.families[rem[0]]} else {};
      assert FamiliesOf(f, rem) <= FamiliesOf(f, rem[1..]) + head;
      assert |FamiliesOf(f, rem[1..]) + head| <= |FamiliesOf(f, rem[1..])| + |head|;
      assert |FamiliesOf(f, rem[1..]) + head| == |FamiliesOf(f, rem)| + |(FamiliesOf(f, rem[1..]) + head) - FamiliesOf(f, rem)|;
    }
  }

  /** The cheapest inter-family change-over is a recorded one (or 0). */
  lemma InterfamilyCapped(f: TaskFamily, m: SetupMatrix)
    ensures MinInterfamily(f, m) <= Dearest(m)
  {
    var c := MinInterfamily(f, m);
    if c != 0 {
      var a, b :| 0 <= a < |m.tasks| && 0 <= b < |m.tasks| && Candidate(f, m, a, b)
                  && c == m.setupCosts[(m.tasks[a], m.tasks[b])];
    }
  }

  /** Every finite estimate `_calculate_heuristic` can return is at most
      `|m.tasks| + 1` change-overs. */
  lemma EstimateCapped(m: SetupMatrix, name: string, families: Option<TaskFamily>, node: Node, h: Cost)
    requires HeuristicAgrees(m, name, families, node, h)
    ensures h.Fin? ==> h.n <= (|m.tasks| + 1) * Dearest(m)
  {
    var d := Dearest(m);
    if name == "h1" {
      H1Capped(m, node);
    } else if name == "h2" {
      H2Capped(m, node, h);
    } else if name == "h3" && families.Some? && node.remaining != {} {
      var rem := Selected(node.remaining, m.tasks);
      FamiliesFewer(families.value, rem);
      SelectedShorter(node.remaining, m.tasks);
      InterfamilyCapped(families.value, m);
      MulLe(FamilySwitches(families.value, rem, node.last), |m.tasks| + 1, MinInterfamily(families.value, m), d);
    }
  }

  /** Along a probe path, a node with `r` tasks left has spent at most
      `|tasks| - r` change-overs. */
  lemma {:induction false} ArenaCostCapped(m: SetupMatrix, tasks: seq<int>, arena: seq<Node>, choice: seq<nat>, i: nat)
    requires ArenaOk(m, tasks, arena, choice) && i < |arena|
    ensures |arena[i].remaining| <= |tasks|
    ensures arena[i].g.Fin? ==> arena[i].g.n <= (|tasks| - |arena[i].remaining|) * Dearest(m)
    decreases i
  {
    if i == 0 {
      AllBitsCard(|tasks|);
    } else {
      assert LinkOk(m, tasks, arena, choice, i);
      var p := arena[i].parent.value;
      ArenaCostCapped(m, tasks, arena, choice, p);
      var b := choice[i];
      assert arena[p].remaining == arena[i].remaining + {b};
      var k := |tasks| - |arena[i].remaining|;
      assert k * Dearest(m) == (k - 1) * Dearest(m) + Dearest(m);
    }
  }

  /** The `g + h` of any node of a probe path, when finite, is at most
      `FCap`. */
  lemma ProbeValueCapped(m: SetupMatrix, tasks: seq<int>, name: string, families: Option<TaskFamily>,
                         arena: seq<Node>, choice: seq<nat>, i: nat)
    requires ArenaOk(m, tasks, arena, choice) && i < |arena|
    requires HeuristicAgrees(m, name, families, arena[i], arena[i].h)
    ensures Add(arena[i].g, arena[i].h).Fin? ==> Add(arena[i].g, arena[i].h).n <= FCap(m, tasks)
  {
    ArenaCostCapped(m, tasks, arena, choice, i);
    EstimateCapped(m, name, families, arena[i], arena[i].h);
    var g, h := arena[i].g, arena[i].h;
    if g.Fin? && h.Fin? {
      CapSum(g.n, h.n, |tasks| - |arena[i].remaining|, |tasks|, |m.tasks|, Dearest(m));
    }
  }

  lemma CapSum(g: nat, h: nat, k: nat, t: nat, u: nat, d: nat)
    requires g <= k * d && k <= t && h <= (u + 1) * d
    ensures g + h <= (t + u + 1) * d
  {
    MulLe(k, t, d, d);
    assert (t + u + 1) * d == t * d + (u + 1) * d;
  }
}
