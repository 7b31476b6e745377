/** Spanning trees over a list of tasks, weighed by the symmetrised change-over
    cost that `_compute_mst` in
    backend/service/scheduling/TaskSchedulingHeuristics.py uses, and the cut
    property that makes a tree grown greedily (always by a lightest edge
    leaving the tree) a minimum one. */
module SpanningTrees {
  import opened Costs
  import opened SetupMatrices

  /** `min(cost(a, b), cost(b, a))`: the symmetrised change-over cost. */
  function SymCost(m: SetupMatrix, a: int, b: int): Cost
  {
    Min(GetSetupCost(m, a, b), GetSetupCost(m, b, a))
  }

  lemma SymCostSymmetric(m: SetupMatrix, a: int, b: int)
    ensures SymCost(m, a, b) == SymCost(m, b, a)
  {
  }

  /** `order` lists each task once and `links[k - 1]` is the earlier task
      `order[k]` was joined to: a spanning tree of the tasks, rooted at
      `order[0]` and listed so that every task comes after its parent. */
  ghost predicate SpanningTree(tasks: seq<int>, order: seq<int>, links: seq<int>)
  {
    |order| > 0 && |links| == |order| - 1
    && (forall k, l :: 0 <= k < l < |order| ==> order[k] != order[l])
    && (forall t :: t in order <==> t in tasks)
    && (forall k :: 1 <= k < |order| ==> links[k - 1] in order[..k])
  }

  /** A spanning tree rooted at the first task, as Prim's method grows it
      from `tasks[0]`. */
  ghost predicate PrimTree(tasks: seq<int>, order: seq<int>, links: seq<int>)
  {
    |tasks| > 0 && SpanningTree(tasks, order, links) && order[0] == tasks[0]
  }

  /** The total weight of the tree's edges. */
  function TreeWeight(m: SetupMatrix, order: seq<int>, links: seq<int>): Cost
    requires |links| == |order| - 1
    decreases |links|
  {
    if links == [] then Fin(0)
    else
      var n := |links| - 1;
      Add(TreeWeight(m, order[..n + 1], links[..n]), SymCost(m, links[n], order[n + 1]))
  }

  lemma {:induction false} TreeWeightSnoc(m: SetupMatrix, order: seq<int>, links: seq<int>, t: int, s: int)
    requires |links| == |order| - 1
    ensures TreeWeight(m, order + [t], links + [s]) == Add(TreeWeight(m, order, links), SymCost(m, s, t))
  {
    var o, l := order + [t], links + [s];
    assert o[..|l| - 1 + 1] == order && l[..|l| - 1] == links;
  }

  /** The greedy choice of Prim's method: each task joined the tree by an
      edge no heavier than any edge from the tasks already in the tree to a
      task not yet in it. */
  ghost predicate Greedy(m: SetupMatrix, order: seq<int>, links: seq<int>)
  {
    |links| == |order| - 1
    && forall k, x, y :: 1 <= k < |order| && x in order[..k] && y in order[k..] ==>
         Le(SymCost(m, links[k - 1], order[k]), SymCost(m, x, y))
  }

  /** A tree grown greedily weighs no more than any other spanning tree of
      the same tasks, whatever its root: the minimum spanning tree weight. */
  lemma GreedyIsMinimal(m: SetupMatrix, tasks: seq<int>, order: seq<int>, links: seq<int>,
                        other: seq<int>, otherLinks: seq<int>)
    requires PrimTree(tasks, order, links) && Greedy(m, order, links)
    requires SpanningTree(tasks, other, otherLinks)
    ensures Le(TreeWeight(m, order, links), TreeWeight(m, other, otherLinks))
  {
    var wp, wt := EdgeWeights(m, order, links), EdgeWeights(m, other, otherLinks);
    TreeWeightIsSum(m, order, links);
    TreeWeightIsSum(m, other, otherLinks);
    if SumCost(wt).Fin? {
      var bound := SumCost(wt).n;
      SumCostBounded(wt, bound);
      forall c: nat | c <= bound
        ensures |Above(wp, c)| <= |Above(wt, c)|
      {
        FewerHeavyEdges(m, tasks, order, links, other, otherLinks, c);
      }
      assert Above(wt, bound) == {};
      forall j | 0 <= j < |wp|
        ensures wp[j].Fin? && wp[j].n <= bound
      {
        assert j !in Above(wp, bound);
      }
      LayersIsSum(wt, bound);
      LayersIsSum(wp, bound);
      LayersMonotone(wp, wt, bound);
    }
  }

  // ---------------------------------------------------------------------------
  // Weights as a sequence, and a sum counted by thresholds
  // ---------------------------------------------------------------------------

  /** The weight of each tree edge, in the order the tasks joined. */
  function EdgeWeights(m: SetupMatrix, order: seq<int>, links: seq<int>): (ws: seq<Cost>)
    requires |links| == |order| - 1
    ensures |ws| == |links|
    ensures forall j :: 0 <= j < |ws| ==> ws[j] == SymCost(m, links[j], order[j + 1])
  {
    seq(|links|, j requires 0 <= j < |links| => SymCost(m, links[j], order[j + 1]))
  }

  function SumCost(ws: seq<Cost>): Cost
    decreases |ws|
  {
    if ws == [] then Fin(0) else Add(SumCost(ws[..|ws| - 1]), ws[|ws| - 1])
  }

  lemma {:induction false} TreeWeightIsSum(m: SetupMatrix, order: seq<int>, links: seq<int>)
    requires |links| == |order| - 1
    ensures TreeWeight(m, order, links) == SumCost(EdgeWeights(m, order, links))
    decreases |links|
  {
    if links != [] {
      var n := |links| - 1;
      TreeWeightIsSum(m, order[..n + 1], links[..n]);
      assert EdgeWeights(m, order[..n + 1], links[..n]) == EdgeWeights(m, order, links)[..n];
    }
  }

  /** A finite sum bounds every term. */
  lemma {:induction false} SumCostBounded(ws: seq<Cost>, bound: nat)
    requires SumCost(ws) == Fin(bound)
    ensures forall j :: 0 <= j < |ws| ==> ws[j].Fin? && ws[j].n <= bound
    decreases |ws|
  {
    if ws != [] {
      var init := ws[..|ws| - 1];
      SumCostBounded(init, SumCost(init).n);
      assert forall j :: 0 <= j < |init| ==> ws[j] == init[j];
    }
  }

  /** The positions whose weight exceeds `c`. */
  function Above(ws: seq<Cost>, c: nat): set<nat>
  {
    set j | 0 <= j < |ws| && Less(Fin(c), ws[j])
  }

  /** The sum of `|Above(ws, c)|` over the thresholds `c` below `bound`. */
  function Layers(ws: seq<Cost>, bound: nat): nat
  {
    if bound == 0 then 0 else Layers(ws, bound - 1) + |Above(ws, bound - 1)|
  }

  /** The number of thresholds below `bound` that `w` exceeds. */
  function Steps(w: Cost, bound: nat): nat
  {
    if bound == 0 then 0 else Steps(w, bound - 1) + (if Less(Fin(bound - 1), w) then 1 else 0)
  }

  lemma {:induction false} StepsOfFinite(v: nat, bound: nat)
    requires v <= bound
    ensures Steps(Fin(v), bound) == v
    decreases bound
  {
    if bound > v {
      StepsOfFinite(v, bound - 1);
    } else if bound > 0 {
      StepsBelow(v, bound - 1);
    }
  }

  lemma {:induction false} StepsBelow(v: nat, bound: nat)
    requires bound <= v
    ensures Steps(Fin(v), bound) == bound
    decreases bound
  {
    if bound > 0 {
      StepsBelow(v, bound - 1);
    }
  }

  lemma {:induction false} LayersSnoc(ws: seq<Cost>, w: Cost, bound: nat)
    ensures Layers(ws + [w], bound) == Layers(ws, bound) + Steps(w, bound)
    decreases bound
  {
    if bound > 0 {
      LayersSnoc(ws, w, bound - 1);
      var c := bound - 1;
      var ext := ws + [w];
      if Less(Fin(c), w) {
        assert Above(ext, c) == Above(ws, c) + {|ws|};
      } else {
        assert Above(ext, c) == Above(ws, c);
      }
    }
  }

  lemma {:induction false} LayersOfEmpty(bound: nat)
    ensures Layers([], bound) == 0
    decreases bound
  {
    if bound > 0 {
      LayersOfEmpty(bound - 1);
      assert Above([], bound - 1) == {};
    }
  }

  /** Layer-cake summation: finite weights no larger than `bound` add up to
      the count of (position, threshold) pairs with the weight above the
      threshold. */
  lemma {:induction false} LayersIsSum(ws: seq<Cost>, bound: nat)
    requires forall j :: 0 <= j < |ws| ==> ws[j].Fin? && ws[j].n <= bound
    ensures SumCost(ws) == Fin(Layers(ws, bound))
    decreases |ws|
  {
    if ws == [] {
      LayersOfEmpty(bound);
    } else {
      var init, w := ws[..|ws| - 1], ws[|ws| - 1];
      LayersIsSum(init, bound);
      assert ws == init + [w];
      LayersSnoc(init, w, bound);
      StepsOfFinite(w.n, bound);
    }
  }

  lemma {:induction false} LayersMonotone(a: seq<Cost>, b: seq<Cost>, bound: nat)
    requires forall c: nat :: c < bound ==> |Above(a, c)| <= |Above(b, c)|
    ensures Layers(a, bound) <= Layers(b, bound)
    decreases bound
  {
    if bound > 0 {
      LayersMonotone(a, b, bound - 1);
    }
  }

  /** An injection from `a` into `b` shows `a` is no larger. */
  lemma {:induction false} InjectionCard(a: set<nat>, b: set<nat>, f: nat -> nat)
    requires forall x :: x in a ==> f(x) in b
    requires forall x, y :: x in a && y in a && f(x) == f(y) ==> x == y
    ensures |a| <= |b|
    decreases |a|
  {
    if a != {} {
      var x :| x in a;
      InjectionCard(a - {x}, b - {f(x)}, f);
    }
  }

  // ---------------------------------------------------------------------------
  // The exchange argument, one threshold at a time
  // ---------------------------------------------------------------------------

  /** Every edge leaving the tasks in `inside` is heavier than `c`. */
  ghost predicate CutHeavy(m: SetupMatrix, tasks: seq<int>, inside: set<int>, c: nat)
  {
    forall x, y :: x in inside && y in tasks && y !in inside ==> Less(Fin(c), SymCost(m, x, y))
  }

  /** The first position of `x` in `s`, or `|s|`. */
  function IndexOf(s: seq<int>, x: int): (r: nat)
    ensures r <= |s|
    ensures r < |s| ==> s[r] == x
    ensures x in s ==> r < |s|
  {
    if s == [] then 0 else if s[0] == x then 0 else 1 + IndexOf(s[1..], x)
  }

  /** From position `i`, climb the tree along edges no heavier than `c`; stop
      at the root or below the first heavier edge. */
  ghost function Climb(m: SetupMatrix, order: seq<int>, links: seq<int>, c: nat, i: nat): nat
    decreases i
  {
    if 1 <= i < |order| && |links| == |order| - 1 && !Less(Fin(c), SymCost(m, links[i - 1], order[i])) then
      var p := IndexOf(order, links[i - 1]);
      if p < i then Climb(m, order, links, c, p) else i
    else i
  }

  lemma ParentBefore(tasks: seq<int>, order: seq<int>, links: seq<int>, i: nat)
    requires SpanningTree(tasks, order, links) && 1 <= i < |order|
    ensures IndexOf(order, links[i - 1]) < i
  {
    assert links[i - 1] in order[..i];
    var j :| 0 <= j < i && order[..i][j] == links[i - 1];
    assert order[j] == links[i - 1];
  }

  /** The climb ends at the root or just below an edge heavier than `c`, and
      never crosses a cut that only heavier edges leave. */
  lemma {:induction false} ClimbFacts(m: SetupMatrix, tasks: seq<int>, order: seq<int>, links: seq<int>,
                                      c: nat, i: nat, inside: set<int>)
    requires SpanningTree(tasks, order, links) && i < |order| && CutHeavy(m, tasks, inside, c)
    ensures Climb(m, order, links, c, i) <= i
    ensures var r := Climb(m, order, links, c, i);
            r == 0 || Less(Fin(c), SymCost(m, links[r - 1], order[r]))
    ensures order[i] in inside <==> order[Climb(m, order, links, c, i)] in inside
    decreases i
  {
    if 1 <= i && !Less(Fin(c), SymCost(m, links[i - 1], order[i])) {
      var p := IndexOf(order, links[i - 1]);
      ParentBefore(tasks, order, links, i);
      ClimbFacts(m, tasks, order, links, c, p, inside);
      SymCostSymmetric(m, order[i], order[p]);
      assert order[i] in tasks && order[p] in tasks;
    }
  }

  /** The tasks before position `k` of `order`. */
  function Prefix(order: seq<int>, k: nat): set<int>
    requires k <= |order|
  {
    set x | x in order[..k]
  }

  /** Greedy choice: when the edge that brought `order[k]` is heavier than
      `c`, every edge leaving the tasks before it is heavier than `c`. */
  lemma GreedyCut(m: SetupMatrix, tasks: seq<int>, order: seq<int>, links: seq<int>, k: nat, c: nat)
    requires PrimTree(tasks, order, links) && Greedy(m, order, links)
    requires 1 <= k < |order| && Less(Fin(c), SymCost(m, links[k - 1], order[k]))
    ensures CutHeavy(m, tasks, Prefix(order, k), c)
  {
    forall x, y | x in Prefix(order, k) && y in tasks && y !in Prefix(order, k)
      ensures Less(Fin(c), SymCost(m, x, y))
    {
      var j :| 0 <= j < |order| && order[j] == y;
      assert order == order[..k] + order[k..];
      assert y in order[k..];
    }
  }

  /** Where the task `x` of `other` climbs to at threshold `c`. */
  ghost function Top(m: SetupMatrix, other: seq<int>, otherLinks: seq<int>, c: nat, x: int): nat
  {
    Climb(m, other, otherLinks, c, IndexOf(other, x))
  }

  /** Where a task climbs to: a position of `other`, below a heavy edge of
      `other` unless it is the root, and on the same side of a cut that only
      edges heavier than `c` leave as the task itself. */
  lemma TopFacts(m: SetupMatrix, tasks: seq<int>, other: seq<int>, otherLinks: seq<int>,
                 c: nat, x: int, inside: set<int>)
    requires SpanningTree(tasks, other, otherLinks) && CutHeavy(m, tasks, inside, c)
    requires x in tasks
    ensures Top(m, other, otherLinks, c, x) < |other|
    ensures var r := Top(m, other, otherLinks, c, x);
            r != 0 ==> r - 1 in Above(EdgeWeights(m, other, otherLinks), c)
    ensures x in inside <==> other[Top(m, other, otherLinks, c, x)] in inside
  {
    var i := IndexOf(other, x);
    ClimbFacts(m, tasks, other, otherLinks, c, i, inside);
    var r := Climb(m, other, otherLinks, c, i);
    if r != 0 {
      assert EdgeWeights(m, other, otherLinks)[r - 1] == SymCost(m, otherLinks[r - 1], other[r]);
    }
  }

  /** A greedy edge heavier than `c`, edge `j`, separates the first `j + 1`
      tasks of the greedy tree from the rest by a heavy cut. */
  lemma HeavyCut(m: SetupMatrix, tasks: seq<int>, order: seq<int>, links: seq<int>, c: nat, j: nat)
    requires PrimTree(tasks, order, links) && Greedy(m, order, links)
    requires j in Above(EdgeWeights(m, order, links), c)
    ensures j + 1 < |order| && order[0] in tasks && order[j + 1] in tasks
    ensures CutHeavy(m, tasks, Prefix(order, j + 1), c)
    ensures order[j + 1] !in Prefix(order, j + 1)
    ensures forall i :: 0 <= i <= j ==> order[i] in Prefix(order, j + 1)
  {
    GreedyCut(m, tasks, order, links, j + 1, c);
    forall i | 0 <= i <= j
      ensures order[i] in Prefix(order, j + 1)
    {
      assert order[..j + 1][i] == order[i];
    }
  }

  /** The edge of `other` charged for edge `j` of the greedy tree at
      threshold `c`: the edge above where `order[j + 1]` climbs to, or, when
      that climb reaches the root of `other`, the edge above where the greedy
      tree's root climbs to. */
  ghost function Charged(m: SetupMatrix, order: seq<int>, other: seq<int>, otherLinks: seq<int>, c: nat, j: nat): nat
  {
    var r := Top(m, other, otherLinks, c, if j + 1 < |order| then order[j + 1] else 0);
    var r0 := Top(m, other, otherLinks, c, if 0 < |order| then order[0] else 0);
    if r != 0 then r - 1 else if r0 != 0 then r0 - 1 else 0
  }

  /** The charged edge of a heavy greedy edge is a heavy edge of `other`. */
  lemma ChargedHeavy(m: SetupMatrix, tasks: seq<int>, order: seq<int>, links: seq<int>,
                     other: seq<int>, otherLinks: seq<int>, c: nat, j: nat)
    requires PrimTree(tasks, order, links) && Greedy(m, order, links)
    requires SpanningTree(tasks, other, otherLinks)
    requires j in Above(EdgeWeights(m, order, links), c)
    ensures Charged(m, order, other, otherLinks, c, j) in Above(EdgeWeights(m, other, otherLinks), c)
  {
    HeavyCut(m, tasks, order, links, c, j);
    var inside := Prefix(order, j + 1);
    TopFacts(m, tasks, other, otherLinks, c, order[j + 1], inside);
    TopFacts(m, tasks, other, otherLinks, c, order[0], inside);
  }

  /** Different heavy greedy edges are charged to different edges of `other`. */
  lemma ChargedApart(m: SetupMatrix, tasks: seq<int>, order: seq<int>, links: seq<int>,
                     other: seq<int>, otherLinks: seq<int>, c: nat, j1: nat, j2: nat)
    requires PrimTree(tasks, order, links) && Greedy(m, order, links)
    requires SpanningTree(tasks, other, otherLinks)
    requires j1 in Above(EdgeWeights(m, order, links), c) && j2 in Above(EdgeWeights(m, order, links), c)
    requires j1 < j2
    ensures Charged(m, order, other, otherLinks, c, j1) != Charged(m, order, other, otherLinks, c, j2)
  {
    HeavyCut(m, tasks, order, links, c, j1);
    HeavyCut(m, tasks, order, links, c, j2);
    var v0, v1, v2 := order[0], order[j1 + 1], order[j2 + 1];
    var s1, s2 := Prefix(order, j1 + 1), Prefix(order, j2 + 1);
    assert v1 in s2;
    TopFacts(m, tasks, other, otherLinks, c, v0, s1);
    TopFacts(m, tasks, other, otherLinks, c, v1, s1);
    TopFacts(m, tasks, other, otherLinks, c, v0, s2);
    TopFacts(m, tasks, other, otherLinks, c, v1, s2);
    TopFacts(m, tasks, other, otherLinks, c, v2, s2);
    var t0, t1, t2 := Top(m, other, otherLinks, c, v0), Top(m, other, otherLinks, c, v1), Top(m, other, otherLinks, c, v2);
    assert t0 != t1 && t0 != t2 && t1 != t2;
  }

  /** At every threshold the greedy tree has no more edges above it than any
      other spanning tree. */
  lemma FewerHeavyEdges(m: SetupMatrix, tasks: seq<int>, order: seq<int>, links: seq<int>,
                        other: seq<int>, otherLinks: seq<int>, c: nat)
    requires PrimTree(tasks, order, links) && Greedy(m, order, links)
    requires SpanningTree(tasks, other, otherLinks)
    ensures |Above(EdgeWeights(m, order, links), c)| <= |Above(EdgeWeights(m, other, otherLinks), c)|
  {
    var heavy := Above(EdgeWeights(m, order, links), c);
    var f: nat -> nat := j => Charged(m, order, other, otherLinks, c, j);
    forall j | j in heavy
      ensures f(j) in Above(EdgeWeights(m, other, otherLinks), c)
    {
      ChargedHeavy(m, tasks, order, links, other, otherLinks, c, j);
    }
    forall j1, j2 | j1 in heavy && j2 in heavy && f(j1) == f(j2)
      ensures j1 == j2
    {
      if j1 < j2 {
        ChargedApart(m, tasks, order, links, other, otherLinks, c, j1, j2);
      } else if j2 < j1 {
        ChargedApart(m, tasks, order, links, other, otherLinks, c, j2, j1);
      }
    }
    InjectionCard(heavy, Above(EdgeWeights(m, other, otherLinks), c), f);
  }
}
