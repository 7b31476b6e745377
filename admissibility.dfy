/** The estimates of backend/service/scheduling/TaskSchedulingHeuristics.py
    against the true cost of finishing: h1 and h2 never exceed the cost of
    running the remaining tasks in any order, so an infinite estimate means
    every way to finish costs infinity. */
module Admissibility {
  import opened Wrappers
  import opened Costs
  import opened SetupMatrices
  import opened TaskFamilies
  import opened SchedulingNodes
  import opened Heuristics
  import opened SpanningTrees
  import opened Schedules
  import opened SchedulingSearch

  /** Running `[x] + rest` after `from`: the change-over into `x`, then `rest` after `x`. */
  lemma {:induction false} SequenceCostCons(m: SetupMatrix, from: int, x: int, rest: seq<int>)
    ensures SequenceCost(m, from, [x] + rest) == Add(GetSetupCost(m, from, x), SequenceCost(m, x, rest))
    decreases |rest|
  {
    var p := [x] + rest;
    if rest == [] {
      assert p[..0] == [];
    } else {
      var init := rest[..|rest| - 1];
      SequenceCostCons(m, from, x, init);
      assert p[..|p| - 1] == [x] + init;
    }
  }

  // ---------------------------------------------------------------------------
  // Orders of distinct tasks
  // ---------------------------------------------------------------------------

  lemma {:induction false} DistinctCount(xs: seq<int>, x: int)
    requires Distinct(xs)
    ensures multiset(xs)[x] <= 1
    decreases |xs|
  {
    if xs != [] {
      DistinctCount(xs[1..], x);
      assert xs == [xs[0]] + xs[1..];
      assert xs[0] !in xs[1..];
    }
  }

  /** An order of distinct tasks lists each of them once. */
  lemma PermutationFacts(rem: seq<int>, p: seq<int>)
    requires Distinct(rem) && multiset(p) == multiset(rem)
    ensures |p| == |rem| && Distinct(p)
    ensures forall t :: t in p <==> t in rem
  {
    assert |p| == |multiset(p)|;
    forall t
      ensures t in p <==> t in rem
    {
      assert t in p <==> t in multiset(p);
      assert t in rem <==> t in multiset(rem);
    }
    forall k, l | 0 <= k < l < |p|
      ensures p[k] != p[l]
    {
      if p[k] == p[l] {
        var x := p[k];
        assert p == p[..l] + p[l..];
        assert x in p[..l] && x in p[l..];
        assert multiset(p)[x] == multiset(p[..l])[x] + multiset(p[l..])[x];
        DistinctCount(rem, x);
      }
    }
  }

  /** `Selected` keeps a list of distinct tasks distinct. */
  lemma SelectedDistinct(bits: set<nat>, list: seq<int>)
    requires Distinct(list)
    ensures Distinct(Selected(bits, list))
  {
    SelectedByIndex(bits, list);
    SetBitsSpec(bits, |list|);
  }

  /** Bits below `n` select the same tasks from `list` as from its first `n`. */
  lemma {:induction false} SelectedPrefix(bits: set<nat>, list: seq<int>, n: nat)
    requires n <= |list| && forall i :: i in bits ==> i < n
    ensures Selected(bits, list) == Selected(bits, list[..n])
    decreases |list|
  {
    if |list| > n {
      var init := list[..|list| - 1];
      SelectedPrefix(bits, init, n);
      assert init[..n] == list[..n];
    } else {
      assert list[..n] == list;
    }
  }

  // ---------------------------------------------------------------------------
  // h1
  // ---------------------------------------------------------------------------

  /** `min_out` of `x` as an amount, 0 where it is not a finite one. */
  function OutOf(m: SetupMatrix, rem: seq<int>, x: int): nat
  {
    if Without(rem, x) != [] && MinOut(m, rem, x).Fin? then MinOut(m, rem, x).n else 0
  }

  lemma OutOfAmount(m: SetupMatrix, rem: seq<int>, x: int)
    requires Distinct(rem) && CompleteOn(m, rem) && |rem| > 1 && x in rem
    ensures OutOf(m, rem, x) == MinOutAmount(m, rem, x)
  {
    MinOutFinite(m, rem, x);
  }

  /** `min_out` of each task of `xs`, summed. */
  function OutSum(m: SetupMatrix, rem: seq<int>, xs: seq<int>): nat
    decreases |xs|
  {
    if xs == [] then 0 else OutSum(m, rem, xs[..|xs| - 1]) + OutOf(m, rem, xs[|xs| - 1])
  }

  lemma {:induction false} OutSumAppend(m: SetupMatrix, rem: seq<int>, a: seq<int>, b: seq<int>)
    ensures OutSum(m, rem, a + b) == OutSum(m, rem, a) + OutSum(m, rem, b)
    decreases |b|
  {
    if b == [] {
      assert a + b == a;
    } else {
      var init := b[..|b| - 1];
      OutSumAppend(m, rem, a, init);
      assert (a + b)[..|a + b| - 1] == a + init;
    }
  }

  /** The sum does not depend on the order the tasks are listed in. */
  lemma {:induction false} OutSumPermutation(m: SetupMatrix, rem: seq<int>, p: seq<int>, q: seq<int>)
    requires multiset(p) == multiset(q)
    ensures OutSum(m, rem, p) == OutSum(m, rem, q)
    decreases |p|
  {
    if p != [] {
      var n := |p| - 1;
      var x := p[n];
      assert x in multiset(q);
      var j :| 0 <= j < |q| && q[j] == x;
      var q' := q[..j] + q[j + 1..];
      assert q == q[..j] + [x] + q[j + 1..];
      assert p == p[..n] + [x];
      assert multiset(p[..n]) == multiset(p) - multiset{x};
      assert multiset(q') == multiset(q) - multiset{x};
      OutSumPermutation(m, rem, p[..n], q');
      OutSumAppend(m, rem, q[..j], q[j + 1..]);
      OutSumAppend(m, rem, q[..j], [x]);
      OutSumAppend(m, rem, q[..j] + [x], q[j + 1..]);
      assert [x][..0] == [];
    }
  }

  /** `outgoing_costs` sums to the `min_out` of every remaining task. */
  lemma OutgoingSum(m: SetupMatrix, rem: seq<int>)
    requires Distinct(rem) && CompleteOn(m, rem) && |rem| > 1
    ensures SumNat(Outgoing(m, rem)) == OutSum(m, rem, rem)
  {
    var out := Outgoing(m, rem);
    forall k | 0 <= k < |rem|
      ensures out[k] == OutOf(m, rem, rem[k])
    {
      OutgoingAt(m, rem, k);
      OutOfAmount(m, rem, rem[k]);
    }
    SumMatchesOutSum(m, rem, rem, out, |rem|);
  }

  /** A list holding the `min_out` of each task of `xs` sums, over any
      prefix, to the `min_out` of that prefix's tasks. */
  lemma {:induction false} SumMatchesOutSum(m: SetupMatrix, rem: seq<int>, xs: seq<int>, out: seq<nat>, n: nat)
    requires |out| == |xs| && n <= |xs|
    requires forall k :: 0 <= k < |xs| ==> out[k] == OutOf(m, rem, xs[k])
    ensures SumNat(out[..n]) == OutSum(m, rem, xs[..n])
    ensures n == |xs| ==> SumNat(out) == OutSum(m, rem, xs)
    decreases n
  {
    assert xs[..|xs|] == xs && out[..|out|] == out;
    if n > 0 {
      SumMatchesOutSum(m, rem, xs, out, n - 1);
      SumNatPrefix(out, n - 1);
      var ys := xs[..n];
      assert ys[..|ys| - 1] == xs[..n - 1];
    }
  }

  lemma SumNatPrefix(xs: seq<nat>, n: nat)
    requires n < |xs|
    ensures SumNat(xs[..n + 1]) == SumNat(xs[..n]) + xs[n]
  {
    assert xs[..n + 1] == xs[..n] + [xs[n]];
    SumNatSnoc(xs[..n], xs[n]);
  }

  lemma {:induction false} SumNatSnoc(xs: seq<nat>, x: nat)
    ensures SumNat(xs + [x]) == SumNat(xs) + x
    decreases |xs|
  {
    if xs != [] {
      SumNatSnoc(xs[1..], x);
      assert (xs + [x])[1..] == xs[1..] + [x];
    }
  }

  /** `min_out` of `x` is no more than the change-over from `x` to any other remaining task. */
  lemma MinOutBelow(m: SetupMatrix, rem: seq<int>, x: int, y: int)
    requires y in rem && x != y
    ensures Le(Fin(OutOf(m, rem, x)), GetSetupCost(m, x, y))
  {
    var w := Without(rem, x);
    assert y in w;
    var k :| 0 <= k < |w| && w[k] == y;
    assert CostsFrom(m, x, w)[k] == GetSetupCost(m, x, y);
  }

  /** The cheapest change-over from `from` into the remaining tasks is no more
      than the change-over into any of them. */
  lemma MinFromLastBelow(m: SetupMatrix, from: int, rem: seq<int>, y: int)
    requires |rem| > 0 && y in rem
    ensures Le(MinFromLast(m, from, rem), GetSetupCost(m, from, y))
  {
    var k :| 0 <= k < |rem| && rem[k] == y;
    assert CostsFrom(m, from, rem)[k] == GetSetupCost(m, from, y);
  }

  /** Running an order of remaining tasks costs at least its first change-over
      plus the `min_out` of every task but the last. */
  lemma {:induction false} PathCoversOut(m: SetupMatrix, rem: seq<int>, last: int, p: seq<int>)
    requires |p| > 0 && (forall x :: x in p ==> x in rem) && Distinct(p)
    ensures Le(Add(GetSetupCost(m, last, p[0]), Fin(OutSum(m, rem, p[..|p| - 1]))), SequenceCost(m, last, p))
    decreases |p|
  {
    var n := |p| - 1;
    if n == 0 {
      assert p[..0] == [];
    } else {
      var init := p[..n];
      assert forall x :: x in init ==> x in p;
      PathCoversOut(m, rem, last, init);
      assert p[n] in p;
      PathCoversStep(m, rem, last, p, init);
    }
  }

  /** The bound for an order follows from the bound for the order without
      its last task. */
  lemma PathCoversStep(m: SetupMatrix, rem: seq<int>, last: int, p: seq<int>, init: seq<int>)
    requires |p| > 1 && init == p[..|p| - 1]
    requires p[|p| - 1] in rem && p[|p| - 2] != p[|p| - 1]
    requires Le(Add(GetSetupCost(m, last, init[0]), Fin(OutSum(m, rem, init[..|init| - 1]))), SequenceCost(m, last, init))
    ensures Le(Add(GetSetupCost(m, last, p[0]), Fin(OutSum(m, rem, p[..|p| - 1]))), SequenceCost(m, last, p))
  {
    var n := |p| - 1;
    assert init[..n - 1] == p[..n - 1] && init[0] == p[0] && init[n - 1] == p[n - 1];
    assert OutSum(m, rem, init) == OutSum(m, rem, p[..n - 1]) + OutOf(m, rem, p[n - 1]);
    assert SequenceCost(m, last, p) == Add(SequenceCost(m, last, init), GetSetupCost(m, p[n - 1], p[n]));
    MinOutBelow(m, rem, p[n - 1], p[n]);
    CoverStep(GetSetupCost(m, last, p[0]), OutSum(m, rem, p[..n - 1]), OutOf(m, rem, p[n - 1]),
              SequenceCost(m, last, init), GetSetupCost(m, p[n - 1], p[n]));
  }

  /** One more step of an order adds its change-over to the cost and at most
      that much to the bound. */
  lemma CoverStep(first: Cost, before: nat, out: nat, prev: Cost, step: Cost)
    requires Le(Add(first, Fin(before)), prev) && Le(Fin(out), step)
    ensures Le(Add(first, Fin(before + out)), Add(prev, step))
  {
    AddLeBoth(Add(first, Fin(before)), prev, Fin(out), step);
    assert Add(first, Fin(before + out)) == Add(Add(first, Fin(before)), Fin(out));
  }

  /** h1 is admissible: on a well-formed instance, it is at most the cost of
      running the remaining tasks after the last one in any order. */
  lemma H1Admissible(m: SetupMatrix, node: Node, p: seq<int>)
    requires Instance(m) && BitsInRange(node, m)
    requires multiset(p) == multiset(Selected(node.remaining, m.tasks))
    ensures Le(H1Of(m, node), SequenceCost(m, node.last, p))
  {
    if node.remaining != {} {
      var i :| i in node.remaining;
      SelectedOfInstance(m, node.remaining);
      H1ValueAdmissible(m, node.last, Selected(node.remaining, m.tasks), p);
    }
  }

  /** `H1Value` of distinct remaining tasks is at most the cost of running
      them after `last` in any order. */
  lemma H1ValueAdmissible(m: SetupMatrix, last: int, rem: seq<int>, p: seq<int>)
    requires |rem| > 0 && Distinct(rem) && CompleteOn(m, rem)
    requires multiset(p) == multiset(rem)
    ensures Le(H1Value(m, last, rem), SequenceCost(m, last, p))
  {
    if |rem| == 1 {
      H1OneAdmissible(m, last, rem, p);
    } else {
      H1ManyAdmissible(m, last, rem, p);
    }
  }

  /** With one task left, h1 is the change-over into it, which is what the
      only order costs. */
  lemma H1OneAdmissible(m: SetupMatrix, last: int, rem: seq<int>, p: seq<int>)
    requires |rem| == 1 && CompleteOn(m, rem)
    requires multiset(p) == multiset(rem)
    ensures Le(H1Value(m, last, rem), SequenceCost(m, last, p))
  {
    PermutationFacts(rem, p);
    MinFromLastBelow(m, last, rem, p[0]);
    assert p == [p[0]] && p[..0] == [];
    assert SequenceCost(m, last, p) == Add(Fin(0), GetSetupCost(m, last, p[0]));
  }

  /** With several tasks left, the cheapest change-over into them is at most
      the first one of an order, and the rest of h1 is at most the `min_out`
      of every task the order leaves. */
  lemma H1ManyAdmissible(m: SetupMatrix, last: int, rem: seq<int>, p: seq<int>)
    requires |rem| > 1 && Distinct(rem) && CompleteOn(m, rem)
    requires multiset(p) == multiset(rem)
    ensures Le(H1Value(m, last, rem), SequenceCost(m, last, p))
  {
    PermutationFacts(rem, p);
    MinFromLastBelow(m, last, rem, p[0]);
    PathCoversOut(m, rem, last, p);
    H1ValueBelowOut(m, last, rem, p);
    var out := Fin(OutSum(m, rem, p[..|p| - 1]));
    SumBelow(H1Value(m, last, rem), MinFromLast(m, last, rem), GetSetupCost(m, last, p[0]),
             out, out, SequenceCost(m, last, p));
  }

  /** h1 with several tasks left is at most the cheapest change-over into
      them plus the `min_out` of every task but the last of any order. */
  lemma H1ValueBelowOut(m: SetupMatrix, last: int, rem: seq<int>, p: seq<int>)
    requires |rem| > 1 && Distinct(rem) && CompleteOn(m, rem)
    requires multiset(p) == multiset(rem)
    ensures |p| == |rem|
    ensures Le(H1Value(m, last, rem), Add(MinFromLast(m, last, rem), Fin(OutSum(m, rem, p[..|p| - 1]))))
  {
    OutTotalBelow(m, rem, p);
    H1ValueOfMany(m, last, rem);
    var out := Outgoing(m, rem);
    AddFinBelow(H1Value(m, last, rem), MinFromLast(m, last, rem), SumNat(out) - MaxNat(out),
                OutSum(m, rem, p[..|p| - 1]));
  }

  /** h1 with several tasks left: the cheapest change-over into them plus the
      sum of `outgoing_costs` less its largest entry. */
  lemma H1ValueOfMany(m: SetupMatrix, last: int, rem: seq<int>)
    requires |rem| > 1 && Distinct(rem) && CompleteOn(m, rem)
    ensures SumNat(Outgoing(m, rem)) >= MaxNat(Outgoing(m, rem))
    ensures H1Value(m, last, rem) == Add(MinFromLast(m, last, rem), Fin(SumNat(Outgoing(m, rem)) - MaxNat(Outgoing(m, rem))))
  {
    SumAtLeastMax(Outgoing(m, rem));
  }

  /** The sum of `outgoing_costs` less its largest entry is at most the
      `min_out` of every task but the last of any order of the remaining tasks. */
  lemma OutTotalBelow(m: SetupMatrix, rem: seq<int>, p: seq<int>)
    requires |rem| > 1 && Distinct(rem) && CompleteOn(m, rem)
    requires multiset(p) == multiset(rem)
    ensures |p| == |rem| && SumNat(Outgoing(m, rem)) >= MaxNat(Outgoing(m, rem))
    ensures SumNat(Outgoing(m, rem)) - MaxNat(Outgoing(m, rem)) <= OutSum(m, rem, p[..|p| - 1])
  {
    PermutationFacts(rem, p);
    var n := |p| - 1;
    var out := Outgoing(m, rem);
    SumAtLeastMax(out);
    OutgoingSum(m, rem);
    OutSumPermutation(m, rem, p, rem);
    var before := OutSum(m, rem, p[..n]);
    assert OutSum(m, rem, p) == before + OutOf(m, rem, p[n]);
    assert p[n] in rem;
    var k :| 0 <= k < |rem| && rem[k] == p[n];
    assert out[k] == MinOutAmount(m, rem, p[n]);
    OutOfAmount(m, rem, p[n]);
    assert out[k] <= MaxNat(out);
  }

  // ---------------------------------------------------------------------------
  // h2
  // ---------------------------------------------------------------------------

  /** An order of the remaining tasks, each joined to the one before it, is a
      spanning tree rooted at its first task. */
  lemma PathIsSpanningTree(rem: seq<int>, p: seq<int>)
    requires |p| > 0 && Distinct(p) && forall t :: t in p <==> t in rem
    ensures SpanningTree(rem, p, p[..|p| - 1])
  {
    forall k | 1 <= k < |p|
      ensures p[..|p| - 1][k - 1] in p[..k]
    {
      assert p[..k][k - 1] == p[k - 1];
    }
  }

  /** Running an order costs at least its first change-over plus the weight
      of the path as a tree: each change-over is at least its symmetrised cost. */
  lemma {:induction false} PathOutweighsTree(m: SetupMatrix, last: int, p: seq<int>)
    requires |p| > 0
    ensures Le(Add(GetSetupCost(m, last, p[0]), TreeWeight(m, p, p[..|p| - 1])), SequenceCost(m, last, p))
    decreases |p|
  {
    var n := |p| - 1;
    if n == 0 {
      assert p[..0] == [];
    } else {
      var init := p[..n];
      PathOutweighsTree(m, last, init);
      assert init[0] == p[0];
      assert p[..n][..n - 1] == init[..|init| - 1];
      assert p[..n + 1] == p;
    }
  }

  /** h2 is admissible: over distinct remaining tasks, it is at most the cost
      of running them after the last one in any order. */
  lemma H2Admissible(m: SetupMatrix, node: Node, h: Cost, p: seq<int>)
    requires H2Agrees(m, node, h)
    requires Distinct(Selected(node.remaining, m.tasks))
    requires multiset(p) == multiset(Selected(node.remaining, m.tasks))
    ensures Le(h, SequenceCost(m, node.last, p))
  {
    if node.remaining != {} {
      var rem := Selected(node.remaining, m.tasks);
      if |rem| == 1 {
        PermutationFacts(rem, p);
        MinFromLastBelow(m, node.last, rem, p[0]);
        assert p == [p[0]] && p[..0] == [];
      } else {
        var order, links :| PrimTree(rem, order, links) && Greedy(m, order, links)
                            && h == Add(MinFromLast(m, node.last, rem), TreeWeight(m, order, links))
                            && forall o, l :: SpanningTree(rem, o, l) ==> Le(TreeWeight(m, order, links), TreeWeight(m, o, l));
        H2TreeAdmissible(m, node.last, rem, h, p, order, links);
      }
    }
  }

  /** With several tasks left, the cheapest change-over into them is at most
      the first one of an order, and the least tree weight at most the
      weight of the order read as a chain. */
  lemma H2TreeAdmissible(m: SetupMatrix, last: int, rem: seq<int>, h: Cost, p: seq<int>,
                         order: seq<int>, links: seq<int>)
    requires |rem| > 1 && Distinct(rem) && multiset(p) == multiset(rem)
    requires |links| == |order| - 1 && h == Add(MinFromLast(m, last, rem), TreeWeight(m, order, links))
    requires forall o, l :: SpanningTree(rem, o, l) ==> Le(TreeWeight(m, order, links), TreeWeight(m, o, l))
    ensures Le(h, SequenceCost(m, last, p))
  {
    PermutationFacts(rem, p);
    MinFromLastBelow(m, last, rem, p[0]);
    PathIsSpanningTree(rem, p);
    PathOutweighsTree(m, last, p);
    SumBelow(h, MinFromLast(m, last, rem), GetSetupCost(m, last, p[0]), TreeWeight(m, order, links),
             TreeWeight(m, p, p[..|p| - 1]), SequenceCost(m, last, p));
  }

  // ---------------------------------------------------------------------------
  // Infinite estimates
  // ---------------------------------------------------------------------------

  /** Whenever the named estimate reads the remaining tasks from the table's
      own list, that list starts with the searched tasks, listed once each. */
  predicate TableListsTasks(m: SetupMatrix, tasks: seq<int>, name: string)
  {
    (name == "h1" || name == "h2") ==> Distinct(tasks) && |tasks| <= |m.tasks| && m.tasks[..|tasks|] == tasks
  }

  /** The named estimate is infinite only if every order of the remaining
      tasks costs infinity from the last one (h3 and the zero estimate are
      never infinite). */
  lemma InfiniteEstimateIsExact(m: SetupMatrix, tasks: seq<int>, name: string, families: Option<TaskFamily>,
                                node: Node, p: seq<int>)
    requires HeuristicAgrees(m, name, families, node, Inf)
    requires forall i :: i in node.remaining ==> i < |tasks|
    requires TableListsTasks(m, tasks, name)
    requires multiset(p) == multiset(Selected(node.remaining, tasks))
    ensures SequenceCost(m, node.last, p) == Inf
  {
    if name == "h1" {
      SelectedPrefix(node.remaining, m.tasks, |tasks|);
      H1Admissible(m, node, p);
    } else if name == "h2" {
      SelectedPrefix(node.remaining, m.tasks, |tasks|);
      SelectedDistinct(node.remaining, tasks);
      H2Admissible(m, node, Inf, p);
    }
  }
}
