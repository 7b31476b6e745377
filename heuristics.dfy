/** The three cost-to-go estimates of
    backend/service/scheduling/TaskSchedulingHeuristics.py, evaluated on a
    search node whose bits index `setup_matrix.tasks`. */
module Heuristics {
  import opened Wrappers
  import opened Costs
  import opened SetupMatrices
  import opened TaskFamilies
  import opened SchedulingNodes
  import opened SpanningTrees

  predicate Distinct(xs: seq<int>)
  {
    forall k, l :: 0 <= k < l < |xs| ==> xs[k] != xs[l]
  }

  /** The setting in which h1 is a number: a complete table over distinct tasks.
      (Otherwise Python's `inf - inf` makes h1 NaN, or `min` of an empty
      sequence raises.) */
  predicate Instance(m: SetupMatrix)
  {
    Complete(m) && Distinct(m.tasks)
  }

  /** Every set bit names a task of the table's list. */
  predicate BitsInRange(node: Node, m: SetupMatrix)
  {
    forall i :: i in node.remaining ==> i < |m.tasks|
  }

  /** The costs from `from` to each of `tos`, in order. */
  function CostsFrom(m: SetupMatrix, from: int, tos: seq<int>): (cs: seq<Cost>)
    ensures |cs| == |tos|
    ensures forall k :: 0 <= k < |tos| ==> cs[k] == GetSetupCost(m, from, tos[k])
  {
    seq(|tos|, k requires 0 <= k < |tos| => GetSetupCost(m, from, tos[k]))
  }

  /** Python's `min` over a non-empty sequence of costs. */
  function MinOf(cs: seq<Cost>): (r: Cost)
    requires |cs| > 0
    ensures r in cs
    ensures forall k :: 0 <= k < |cs| ==> Le(r, cs[k])
    decreases |cs|
  {
    if |cs| == 1 then cs[0] else Min(MinOf(cs[..|cs| - 1]), cs[|cs| - 1])
  }

  /** `to_task for to_task in remaining_tasks if to_task != from_task`. */
  function Without(xs: seq<int>, x: int): (r: seq<int>)
    ensures forall y :: y in r <==> y in xs && y != x
    decreases |xs|
  {
    if xs == [] then []
    else (if xs[0] != x then [xs[0]] else []) + Without(xs[1..], x)
  }

  function SumNat(xs: seq<nat>): nat
    decreases |xs|
  {
    if xs == [] then 0 else xs[0] + SumNat(xs[1..])
  }

  function MaxNat(xs: seq<nat>): (r: nat)
    requires |xs| > 0
    ensures r in xs
    ensures forall k :: 0 <= k < |xs| ==> xs[k] <= r
    decreases |xs|
  {
    if |xs| == 1 then xs[0]
    else
      var rest := MaxNat(xs[1..]);
      assert forall k :: 1 <= k < |xs| ==> xs[k] == xs[1..][k - 1];
      if xs[0] >= rest then xs[0] else rest
  }

  /** A sum of naturals is at least its largest term, so `sum - max` is a natural. */
  lemma {:induction false} SumAtLeastMax(xs: seq<nat>)
    requires |xs| > 0
    ensures SumNat(xs) >= MaxNat(xs)
    decreases |xs|
  {
    if |xs| > 1 {
      SumAtLeastMax(xs[1..]);
      assert forall k :: 1 <= k < |xs| ==> xs[k] == xs[1..][k - 1];
    }
  }

  /** `min_cost_from_last`. */
  function MinFromLast(m: SetupMatrix, last: int, rem: seq<int>): Cost
    requires |rem| > 0
  {
    MinOf(CostsFrom(m, last, rem))
  }

  /** `min_out` for one remaining task: its cheapest change-over to another one. */
  function MinOut(m: SetupMatrix, rem: seq<int>, from: int): Cost
    requires Without(rem, from) != []
  {
    MinOf(CostsFrom(m, from, Without(rem, from)))
  }

  /** The change-over costs among the remaining tasks are all recorded. */
  predicate CompleteOn(m: SetupMatrix, rem: seq<int>)
  {
    forall a, b :: a in rem && b in rem && a != b ==> (a, b) in m.setupCosts
  }

  lemma OtherExists(rem: seq<int>, x: int)
    requires Distinct(rem) && |rem| > 1 && x in rem
    ensures Without(rem, x) != []
  {
    if rem[0] == x {
      assert rem[1] in Without(rem, x);
    } else {
      assert rem[0] in Without(rem, x);
    }
  }

  /** `min_out` of a task among at least two distinct remaining tasks whose
      change-overs are recorded: a finite amount. */
  function MinOutAmount(m: SetupMatrix, rem: seq<int>, from: int): nat
    requires Distinct(rem) && CompleteOn(m, rem) && |rem| > 1 && from in rem
  {
    MinOutFinite(m, rem, from);
    MinOut(m, rem, from).n
  }

  lemma MinOutFinite(m: SetupMatrix, rem: seq<int>, x: int)
    requires Distinct(rem) && CompleteOn(m, rem) && |rem| > 1 && x in rem
    ensures Without(rem, x) != [] && MinOut(m, rem, x).Fin?
  {
    OtherExists(rem, x);
  }

  /** `outgoing_costs`: one minimum per remaining task, none when a single task remains. */
  function Outgoing(m: SetupMatrix, rem: seq<int>): (out: seq<nat>)
    requires Distinct(rem) && CompleteOn(m, rem)
  {
    if |rem| <= 1 then []
    else seq(|rem|, k requires 0 <= k < |rem| => MinOutAmount(m, rem, rem[k]))
  }

  /** h1 on the remaining tasks `rem` after `last`. */
  function H1Value(m: SetupMatrix, last: int, rem: seq<int>): Cost
    requires |rem| > 0 && Distinct(rem) && CompleteOn(m, rem)
  {
    var out := Outgoing(m, rem);
    var total := if out == [] then 0 else (SumAtLeastMax(out); SumNat(out) - MaxNat(out));
    Add(MinFromLast(m, last, rem), Fin(total))
  }

  lemma SelectedOfInstance(m: SetupMatrix, bits: set<nat>)
    requires Instance(m)
    ensures Distinct(Selected(bits, m.tasks))
    ensures CompleteOn(m, Selected(bits, m.tasks))
    ensures (exists i :: i in bits && i < |m.tasks|) ==> |Selected(bits, m.tasks)| > 0
  {
    var sel := Selected(bits, m.tasks);
    SelectedByIndex(bits, m.tasks);
    SetBitsSpec(bits, |m.tasks|);
    forall x | x in sel
      ensures x in m.tasks
    {
      SelectedMembership(bits, m.tasks, x);
    }
    CompleteCoversRequiredPairs(m);
    if i :| i in bits && i < |m.tasks| {
      SelectedMembership(bits, m.tasks, m.tasks[i]);
    }
  }

  /** h1 of a node: 0 at the goal, otherwise `H1Value` of its remaining tasks. */
  function H1Of(m: SetupMatrix, node: Node): Cost
    requires Instance(m) && BitsInRange(node, m)
  {
    if node.remaining == {} then Fin(0)
    else
      SelectedOfInstance(m, node.remaining);
      H1Value(m, node.last, Selected(node.remaining, m.tasks))
  }

  /** The loop of `h1_minimum_outgoing_edges` that fills `outgoing_costs`. */
  method OutgoingCosts(m: SetupMatrix, rem: seq<int>) returns (outgoing: seq<nat>)
    requires Distinct(rem) && CompleteOn(m, rem)
    ensures outgoing == Outgoing(m, rem)
  {
    outgoing := [];
    for k := 0 to |rem|
      invariant outgoing == if |rem| > 1 then Outgoing(m, rem)[..k] else []
    {
      if |rem| > 1 {
        var minOut := MinOutCost(m, rem, rem[k]);
        OutgoingStep(m, rem, k);
        outgoing := outgoing + [minOut];
      }
    }
    assert |rem| > 1 ==> Outgoing(m, rem)[..|rem|] == Outgoing(m, rem);
  }

  lemma OutgoingStep(m: SetupMatrix, rem: seq<int>, k: nat)
    requires Distinct(rem) && CompleteOn(m, rem) && |rem| > 1 && k < |rem|
    ensures Outgoing(m, rem)[..k + 1] == Outgoing(m, rem)[..k] + [MinOutAmount(m, rem, rem[k])]
  {
    var o := Outgoing(m, rem);
    assert o[k] == MinOutAmount(m, rem, rem[k]) by {
      OutgoingAt(m, rem, k);
    }
    PrefixStep(o, k);
  }

  lemma OutgoingAt(m: SetupMatrix, rem: seq<int>, k: nat)
    requires Distinct(rem) && CompleteOn(m, rem) && |rem| > 1 && k < |rem|
    ensures Outgoing(m, rem)[k] == MinOutAmount(m, rem, rem[k])
  {
  }

  lemma PrefixStep(o: seq<nat>, k: nat)
    requires k < |o|
    ensures o[..k + 1] == o[..k] + [o[k]]
  {
  }

  /** `min_out`: the least cost from `from` to another remaining task. */
  method MinOutCost(m: SetupMatrix, rem: seq<int>, from: int) returns (minOut: nat)
    requires Distinct(rem) && CompleteOn(m, rem) && |rem| > 1 && from in rem
    ensures minOut == MinOutAmount(m, rem, from)
  {
    MinOutFinite(m, rem, from);
    minOut := MinOf(CostsFrom(m, from, Without(rem, from))).n;
  }

  /** `h1_minimum_outgoing_edges`. */
  method H1(node: Node, m: SetupMatrix) returns (r: Cost)
    requires Instance(m) && BitsInRange(node, m)
    ensures r == H1Of(m, node)
  {
    if node.remaining == {} {
      return Fin(0);
    }
    var rem := GetRemainingTasks(node, m.tasks);
    SelectedOfInstance(m, node.remaining);
    var minFromLast := MinOf(CostsFrom(m, node.last, rem));
    var outgoing := OutgoingCosts(m, rem);
    var total := SumNat(outgoing);
    if outgoing != [] {
      SumAtLeastMax(outgoing);
      total := total - MaxNat(outgoing);
    }
    r := Add(minFromLast, Fin(total));
  }

  /** A heap entry `(cost, task)`. */
  datatype HeapEntry = HeapEntry(cost: Cost, task: int)

  /** Python's tuple order on `(cost, task)`. */
  predicate EntryLess(x: HeapEntry, y: HeapEntry)
  {
    Less(x.cost, y.cost) || (x.cost == y.cost && x.task < y.task)
  }

  /** `heapq.heappop`: removes and returns a least entry. The heap's internal
      layout is not modelled, only the multiset of its entries. */
  method PopMin(heap: seq<HeapEntry>) returns (e: HeapEntry, rest: seq<HeapEntry>)
    requires |heap| > 0
    ensures e in heap && forall x :: x in heap ==> !EntryLess(x, e)
    ensures multiset(rest) + multiset{e} == multiset(heap)
    ensures |rest| == |heap| - 1
    ensures forall x :: x in rest ==> x in heap
    ensures forall x :: x in heap && x != e ==> x in rest
  {
    var best := 0;
    for k := 1 to |heap|
      invariant 0 <= best < |heap|
      invariant forall j :: 0 <= j < k ==> !EntryLess(heap[j], heap[best])
    {
      if EntryLess(heap[k], heap[best]) {
        best := k;
      }
    }
    e := heap[best];
    rest := heap[..best] + heap[best + 1..];
    assert heap == heap[..best] + [e] + heap[best + 1..];
    forall x | x in heap && x != e
      ensures x in rest
    {
      var j :| 0 <= j < |heap| && heap[j] == x;
      if j < best {
        assert rest[j] == x;
      } else {
        assert j != best;
        assert rest[j - 1] == x;
      }
    }
  }

  lemma CardOfSeqSet(tasks: seq<int>, visited: set<int>)
    requires forall t :: t in visited ==> t in tasks
    ensures |visited| <= |tasks|
    ensures |visited| == |tasks| ==> forall t :: t in tasks ==> t in visited
  {
    var all := set t | t in tasks;
    SeqSetCard(tasks);
    forall t | t in visited
      ensures t in all
    {
    }
    assert visited <= all;
    if |visited| == |tasks| {
      assert |all - visited| == |all| - |visited|;
      assert all - visited == {};
      forall t | t in tasks
        ensures t in visited
      {
        assert t in all;
        assert t !in all - visited;
      }
    }
  }

  lemma {:induction false} SeqSetCard(tasks: seq<int>)
    ensures |set t | t in tasks| <= |tasks|
    decreases |tasks|
  {
    if tasks != [] {
      SeqSetCard(tasks[1..]);
      assert (set t | t in tasks) == (set t | t in tasks[1..]) + {tasks[0]};
    }
  }

  /** Every heap entry leads to a task from an already visited one, at their symmetrised cost. */
  ghost predicate HeapFromVisited(m: SetupMatrix, tasks: seq<int>, visited: set<int>, heap: seq<HeapEntry>)
  {
    forall e :: e in heap ==> e.task in tasks && exists s :: s in visited && e.cost == SymCost(m, s, e.task)
  }

  /** Every unvisited task still has an entry in the heap. */
  ghost predicate Reachable(tasks: seq<int>, visited: set<int>, heap: seq<HeapEntry>)
  {
    forall t :: t in tasks ==> t in visited || exists e :: e in heap && e.task == t
  }

  /** The inner loop of `_compute_mst`: push an edge from `current` to every unvisited task. */
  method PushEdges(m: SetupMatrix, tasks: seq<int>, visited: set<int>, current: int, heap: seq<HeapEntry>)
    returns (heap': seq<HeapEntry>)
    ensures heap' == heap + PushedEdges(m, tasks, visited, current)
  {
    heap' := heap;
    for k := 0 to |tasks|
      invariant heap' == heap + PushedEdges(m, tasks[..k], visited, current)
    {
      assert tasks[..k + 1] == tasks[..k] + [tasks[k]];
      PushedEdgesSnoc(m, tasks[..k], tasks[k], visited, current);
      if tasks[k] !in visited {
        heap' := heap' + [HeapEntry(SymCost(m, current, tasks[k]), tasks[k])];
      }
    }
    assert tasks[..|tasks|] == tasks;
  }

  /** The entries the inner loop pushes, in order. */
  function PushedEdges(m: SetupMatrix, tasks: seq<int>, visited: set<int>, current: int): seq<HeapEntry>
    decreases |tasks|
  {
    if tasks == [] then []
    else
      var n := |tasks| - 1;
      PushedEdges(m, tasks[..n], visited, current)
      + (if tasks[n] !in visited then [HeapEntry(SymCost(m, current, tasks[n]), tasks[n])] else [])
  }

  lemma PushedEdgesSnoc(m: SetupMatrix, tasks: seq<int>, t: int, visited: set<int>, current: int)
    ensures PushedEdges(m, tasks + [t], visited, current)
            == PushedEdges(m, tasks, visited, current)
               + (if t !in visited then [HeapEntry(SymCost(m, current, t), t)] else [])
  {
    assert (tasks + [t])[..|tasks|] == tasks;
  }

  lemma {:induction false} PushedEdgesSpec(m: SetupMatrix, tasks: seq<int>, visited: set<int>, current: int)
    ensures forall e :: e in PushedEdges(m, tasks, visited, current) ==> e.task in tasks && e.cost == SymCost(m, current, e.task)
    ensures forall t :: t in tasks && t !in visited ==> HeapEntry(SymCost(m, current, t), t) in PushedEdges(m, tasks, visited, current)
    decreases |tasks|
  {
    if tasks != [] {
      var n := |tasks| - 1;
      PushedEdgesSpec(m, tasks[..n], visited, current);
      var p := PushedEdges(m, tasks, visited, current);
      forall t | t in tasks && t !in visited
        ensures HeapEntry(SymCost(m, current, t), t) in p
      {
        if t in tasks[..n] {
          assert HeapEntry(SymCost(m, current, t), t) in PushedEdges(m, tasks[..n], visited, current);
        } else {
          assert t == tasks[n];
          assert p[|p| - 1] == HeapEntry(SymCost(m, current, t), t);
        }
      }
    }
  }

  /** One visit of `_compute_mst`: the popped task joins the tree and the
      heap invariants carry over once its edges are pushed. */
  lemma VisitKeepsHeapInvariants(m: SetupMatrix, tasks: seq<int>, visited: set<int>, current: int,
                                 rest: seq<HeapEntry>, heap': seq<HeapEntry>)
    requires current in tasks
    requires forall e :: e in rest ==> e.task in tasks && exists s :: s in visited && e.cost == SymCost(m, s, e.task)
    requires heap' == rest + PushedEdges(m, tasks, visited + {current}, current)
    requires forall x, y :: x in visited && y in tasks && y !in visited && y != current ==> HeapEntry(SymCost(m, x, y), y) in rest
    ensures HeapFromVisited(m, tasks, visited + {current}, heap')
    ensures Reachable(tasks, visited + {current}, heap')
    ensures CutEntries(m, tasks, visited + {current}, heap')
  {
    var v := visited + {current};
    PushedEdgesSpec(m, tasks, v, current);
    forall e | e in heap'
      ensures e.task in tasks && exists s :: s in v && e.cost == SymCost(m, s, e.task)
    {
      if e in rest {
        var s :| s in visited && e.cost == SymCost(m, s, e.task);
        assert s in v;
      } else {
        assert e in PushedEdges(m, tasks, v, current);
      }
    }
    forall t | t in tasks && t !in v
      ensures exists e :: e in heap' && e.task == t
    {
      assert HeapEntry(SymCost(m, current, t), t) in heap';
    }
  }

  /** Every edge from a visited task to an unvisited one is in the heap. */
  ghost predicate CutEntries(m: SetupMatrix, tasks: seq<int>, visited: set<int>, heap: seq<HeapEntry>)
  {
    forall x, y :: x in visited && y in tasks && y !in visited ==> HeapEntry(SymCost(m, x, y), y) in heap
  }

  /** Prim's greedy choice so far: each visited task joined by an edge no
      heavier than any edge then leaving the tree. */
  ghost predicate GreedySoFar(m: SetupMatrix, tasks: seq<int>, order: seq<int>, links: seq<int>)
    requires |links| == |order| - 1
  {
    forall k, x, y :: 1 <= k < |order| && x in order[..k] && y in tasks && y !in order[..k] ==>
      Le(SymCost(m, links[k - 1], order[k]), SymCost(m, x, y))
  }

  /** The loop invariant of `_compute_mst`. Before the first visit the heap
      holds only the seed entry `(0, tasks[0])`; afterwards `order` and `links`
      are a tree over the visited tasks weighing `r`, every heap entry is an
      edge out of the tree, every edge leaving the tree has an entry, and each
      task joined the tree by a lightest edge leaving it at the time. */
  ghost predicate MstInv(m: SetupMatrix, tasks: seq<int>, visited: set<int>, heap: seq<HeapEntry>,
                         r: Cost, order: seq<int>, links: seq<int>)
  {
    |tasks| > 1
    && visited == (set t | t in order)
    && (forall t :: t in visited ==> t in tasks)
    && (forall k, l :: 0 <= k < l < |order| ==> order[k] != order[l])
    && (order == [] ==> heap == [HeapEntry(Fin(0), tasks[0])] && r == Fin(0) && links == [])
    && (order != [] ==>
          order[0] == tasks[0] && |links| == |order| - 1
          && (forall k :: 1 <= k < |order| ==> links[k - 1] in order[..k])
          && r == TreeWeight(m, order, links)
          && HeapFromVisited(m, tasks, visited, heap) && Reachable(tasks, visited, heap)
          && CutEntries(m, tasks, visited, heap) && GreedySoFar(m, tasks, order, links))
  }

  lemma MstSkip(m: SetupMatrix, tasks: seq<int>, visited: set<int>, heap: seq<HeapEntry>,
                r: Cost, order: seq<int>, links: seq<int>, e: HeapEntry, rest: seq<HeapEntry>)
    requires MstInv(m, tasks, visited, heap, r, order, links)
    requires e in heap && e.task in visited
    requires forall x :: x in rest ==> x in heap
    requires forall x :: x in heap && x != e ==> x in rest
    ensures MstInv(m, tasks, visited, rest, r, order, links)
  {
    assert order != [];
    forall x, y | x in visited && y in tasks && y !in visited
      ensures HeapEntry(SymCost(m, x, y), y) in rest
    {
      assert HeapEntry(SymCost(m, x, y), y) in heap;
    }
    forall t | t in tasks && t !in visited
      ensures exists x :: x in rest && x.task == t
    {
      var x :| x in heap && x.task == t;
      assert x in rest;
    }
  }

  lemma MstVisit(m: SetupMatrix, tasks: seq<int>, visited: set<int>, heap: seq<HeapEntry>,
                 r: Cost, order: seq<int>, links: seq<int>, e: HeapEntry, rest: seq<HeapEntry>,
                 heap': seq<HeapEntry>)
    returns (order': seq<int>, links': seq<int>)
    requires MstInv(m, tasks, visited, heap, r, order, links)
    requires e in heap && e.task !in visited && forall x :: x in heap ==> !EntryLess(x, e)
    requires forall x :: x in rest ==> x in heap
    requires forall x :: x in heap && x != e ==> x in rest
    requires |rest| == |heap| - 1
    requires heap' == rest + PushedEdges(m, tasks, visited + {e.task}, e.task)
    ensures MstInv(m, tasks, visited + {e.task}, heap', Add(r, e.cost), order', links')
  {
    var current := e.task;
    if order == [] {
      order', links' := [current], [];
      assert visited == {} by {
        forall t | t in visited
          ensures false
        {
        }
      }
      assert visited + {current} == {current};
      assert e == HeapEntry(Fin(0), tasks[0]) && rest == [];
      MstFirstVisit(m, tasks, e, rest, heap');
    } else {
      var s :| s in visited && e.cost == SymCost(m, s, current);
      order', links' := order + [current], links + [s];
      MstTreeGrows(m, tasks, visited, r, order, links, current, s);
      forall x, y | x in visited && y in tasks && y !in visited && y != current
        ensures HeapEntry(SymCost(m, x, y), y) in rest
      {
        assert HeapEntry(SymCost(m, x, y), y) in heap;
      }
      VisitKeepsHeapInvariants(m, tasks, visited, current, rest, heap');
      MstGreedyStep(m, tasks, visited, heap, order, links, e, s);
    }
  }

  lemma MstFirstVisit(m: SetupMatrix, tasks: seq<int>, e: HeapEntry, rest: seq<HeapEntry>, heap': seq<HeapEntry>)
    requires |tasks| > 1 && e == HeapEntry(Fin(0), tasks[0]) && rest == []
    requires heap' == rest + PushedEdges(m, tasks, {e.task}, e.task)
    ensures MstInv(m, tasks, {e.task}, heap', Add(Fin(0), e.cost), [e.task], [])
  {
    assert (set t | t in [e.task]) == {e.task};
    assert tasks[0] in tasks;
    assert {} + {e.task} == {e.task};
    VisitKeepsHeapInvariants(m, tasks, {}, e.task, rest, heap');
  }

  /** The popped entry is a lightest edge leaving the tree, so joining its
      task by it keeps the greedy choice. */
  lemma MstGreedyStep(m: SetupMatrix, tasks: seq<int>, visited: set<int>, heap: seq<HeapEntry>,
                      order: seq<int>, links: seq<int>, e: HeapEntry, s: int)
    requires order != [] && visited == (set t | t in order) && |links| == |order| - 1
    requires GreedySoFar(m, tasks, order, links) && CutEntries(m, tasks, visited, heap)
    requires e in heap && forall x :: x in heap ==> !EntryLess(x, e)
    requires e.cost == SymCost(m, s, e.task)
    ensures GreedySoFar(m, tasks, order + [e.task], links + [s])
  {
    var o, l := order + [e.task], links + [s];
    forall k, x, y | 1 <= k < |o| && x in o[..k] && y in tasks && y !in o[..k]
      ensures Le(SymCost(m, l[k - 1], o[k]), SymCost(m, x, y))
    {
      if k < |order| {
        assert o[..k] == order[..k];
      } else {
        assert o[..k] == order;
        assert HeapEntry(SymCost(m, x, y), y) in heap;
      }
    }
  }

  /** Joining a new task to the tree by the edge from `s` adds that edge's weight. */
  lemma MstTreeGrows(m: SetupMatrix, tasks: seq<int>, visited: set<int>, r: Cost,
                     order: seq<int>, links: seq<int>, current: int, s: int)
    requires order != [] && visited == (set t | t in order) && s in visited && current !in visited
    requires forall k, l :: 0 <= k < l < |order| ==> order[k] != order[l]
    requires |links| == |order| - 1 && forall k :: 1 <= k < |order| ==> links[k - 1] in order[..k]
    requires r == TreeWeight(m, order, links)
    ensures visited + {current} == (set t | t in order + [current])
    ensures forall k, l :: 0 <= k < l < |order + [current]| ==> (order + [current])[k] != (order + [current])[l]
    ensures forall k :: 1 <= k < |order + [current]| ==> (links + [s])[k - 1] in (order + [current])[..k]
    ensures Add(r, SymCost(m, s, current)) == TreeWeight(m, order + [current], links + [s])
  {
    var o := order + [current];
    TreeWeightSnoc(m, order, links, current, s);
    assert forall k :: 1 <= k < |order| ==> o[..k] == order[..k];
    assert o[..|order|] == order;
  }

  lemma MstExit(m: SetupMatrix, tasks: seq<int>, visited: set<int>, heap: seq<HeapEntry>,
                r: Cost, order: seq<int>, links: seq<int>)
    requires MstInv(m, tasks, visited, heap, r, order, links)
    requires heap == [] || |visited| >= |tasks|
    ensures PrimTree(tasks, order, links) && r == TreeWeight(m, order, links)
    ensures Greedy(m, order, links)
    ensures Distinct(tasks) ==> |order| == |tasks|
  {
    CardOfSeqSet(tasks, visited);
    assert order != [];
    forall k, x, y | 1 <= k < |order| && x in order[..k] && y in order[k..]
      ensures Le(SymCost(m, links[k - 1], order[k]), SymCost(m, x, y))
    {
      var j :| k <= j < |order| && order[j] == y by {
        var i :| 0 <= i < |order[k..]| && order[k..][i] == y;
        assert order[k + i] == y;
      }
      assert y !in order[..k];
    }
    if Distinct(tasks) {
      DistinctOrderLength(tasks, order);
    }
  }

  /** `_compute_mst`: Prim's method over the symmetrised costs, with a heap of
      `(cost, task)` pairs and a visited set. The ghost outputs are the tree it
      grows: the order tasks were visited in and the edge that reached each.
      That tree is a minimum spanning tree: no spanning tree of the tasks
      weighs less. */
  method ComputeMst(tasks: seq<int>, m: SetupMatrix) returns (r: Cost, ghost order: seq<int>, ghost links: seq<int>)
    ensures |tasks| <= 1 ==> r == Fin(0)
    ensures |tasks| > 1 ==> PrimTree(tasks, order, links) && r == TreeWeight(m, order, links)
    ensures |tasks| > 1 ==> Greedy(m, order, links)
    ensures |tasks| > 1 ==> forall o, l :: SpanningTree(tasks, o, l) ==> Le(r, TreeWeight(m, o, l))
    ensures |tasks| > 1 && Distinct(tasks) ==> |order| == |tasks|
  {
    order, links := [], [];
    if |tasks| <= 1 {
      return Fin(0), order, links;
    }
    var visited: set<int> := {};
    var heap := [HeapEntry(Fin(0), tasks[0])];
    r := Fin(0);
    while heap != [] && |visited| < |tasks|
      invariant MstInv(m, tasks, visited, heap, r, order, links)
      decreases |tasks| - |visited|, |heap|
    {
      var e, rest := PopMin(heap);
      if e.task in visited {
        MstSkip(m, tasks, visited, heap, r, order, links, e, rest);
        heap := rest;
      } else {
        var current := e.task;
        var heap' := PushEdges(m, tasks, visited + {current}, current, rest);
        order, links := MstVisit(m, tasks, visited, heap, r, order, links, e, rest, heap');
        visited := visited + {current};
        r := Add(r, e.cost);
        heap := heap';
      }
    }
    MstExit(m, tasks, visited, heap, r, order, links);
    forall o, l | SpanningTree(tasks, o, l)
      ensures Le(r, TreeWeight(m, o, l))
    {
      GreedyIsMinimal(m, tasks, order, links, o, l);
    }
  }

  lemma DistinctOrderLength(tasks: seq<int>, order: seq<int>)
    requires Distinct(tasks)
    requires forall k, l :: 0 <= k < l < |order| ==> order[k] != order[l]
    requires forall t :: t in order <==> t in tasks
    ensures |order| == |tasks|
  {
    DistinctSetCard(tasks);
    DistinctSetCard(order);
    assert (set t | t in order) == (set t | t in tasks);
  }

  lemma {:induction false} DistinctSetCard(xs: seq<int>)
    requires forall k, l :: 0 <= k < l < |xs| ==> xs[k] != xs[l]
    ensures |set t | t in xs| == |xs|
    decreases |xs|
  {
    if xs != [] {
      DistinctSetCard(xs[1..]);
      assert (set t | t in xs) == (set t | t in xs[1..]) + {xs[0]};
      assert xs[0] !in xs[1..];
    }
  }

  /** `h2_mst_symmetric`: the cheapest change-over from `last` into the remaining
      tasks plus the weight of the tree `_compute_mst` grows over them, a
      minimum spanning tree of the remaining tasks. */
  method H2(node: Node, m: SetupMatrix) returns (r: Cost, ghost order: seq<int>, ghost links: seq<int>)
    requires BitsInRange(node, m)
    ensures node.remaining == {} ==> r == Fin(0)
    ensures node.remaining != {} ==>
              var rem := Selected(node.remaining, m.tasks);
              |rem| > 0
              && (|rem| == 1 ==> r == MinFromLast(m, node.last, rem))
              && (|rem| > 1 ==> PrimTree(rem, order, links) && Greedy(m, order, links)
                                && r == Add(MinFromLast(m, node.last, rem), TreeWeight(m, order, links))
                                && forall o, l :: SpanningTree(rem, o, l) ==> Le(TreeWeight(m, order, links), TreeWeight(m, o, l)))
  {
    order, links := [], [];
    if node.remaining == {} {
      return Fin(0), order, links;
    }
    var rem := GetRemainingTasks(node, m.tasks);
    var i :| i in node.remaining;
    SelectedNonEmpty(node.remaining, m.tasks, i);
    var minConnection := MinOf(CostsFrom(m, node.last, rem));
    var mst;
    mst, order, links := ComputeMst(rem, m);
    r := Add(minConnection, mst);
  }

  /** The distinct family labels of the labelled remaining tasks. */
  function FamiliesOf(f: TaskFamily, rem: seq<int>): set<string>
  {
    set t | t in rem && t in f.families :: f.families[t]
  }

  /** `family_switches`: the remaining families, not counting the last task's
      own family when it has a non-empty label (Python's truthiness test). */
  function FamilySwitches(f: TaskFamily, rem: seq<int>, last: int): (k: nat)
    ensures k <= |FamiliesOf(f, rem)|
  {
    var fams := FamiliesOf(f, rem);
    if last in f.families && f.families[last] != "" && f.families[last] in fams
    then |fams - {f.families[last]}|
    else |fams|
  }

  /** `h3_product_families`: 0 at the goal; otherwise the number of family
      switches still needed times the cheapest inter-family change-over. */
  method H3(node: Node, m: SetupMatrix, f: TaskFamily) returns (r: nat)
    ensures node.remaining == {} ==> r == 0
    ensures node.remaining != {} ==> r == FamilySwitches(f, Selected(node.remaining, m.tasks), node.last) * MinInterfamily(f, m)
  {
    if node.remaining == {} {
      return 0;
    }
    var rem := GetRemainingTasks(node, m.tasks);
    var fams := FamiliesOf(f, rem);
    if node.last in f.families && f.families[node.last] != "" && f.families[node.last] in fams {
      fams := fams - {f.families[node.last]};
    }
    var switches := |fams|;
    assert switches == FamilySwitches(f, rem, node.last);
    if switches > 0 {
      var minCost := MinInterfamilyCost(f, m);
      r := switches * minCost;
    } else {
      r := 0;
    }
  }

  /** `_bitmask_to_tasks`: the tasks whose bit is set, in list order. */
  method BitmaskToTasks(bits: set<nat>, taskList: seq<int>) returns (tasks: seq<int>)
    ensures tasks == Selected(bits, taskList)
  {
    tasks := [];
    for i := 0 to |taskList|
      invariant tasks == Selected(bits, taskList[..i])
    {
      assert taskList[..i + 1][..i] == taskList[..i];
      if i in bits {
        tasks := tasks + [taskList[i]];
      }
    }
    assert taskList[..|taskList|] == taskList;
  }

  /** With one task `t` left, h1 is exactly the change-over from `last` to `t`. */
  lemma H1SingleTask(m: SetupMatrix, last: int, t: int)
    ensures H1Value(m, last, [t]) == GetSetupCost(m, last, t)
  {
    assert CostsFrom(m, last, [t]) == [GetSetupCost(m, last, t)];
    var c := GetSetupCost(m, last, t);
    assert Add(c, Fin(0)) == c;
  }

  /** The heuristic values are zero at the goal. */
  lemma HeuristicsVanishAtGoal(m: SetupMatrix, node: Node)
    requires Instance(m) && BitsInRange(node, m) && IsGoalState(node)
    ensures H1Of(m, node) == Fin(0)
  {
  }
}
