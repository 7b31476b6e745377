/** Why the uniform-cost driver of
    backend/service/implementation/TaskSchedulingSearch.py returns a
    cheapest schedule. A schedule is named by the order in which the search
    clears the task bits (a bit order); its prefixes are the search states it
    passes through. The search keeps one invariant (`Cheapest`): every bit
    order that leaves the closed identities for the first time has a waiting
    entry no dearer than it. With change-over costs never negative, the entry
    at the head of the ordered frontier is then no dearer than any order that
    is not closed, and a goal at the head is a cheapest schedule. */
module UniformCost {
  import opened Costs
  import opened SetupMatrices
  import opened SchedulingNodes
  import opened Schedules
  import opened SearchTrees
  import opened OrderedLists

  /** Distinct positions of the task list: the bits a search clears, in order. */
  predicate BitOrder(tasks: seq<int>, q: seq<nat>)
  {
    (forall k :: 0 <= k < |q| ==> q[k] < |tasks|)
    && forall a, b :: 0 <= a < b < |q| ==> q[a] != q[b]
  }

  /** The tasks a bit order schedules. */
  function TasksOf(tasks: seq<int>, q: seq<nat>): (p: seq<int>)
    requires BitOrder(tasks, q)
    ensures |p| == |q| && forall k :: 0 <= k < |q| ==> p[k] == tasks[q[k]]
  {
    seq(|q|, k requires 0 <= k < |q| => tasks[q[k]])
  }

  /** The bits a bit order has cleared. */
  function Cleared(q: seq<nat>): (c: set<nat>)
    ensures forall k :: k in c <==> k in q
  {
    set k | k in q
  }

  lemma ClearedSnoc(q: seq<nat>, b: nat)
    ensures Cleared(q + [b]) == Cleared(q) + {b}
  {
    assert forall k :: k in q + [b] <==> k in q || k == b;
  }

  /** The search state after a bit order: the bits still set and the task
      the machine is set up for (the idle task 0 before the first one; a
      position past the list, which no bit order holds, counts as idle). */
  function OrderKey(tasks: seq<int>, q: seq<nat>): StateKey
  {
    (AllBits(|tasks|) - Cleared(q), if q == [] || q[|q| - 1] >= |tasks| then 0 else tasks[q[|q| - 1]])
  }

  /** What a bit order costs from the idle machine. */
  ghost function OrderCost(m: SetupMatrix, tasks: seq<int>, q: seq<nat>): Cost
    requires BitOrder(tasks, q)
  {
    SequenceCost(m, 0, TasksOf(tasks, q))
  }

  /** The invariant of uniform-cost search: every node's priority is its
      cost so far, and every bit order whose state is not closed, but whose
      one-shorter prefix is (or which is empty), has a waiting entry for its
      state no dearer than the order itself. */
  ghost predicate Cheapest(m: SetupMatrix, tasks: seq<int>, arena: seq<Node>, frontier: seq<Entry>,
                           closed: set<StateKey>)
  {
    (forall i :: 0 <= i < |arena| ==> arena[i].v1 == arena[i].g)
    && forall q :: BitOrder(tasks, q) && OrderKey(tasks, q) !in closed
                   && (q == [] || OrderKey(tasks, q[..|q| - 1]) in closed) ==>
         exists x :: x in frontier && x.node < |arena| && Key(arena[x.node]) == OrderKey(tasks, q)
                     && Le(x.v1, OrderCost(m, tasks, q))
  }

  /** A prefix of a bit order is a bit order that costs no more. */
  lemma PrefixCheaper(m: SetupMatrix, tasks: seq<int>, q: seq<nat>)
    requires BitOrder(tasks, q) && q != []
    ensures BitOrder(tasks, q[..|q| - 1])
    ensures TasksOf(tasks, q) == TasksOf(tasks, q[..|q| - 1]) + [tasks[q[|q| - 1]]]
    ensures Le(OrderCost(m, tasks, q[..|q| - 1]), OrderCost(m, tasks, q))
    ensures OrderCost(m, tasks, q) == Add(OrderCost(m, tasks, q[..|q| - 1]),
                                          GetSetupCost(m, OrderKey(tasks, q[..|q| - 1]).1, tasks[q[|q| - 1]]))
  {
    var init := q[..|q| - 1];
    var p := TasksOf(tasks, q);
    var pi := TasksOf(tasks, init);
    assert p == pi + [tasks[q[|q| - 1]]];
    assert p[..|p| - 1] == pi;
    assert LastOf(0, pi) == OrderKey(tasks, init).1;
    AddMonotone(OrderCost(m, tasks, init), GetSetupCost(m, LastOf(0, pi), p[|p| - 1]));
  }

  /** The start of the search: one entry, for the start node at no cost. */
  lemma CheapestStart(m: SetupMatrix, tasks: seq<int>, start: Node)
    requires IsStart(start, tasks) && start.v1 == Fin(0)
    ensures Cheapest(m, tasks, [start], [Entry(start.v1, 0)], {})
  {
    forall q | BitOrder(tasks, q) && OrderKey(tasks, q) !in {}
               && (q == [] || OrderKey(tasks, q[..|q| - 1]) in {})
      ensures Entry(start.v1, 0) in [Entry(start.v1, 0)] && Key([start][0]) == OrderKey(tasks, q)
              && Le(start.v1, OrderCost(m, tasks, q))
    {
      assert q == [];
      assert Cleared(q) == {};
      assert AllBits(|tasks|) - Cleared(q) == AllBits(|tasks|);
      assert OrderKey(tasks, q) == (AllBits(|tasks|), 0);
      assert TasksOf(tasks, q) == [];
    }
  }

  /** Under the invariant, the head of a sorted frontier is no dearer than
      any bit order whose state is not closed. */
  lemma {:induction false} HeadIsCheapest(m: SetupMatrix, tasks: seq<int>, arena: seq<Node>, e: Entry,
                                          rest: seq<Entry>, closed: set<StateKey>, q: seq<nat>)
    requires Cheapest(m, tasks, arena, [e] + rest, closed) && SortedByKey([e] + rest)
    requires BitOrder(tasks, q) && OrderKey(tasks, q) !in closed
    ensures Le(e.v1, OrderCost(m, tasks, q))
    decreases |q|
  {
    var frontier := [e] + rest;
    if q == [] || OrderKey(tasks, q[..|q| - 1]) in closed {
      var x :| x in frontier && x.node < |arena| && Key(arena[x.node]) == OrderKey(tasks, q)
               && Le(x.v1, OrderCost(m, tasks, q));
      var j :| 0 <= j < |frontier| && frontier[j] == x;
      if j > 0 {
        assert Le(frontier[0].v1, frontier[j].v1);
      }
    } else {
      PrefixCheaper(m, tasks, q);
      HeadIsCheapest(m, tasks, arena, e, rest, closed, q[..|q| - 1]);
    }
  }

  /** Dropping the head when its state is already closed keeps the invariant. */
  lemma CheapestSkip(m: SetupMatrix, tasks: seq<int>, arena: seq<Node>, e: Entry, rest: seq<Entry>,
                     closed: set<StateKey>)
    requires Cheapest(m, tasks, arena, [e] + rest, closed)
    requires e.node < |arena| && Key(arena[e.node]) in closed
    ensures Cheapest(m, tasks, arena, rest, closed)
  {
    forall q | BitOrder(tasks, q) && OrderKey(tasks, q) !in closed
               && (q == [] || OrderKey(tasks, q[..|q| - 1]) in closed)
      ensures exists x :: x in rest && x.node < |arena| && Key(arena[x.node]) == OrderKey(tasks, q)
                          && Le(x.v1, OrderCost(m, tasks, q))
    {
      var x :| x in [e] + rest && x.node < |arena| && Key(arena[x.node]) == OrderKey(tasks, q)
               && Le(x.v1, OrderCost(m, tasks, q));
      assert x != e;
    }
  }

  /** Closing the head's state and pushing a successor for every child state
      that is not closed keeps the invariant: an order that now leaves the
      closed states for the first time runs through the head's state, which
      the head reached no dearer, so the pushed child is no dearer either. */
  lemma CheapestExpand(m: SetupMatrix, tasks: seq<int>, arena: seq<Node>, e: Entry, rest: seq<Entry>,
                       closed: set<StateKey>, arena': seq<Node>, frontier': seq<Entry>)
    requires Cheapest(m, tasks, arena, [e] + rest, closed) && SortedByKey([e] + rest)
    requires e.node < |arena| && e.v1 == arena[e.node].v1 && Key(arena[e.node]) !in closed
    requires |arena| <= |arena'| && forall i :: 0 <= i < |arena| ==> arena'[i] == arena[i]
    requires forall i :: |arena| <= i < |arena'| ==> arena'[i].v1 == arena'[i].g
    requires forall x :: x in frontier' ==> x.node < |arena'| && x.v1 == arena'[x.node].v1
    requires forall x :: x in rest ==> x in frontier'
    requires forall i :: i in arena[e.node].remaining && i < |tasks|
                         && (arena[e.node].remaining - {i}, tasks[i]) !in closed + {Key(arena[e.node])} ==>
               exists x :: x in frontier' && x.node < |arena'| && Succeeds(m, tasks, arena[e.node], arena'[x.node], i)
    ensures Cheapest(m, tasks, arena', frontier', closed + {Key(arena[e.node])})
  {
    var cur := arena[e.node];
    var key := Key(cur);
    forall q | BitOrder(tasks, q) && OrderKey(tasks, q) !in closed + {key}
               && (q == [] || OrderKey(tasks, q[..|q| - 1]) in closed + {key})
      ensures exists x :: x in frontier' && x.node < |arena'| && Key(arena'[x.node]) == OrderKey(tasks, q)
                          && Le(x.v1, OrderCost(m, tasks, q))
    {
      if q != [] && OrderKey(tasks, q[..|q| - 1]) == key {
        ThroughHead(m, tasks, arena, e, rest, closed, arena', frontier', q);
      } else {
        var x :| x in [e] + rest && x.node < |arena| && Key(arena[x.node]) == OrderKey(tasks, q)
                 && Le(x.v1, OrderCost(m, tasks, q));
        assert x != e;
        assert arena'[x.node] == arena[x.node];
      }
    }
  }

  /** The case of `CheapestExpand` for an order whose one-shorter prefix ends
      in the head's state. */
  lemma ThroughHead(m: SetupMatrix, tasks: seq<int>, arena: seq<Node>, e: Entry, rest: seq<Entry>,
                    closed: set<StateKey>, arena': seq<Node>, frontier': seq<Entry>, q: seq<nat>)
    requires Cheapest(m, tasks, arena, [e] + rest, closed) && SortedByKey([e] + rest)
    requires e.node < |arena| && e.v1 == arena[e.node].v1 && Key(arena[e.node]) !in closed
    requires |arena| <= |arena'| && forall i :: 0 <= i < |arena| ==> arena'[i] == arena[i]
    requires forall i :: |arena| <= i < |arena'| ==> arena'[i].v1 == arena'[i].g
    requires forall x :: x in frontier' ==> x.node < |arena'| && x.v1 == arena'[x.node].v1
    requires forall i :: i in arena[e.node].remaining && i < |tasks|
                         && (arena[e.node].remaining - {i}, tasks[i]) !in closed + {Key(arena[e.node])} ==>
               exists x :: x in frontier' && x.node < |arena'| && Succeeds(m, tasks, arena[e.node], arena'[x.node], i)
    requires BitOrder(tasks, q) && q != [] && OrderKey(tasks, q) !in closed + {Key(arena[e.node])}
    requires OrderKey(tasks, q[..|q| - 1]) == Key(arena[e.node])
    ensures exists x :: x in frontier' && x.node < |arena'| && Key(arena'[x.node]) == OrderKey(tasks, q)
                        && Le(x.v1, OrderCost(m, tasks, q))
  {
    var cur := arena[e.node];
    var init := q[..|q| - 1];
    var i := q[|q| - 1];
    PrefixCheaper(m, tasks, q);
    HeadIsCheapest(m, tasks, arena, e, rest, closed, init);
    StepKey(tasks, q, Key(cur));
    var x :| x in frontier' && Succeeds(m, tasks, cur, arena'[x.node], i);
    var child := arena'[x.node];
    assert cur.v1 == cur.g;
    if x.node < |arena| {
      assert child == arena[x.node];
    }
    assert child.v1 == child.g;
    AddLeBoth(cur.g, OrderCost(m, tasks, init), GetSetupCost(m, cur.last, tasks[i]), GetSetupCost(m, cur.last, tasks[i]));
  }

  /** The state after one more bit: that bit was still set, and is now
      cleared with its task last. */
  lemma StepKey(tasks: seq<int>, q: seq<nat>, key: StateKey)
    requires BitOrder(tasks, q) && q != [] && OrderKey(tasks, q[..|q| - 1]) == key
    ensures q[|q| - 1] in key.0 && q[|q| - 1] < |tasks|
    ensures OrderKey(tasks, q) == (key.0 - {q[|q| - 1]}, tasks[q[|q| - 1]])
  {
    var init := q[..|q| - 1];
    var i := q[|q| - 1];
    assert q == init + [i];
    ClearedSnoc(init, i);
    forall a | 0 <= a < |init|
      ensures init[a] != i
    {
      assert init[a] == q[a];
    }
    assert key.0 == AllBits(|tasks|) - Cleared(init);
    assert OrderKey(tasks, q).0 == key.0 - {i};
  }

  /** Every schedule is what some bit order schedules, and that order clears
      every bit. */
  lemma {:induction false} ScheduleHasBitOrder(tasks: seq<int>, bits: set<nat>, p: seq<int>)
      returns (q: seq<nat>)
    requires forall i :: i in bits ==> i < |tasks|
    requires multiset(p) == multiset(Selected(bits, tasks))
    ensures BitOrder(tasks, q) && TasksOf(tasks, q) == p && Cleared(q) == bits
    decreases |p|
  {
    if p == [] {
      if i :| i in bits {
        SelectedNonEmpty(bits, tasks, i);
      }
      assert bits == {};
      q := [];
      assert Cleared(q) == {};
    } else {
      var x := p[|p| - 1];
      var init := p[..|p| - 1];
      assert p == init + [x];
      var b := LastTaskBit(tasks, bits, p);
      var q0 := ScheduleHasBitOrder(tasks, bits - {b}, init);
      q := q0 + [b];
      ClearedSnoc(q0, b);
      assert (bits - {b}) + {b} == bits;
      BitOrderSnoc(tasks, q0, b);
      assert TasksOf(tasks, q) == init + [x];
    }
  }

  /** The last task of an order of the selected tasks comes from a set bit,
      and the rest orders what that bit's clearing leaves selected. */
  lemma LastTaskBit(tasks: seq<int>, bits: set<nat>, p: seq<int>) returns (b: nat)
    requires multiset(p) == multiset(Selected(bits, tasks)) && p != []
    ensures b in bits && b < |tasks| && tasks[b] == p[|p| - 1]
    ensures multiset(p[..|p| - 1]) == multiset(Selected(bits - {b}, tasks))
  {
    var x := p[|p| - 1];
    var init := p[..|p| - 1];
    assert p == init + [x];
    assert x in Selected(bits, tasks) by {
      assert x in multiset(p);
    }
    SelectedMembership(bits, tasks, x);
    b :| 0 <= b < |tasks| && b in bits && tasks[b] == x;
    SelectedRemove(bits, tasks, b);
    calc {
      multiset(init);
      multiset(p) - multiset{x};
      multiset(Selected(bits, tasks)) - multiset{x};
      multiset(Selected(bits - {b}, tasks));
    }
  }

  /** A bit order extended by a bit it has not cleared. */
  lemma BitOrderSnoc(tasks: seq<int>, q: seq<nat>, b: nat)
    requires BitOrder(tasks, q) && b < |tasks| && b !in Cleared(q)
    ensures BitOrder(tasks, q + [b])
    ensures TasksOf(tasks, q + [b]) == TasksOf(tasks, q) + [tasks[b]]
  {
    var q' := q + [b];
    forall a, c | 0 <= a < c < |q'|
      ensures q'[a] != q'[c]
    {
      if c == |q| {
        assert q'[a] == q[a] && q[a] in Cleared(q);
      } else {
        assert q'[a] == q[a] && q'[c] == q[c];
      }
    }
  }

  /** A goal at the head of a sorted frontier costs no more than any
      schedule, as long as no goal state is closed. */
  lemma GoalIsCheapest(m: SetupMatrix, tasks: seq<int>, arena: seq<Node>, e: Entry, rest: seq<Entry>,
                       closed: set<StateKey>, p: seq<int>)
    requires Cheapest(m, tasks, arena, [e] + rest, closed) && SortedByKey([e] + rest)
    requires forall k :: k in closed ==> k.0 != {}
    requires IsSchedule(tasks, p)
    ensures Le(e.v1, SequenceCost(m, 0, p))
  {
    var bits := AllBits(|tasks|);
    SelectedAll(bits, tasks);
    var q := ScheduleHasBitOrder(tasks, bits, p);
    assert OrderKey(tasks, q).0 == {};
    HeadIsCheapest(m, tasks, arena, e, rest, closed, q);
  }
}
