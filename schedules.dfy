/** What a scheduling search returns is judged against: a schedule is an
    order of the task list, and its cost is the sum of the change-overs from
    the idle machine (task 0) through the schedule, as `get_setup_cost` prices
    them (backend/service/implementation/TaskSchedulingData.py). */
module Schedules {
  import opened Costs
  import opened SetupMatrices

  /** The initial bitmask `(1 << len(tasks)) - 1`: bits 0 .. n-1 set. */
  function AllBits(n: nat): (s: set<nat>)
    ensures forall i: nat :: i in s <==> i < n
    decreases n
  {
    if n == 0 then {} else AllBits(n - 1) + {n - 1}
  }

  lemma {:induction false} AllBitsCard(n: nat)
    ensures |AllBits(n)| == n
    decreases n
  {
    if n > 0 {
      AllBitsCard(n - 1);
    }
  }

  /** A schedule: the tasks in some order, each as often as listed. */
  predicate IsSchedule(tasks: seq<int>, path: seq<int>)
  {
    multiset(path) == multiset(tasks)
  }

  /** The task the machine was last set up for after `path`, starting from `from`. */
  function LastOf(from: int, path: seq<int>): int
  {
    if path == [] then from else path[|path| - 1]
  }

  /** The total change-over cost of running `path` after `from`. */
  function SequenceCost(m: SetupMatrix, from: int, path: seq<int>): Cost
    decreases |path|
  {
    if path == [] then Fin(0)
    else
      var init := path[..|path| - 1];
      Add(SequenceCost(m, from, init), GetSetupCost(m, LastOf(from, init), path[|path| - 1]))
  }

  /** A schedule's cost is finite exactly when every change-over it needs is recorded. */
  lemma {:induction false} SequenceCostFinite(m: SetupMatrix, from: int, path: seq<int>)
    ensures SequenceCost(m, from, path).Fin? <==>
              forall k :: 0 <= k < |path| ==> (LastOf(from, path[..k]), path[k]) in m.setupCosts
    decreases |path|
  {
    if path != [] {
      var n := |path| - 1;
      var init := path[..n];
      SequenceCostFinite(m, from, init);
      assert forall k :: 0 <= k < n ==> init[..k] == path[..k] && init[k] == path[k];
      assert path[..n] == init;
    }
  }

  /** With a table complete over the tasks, every schedule of distinct
      non-idle tasks has a finite cost. */
  lemma CompleteMeansFiniteSchedules(m: SetupMatrix, path: seq<int>)
    requires Complete(m)
    requires forall k :: 0 <= k < |path| ==> path[k] in m.tasks && path[k] != 0
    requires forall k, l :: 0 <= k < l < |path| ==> path[k] != path[l]
    ensures SequenceCost(m, 0, path).Fin?
  {
    CompleteCoversRequiredPairs(m);
    forall k | 0 <= k < |path|
      ensures (LastOf(0, path[..k]), path[k]) in m.setupCosts
    {
      if k > 0 {
        assert LastOf(0, path[..k]) == path[k - 1];
      }
    }
    SequenceCostFinite(m, 0, path);
  }

  /** The tasks of `xs` other than the idle task 0, in order: what the
      reconstruction keeps of a path. */
  function WithoutIdle(xs: seq<int>): (r: seq<int>)
    decreases |xs|
  {
    if xs == [] then []
    else
      var n := |xs| - 1;
      WithoutIdle(xs[..n]) + (if xs[n] != 0 then [xs[n]] else [])
  }

  lemma {:induction false} WithoutIdleKeeps(xs: seq<int>)
    requires 0 !in xs
    ensures WithoutIdle(xs) == xs
    decreases |xs|
  {
    if xs != [] {
      var n := |xs| - 1;
      WithoutIdleKeeps(xs[..n]);
      assert xs[..n] + [xs[n]] == xs;
    }
  }

  lemma {:induction false} WithoutIdleMembers(xs: seq<int>)
    ensures forall x :: x in WithoutIdle(xs) <==> x in xs && x != 0
    decreases |xs|
  {
    if xs != [] {
      var n := |xs| - 1;
      WithoutIdleMembers(xs[..n]);
      assert xs == xs[..n] + [xs[n]];
    }
  }

  /** Python's `list.reverse()`. */
  function Reversed<T>(xs: seq<T>): (r: seq<T>)
    ensures |r| == |xs|
    ensures forall k :: 0 <= k < |xs| ==> r[k] == xs[|xs| - 1 - k]
    decreases |xs|
  {
    if xs == [] then [] else Reversed(xs[1..]) + [xs[0]]
  }

  lemma ReversedSnoc<T>(xs: seq<T>, x: T)
    ensures Reversed(xs + [x]) == [x] + Reversed(xs)
  {
  }
}
