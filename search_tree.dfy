/** The tree of nodes a scheduling search creates
    (backend/service/implementation/TaskSchedulingSearch.py). Python nodes
    point at their parents; here every created node lives in an arena, a
    sequence in creation order, and a parent is an index into it. */
module SearchTrees {
  import opened Wrappers
  import opened Costs
  import opened SetupMatrices
  import opened SchedulingNodes
  import opened Schedules

  /** The start node: every bit set, last task 0, nothing spent, no parent. */
  predicate IsStart(n: Node, tasks: seq<int>)
  {
    n.remaining == AllBits(|tasks|) && n.last == 0 && n.g == Fin(0) && n.parent.None? && n.depth == 0
  }

  /** `c` schedules task `b` of the list next after `p`: bit `b` is cleared,
      `b` becomes the last task, and the change-over is added to the cost. */
  predicate Succeeds(m: SetupMatrix, tasks: seq<int>, p: Node, c: Node, b: nat)
  {
    b in p.remaining && b < |tasks| && c.remaining == p.remaining - {b} && c.last == tasks[b]
    && c.g == Add(p.g, GetSetupCost(m, p.last, tasks[b]))
  }

  /** Parents come before their children; only a root has no parent. */
  ghost predicate ParentsBefore(arena: seq<Node>)
  {
    forall i :: 0 <= i < |arena| && arena[i].parent.Some? ==> arena[i].parent.value < i
  }

  /** Node `i` of the arena is a successor (bit `choice[i]`) of an earlier
      node, one level deeper. */
  ghost predicate LinkOk(m: SetupMatrix, tasks: seq<int>, arena: seq<Node>, choice: seq<nat>, i: nat)
    requires i < |arena| && |choice| == |arena|
  {
    arena[i].parent.Some? && arena[i].parent.value < i
    && Succeeds(m, tasks, arena[arena[i].parent.value], arena[i], choice[i])
    && arena[i].depth == arena[arena[i].parent.value].depth + 1
  }

  /** A well-formed arena: the start node first, and every later node linked
      to its parent. */
  ghost predicate ArenaOk(m: SetupMatrix, tasks: seq<int>, arena: seq<Node>, choice: seq<nat>)
  {
    |arena| > 0 && |choice| == |arena| && IsStart(arena[0], tasks)
    && forall i: nat :: 1 <= i < |arena| ==> LinkOk(m, tasks, arena, choice, i)
  }

  lemma ArenaOkParents(m: SetupMatrix, tasks: seq<int>, arena: seq<Node>, choice: seq<nat>)
    requires ArenaOk(m, tasks, arena, choice)
    ensures ParentsBefore(arena)
  {
    forall i | 0 <= i < |arena| && arena[i].parent.Some?
      ensures arena[i].parent.value < i
    {
      assert i != 0 && LinkOk(m, tasks, arena, choice, i);
    }
  }

  /** Adding a successor of an existing node keeps the arena well formed. */
  lemma ArenaAppend(m: SetupMatrix, tasks: seq<int>, arena: seq<Node>, choice: seq<nat>, p: nat, c: Node, b: nat)
    requires ArenaOk(m, tasks, arena, choice) && p < |arena|
    requires Succeeds(m, tasks, arena[p], c, b) && c.parent == Some(p) && c.depth == arena[p].depth + 1
    ensures ArenaOk(m, tasks, arena + [c], choice + [b])
  {
    var a := arena + [c];
    forall i: nat | 1 <= i < |a|
      ensures LinkOk(m, tasks, a, choice + [b], i)
    {
      if i < |arena| {
        assert LinkOk(m, tasks, arena, choice, i);
        assert a[i] == arena[i] && a[arena[i].parent.value] == arena[arena[i].parent.value];
      }
    }
  }

  /** The tasks scheduled on the way from the root to node `i`, in order. */
  ghost function PathLasts(arena: seq<Node>, i: nat): seq<int>
    requires ParentsBefore(arena) && i < |arena|
    decreases i
  {
    if arena[i].parent.None? then [] else PathLasts(arena, arena[i].parent.value) + [arena[i].last]
  }

  /** Appending to the arena does not change the paths of existing nodes. */
  lemma {:induction false} PathLastsStable(arena: seq<Node>, c: Node, i: nat)
    requires ParentsBefore(arena) && ParentsBefore(arena + [c]) && i < |arena|
    ensures PathLasts(arena + [c], i) == PathLasts(arena, i)
    decreases i
  {
    assert (arena + [c])[i] == arena[i];
    if arena[i].parent.Some? {
      PathLastsStable(arena, c, arena[i].parent.value);
    }
  }

  /** The bits of every node index the task list. */
  lemma RemainingInRange(m: SetupMatrix, tasks: seq<int>, arena: seq<Node>, choice: seq<nat>, i: nat)
    requires ArenaOk(m, tasks, arena, choice) && i < |arena|
    ensures forall b :: b in arena[i].remaining ==> b < |tasks|
  {
    PathFacts(m, tasks, arena, choice, i);
  }

  /** What every node of a well-formed arena stands for: its path and its
      remaining tasks together are the task list, its cost is the cost of its
      path, its last task ends the path, and its depth counts the path. */
  lemma {:induction false} PathFacts(m: SetupMatrix, tasks: seq<int>, arena: seq<Node>, choice: seq<nat>, i: nat)
    requires ArenaOk(m, tasks, arena, choice) && i < |arena|
    ensures ParentsBefore(arena)
    ensures multiset(Selected(arena[i].remaining, tasks)) + multiset(PathLasts(arena, i)) == multiset(tasks)
    ensures arena[i].g == SequenceCost(m, 0, PathLasts(arena, i))
    ensures arena[i].last == LastOf(0, PathLasts(arena, i))
    ensures forall b :: b in arena[i].remaining ==> b < |tasks|
    ensures arena[i].last == 0 || arena[i].last in tasks
    ensures |PathLasts(arena, i)| == arena[i].depth
    ensures arena[i].depth + |arena[i].remaining| == |tasks|
    decreases i
  {
    ArenaOkParents(m, tasks, arena, choice);
    if i == 0 {
      SelectedAll(arena[0].remaining, tasks);
      AllBitsCard(|tasks|);
    } else {
      assert LinkOk(m, tasks, arena, choice, i);
      var p := arena[i].parent.value;
      var b := choice[i];
      PathFacts(m, tasks, arena, choice, p);
      SelectedRemove(arena[p].remaining, tasks, b);
      var path := PathLasts(arena, i);
      assert path == PathLasts(arena, p) + [tasks[b]];
      assert path[..|path| - 1] == PathLasts(arena, p);
    }
  }

  /** `_reconstruct_sequence`: follow the parents up to the root, keeping each
      non-zero last task, then reverse. */
  method ReconstructSequence(arena: seq<Node>, goal: nat) returns (sequence: seq<int>)
    requires ParentsBefore(arena) && goal < |arena|
    ensures sequence == WithoutIdle(PathLasts(arena, goal))
  {
    var collected: seq<int> := [];
    var current: nat := goal;
    while arena[current].parent.Some?
      invariant current < |arena|
      invariant WithoutIdle(PathLasts(arena, current)) + Reversed(collected) == WithoutIdle(PathLasts(arena, goal))
      decreases current
    {
      var node := arena[current];
      var up := PathLasts(arena, node.parent.value);
      assert PathLasts(arena, current) == up + [node.last];
      assert (up + [node.last])[..|up|] == up;
      if node.last != 0 {
        ReversedSnoc(collected, node.last);
        collected := collected + [node.last];
      }
      current := node.parent.value;
    }
    sequence := Reversed(collected);
  }

  function WithBit(s: set<nat>, b: nat): set<nat>
  {
    s + {b}
  }

  /** The sets of bits below `n`, built bit by bit. */
  function Subsets(n: nat): set<set<nat>>
    decreases n
  {
    if n == 0 then {{}}
    else
      var b := n - 1;
      Subsets(b) + set s | s in Subsets(b) :: WithBit(s, b)
  }

  lemma {:induction false} SubsetsComplete(n: nat, s: set<nat>)
    requires forall b :: b in s ==> b < n
    ensures s in Subsets(n)
    decreases n
  {
    if n == 0 {
      assert s == {};
    } else if n - 1 in s {
      SubsetsComplete(n - 1, s - {n - 1});
      assert WithBit(s - {n - 1}, n - 1) == s;
    } else {
      SubsetsComplete(n - 1, s);
    }
  }

  /** Every identity a node of the search can have: a set of bits below the
      list length, and task 0 or a listed task as the last one. */
  function KeyUniverse(tasks: seq<int>): set<StateKey>
  {
    set s, l | s in Subsets(|tasks|) && l in {0} + (set t | t in tasks) :: (s, l)
  }

  lemma InKeyUniverse(m: SetupMatrix, tasks: seq<int>, arena: seq<Node>, choice: seq<nat>, i: nat)
    requires ArenaOk(m, tasks, arena, choice) && i < |arena|
    ensures Key(arena[i]) in KeyUniverse(tasks)
  {
    PathFacts(m, tasks, arena, choice, i);
    SubsetsComplete(|tasks|, arena[i].remaining);
    assert arena[i].last in {0} + (set t | t in tasks);
  }
}
