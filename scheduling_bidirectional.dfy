/** Bidirectional search for task sequencing (`bidirectional_scheduling` and
    its helpers in backend/service/implementation/TaskSchedulingSearch.py).
    A forward breadth-first search from the start state and a backward one
    from the state (bitmask 0, last task 0) take turns popping one node; a
    side stops when the identity it pops was already reached by the other
    side. The backward side adds a task's bit where the forward side clears
    it, and prices the change-over from the added task to the current one. */
module SchedulingBidirectional {
  import opened Wrappers
  import opened Costs
  import opened SetupMatrices
  import opened SchedulingNodes
  import opened Heuristics
  import opened Schedules
  import opened SearchTrees
  import opened SchedulingSearch
  import opened SchedulingDrivers

  // ---------------------------------------------------------------------------
  // The backward tree
  // ---------------------------------------------------------------------------

  /** The backward root `TaskSchedulingNode(0, 0, 0.0, 0.0)`. */
  predicate IsBackRoot(n: Node)
  {
    n.remaining == {} && n.last == 0 && n.g == Fin(0) && n.parent.None?
  }

  /** `c` is `p` with task `b` put in front: bit `b` set, `b`'s task the new
      last one, and the change-over from it to `p`'s last task added. */
  predicate Precedes(m: SetupMatrix, tasks: seq<int>, p: Node, c: Node, b: nat)
  {
    b !in p.remaining && b < |tasks| && c.remaining == p.remaining + {b} && c.last == tasks[b]
    && c.g == Add(p.g, GetSetupCost(m, tasks[b], p.last))
  }

  ghost predicate BackLinkOk(m: SetupMatrix, tasks: seq<int>, arena: seq<Node>, choice: seq<nat>, i: nat)
    requires i < |arena| && |choice| == |arena|
  {
    arena[i].parent.Some? && arena[i].parent.value < i
    && Precedes(m, tasks, arena[arena[i].parent.value], arena[i], choice[i])
  }

  /** A well-formed backward arena: the root first, every later node put in
      front of an earlier one. */
  ghost predicate BackArenaOk(m: SetupMatrix, tasks: seq<int>, arena: seq<Node>, choice: seq<nat>)
  {
    |arena| > 0 && |choice| == |arena| && IsBackRoot(arena[0])
    && forall i: nat :: 1 <= i < |arena| ==> BackLinkOk(m, tasks, arena, choice, i)
  }

  lemma BackArenaAppend(m: SetupMatrix, tasks: seq<int>, arena: seq<Node>, choice: seq<nat>, p: nat, c: Node, b: nat)
    requires BackArenaOk(m, tasks, arena, choice) && p < |arena|
    requires Precedes(m, tasks, arena[p], c, b) && c.parent == Some(p)
    ensures BackArenaOk(m, tasks, arena + [c], choice + [b])
  {
    var a := arena + [c];
    forall i: nat | 1 <= i < |a|
      ensures BackLinkOk(m, tasks, a, choice + [b], i)
    {
      if i < |arena| {
        assert BackLinkOk(m, tasks, arena, choice, i);
        assert a[i] == arena[i] && a[arena[i].parent.value] == arena[arena[i].parent.value];
      }
    }
  }

  /** The change-over cost of a backward path: each task is priced into the
      one put in front of it before, the first into the idle task 0. */
  function BackwardCost(m: SetupMatrix, path: seq<int>): Cost
    decreases |path|
  {
    if path == [] then Fin(0)
    else
      var init := path[..|path| - 1];
      Add(BackwardCost(m, init), GetSetupCost(m, path[|path| - 1], LastOf(0, init)))
  }

  /** Setting a clear bit adds exactly one copy of its task to the selection. */
  lemma SelectedAdd(bits: set<nat>, list: seq<int>, i: nat)
    requires i !in bits && i < |list|
    ensures multiset(Selected(bits + {i}, list)) == multiset(Selected(bits, list)) + multiset{list[i]}
  {
    SelectedRemove(bits + {i}, list, i);
    assert (bits + {i}) - {i} == bits;
  }

  lemma BackParentsBefore(m: SetupMatrix, tasks: seq<int>, arena: seq<Node>, choice: seq<nat>)
    requires BackArenaOk(m, tasks, arena, choice)
    ensures ParentsBefore(arena)
  {
    forall j | 0 <= j < |arena| && arena[j].parent.Some?
      ensures arena[j].parent.value < j
    {
      assert j != 0 && BackLinkOk(m, tasks, arena, choice, j);
    }
  }

  /** What every backward node stands for: its path from the root lists the
      tasks of its set bits, its cost is the backward cost of that path, and
      its last task ends the path. */
  lemma {:induction false} BackPathFacts(m: SetupMatrix, tasks: seq<int>, arena: seq<Node>, choice: seq<nat>, i: nat)
    requires BackArenaOk(m, tasks, arena, choice) && i < |arena|
    ensures ParentsBefore(arena)
    ensures multiset(PathLasts(arena, i)) == multiset(Selected(arena[i].remaining, tasks))
    ensures arena[i].g == BackwardCost(m, PathLasts(arena, i))
    ensures arena[i].last == LastOf(0, PathLasts(arena, i))
    ensures forall b :: b in arena[i].remaining ==> b < |tasks|
    decreases i
  {
    BackParentsBefore(m, tasks, arena, choice);
    if i == 0 {
      SelectedNone(arena[0].remaining, tasks);
    } else {
      assert BackLinkOk(m, tasks, arena, choice, i);
      var p := arena[i].parent.value;
      var b := choice[i];
      BackPathFacts(m, tasks, arena, choice, p);
      SelectedAdd(arena[p].remaining, tasks, b);
      var path := PathLasts(arena, i);
      assert path == PathLasts(arena, p) + [tasks[b]];
      assert path[..|path| - 1] == PathLasts(arena, p);
    }
  }

  /** Every backward identity is in the universe of identities. */
  lemma BackInKeyUniverse(m: SetupMatrix, tasks: seq<int>, arena: seq<Node>, choice: seq<nat>, i: nat)
    requires BackArenaOk(m, tasks, arena, choice) && i < |arena|
    ensures Key(arena[i]) in KeyUniverse(tasks)
  {
    BackPathFacts(m, tasks, arena, choice, i);
    SubsetsComplete(|tasks|, arena[i].remaining);
    if i > 0 {
      assert BackLinkOk(m, tasks, arena, choice, i);
    }
    assert arena[i].last in {0} + (set t | t in tasks);
  }

  // ---------------------------------------------------------------------------
  // Reverse successors
  // ---------------------------------------------------------------------------

  /** The clear bits below `n`, in increasing order. */
  function ClearBits(bits: set<nat>, n: nat): seq<nat>
  {
    SetBits(AllBits(n) - bits, n)
  }

  /** The reverse successors of `current` for the clear bits below `n`, one
      per clear bit in increasing order, with no estimate and cost as priority. */
  ghost predicate ReverseSuccessorsUpTo(m: SetupMatrix, tasks: seq<int>, current: Node, cur: nat, succs: seq<Node>, n: nat)
    requires n <= |tasks|
  {
    var bits := SetBits(AllBits(|tasks|) - current.remaining, n);
    |succs| == |bits|
    && forall k :: 0 <= k < |succs| ==>
         Precedes(m, tasks, current, succs[k], bits[k]) && succs[k].parent == Some(cur)
         && succs[k].h == Fin(0) && succs[k].v1 == succs[k].g
  }

  /** `_generate_successors_reverse`: for each clear bit `i`, the node with
      bit `i` set, last task `tasks[i]`, and `get_setup_cost(tasks[i], last)`
      added to the cost. */
  method GenerateSuccessorsReverse(current: Node, cur: nat, m: SetupMatrix, tasks: seq<int>) returns (succs: seq<Node>)
    ensures ReverseSuccessorsUpTo(m, tasks, current, cur, succs, |tasks|)
  {
    succs := [];
    ghost var clear := AllBits(|tasks|) - current.remaining;
    for i := 0 to |tasks|
      invariant ReverseSuccessorsUpTo(m, tasks, current, cur, succs, i)
    {
      assert SetBits(clear, i + 1) == SetBits(clear, i) + (if i in clear then [i] else []);
      if i !in current.remaining {
        var g := Add(current.g, GetSetupCost(m, tasks[i], current.last));
        var c := NewNode(current.remaining + {i}, tasks[i], g, Fin(0), Some(cur));
        c := c.(v1 := g);
        succs := succs + [c];
      }
    }
  }

  // ---------------------------------------------------------------------------
  // The two sides
  // ---------------------------------------------------------------------------

  /** One side of the search: its nodes, its queue (arena indices, first in
      first out) and its visited map from identity to node. */
  datatype Side = Side(arena: seq<Node>, queue: seq<nat>, visited: map<StateKey, nat>)

  ghost predicate SideOk(s: Side, tasks: seq<int>)
  {
    (forall j :: 0 <= j < |s.queue| ==> s.queue[j] < |s.arena|)
    && (forall k :: k in s.visited ==> s.visited[k] < |s.arena| && Key(s.arena[s.visited[k]]) == k)
    && s.visited.Keys <= KeyUniverse(tasks)
  }

  ghost predicate ForwardOk(m: SetupMatrix, tasks: seq<int>, s: Side, choice: seq<nat>)
  {
    ArenaOk(m, tasks, s.arena, choice) && SideOk(s, tasks)
  }

  ghost predicate BackwardOk(m: SetupMatrix, tasks: seq<int>, s: Side, choice: seq<nat>)
  {
    BackArenaOk(m, tasks, s.arena, choice) && SideOk(s, tasks)
  }

  /** Identities a side may still visit, plus the nodes it has queued. */
  ghost function Measure(s: Side, tasks: seq<int>): nat
  {
    |KeyUniverse(tasks) - s.visited.Keys| + |s.queue|
  }

  /** Visiting a new identity of the universe uses up one of them. */
  lemma VisitNew(u: set<StateKey>, v: set<StateKey>, k: StateKey)
    requires k in u && k !in v
    ensures |u - (v + {k})| == |u - v| - 1
  {
    assert u - (v + {k}) == (u - v) - {k};
  }

  /** A side after visiting a node with a new identity. */
  function Visit(s: Side, n: Node): Side
  {
    Side(s.arena + [n], s.queue + [|s.arena|], s.visited[Key(n) := |s.arena|])
  }

  /** The visited map of a side after a visit still points at nodes with
      the identities it maps. */
  lemma VisitMapOk(s: Side, n: Node)
    requires forall k :: k in s.visited ==> s.visited[k] < |s.arena| && Key(s.arena[s.visited[k]]) == k
    ensures var s' := Visit(s, n);
            forall k :: k in s'.visited ==> s'.visited[k] < |s'.arena| && Key(s'.arena[s'.visited[k]]) == k
  {
    var s' := Visit(s, n);
    forall k | k in s'.visited
      ensures s'.visited[k] < |s'.arena| && Key(s'.arena[s'.visited[k]]) == k
    {
      if k != Key(n) {
        assert s'.visited[k] == s.visited[k] && s'.arena[s.visited[k]] == s.arena[s.visited[k]];
      }
    }
  }

  /** Visiting a new identity keeps a side consistent, and the measure moves
      one identity from the unvisited ones to the queue. */
  lemma VisitOk(s: Side, tasks: seq<int>, n: Node)
    requires SideOk(s, tasks) && Key(n) !in s.visited && Key(n) in KeyUniverse(tasks)
    ensures SideOk(Visit(s, n), tasks) && Measure(Visit(s, n), tasks) == Measure(s, tasks)
  {
    var s' := Visit(s, n);
    assert forall j :: 0 <= j < |s.queue| ==> s'.queue[j] == s.queue[j];
    VisitMapOk(s, n);
    VisitCount(KeyUniverse(tasks), s, n);
  }

  lemma VisitCount(u: set<StateKey>, s: Side, n: Node)
    requires Key(n) in u && Key(n) !in s.visited
    ensures var s' := Visit(s, n);
            s'.visited.Keys <= u + s.visited.Keys
            && |u - s'.visited.Keys| + |s'.queue| == |u - s.visited.Keys| + |s.queue|
  {
    assert Visit(s, n).visited.Keys == s.visited.Keys + {Key(n)};
    VisitNew(u, s.visited.Keys, Key(n));
  }

  /** What a meeting answers: the forward path and the backward path are an
      order of the task list between them, the sequence is the forward tasks
      followed by the backward ones read from the meeting point, and the cost
      adds the two sides' costs. */
  ghost predicate Meets(m: SetupMatrix, tasks: seq<int>, answer: (seq<int>, Cost), fpath: seq<int>, bpath: seq<int>)
  {
    IsSchedule(tasks, fpath + bpath)
    && answer.0 == WithoutIdle(fpath) + Reversed(WithoutIdle(bpath))
    && answer.1 == Add(SequenceCost(m, 0, fpath), BackwardCost(m, bpath))
  }

  /** Identities two sides share: the forward node has cleared the bit of its
      last task, the backward node has set it, so a shared identity needs a
      task listed twice, or the task 0 listed, or an empty list. */
  lemma SharedKey(m: SetupMatrix, tasks: seq<int>, f: seq<Node>, fc: seq<nat>, fi: nat,
                  b: seq<Node>, bc: seq<nat>, bi: nat)
    requires ArenaOk(m, tasks, f, fc) && fi < |f| && BackArenaOk(m, tasks, b, bc) && bi < |b|
    requires Key(f[fi]) == Key(b[bi])
    ensures |tasks| == 0 || !Distinct(tasks) || 0 in tasks
  {
    if fi > 0 {
      assert LinkOk(m, tasks, f, fc, fi);
    }
    if bi > 0 {
      assert BackLinkOk(m, tasks, b, bc, bi);
    }
    if fi == 0 && |tasks| > 0 {
      assert 0 in f[0].remaining;
    }
  }

  /** The answer at a meeting of forward node `fi` and backward node `bi`:
      `_reconstruct_bidirectional_path` and the summed cost. */
  method MeetAt(m: SetupMatrix, tasks: seq<int>, f: seq<Node>, ghost fc: seq<nat>, fi: nat,
                b: seq<Node>, ghost bc: seq<nat>, bi: nat)
    returns (answer: (seq<int>, Cost), ghost fpath: seq<int>, ghost bpath: seq<int>)
    requires ArenaOk(m, tasks, f, fc) && fi < |f| && BackArenaOk(m, tasks, b, bc) && bi < |b|
    requires Key(f[fi]) == Key(b[bi])
    ensures Meets(m, tasks, answer, fpath, bpath)
    ensures |tasks| == 0 || !Distinct(tasks) || 0 in tasks
  {
    PathFacts(m, tasks, f, fc, fi);
    BackPathFacts(m, tasks, b, bc, bi);
    SharedKey(m, tasks, f, fc, fi, b, bc, bi);
    var sequence := ReconstructBidirectionalPath(f, fi, b, bi);
    fpath, bpath := PathLasts(f, fi), PathLasts(b, bi);
    answer := (sequence, Add(f[fi].g, b[bi].g));
  }

  /** `_reconstruct_bidirectional_path` (with the two nodes it declares): the
      forward tasks from the root, then the backward tasks from the meeting
      node up to the backward root, both without task 0. */
  method ReconstructBidirectionalPath(f: seq<Node>, fi: nat, b: seq<Node>, bi: nat) returns (sequence: seq<int>)
    requires ParentsBefore(f) && fi < |f| && ParentsBefore(b) && bi < |b|
    ensures sequence == WithoutIdle(PathLasts(f, fi)) + Reversed(WithoutIdle(PathLasts(b, bi)))
  {
    var forwardPath := ReconstructSequence(f, fi);
    var backwardPath: seq<int> := [];
    var current: nat := bi;
    while b[current].parent.Some?
      invariant current < |b|
      invariant backwardPath + Reversed(WithoutIdle(PathLasts(b, current))) == Reversed(WithoutIdle(PathLasts(b, bi)))
      decreases current
    {
      var node := b[current];
      var up := PathLasts(b, node.parent.value);
      assert PathLasts(b, current) == up + [node.last];
      assert (up + [node.last])[..|up|] == up;
      if node.last != 0 {
        ReversedSnoc(WithoutIdle(up), node.last);
        backwardPath := backwardPath + [node.last];
      }
      current := node.parent.value;
    }
    sequence := forwardPath + backwardPath;
  }

  /** Record a forward successor with an identity not yet visited: into the
      arena, at the end of the queue, and into the visited map. */
  method VisitForward(m: SetupMatrix, tasks: seq<int>, f: Side, ghost fc: seq<nat>, cur: nat, succ: Node, ghost b: nat)
    returns (f': Side, ghost fc': seq<nat>)
    requires ForwardOk(m, tasks, f, fc) && cur < |f.arena| && Key(succ) !in f.visited
    requires Succeeds(m, tasks, f.arena[cur], succ, b) && succ.parent == Some(cur) && succ.depth == f.arena[cur].depth + 1
    ensures ForwardOk(m, tasks, f', fc') && f'.arena == f.arena + [succ]
    ensures f'.queue == f.queue + [|f.arena|] && f'.visited == f.visited[Key(succ) := |f.arena|]
    ensures Measure(f', tasks) == Measure(f, tasks)
  {
    ArenaAppend(m, tasks, f.arena, fc, cur, succ, b);
    InKeyUniverse(m, tasks, f.arena + [succ], fc + [b], |f.arena|);
    VisitOk(f, tasks, succ);
    f' := Visit(f, succ);
    fc' := fc + [b];
  }

  /** Record a backward successor with an identity not yet visited. */
  method VisitBackward(m: SetupMatrix, tasks: seq<int>, s: Side, ghost sc: seq<nat>, cur: nat, succ: Node, ghost b: nat)
    returns (s': Side, ghost sc': seq<nat>)
    requires BackwardOk(m, tasks, s, sc) && cur < |s.arena| && Key(succ) !in s.visited
    requires Precedes(m, tasks, s.arena[cur], succ, b) && succ.parent == Some(cur)
    ensures BackwardOk(m, tasks, s', sc') && s'.arena == s.arena + [succ]
    ensures s'.queue == s.queue + [|s.arena|] && s'.visited == s.visited[Key(succ) := |s.arena|]
    ensures Measure(s', tasks) == Measure(s, tasks)
  {
    BackArenaAppend(m, tasks, s.arena, sc, cur, succ, b);
    BackInKeyUniverse(m, tasks, s.arena + [succ], sc + [b], |s.arena|);
    VisitOk(s, tasks, succ);
    s' := Visit(s, succ);
    sc' := sc + [b];
  }

  /** `_expand_bidirectional_forward`: pop the first forward node; if the
      backward side has visited its identity, answer; otherwise queue each
      successor whose identity the forward side has not visited. */
  method ExpandForward(m: SetupMatrix, tasks: seq<int>, f: Side, ghost fc: seq<nat>, b: Side, ghost bc: seq<nat>)
    returns (meet: Option<(seq<int>, Cost)>, f': Side, ghost fc': seq<nat>, ghost fpath: seq<int>, ghost bpath: seq<int>)
    requires ForwardOk(m, tasks, f, fc) && BackwardOk(m, tasks, b, bc) && f.queue != []
    ensures meet.Some? <==> Key(f.arena[f.queue[0]]) in b.visited
    ensures meet.Some? ==> Meets(m, tasks, meet.value, fpath, bpath)
    ensures meet.Some? ==> |tasks| == 0 || !Distinct(tasks) || 0 in tasks
    ensures meet.None? ==> ForwardOk(m, tasks, f', fc') && Measure(f', tasks) < Measure(f, tasks)
  {
    fpath, bpath := [], [];
    var cur := f.queue[0];
    var current := f.arena[cur];
    var key := Key(current);
    if key in b.visited {
      var answer;
      answer, fpath, bpath := MeetAt(m, tasks, f.arena, fc, cur, b.arena, bc, b.visited[key]);
      return Some(answer), f, fc, fpath, bpath;
    }
    RemainingInRange(m, tasks, f.arena, fc, cur);
    var succs := GenerateSuccessorsUniform(current, cur, m, tasks);
    ghost var bits := SetBits(current.remaining, |tasks|);
    f', fc' := f.(queue := f.queue[1..]), fc;
    for k := 0 to |succs|
      invariant ForwardOk(m, tasks, f', fc') && cur < |f'.arena| && f'.arena[cur] == current
      invariant Measure(f', tasks) == Measure(f, tasks) - 1
    {
      var succ := succs[k].(depth := current.depth + 1);
      if Key(succ) !in f'.visited {
        f', fc' := VisitForward(m, tasks, f', fc', cur, succ, bits[k]);
      }
    }
    meet := None;
  }

  /** `_expand_bidirectional_backward`: the same from the backward side,
      meeting when the forward side has visited the popped identity. */
  method ExpandBackward(m: SetupMatrix, tasks: seq<int>, f: Side, ghost fc: seq<nat>, b: Side, ghost bc: seq<nat>)
    returns (meet: Option<(seq<int>, Cost)>, b': Side, ghost bc': seq<nat>, ghost fpath: seq<int>, ghost bpath: seq<int>)
    requires ForwardOk(m, tasks, f, fc) && BackwardOk(m, tasks, b, bc) && b.queue != []
    ensures meet.Some? <==> Key(b.arena[b.queue[0]]) in f.visited
    ensures meet.Some? ==> Meets(m, tasks, meet.value, fpath, bpath)
    ensures meet.Some? ==> |tasks| == 0 || !Distinct(tasks) || 0 in tasks
    ensures meet.None? ==> BackwardOk(m, tasks, b', bc') && Measure(b', tasks) < Measure(b, tasks)
  {
    fpath, bpath := [], [];
    var cur := b.queue[0];
    var current := b.arena[cur];
    var key := Key(current);
    if key in f.visited {
      var answer;
      answer, fpath, bpath := MeetAt(m, tasks, f.arena, fc, f.visited[key], b.arena, bc, cur);
      return Some(answer), b, bc, fpath, bpath;
    }
    var succs := GenerateSuccessorsReverse(current, cur, m, tasks);
    ghost var bits := SetBits(AllBits(|tasks|) - current.remaining, |tasks|);
    b', bc' := b.(queue := b.queue[1..]), bc;
    for k := 0 to |succs|
      invariant BackwardOk(m, tasks, b', bc') && cur < |b'.arena| && b'.arena[cur] == current
      invariant Measure(b', tasks) == Measure(b, tasks) - 1
    {
      var succ := succs[k];
      if Key(succ) !in b'.visited {
        b', bc' := VisitBackward(m, tasks, b', bc', cur, succ, bits[k]);
      }
    }
    meet := None;
  }

  /** With nothing to schedule, a meeting answers with no tasks at no cost. */
  lemma EmptyMeets(m: SetupMatrix, answer: (seq<int>, Cost), fpath: seq<int>, bpath: seq<int>)
    requires Meets(m, [], answer, fpath, bpath)
    ensures answer == ([], Fin(0))
  {
    assert |fpath + bpath| == |multiset(fpath + bpath)| == 0;
    assert fpath == [] && bpath == [];
  }

  /** `bidirectional_scheduling`: alternate one forward and one backward
      expansion while both queues are non-empty. An empty task list meets at
      once with `([], 0)`; a list of distinct tasks other than 0 never meets,
      so the answer is `([], inf)`. A meeting answers with the two paths. */
  method BidirectionalScheduling(tasks: seq<int>, m: SetupMatrix)
    returns (r: Outcome, ghost fpath: seq<int>, ghost bpath: seq<int>)
    ensures r.Solved? ==> Meets(m, tasks, (r.sequence, r.cost), fpath, bpath)
    ensures |tasks| == 0 ==> r == Solved([], Fin(0))
    ensures |tasks| > 0 && Distinct(tasks) && 0 !in tasks ==> r == Exhausted
  {
    fpath, bpath := [], [];
    var start := GetInitialState(tasks).0;
    var root := NewNode({}, 0, Fin(0), Fin(0), None);
    var f := Side([start], [0], map[Key(start) := 0]);
    ghost var fc: seq<nat> := [0];
    var b := Side([root], [0], map[Key(root) := 0]);
    ghost var bc: seq<nat> := [0];
    InKeyUniverse(m, tasks, f.arena, fc, 0);
    BackInKeyUniverse(m, tasks, b.arena, bc, 0);
    assert |tasks| == 0 ==> Key(start) == Key(root);
    while f.queue != [] && b.queue != []
      invariant ForwardOk(m, tasks, f, fc) && BackwardOk(m, tasks, b, bc)
      invariant |tasks| == 0 ==> f.queue == [0] && b.queue == [0] && Key(f.arena[0]) in b.visited
      decreases Measure(f, tasks) + Measure(b, tasks)
    {
      var meet;
      meet, f, fc, fpath, bpath := ExpandForward(m, tasks, f, fc, b, bc);
      if meet.Some? {
        if |tasks| == 0 {
          EmptyMeets(m, meet.value, fpath, bpath);
        }
        return Solved(meet.value.0, meet.value.1), fpath, bpath;
      }
      if b.queue != [] {
        meet, b, bc, fpath, bpath := ExpandBackward(m, tasks, f, fc, b, bc);
        if meet.Some? {
          return Solved(meet.value.0, meet.value.1), fpath, bpath;
        }
      }
    }
    r := Exhausted;
  }
}
