/** The task-sequencing searches of
    backend/service/implementation/TaskSchedulingSearch.py that keep a
    frontier and a closed set: breadth-first, depth-first, depth-limited,
    iterative deepening, uniform cost, greedy and A*. They differ only in how
    the frontier is used (first in first out, last in first out, or ordered
    by `v1` through `insert_ordered`), in the priority a node gets, and in the
    depth limit; one engine, `Search`, carries all of them. */
module SchedulingSearch {
  import opened Wrappers
  import opened Costs
  import opened SetupMatrices
  import opened TaskFamilies
  import opened SchedulingNodes
  import opened Heuristics
  import opened SpanningTrees
  import opened OrderedLists
  import opened Schedules
  import opened SearchTrees
  import opened UniformCost

  /** A search's answer: a sequence and its cost, or `([], float('inf'))`. */
  datatype Outcome = Solved(sequence: seq<int>, cost: Cost) | Exhausted

  /** The tuple the Python method returns. */
  function AsPair(o: Outcome): (seq<int>, Cost)
  {
    match o
    case Solved(sequence, cost) => (sequence, cost)
    case Exhausted => ([], Inf)
  }

  // ---------------------------------------------------------------------------
  // Heuristic dispatch
  // ---------------------------------------------------------------------------

  /** What h2 is on `node`: 0 at the goal, otherwise the cheapest change-over
      into the remaining tasks plus the weight of a greedily grown spanning
      tree over them, which no spanning tree undercuts. */
  ghost predicate H2Agrees(m: SetupMatrix, node: Node, h: Cost)
  {
    if node.remaining == {} then h == Fin(0)
    else
      var rem := Selected(node.remaining, m.tasks);
      |rem| > 0
      && (|rem| == 1 ==> h == MinFromLast(m, node.last, rem))
      && (|rem| > 1 ==> exists order, links :: PrimTree(rem, order, links) && Greedy(m, order, links)
                          && h == Add(MinFromLast(m, node.last, rem), TreeWeight(m, order, links))
                          && forall o, l :: SpanningTree(rem, o, l) ==> Le(TreeWeight(m, order, links), TreeWeight(m, o, l)))
  }

  /** What `_calculate_heuristic` returns for each heuristic name. */
  ghost predicate HeuristicAgrees(m: SetupMatrix, name: string, families: Option<TaskFamily>, node: Node, h: Cost)
  {
    (name == "h1" ==> Instance(m) && BitsInRange(node, m) && h == H1Of(m, node))
    && (name == "h2" ==> H2Agrees(m, node, h))
    && (name == "h3" && families.Some? ==>
          h == Fin(if node.remaining == {} then 0
                   else FamilySwitches(families.value, Selected(node.remaining, m.tasks), node.last)
                        * MinInterfamily(families.value, m)))
    && (name != "h1" && name != "h2" && !(name == "h3" && families.Some?) ==> h == Fin(0))
  }

  /** When the named heuristic can be evaluated on every node of a search over
      `tasks`: h1 needs a complete table over distinct tasks, and h1 and h2
      read the remaining tasks from the table's own list. */
  predicate HeuristicReady(m: SetupMatrix, tasks: seq<int>, name: string)
  {
    (name == "h1" ==> Instance(m)) && (name == "h1" || name == "h2" ==> |tasks| <= |m.tasks|)
  }

  /** `_calculate_heuristic`: h1, h2, h3 when families are given, else 0. */
  method CalculateHeuristic(node: Node, m: SetupMatrix, name: string, families: Option<TaskFamily>) returns (h: Cost)
    requires name == "h1" ==> Instance(m) && BitsInRange(node, m)
    requires name == "h2" ==> BitsInRange(node, m)
    ensures HeuristicAgrees(m, name, families, node, h)
    ensures IsGoalState(node) ==> h == Fin(0)
  {
    if name == "h1" {
      h := H1(node, m);
    } else if name == "h2" {
      ghost var order, links;
      h, order, links := H2(node, m);
    } else if name == "h3" && families.Some? {
      var v := H3(node, m, families.value);
      h := Fin(v);
    } else {
      h := Fin(0);
    }
  }

  // ---------------------------------------------------------------------------
  // Successors
  // ---------------------------------------------------------------------------

  /** The successors of `current` (arena index `cur`) for the bits below `n`:
      one per set bit, in increasing bit order, each scheduling that bit's task. */
  ghost predicate SuccessorsUpTo(m: SetupMatrix, tasks: seq<int>, current: Node, cur: nat, succs: seq<Node>, n: nat)
  {
    var bits := SetBits(current.remaining, n);
    |succs| == |bits|
    && forall k :: 0 <= k < |succs| ==>
         Succeeds(m, tasks, current, succs[k], bits[k]) && succs[k].parent == Some(cur) && succs[k].depth == 0
  }

  ghost predicate SuccessorsOf(m: SetupMatrix, tasks: seq<int>, current: Node, cur: nat, succs: seq<Node>)
  {
    SuccessorsUpTo(m, tasks, current, cur, succs, |tasks|)
  }

  /** The successor that schedules task `i` next, as both generators build it. */
  function Child(current: Node, cur: nat, m: SetupMatrix, tasks: seq<int>, i: nat): (c: Node)
    requires i in current.remaining && i < |tasks|
    ensures Succeeds(m, tasks, current, c, i) && c.parent == Some(cur) && c.depth == 0
  {
    NewNode(current.remaining - {i}, tasks[i], Add(current.g, GetSetupCost(m, current.last, tasks[i])), Fin(0), Some(cur))
  }

  lemma SuccessorsStep(m: SetupMatrix, tasks: seq<int>, current: Node, cur: nat, succs: seq<Node>, i: nat, c: Node)
    requires i < |tasks| && SuccessorsUpTo(m, tasks, current, cur, succs, i)
    requires i in current.remaining ==> Succeeds(m, tasks, current, c, i) && c.parent == Some(cur) && c.depth == 0
    ensures i in current.remaining ==> SuccessorsUpTo(m, tasks, current, cur, succs + [c], i + 1)
    ensures i !in current.remaining ==> SuccessorsUpTo(m, tasks, current, cur, succs, i + 1)
  {
    var bits := SetBits(current.remaining, i);
    assert SetBits(current.remaining, i + 1) == bits + (if i in current.remaining then [i] else []);
  }

  /** `_generate_successors_uniform`: the successors with no estimate, ordered by cost so far. */
  method GenerateSuccessorsUniform(current: Node, cur: nat, m: SetupMatrix, tasks: seq<int>) returns (succs: seq<Node>)
    ensures SuccessorsOf(m, tasks, current, cur, succs)
    ensures forall k :: 0 <= k < |succs| ==> succs[k].h == Fin(0) && succs[k].v1 == succs[k].g
  {
    succs := [];
    for i := 0 to |tasks|
      invariant SuccessorsUpTo(m, tasks, current, cur, succs, i)
      invariant forall k :: 0 <= k < |succs| ==> succs[k].h == Fin(0) && succs[k].v1 == succs[k].g
    {
      if i in current.remaining {
        var c := Child(current, cur, m, tasks, i);
        c := c.(v1 := c.g);
        SuccessorsStep(m, tasks, current, cur, succs, i, c);
        succs := succs + [c];
      } else {
        SuccessorsStep(m, tasks, current, cur, succs, i, current);
      }
    }
  }

  /** A node carries the named estimate as `h`, cost so far plus estimate
      as `v1`, and a zero estimate at the goal. */
  ghost predicate Estimated(m: SetupMatrix, name: string, families: Option<TaskFamily>, n: Node)
  {
    HeuristicAgrees(m, name, families, n, n.h) && n.v1 == Add(n.g, n.h) && (IsGoalState(n) ==> n.h == Fin(0))
  }

  /** `_generate_successors`: the successors with the named estimate as `h`
      and cost so far plus estimate as priority. */
  method GenerateSuccessors(current: Node, cur: nat, m: SetupMatrix, tasks: seq<int>, name: string,
                            families: Option<TaskFamily>) returns (succs: seq<Node>)
    requires HeuristicReady(m, tasks, name)
    requires forall b :: b in current.remaining ==> b < |tasks|
    ensures SuccessorsOf(m, tasks, current, cur, succs)
    ensures forall k :: 0 <= k < |succs| ==> Estimated(m, name, families, succs[k])
  {
    succs := [];
    for i := 0 to |tasks|
      invariant SuccessorsUpTo(m, tasks, current, cur, succs, i)
      invariant forall k :: 0 <= k < |succs| ==> Estimated(m, name, families, succs[k])
    {
      if i in current.remaining {
        var c := EstimatedChild(current, cur, m, tasks, name, families, i);
        SuccessorsStep(m, tasks, current, cur, succs, i, c);
        succs := succs + [c];
      } else {
        SuccessorsStep(m, tasks, current, cur, succs, i, current);
      }
    }
  }

  /** The successor that schedules bit `i`, with its estimate filled in. */
  method EstimatedChild(current: Node, cur: nat, m: SetupMatrix, tasks: seq<int>, name: string,
                        families: Option<TaskFamily>, i: nat) returns (c: Node)
    requires HeuristicReady(m, tasks, name)
    requires forall b :: b in current.remaining ==> b < |tasks|
    requires i in current.remaining
    ensures Succeeds(m, tasks, current, c, i) && c.parent == Some(cur) && c.depth == 0
    ensures Estimated(m, name, families, c)
  {
    c := Child(current, cur, m, tasks, i);
    var h := CalculateHeuristic(c, m, name, families);
    c := c.(h := h, v1 := Add(c.g, h));
  }

  // ---------------------------------------------------------------------------
  // The engine
  // ---------------------------------------------------------------------------

  /** How the frontier is used: `deque.popleft` with `append` (breadth-first),
      `deque.pop` with `append` over the reversed successors (depth-first), or
      `list.pop(0)` with `insert_ordered` (uniform cost, greedy, A*). */
  datatype Discipline = Fifo | Lifo | Ordered

  /** A node's `v1`: cost so far (uninformed and uniform cost), the estimate
      alone (greedy), or cost so far plus estimate (A*). */
  datatype Priority = PathCost | Estimate | CostPlusEstimate

  datatype Strategy = Strategy(discipline: Discipline, priority: Priority, limit: Option<int>)

  /** Uniform cost: ordered by cost so far, with no depth limit. */
  predicate CheapestFirst(s: Strategy)
  {
    s == Strategy(Ordered, PathCost, None)
  }

  /** No node that still has tasks left is cut off by the depth limit. */
  predicate LimitPermits(limit: Option<int>, n: nat)
  {
    limit.None? || n == 0 || limit.value >= n
  }

  /** Every frontier entry names an arena node and carries that node's `v1`. */
  ghost predicate FrontierOk(arena: seq<Node>, frontier: seq<Entry>)
  {
    forall e :: e in frontier ==> e.node < |arena| && e.v1 == arena[e.node].v1
  }

  ghost function FrontierKeys(arena: seq<Node>, frontier: seq<Entry>): set<StateKey>
  {
    set e | e in frontier && e.node < |arena| :: Key(arena[e.node])
  }

  /** The identity of the successor of key `k` that schedules bit `i`. */
  function ChildKey(k: StateKey, i: nat, tasks: seq<int>): StateKey
    requires i < |tasks|
  {
    (k.0 - {i}, tasks[i])
  }

  function StartKey(tasks: seq<int>): StateKey
  {
    (AllBits(|tasks|), 0)
  }

  /** Every successor of a closed identity is closed or waiting in the frontier. */
  ghost predicate ClosedUnder(tasks: seq<int>, closed: set<StateKey>, open: set<StateKey>)
  {
    forall k, i {:trigger ChildKey(k, i, tasks)} :: k in closed && i in k.0 && i < |tasks| ==>
      ChildKey(k, i, tasks) in closed || ChildKey(k, i, tasks) in open
  }

  /** With a depth limit, no node is deeper than the limit (the start node aside). */
  ghost predicate DepthBound(arena: seq<Node>, limit: Option<int>)
  {
    limit.Some? ==> forall i :: 0 <= i < |arena| ==> arena[i].depth == 0 || arena[i].depth <= limit.value
  }

  lemma DepthBoundAppend(arena: seq<Node>, limit: Option<int>, c: Node)
    requires DepthBound(arena, limit)
    requires limit.Some? ==> c.depth == 0 || c.depth <= limit.value
    ensures DepthBound(arena + [c], limit)
  {
    if limit.Some? {
      forall i | 0 <= i < |arena + [c]|
        ensures (arena + [c])[i].depth == 0 || (arena + [c])[i].depth <= limit.value
      {
        if i < |arena| {
          assert (arena + [c])[i] == arena[i];
        }
      }
    }
  }

  /** The positions of a successor list in the order the push loop visits
      them: backwards for the depth-first searches (`reversed(successors)`). */
  function VisitOrder(d: Discipline, n: nat): (order: seq<nat>)
    ensures |order| == n && forall j :: 0 <= j < n ==> order[j] < n
  {
    seq(n, j requires 0 <= j < n => if d == Lifo then n - 1 - j else j)
  }

  /** A set of identities closed under successors holds a goal identity: from
      any identity in it, clearing one bit after another stays inside it. */
  lemma {:induction false} ClosedSetReachesGoal(tasks: seq<int>, closed: set<StateKey>, k: StateKey)
    requires ClosedUnder(tasks, closed, {}) && k in closed
    requires forall b :: b in k.0 ==> b < |tasks|
    ensures exists g :: g in closed && g.0 == {}
    decreases |k.0|
  {
    if k.0 != {} {
      var i :| i in k.0;
      var c := ChildKey(k, i, tasks);
      assert c in closed;
      ClosedSetReachesGoal(tasks, closed, c);
    }
  }

  lemma PopKeys(arena: seq<Node>, frontier: seq<Entry>, e: Entry, rest: seq<Entry>)
    requires FrontierOk(arena, frontier)
    requires frontier == rest + [e] || frontier == [e] + rest
    ensures e.node < |arena| && e.v1 == arena[e.node].v1 && FrontierOk(arena, rest)
    ensures FrontierKeys(arena, frontier) == FrontierKeys(arena, rest) + {Key(arena[e.node])}
    ensures SortedByKey(frontier) ==> SortedByKey(rest)
  {
    assert e in frontier;
    if SortedByKey(frontier) {
      if frontier == rest + [e] {
        forall i, j | 0 <= i < j < |rest| ensures Le(rest[i].v1, rest[j].v1) {
          assert rest[i] == frontier[i] && rest[j] == frontier[j];
        }
      } else {
        forall i, j | 0 <= i < j < |rest| ensures Le(rest[i].v1, rest[j].v1) {
          assert rest[i] == frontier[i + 1] && rest[j] == frontier[j + 1];
        }
      }
    }
  }

  lemma PushKeys(arena: seq<Node>, frontier: seq<Entry>, c: Node, e: Entry, pushed: seq<Entry>)
    requires FrontierOk(arena, frontier)
    requires e == Entry(c.v1, |arena|) && multiset(pushed) == multiset(frontier) + multiset{e}
    ensures FrontierOk(arena + [c], pushed)
    ensures FrontierKeys(arena + [c], pushed) == FrontierKeys(arena, frontier) + {Key(c)}
    ensures e in pushed && forall x :: x in frontier ==> x in pushed
  {
    var a := arena + [c];
    forall x | x in pushed
      ensures x == e || x in frontier
    {
      assert x in multiset(pushed);
    }
    assert e in multiset(pushed);
    forall x | x in frontier
      ensures x in pushed && a[x.node] == arena[x.node]
    {
      assert x in multiset(pushed);
    }
  }

  lemma ClosedUnderExpand(tasks: seq<int>, closed: set<StateKey>, key: StateKey,
                          open: set<StateKey>, openRest: set<StateKey>, open': set<StateKey>)
    requires ClosedUnder(tasks, closed, open)
    requires open == openRest + {key} && openRest <= open'
    requires forall i :: i in key.0 && i < |tasks| ==>
               ChildKey(key, i, tasks) in closed + {key} || ChildKey(key, i, tasks) in open'
    ensures ClosedUnder(tasks, closed + {key}, open')
  {
  }

  lemma ClosedUnderDrop(tasks: seq<int>, closed: set<StateKey>, key: StateKey, openRest: set<StateKey>)
    requires ClosedUnder(tasks, closed, openRest + {key}) && key in closed
    ensures ClosedUnder(tasks, closed, openRest)
  {
  }

  /** The start node as `a_star_scheduling` builds it (all bits set, last task 0,
      no cost), with its estimate and priority for the informed searches. */
  method StartNode(tasks: seq<int>, m: SetupMatrix, s: Strategy, name: string, families: Option<TaskFamily>)
    returns (start: Node)
    requires s.priority != PathCost ==> HeuristicReady(m, tasks, name)
    ensures IsStart(start, tasks)
    ensures s.priority == PathCost ==> start.v1 == Fin(0)
    ensures s.priority != PathCost ==> HeuristicAgrees(m, name, families, start, start.h)
    ensures s.priority == Estimate ==> start.v1 == start.h
    ensures s.priority == CostPlusEstimate ==> start.v1 == Add(Fin(0), start.h)
  {
    start := NewNode(AllBits(|tasks|), 0, Fin(0), Fin(0), None);
    if s.priority != PathCost {
      var h := CalculateHeuristic(start, m, name, families);
      start := start.(h := h, v1 := if s.priority == Estimate then h else Add(start.g, h));
    }
  }

  /** Put a successor of arena node `cur` into the arena and its entry into the
      frontier: appended for breadth- and depth-first, by `insert_ordered` otherwise. */
  method PushChild(m: SetupMatrix, tasks: seq<int>, s: Strategy, arena: seq<Node>, ghost choice: seq<nat>,
                   frontier: seq<Entry>, cur: nat, succ: Node, ghost b: nat)
    returns (arena': seq<Node>, ghost choice': seq<nat>, frontier': seq<Entry>)
    requires ArenaOk(m, tasks, arena, choice) && cur < |arena|
    requires FrontierOk(arena, frontier)
    requires s.discipline == Ordered ==> SortedByKey(frontier)
    requires DepthBound(arena, s.limit) && (s.limit.Some? ==> arena[cur].depth < s.limit.value)
    requires Succeeds(m, tasks, arena[cur], succ, b) && succ.parent == Some(cur) && succ.depth == arena[cur].depth + 1
    ensures arena' == arena + [succ] && choice' == choice + [b]
    ensures ArenaOk(m, tasks, arena', choice') && FrontierOk(arena', frontier')
    ensures s.discipline == Ordered ==> SortedByKey(frontier')
    ensures DepthBound(arena', s.limit)
    ensures FrontierKeys(arena', frontier') == FrontierKeys(arena, frontier) + {Key(succ)}
    ensures Entry(succ.v1, |arena|) in frontier' && forall x :: x in frontier ==> x in frontier'
  {
    ArenaAppend(m, tasks, arena, choice, cur, succ, b);
    DepthBoundAppend(arena, s.limit, succ);
    var e := Entry(succ.v1, |arena|);
    if s.discipline == Ordered {
      InsertOrderedContents(frontier, e);
      InsertOrderedSorted(frontier, e);
      frontier' := InsertOrdered(frontier, e);
    } else {
      frontier' := frontier + [e];
    }
    PushKeys(arena, frontier, succ, e, frontier');
    arena', choice' := arena + [succ], choice + [b];
  }

  /** `arena'` is `arena` followed by children of node `cur`, each with its
      path cost as priority when `uniform`. */
  ghost predicate ChildrenAppended(arena: seq<Node>, arena': seq<Node>, cur: nat, uniform: bool)
  {
    |arena| <= |arena'| && (forall i :: 0 <= i < |arena| ==> arena'[i] == arena[i])
    && (forall i :: |arena| <= i < |arena'| ==> arena'[i].parent == Some(cur))
    && (uniform ==> forall i :: |arena| <= i < |arena'| ==> arena'[i].v1 == arena'[i].g)
  }

  lemma ChildrenAppendedSnoc(arena: seq<Node>, arena': seq<Node>, cur: nat, uniform: bool, succ: Node)
    requires ChildrenAppended(arena, arena', cur, uniform)
    requires succ.parent == Some(cur) && (uniform ==> succ.v1 == succ.g)
    ensures ChildrenAppended(arena, arena' + [succ], cur, uniform)
  {
  }

  /** Each of the first `j` successors, in visiting order, whose identity is
      not closed has an entry in the frontier. */
  ghost predicate PushedSoFar(m: SetupMatrix, tasks: seq<int>, current: Node, succs: seq<Node>, order: seq<nat>,
                              bits: seq<nat>, closed: set<StateKey>, arena: seq<Node>, frontier: seq<Entry>, j: nat)
  {
    forall j' :: 0 <= j' < j && j' < |order| && order[j'] < |succs| && order[j'] < |bits| &&
                 Key(succs[order[j']]) !in closed ==>
      exists x :: x in frontier && x.node < |arena| && Succeeds(m, tasks, current, arena[x.node], bits[order[j']])
  }

  /** Growing the arena and the frontier keeps earlier entries; an entry for
      successor `j`, unless it is closed, extends the property to `j + 1`. */
  lemma PushedSoFarStep(m: SetupMatrix, tasks: seq<int>, current: Node, succs: seq<Node>, order: seq<nat>,
                        bits: seq<nat>, closed: set<StateKey>, arena: seq<Node>, frontier: seq<Entry>,
                        arena': seq<Node>, frontier': seq<Entry>, j: nat, e: Entry)
    requires PushedSoFar(m, tasks, current, succs, order, bits, closed, arena, frontier, j)
    requires |arena| <= |arena'| && (forall i :: 0 <= i < |arena| ==> arena'[i] == arena[i])
    requires forall x :: x in frontier ==> x in frontier'
    requires j < |order| && order[j] < |succs| && order[j] < |bits|
    requires Key(succs[order[j]]) !in closed ==>
               e in frontier' && e.node < |arena'| && Succeeds(m, tasks, current, arena'[e.node], bits[order[j]])
    ensures PushedSoFar(m, tasks, current, succs, order, bits, closed, arena', frontier', j + 1)
  {
    forall j' | 0 <= j' < j + 1 && j' < |order| && order[j'] < |succs| && order[j'] < |bits| &&
                Key(succs[order[j']]) !in closed
      ensures exists x :: x in frontier' && x.node < |arena'| && Succeeds(m, tasks, current, arena'[x.node], bits[order[j']])
    {
      if j' < j {
        var x :| x in frontier && x.node < |arena| && Succeeds(m, tasks, current, arena[x.node], bits[order[j']]);
        assert arena'[x.node] == arena[x.node];
      }
    }
  }

  /** The state of the expansion loop after the first `j` successors, in
      visiting order: the arena and frontier stay well formed, every visited
      successor is closed or waiting, and each one not closed has an entry. */
  ghost predicate Expanding(m: SetupMatrix, tasks: seq<int>, s: Strategy, arena: seq<Node>, frontier: seq<Entry>,
                            closed: set<StateKey>, cur: nat, current: Node, succs: seq<Node>, order: seq<nat>,
                            bits: seq<nat>, arena': seq<Node>, choice': seq<nat>, frontier': seq<Entry>,
                            keys: set<StateKey>, j: nat)
  {
    ArenaOk(m, tasks, arena', choice') && cur < |arena| && |arena| <= |arena'| && arena'[cur] == current
    && FrontierOk(arena', frontier') && (s.discipline == Ordered ==> SortedByKey(frontier'))
    && DepthBound(arena', s.limit)
    && keys == FrontierKeys(arena', frontier') && FrontierKeys(arena, frontier) <= keys
    && (forall j' :: 0 <= j' < j && j' < |order| && order[j'] < |succs| ==> Key(succs[order[j']]) in closed + keys)
    && ChildrenAppended(arena, arena', cur, s.priority == PathCost)
    && (forall x :: x in frontier ==> x in frontier')
    && PushedSoFar(m, tasks, current, succs, order, bits, closed, arena', frontier', j)
  }

  /** One step of the expansion loop: push successor `order[j]`, with its
      depth and priority set, unless its identity is closed. */
  method OfferSuccessor(m: SetupMatrix, tasks: seq<int>, s: Strategy, arena: seq<Node>, frontier: seq<Entry>,
                        closed: set<StateKey>, cur: nat, current: Node, succs: seq<Node>, order: seq<nat>,
                        ghost bits: seq<nat>, arena': seq<Node>, ghost choice': seq<nat>, frontier': seq<Entry>,
                        ghost keys: set<StateKey>, j: nat)
    returns (arena'': seq<Node>, ghost choice'': seq<nat>, frontier'': seq<Entry>, ghost keys': set<StateKey>)
    requires Expanding(m, tasks, s, arena, frontier, closed, cur, current, succs, order, bits, arena', choice', frontier', keys, j)
    requires SuccessorsOf(m, tasks, current, cur, succs) && bits == SetBits(current.remaining, |tasks|)
    requires j < |succs| && order == VisitOrder(s.discipline, |succs|)
    requires s.limit.Some? ==> current.depth < s.limit.value
    requires s.priority == PathCost ==> forall k :: 0 <= k < |succs| ==> succs[k].v1 == succs[k].g
    ensures Expanding(m, tasks, s, arena, frontier, closed, cur, current, succs, order, bits, arena'', choice'', frontier'', keys', j + 1)
  {
    var k := order[j];
    var succ := succs[k].(depth := current.depth + 1);
    if s.priority == Estimate {
      succ := succ.(v1 := succ.h);
    }
    if Key(succ) !in closed {
      arena'', choice'', frontier'' := PushChild(m, tasks, s, arena', choice', frontier', cur, succ, bits[k]);
      keys' := keys + {Key(succ)};
      ChildrenAppendedSnoc(arena, arena', cur, s.priority == PathCost, succ);
      assert arena''[|arena'|] == succ;
      PushedSoFarStep(m, tasks, current, succs, order, bits, closed, arena', frontier', arena'', frontier'', j,
                      Entry(succ.v1, |arena'|));
    } else {
      arena'', choice'', frontier'', keys' := arena', choice', frontier', keys;
      PushedSoFarStep(m, tasks, current, succs, order, bits, closed, arena', frontier', arena', frontier', j,
                      Entry(Fin(0), 0));
    }
  }

  /** One expansion: generate the successors of arena node `cur` and push,
      in the discipline's order, each whose identity is not closed. */
  method Expand(m: SetupMatrix, tasks: seq<int>, s: Strategy, name: string, families: Option<TaskFamily>,
                arena: seq<Node>, ghost choice: seq<nat>, frontier: seq<Entry>, closed: set<StateKey>, cur: nat)
    returns (arena': seq<Node>, ghost choice': seq<nat>, frontier': seq<Entry>)
    requires ArenaOk(m, tasks, arena, choice) && cur < |arena|
    requires FrontierOk(arena, frontier)
    requires s.discipline == Ordered ==> SortedByKey(frontier)
    requires s.priority != PathCost ==> HeuristicReady(m, tasks, name)
    requires DepthBound(arena, s.limit) && (s.limit.Some? ==> arena[cur].depth < s.limit.value)
    ensures ArenaOk(m, tasks, arena', choice') && FrontierOk(arena', frontier')
    ensures s.discipline == Ordered ==> SortedByKey(frontier')
    ensures DepthBound(arena', s.limit)
    ensures FrontierKeys(arena, frontier) <= FrontierKeys(arena', frontier')
    ensures forall i :: i in arena[cur].remaining && i < |tasks| ==>
              ChildKey(Key(arena[cur]), i, tasks) in closed || ChildKey(Key(arena[cur]), i, tasks) in FrontierKeys(arena', frontier')
    ensures |arena| <= |arena'| && (forall i :: 0 <= i < |arena| ==> arena'[i] == arena[i])
    ensures forall x :: x in frontier ==> x in frontier'
    ensures s.priority == PathCost ==> forall i :: |arena| <= i < |arena'| ==> arena'[i].v1 == arena'[i].g
    ensures forall i :: |arena| <= i < |arena'| ==> arena'[i].parent == Some(cur)
    ensures forall i :: i in arena[cur].remaining && i < |tasks| && ChildKey(Key(arena[cur]), i, tasks) !in closed ==>
              exists x :: x in frontier' && x.node < |arena'| && Succeeds(m, tasks, arena[cur], arena'[x.node], i)
  {
    var current := arena[cur];
    RemainingInRange(m, tasks, arena, choice, cur);
    var succs;
    if s.priority == PathCost {
      succs := GenerateSuccessorsUniform(current, cur, m, tasks);
    } else {
      succs := GenerateSuccessors(current, cur, m, tasks, name, families);
    }
    ghost var bits := SetBits(current.remaining, |tasks|);
    var order := VisitOrder(s.discipline, |succs|);
    arena', choice', frontier' := arena, choice, frontier;
    ghost var keys := FrontierKeys(arena, frontier);
    for j := 0 to |succs|
      invariant Expanding(m, tasks, s, arena, frontier, closed, cur, current, succs, order, bits, arena', choice', frontier', keys, j)
    {
      arena', choice', frontier', keys := OfferSuccessor(m, tasks, s, arena, frontier, closed, cur, current, succs, order, bits,
                                                         arena', choice', frontier', keys, j);
    }
    CoverChildren(m, tasks, current, cur, succs, s.discipline, closed + keys);
    PushedChildren(m, tasks, current, cur, succs, s.discipline, closed, arena', frontier');
  }

  /** Once every successor, visited in the discipline's order, is closed or
      has an entry, every child of `current` whose identity is not closed has
      an entry. */
  lemma PushedChildren(m: SetupMatrix, tasks: seq<int>, current: Node, cur: nat, succs: seq<Node>, d: Discipline,
                       closed: set<StateKey>, arena: seq<Node>, frontier: seq<Entry>)
    requires SuccessorsOf(m, tasks, current, cur, succs)
    requires forall j :: 0 <= j < |succs| && Key(succs[VisitOrder(d, |succs|)[j]]) !in closed ==>
               exists x :: x in frontier && x.node < |arena| &&
                           Succeeds(m, tasks, current, arena[x.node], SetBits(current.remaining, |tasks|)[VisitOrder(d, |succs|)[j]])
    ensures forall i :: i in current.remaining && i < |tasks| && ChildKey(Key(current), i, tasks) !in closed ==>
              exists x :: x in frontier && x.node < |arena| && Succeeds(m, tasks, current, arena[x.node], i)
  {
    var bits := SetBits(current.remaining, |tasks|);
    var order := VisitOrder(d, |succs|);
    SetBitsSpec(current.remaining, |tasks|);
    forall i | i in current.remaining && i < |tasks| && ChildKey(Key(current), i, tasks) !in closed
      ensures exists x :: x in frontier && x.node < |arena| && Succeeds(m, tasks, current, arena[x.node], i)
    {
      var k :| 0 <= k < |bits| && bits[k] == i;
      var j := if d == Lifo then |succs| - 1 - k else k;
      assert order[j] == k;
      assert Key(succs[k]) == ChildKey(Key(current), i, tasks);
    }
  }

  /** Once every successor, visited in the discipline's order, is closed or
      pushed, every child identity of `current` is closed or waiting. */
  lemma CoverChildren(m: SetupMatrix, tasks: seq<int>, current: Node, cur: nat, succs: seq<Node>, d: Discipline,
                      seen: set<StateKey>)
    requires SuccessorsOf(m, tasks, current, cur, succs)
    requires forall j :: 0 <= j < |succs| ==> Key(succs[VisitOrder(d, |succs|)[j]]) in seen
    ensures forall i :: i in current.remaining && i < |tasks| ==> ChildKey(Key(current), i, tasks) in seen
  {
    var bits := SetBits(current.remaining, |tasks|);
    var order := VisitOrder(d, |succs|);
    SetBitsSpec(current.remaining, |tasks|);
    forall i | i in current.remaining && i < |tasks|
      ensures ChildKey(Key(current), i, tasks) in seen
    {
      var k :| 0 <= k < |bits| && bits[k] == i;
      var j := if d == Lifo then |succs| - 1 - k else k;
      assert order[j] == k;
      assert Key(succs[k]) == ChildKey(Key(current), i, tasks);
    }
  }

  /** The loop invariant of `Search`: a well-formed arena and frontier, closed
      identities that are never goals, the depth bound, and, while no node has
      been cut off by the depth limit, every successor of a closed identity
      closed or waiting; `expanded` lists the closed identities, each once. */
  ghost predicate SearchInv(m: SetupMatrix, tasks: seq<int>, s: Strategy, arena: seq<Node>, choice: seq<nat>,
                            frontier: seq<Entry>, closed: set<StateKey>, keys: set<StateKey>, complete: bool,
                            expanded: seq<StateKey>)
  {
    ArenaOk(m, tasks, arena, choice) && FrontierOk(arena, frontier)
    && (s.discipline == Ordered ==> SortedByKey(frontier))
    && keys == FrontierKeys(arena, frontier)
    && closed <= KeyUniverse(tasks)
    && (forall k :: k in closed ==> k.0 != {})
    && DepthBound(arena, s.limit)
    && (complete ==> ClosedUnder(tasks, closed, keys) && StartKey(tasks) in closed + keys)
    && (LimitPermits(s.limit, |tasks|) ==> complete)
    && (forall a, b :: 0 <= a < b < |expanded| ==> expanded[a] != expanded[b])
    && (forall a :: 0 <= a < |expanded| ==> expanded[a] in closed)
  }

  /** What the arena records of the expansions: every node with a parent
      hangs off a node whose identity was expanded, all children of one
      identity hang off the same node (no identity is expanded twice), and
      every expanded identity is that of an arena node. */
  ghost predicate ExpansionRecord(arena: seq<Node>, closed: set<StateKey>, expanded: seq<StateKey>)
  {
    (forall k :: k in closed ==> k in expanded)
    && (forall i :: 0 <= i < |arena| && arena[i].parent.Some? ==>
          arena[i].parent.value < |arena| && Key(arena[arena[i].parent.value]) in closed)
    && (forall i, j :: (0 <= i < |arena| && 0 <= j < |arena| && arena[i].parent.Some? && arena[j].parent.Some?
                        && arena[i].parent.value < |arena| && arena[j].parent.value < |arena|
                        && Key(arena[arena[i].parent.value]) == Key(arena[arena[j].parent.value])) ==>
          arena[i].parent == arena[j].parent)
    && (forall a :: 0 <= a < |expanded| ==> exists i :: 0 <= i < |arena| && Key(arena[i]) == expanded[a])
  }

  /** Expanding node `cur`, whose identity is not closed, and appending its
      children keeps the record. */
  lemma RecordExpand(arena: seq<Node>, closed: set<StateKey>, expanded: seq<StateKey>, cur: nat, arena': seq<Node>)
    requires ExpansionRecord(arena, closed, expanded)
    requires cur < |arena| && Key(arena[cur]) !in closed
    requires |arena| <= |arena'| && forall i :: 0 <= i < |arena| ==> arena'[i] == arena[i]
    requires forall i :: |arena| <= i < |arena'| ==> arena'[i].parent == Some(cur)
    ensures ExpansionRecord(arena', closed + {Key(arena[cur])}, expanded + [Key(arena[cur])])
  {
    var key := Key(arena[cur]);
    var x := expanded + [key];
    forall a | 0 <= a < |x|
      ensures exists i :: 0 <= i < |arena'| && Key(arena'[i]) == x[a]
    {
      if a < |expanded| {
        var i :| 0 <= i < |arena| && Key(arena[i]) == expanded[a];
        assert arena'[i] == arena[i];
      } else {
        assert arena'[cur] == arena[cur];
      }
    }
    forall i | 0 <= i < |arena'| && arena'[i].parent.Some?
      ensures arena'[i].parent.value < |arena'| && Key(arena'[arena'[i].parent.value]) in closed + {key}
    {
      if i < |arena| {
        assert arena'[i] == arena[i] && arena'[arena[i].parent.value] == arena[arena[i].parent.value];
      }
    }
    forall i, j | 0 <= i < |arena'| && 0 <= j < |arena'| && arena'[i].parent.Some? && arena'[j].parent.Some?
                  && arena'[i].parent.value < |arena'| && arena'[j].parent.value < |arena'|
                  && Key(arena'[arena'[i].parent.value]) == Key(arena'[arena'[j].parent.value])
      ensures arena'[i].parent == arena'[j].parent
    {
      if i < |arena| {
        assert arena'[i] == arena[i] && arena'[arena[i].parent.value] == arena[arena[i].parent.value];
      }
      if j < |arena| {
        assert arena'[j] == arena[j] && arena'[arena[j].parent.value] == arena[arena[j].parent.value];
      }
    }
  }

  /** Dropping a popped node that is cut off by the depth limit or already
      closed keeps the invariant (the cut gives up completeness). */
  lemma InvSkip(m: SetupMatrix, tasks: seq<int>, s: Strategy, arena: seq<Node>, choice: seq<nat>,
                frontier: seq<Entry>, closed: set<StateKey>, keys: set<StateKey>, complete: bool,
                expanded: seq<StateKey>, e: Entry, rest: seq<Entry>, complete': bool)
    requires SearchInv(m, tasks, s, arena, choice, frontier, closed, keys, complete, expanded)
    requires frontier == rest + [e] || frontier == [e] + rest
    requires e.node < |arena| && keys == FrontierKeys(arena, rest) + {Key(arena[e.node])}
    requires FrontierOk(arena, rest) && (SortedByKey(frontier) ==> SortedByKey(rest))
    requires (complete' == complete && Key(arena[e.node]) in closed)
             || (!complete' && !LimitPermits(s.limit, |tasks|))
    ensures SearchInv(m, tasks, s, arena, choice, rest, closed, FrontierKeys(arena, rest), complete', expanded)
  {
    if complete' {
      ClosedUnderDrop(tasks, closed, Key(arena[e.node]), FrontierKeys(arena, rest));
    }
  }

  /** Closing the popped node's identity and pushing its successors keeps the invariant. */
  lemma InvExpand(m: SetupMatrix, tasks: seq<int>, s: Strategy, arena: seq<Node>, choice: seq<nat>,
                  frontier: seq<Entry>, closed: set<StateKey>, keys: set<StateKey>, complete: bool,
                  expanded: seq<StateKey>, key: StateKey, restKeys: set<StateKey>,
                  arena': seq<Node>, choice': seq<nat>, frontier': seq<Entry>)
    requires SearchInv(m, tasks, s, arena, choice, frontier, closed, keys, complete, expanded)
    requires key !in closed && key in KeyUniverse(tasks) && key.0 != {}
    requires keys == restKeys + {key}
    requires ArenaOk(m, tasks, arena', choice') && FrontierOk(arena', frontier')
    requires s.discipline == Ordered ==> SortedByKey(frontier')
    requires DepthBound(arena', s.limit)
    requires restKeys <= FrontierKeys(arena', frontier')
    requires forall i :: i in key.0 && i < |tasks| ==>
               ChildKey(key, i, tasks) in closed + {key} || ChildKey(key, i, tasks) in FrontierKeys(arena', frontier')
    ensures SearchInv(m, tasks, s, arena', choice', frontier', closed + {key}, FrontierKeys(arena', frontier'),
                      complete, expanded + [key])
  {
    if complete {
      ClosedUnderExpand(tasks, closed, key, keys, restKeys, FrontierKeys(arena', frontier'));
    }
    var x := expanded + [key];
    forall a, b | 0 <= a < b < |x|
      ensures x[a] != x[b]
    {
      if b == |expanded| {
        assert x[a] == expanded[a] && expanded[a] in closed;
      } else {
        assert x[a] == expanded[a] && x[b] == expanded[b];
      }
    }
  }

  /** One step past a popped node that is not a goal: skip it when the depth
      limit cuts it off or its identity is closed, otherwise close its identity
      and push its successors. Either the closed set grows inside the universe
      of identities or the frontier shrinks to the rest. */
  method Advance(tasks: seq<int>, m: SetupMatrix, s: Strategy, name: string, families: Option<TaskFamily>,
                 arena: seq<Node>, ghost choice: seq<nat>, frontier: seq<Entry>, closed: set<StateKey>,
                 ghost complete: bool, ghost expanded: seq<StateKey>, e: Entry, rest: seq<Entry>)
    returns (arena': seq<Node>, ghost choice': seq<nat>, frontier': seq<Entry>, closed': set<StateKey>,
             ghost complete': bool, ghost expanded': seq<StateKey>)
    requires s.priority != PathCost ==> HeuristicReady(m, tasks, name)
    requires SearchInv(m, tasks, s, arena, choice, frontier, closed, FrontierKeys(arena, frontier), complete, expanded)
    requires frontier == rest + [e] || frontier == [e] + rest
    requires e.node < |arena| && FrontierOk(arena, rest) && (SortedByKey(frontier) ==> SortedByKey(rest))
    requires FrontierKeys(arena, frontier) == FrontierKeys(arena, rest) + {Key(arena[e.node])}
    requires arena[e.node].remaining != {}
    requires s.discipline != Lifo ==> frontier == [e] + rest
    requires CheapestFirst(s) ==> Cheapest(m, tasks, arena, frontier, closed)
    requires ExpansionRecord(arena, closed, expanded)
    ensures SearchInv(m, tasks, s, arena', choice', frontier', closed', FrontierKeys(arena', frontier'), complete', expanded')
    ensures (closed' == closed && frontier' == rest) || KeyUniverse(tasks) - closed' < KeyUniverse(tasks) - closed
    ensures CheapestFirst(s) ==> Cheapest(m, tasks, arena', frontier', closed')
    ensures ExpansionRecord(arena', closed', expanded')
  {
    var current := arena[e.node];
    var key := Key(current);
    ghost var keys := FrontierKeys(arena, frontier);
    if s.limit.Some? && current.depth >= s.limit.value {
      PathFacts(m, tasks, arena, choice, e.node);
      InvSkip(m, tasks, s, arena, choice, frontier, closed, keys, complete, expanded, e, rest, false);
      return arena, choice, rest, closed, false, expanded;
    } else if key in closed {
      InvSkip(m, tasks, s, arena, choice, frontier, closed, keys, complete, expanded, e, rest, complete);
      if CheapestFirst(s) {
        CheapestSkip(m, tasks, arena, e, rest, closed);
      }
      return arena, choice, rest, closed, complete, expanded;
    }
    arena', choice', frontier', closed', complete', expanded' :=
      CloseAndExpand(tasks, m, s, name, families, arena, choice, frontier, closed, complete, expanded, e, rest);
  }

  /** The last case of `Advance`: a node within the limit whose identity is
      not closed has its identity closed and its successors pushed. */
  method CloseAndExpand(tasks: seq<int>, m: SetupMatrix, s: Strategy, name: string, families: Option<TaskFamily>,
                        arena: seq<Node>, ghost choice: seq<nat>, frontier: seq<Entry>, closed: set<StateKey>,
                        ghost complete: bool, ghost expanded: seq<StateKey>, e: Entry, rest: seq<Entry>)
    returns (arena': seq<Node>, ghost choice': seq<nat>, frontier': seq<Entry>, closed': set<StateKey>,
             ghost complete': bool, ghost expanded': seq<StateKey>)
    requires s.priority != PathCost ==> HeuristicReady(m, tasks, name)
    requires SearchInv(m, tasks, s, arena, choice, frontier, closed, FrontierKeys(arena, frontier), complete, expanded)
    requires frontier == rest + [e] || frontier == [e] + rest
    requires e.node < |arena| && FrontierOk(arena, rest) && (SortedByKey(frontier) ==> SortedByKey(rest))
    requires FrontierKeys(arena, frontier) == FrontierKeys(arena, rest) + {Key(arena[e.node])}
    requires arena[e.node].remaining != {}
    requires s.discipline != Lifo ==> frontier == [e] + rest
    requires CheapestFirst(s) ==> Cheapest(m, tasks, arena, frontier, closed)
    requires ExpansionRecord(arena, closed, expanded)
    requires !(s.limit.Some? && arena[e.node].depth >= s.limit.value) && Key(arena[e.node]) !in closed
    ensures SearchInv(m, tasks, s, arena', choice', frontier', closed', FrontierKeys(arena', frontier'), complete', expanded')
    ensures closed' == closed + {Key(arena[e.node])} && KeyUniverse(tasks) - closed' < KeyUniverse(tasks) - closed
    ensures CheapestFirst(s) ==> Cheapest(m, tasks, arena', frontier', closed')
    ensures ExpansionRecord(arena', closed', expanded')
  {
    var current := arena[e.node];
    var key := Key(current);
    ghost var keys := FrontierKeys(arena, frontier);
    InKeyUniverse(m, tasks, arena, choice, e.node);
    ghost var restKeys := FrontierKeys(arena, rest);
    arena', choice', frontier' := Expand(m, tasks, s, name, families, arena, choice, rest, closed + {key}, e.node);
    InvExpand(m, tasks, s, arena, choice, frontier, closed, keys, complete, expanded, key, restKeys,
              arena', choice', frontier');
    if CheapestFirst(s) {
      assert e in frontier;
      CheapestExpand(m, tasks, arena, e, rest, closed, arena', frontier');
    }
    RecordExpand(arena, closed, expanded, e.node, arena');
    closed', complete', expanded' := closed + {key}, complete, expanded + [key];
  }

  /** At a goal node: the reconstructed sequence and the node's cost. The
      path is an order of the task list, within the depth limit if any. */
  method Conclude(m: SetupMatrix, tasks: seq<int>, s: Strategy, arena: seq<Node>, ghost choice: seq<nat>, goal: nat)
    returns (r: Outcome, ghost path: seq<int>)
    requires ArenaOk(m, tasks, arena, choice) && goal < |arena| && IsGoalState(arena[goal])
    requires DepthBound(arena, s.limit)
    ensures r.Solved? && IsSchedule(tasks, path) && r.sequence == WithoutIdle(path) && r.cost == SequenceCost(m, 0, path)
    ensures r.Solved? && r.cost == arena[goal].g
    ensures s.limit.Some? ==> |tasks| == 0 || |tasks| <= s.limit.value
    ensures ParentsBefore(arena) && path == PathLasts(arena, goal)
  {
    PathFacts(m, tasks, arena, choice, goal);
    ArenaOkParents(m, tasks, arena, choice);
    var sequence := ReconstructSequence(arena, goal);
    SelectedNone(arena[goal].remaining, tasks);
    path := PathLasts(arena, goal);
    r := Solved(sequence, arena[goal].g);
  }

  /** An empty frontier with no goal reached means some node was cut off by
      the depth limit: without a cut, the closed identities would be closed
      under successors and hold a goal. */
  lemma ExhaustedMeansCut(m: SetupMatrix, tasks: seq<int>, s: Strategy, arena: seq<Node>, choice: seq<nat>,
                          closed: set<StateKey>, complete: bool, expanded: seq<StateKey>)
    requires SearchInv(m, tasks, s, arena, choice, [], closed, FrontierKeys(arena, []), complete, expanded)
    ensures !complete && !LimitPermits(s.limit, |tasks|)
  {
    if complete {
      assert FrontierKeys(arena, []) == {};
      ClosedSetReachesGoal(tasks, closed, StartKey(tasks));
      assert false;
    }
  }

  /** Taking the next entry off the frontier: the last one under the stack
      discipline, the first one otherwise. */
  method Pop(s: Strategy, arena: seq<Node>, frontier: seq<Entry>) returns (e: Entry, rest: seq<Entry>)
    requires FrontierOk(arena, frontier) && frontier != []
    ensures if s.discipline == Lifo then frontier == rest + [e] else frontier == [e] + rest
    ensures e.node < |arena| && e.v1 == arena[e.node].v1 && FrontierOk(arena, rest)
    ensures FrontierKeys(arena, frontier) == FrontierKeys(arena, rest) + {Key(arena[e.node])}
    ensures SortedByKey(frontier) ==> SortedByKey(rest)
  {
    if s.discipline == Lifo {
      e, rest := frontier[|frontier| - 1], frontier[..|frontier| - 1];
      assert frontier == rest + [e];
    } else {
      e, rest := frontier[0], frontier[1..];
      assert frontier == [e] + rest;
    }
    PopKeys(arena, frontier, e, rest);
  }

  /** One pass of the loop: pop an entry; at a goal node conclude, otherwise
      advance the search. */
  method Round(tasks: seq<int>, m: SetupMatrix, s: Strategy, name: string, families: Option<TaskFamily>,
               arena: seq<Node>, ghost choice: seq<nat>, frontier: seq<Entry>, closed: set<StateKey>,
               ghost complete: bool, ghost expanded: seq<StateKey>)
    returns (done: bool, r: Outcome, ghost path: seq<int>,
             arena': seq<Node>, ghost choice': seq<nat>, frontier': seq<Entry>, closed': set<StateKey>,
             ghost complete': bool, ghost expanded': seq<StateKey>)
    requires s.priority != PathCost ==> HeuristicReady(m, tasks, name)
    requires Searching(m, tasks, s, arena, choice, frontier, closed, complete, expanded) && frontier != []
    ensures done ==> r.Solved? && IsSchedule(tasks, path) && r.sequence == WithoutIdle(path) && r.cost == SequenceCost(m, 0, path)
    ensures done && CheapestFirst(s) ==> forall p :: IsSchedule(tasks, p) ==> Le(r.cost, SequenceCost(m, 0, p))
    ensures done ==> SearchRecord(tasks, arena', expanded')
    ensures done ==> exists goal :: 0 <= goal < |arena'| && IsGoalState(arena'[goal]) && path == PathLasts(arena', goal)
    ensures done ==> s.limit.Some? ==> |tasks| == 0 || |tasks| <= s.limit.value
    ensures !done ==> Searching(m, tasks, s, arena', choice', frontier', closed', complete', expanded')
    ensures !done ==> (closed' == closed && |frontier'| < |frontier|) || KeyUniverse(tasks) - closed' < KeyUniverse(tasks) - closed
  {
    var e, rest := Pop(s, arena, frontier);
    if IsGoalState(arena[e.node]) {
      r, path := Conclude(m, tasks, s, arena, choice, e.node);
      if CheapestFirst(s) {
        forall p | IsSchedule(tasks, p)
          ensures Le(r.cost, SequenceCost(m, 0, p))
        {
          GoalIsCheapest(m, tasks, arena, e, rest, closed, p);
        }
      }
      RecordGivesTree(m, tasks, arena, choice, closed, expanded);
      return true, r, path, arena, choice, frontier, closed, complete, expanded;
    }
    done, r, path := false, Exhausted, [];
    arena', choice', frontier', closed', complete', expanded' :=
      Advance(tasks, m, s, name, families, arena, choice, frontier, closed, complete, expanded, e, rest);
  }

  /** The loop invariant of `Search`: the search invariant, the
      cheapest-first invariant under uniform cost, and the expansion record. */
  ghost predicate Searching(m: SetupMatrix, tasks: seq<int>, s: Strategy, arena: seq<Node>, choice: seq<nat>,
                            frontier: seq<Entry>, closed: set<StateKey>, complete: bool, expanded: seq<StateKey>)
  {
    SearchInv(m, tasks, s, arena, choice, frontier, closed, FrontierKeys(arena, frontier), complete, expanded)
    && (CheapestFirst(s) ==> Cheapest(m, tasks, arena, frontier, closed))
    && ExpansionRecord(arena, closed, expanded)
  }

  /** What the search leaves behind: a tree of nodes rooted at the start,
      parents before children, in which every parent's identity was expanded,
      no identity was expanded twice and each expanded identity has a node. */
  ghost predicate SearchRecord(tasks: seq<int>, tree: seq<Node>, expanded: seq<StateKey>)
  {
    |tree| > 0 && IsStart(tree[0], tasks) && ParentsBefore(tree)
    && ParentsExpanded(tree, expanded) && OneNodePerIdentity(tree)
    && (forall a, b :: 0 <= a < b < |expanded| ==> expanded[a] != expanded[b])
    && (forall a :: 0 <= a < |expanded| ==> exists i :: 0 <= i < |tree| && Key(tree[i]) == expanded[a])
  }

  /** The shared loop of the seven drivers: pop, stop at a goal, otherwise advance. */
  method Search(tasks: seq<int>, m: SetupMatrix, s: Strategy, name: string, families: Option<TaskFamily>)
    returns (r: Outcome, ghost path: seq<int>, ghost expanded: seq<StateKey>, ghost tree: seq<Node>)
    requires s.priority != PathCost ==> HeuristicReady(m, tasks, name)
    ensures r.Solved? ==> IsSchedule(tasks, path) && r.sequence == WithoutIdle(path) && r.cost == SequenceCost(m, 0, path)
    ensures LimitPermits(s.limit, |tasks|) ==> r.Solved?
    ensures r.Solved? && s.limit.Some? ==> |tasks| == 0 || |tasks| <= s.limit.value
    ensures r.Solved? && CheapestFirst(s) ==> forall p :: IsSchedule(tasks, p) ==> Le(r.cost, SequenceCost(m, 0, p))
    ensures SearchRecord(tasks, tree, expanded)
    ensures r.Solved? ==> exists goal :: 0 <= goal < |tree| && IsGoalState(tree[goal]) && path == PathLasts(tree, goal)
  {
    path, expanded := [], [];
    var start := StartNode(tasks, m, s, name, families);
    var arena := [start];
    ghost var choice: seq<nat> := [0];
    var frontier := [Entry(start.v1, 0)];
    var closed: set<StateKey> := {};
    ghost var complete := true;
    assert FrontierKeys(arena, frontier) == {StartKey(tasks)};
    if CheapestFirst(s) {
      CheapestStart(m, tasks, start);
    }
    while frontier != []
      invariant Searching(m, tasks, s, arena, choice, frontier, closed, complete, expanded)
      decreases KeyUniverse(tasks) - closed, |frontier|
    {
      var done;
      done, r, path, arena, choice, frontier, closed, complete, expanded :=
        Round(tasks, m, s, name, families, arena, choice, frontier, closed, complete, expanded);
      if done {
        tree := arena;
        return;
      }
    }
    ExhaustedMeansCut(m, tasks, s, arena, choice, closed, complete, expanded);
    r, tree := Exhausted, arena;
    RecordGivesTree(m, tasks, tree, choice, closed, expanded);
  }

  /** The record in the terms `Search` promises it. */
  lemma RecordGivesTree(m: SetupMatrix, tasks: seq<int>, tree: seq<Node>, choice: seq<nat>,
                        closed: set<StateKey>, expanded: seq<StateKey>)
    requires ArenaOk(m, tasks, tree, choice) && ExpansionRecord(tree, closed, expanded)
    requires forall a :: 0 <= a < |expanded| ==> expanded[a] in closed
    requires forall a, b :: 0 <= a < b < |expanded| ==> expanded[a] != expanded[b]
    ensures SearchRecord(tasks, tree, expanded)
  {
    ArenaOkParents(m, tasks, tree, choice);
  }

  /** Every node with a parent hangs off a node whose identity was expanded. */
  ghost predicate ParentsExpanded(tree: seq<Node>, expanded: seq<StateKey>)
    requires ParentsBefore(tree)
  {
    forall i :: 0 <= i < |tree| && tree[i].parent.Some? ==> Key(tree[tree[i].parent.value]) in expanded
  }

  /** All children of one identity hang off the same node: no identity is
      expanded twice. */
  ghost predicate OneNodePerIdentity(tree: seq<Node>)
    requires ParentsBefore(tree)
  {
    forall i, j :: (0 <= i < |tree| && 0 <= j < |tree| && tree[i].parent.Some? && tree[j].parent.Some?
                    && Key(tree[tree[i].parent.value]) == Key(tree[tree[j].parent.value])) ==>
      tree[i].parent == tree[j].parent
  }
}
