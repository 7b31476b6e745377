/** Uninformed search over an explicit directed graph
    (backend/service/UninformedSearch.py): `nodes` is the list of state
    names and `graph[i]` lists the states the `i`-th of them has edges to.
    The Python deques, `visited` dictionaries and parent-linked nodes are a
    side of the search here: an arena of tree nodes, the frontier as arena
    indices, and the visited map from states to arena indices. */
module GraphUninformed {
  import opened Wrappers
  import opened Schedules
  import opened SearchPaths

  /** `nodes.index(x)`: the first position of `x`. */
  function IndexOf(nodes: seq<string>, x: string): (i: nat)
    requires x in nodes
    ensures i < |nodes| && nodes[i] == x && x !in nodes[..i]
  {
    if nodes[0] == x then 0
    else
      var i := 1 + IndexOf(nodes[1..], x);
      assert nodes[..i] == [nodes[0]] + nodes[1..][..i - 1];
      i
  }

  function NodeSet(nodes: seq<string>): set<string>
  {
    set x | x in nodes
  }

  /** Every node has an adjacency list, and every listed state is a node. */
  ghost predicate GraphOk(nodes: seq<string>, graph: seq<seq<string>>)
  {
    |nodes| <= |graph| && forall i, x :: 0 <= i < |nodes| && x in graph[i] ==> x in nodes
  }

  /** An edge from `a` to `b`: `b` is listed for the first position of `a`. */
  predicate Edge(nodes: seq<string>, graph: seq<seq<string>>, a: string, b: string)
  {
    a in nodes && IndexOf(nodes, a) < |graph| && b in graph[IndexOf(nodes, a)]
  }

  ghost predicate Step(nodes: seq<string>, graph: seq<seq<string>>, p: seq<string>, k: nat)
    requires k + 1 < |p|
  {
    Edge(nodes, graph, p[k], p[k + 1])
  }

  /** `p` is a walk along edges from `a` to `b`. */
  ghost predicate Leads(nodes: seq<string>, graph: seq<seq<string>>, p: seq<string>, a: string, b: string)
  {
    |p| > 0 && p[0] == a && p[|p| - 1] == b && forall k: nat :: k + 1 < |p| ==> Step(nodes, graph, p, k)
  }

  /** `successors_graph`: the adjacency list of position `idx`, read forwards
      (`order` 1) or backwards (`order` -1). */
  method SuccessorsGraph(idx: nat, graph: seq<seq<string>>, order: int) returns (successors: seq<string>)
    requires idx < |graph| && (order == 1 || order == -1)
    ensures order == 1 ==> successors == graph[idx]
    ensures order == -1 ==> successors == Reversed(graph[idx])
    ensures forall x :: x in successors <==> x in graph[idx]
  {
    var source := if order == 1 then graph[idx] else Reversed(graph[idx]);
    successors := [];
    for k := 0 to |source|
      invariant successors == source[..k]
    {
      successors := successors + [source[k]];
    }
    assert source[..|source|] == source;
    if order == -1 {
      forall x | x in graph[idx]
        ensures x in successors
      {
        var k :| 0 <= k < |graph[idx]| && graph[idx][k] == x;
        assert successors[|graph[idx]| - 1 - k] == x;
      }
    }
  }

  /** Node `i` is a child of an earlier node along an edge, one level deeper. */
  ghost predicate Link(nodes: seq<string>, graph: seq<seq<string>>, arena: seq<TreeNode<string>>, i: nat)
    requires i < |arena|
  {
    arena[i].parent.Some? && arena[i].parent.value < i
    && Edge(nodes, graph, arena[arena[i].parent.value].state, arena[i].state)
    && arena[i].depth == arena[arena[i].parent.value].depth + 1
  }

  /** A search tree grown from `root`. */
  ghost predicate TreeOk(nodes: seq<string>, graph: seq<seq<string>>, root: string, arena: seq<TreeNode<string>>)
  {
    |arena| > 0 && arena[0] == TreeNode(None, root, 0, 0)
    && forall i: nat :: 1 <= i < |arena| ==> Link(nodes, graph, arena, i)
  }

  lemma TreeLinked(nodes: seq<string>, graph: seq<seq<string>>, root: string, arena: seq<TreeNode<string>>)
    requires TreeOk(nodes, graph, root, arena)
    ensures Linked(arena)
  {
    forall i | 0 <= i < |arena| && arena[i].parent.Some?
      ensures arena[i].parent.value < i
    {
      assert i != 0 && Link(nodes, graph, arena, i);
    }
  }

  lemma TreeAppend(nodes: seq<string>, graph: seq<seq<string>>, root: string, arena: seq<TreeNode<string>>, p: nat, c: TreeNode<string>)
    requires TreeOk(nodes, graph, root, arena) && p < |arena|
    requires c.parent == Some(p) && Edge(nodes, graph, arena[p].state, c.state) && c.depth == arena[p].depth + 1
    ensures TreeOk(nodes, graph, root, arena + [c])
  {
    var a := arena + [c];
    forall i: nat | 1 <= i < |a|
      ensures Link(nodes, graph, a, i)
    {
      if i < |arena| {
        assert Link(nodes, graph, arena, i);
        assert a[i] == arena[i] && a[arena[i].parent.value] == arena[arena[i].parent.value];
      }
    }
  }

  /** Every node of a tree is a state of the graph reached from the root by
      the walk of its path, one state longer than its depth. */
  lemma {:induction false} TreePath(nodes: seq<string>, graph: seq<seq<string>>, root: string, arena: seq<TreeNode<string>>, i: nat)
    requires TreeOk(nodes, graph, root, arena) && i < |arena| && GraphOk(nodes, graph) && root in nodes
    ensures Linked(arena) && arena[i].state in nodes
    ensures Leads(nodes, graph, PathStates(arena, i), root, arena[i].state)
    ensures |PathStates(arena, i)| == arena[i].depth + 1
    decreases i
  {
    TreeLinked(nodes, graph, root, arena);
    if i > 0 {
      assert Link(nodes, graph, arena, i);
      var p := arena[i].parent.value;
      TreePath(nodes, graph, root, arena, p);
      var up := PathStates(arena, p);
      var path := PathStates(arena, i);
      assert path == up + [arena[i].state];
      forall k: nat | k + 1 < |path|
        ensures Step(nodes, graph, path, k)
      {
        if k + 1 < |up| {
          assert Step(nodes, graph, up, k);
        }
      }
    }
  }

  /** A set of states that no edge leaves holds every walk that starts in it. */
  lemma {:induction false} ClosedWalk(nodes: seq<string>, graph: seq<seq<string>>, s: set<string>, p: seq<string>, a: string, b: string)
    requires forall x, y :: x in s && Edge(nodes, graph, x, y) ==> y in s
    requires Leads(nodes, graph, p, a, b) && a in s
    ensures b in s
    decreases |p|
  {
    if |p| > 1 {
      var q := p[..|p| - 1];
      forall k: nat | k + 1 < |q|
        ensures Step(nodes, graph, q, k)
      {
        assert Step(nodes, graph, p, k);
      }
      ClosedWalk(nodes, graph, s, q, a, q[|q| - 1]);
      assert Step(nodes, graph, p, |p| - 2);
    }
  }

  /** One side of a search: the tree so far, the frontier (arena indices)
      and the visited map (states to the arena index of their node). */
  datatype Side = Side(arena: seq<TreeNode<string>>, frontier: seq<nat>, visited: map<string, nat>)

  ghost predicate SideOk(nodes: seq<string>, graph: seq<seq<string>>, root: string, s: Side)
  {
    TreeOk(nodes, graph, root, s.arena)
    && (forall j :: 0 <= j < |s.frontier| ==> s.frontier[j] < |s.arena|)
    && (forall x :: x in s.visited ==> s.visited[x] < |s.arena| && s.arena[s.visited[x]].state == x)
    && s.visited.Keys <= NodeSet(nodes) && root in s.visited
  }

  /** States not visited yet, plus the nodes waiting in the frontier. */
  ghost function Measure(nodes: seq<string>, s: Side): nat
  {
    |NodeSet(nodes) - s.visited.Keys| + |s.frontier|
  }

  /** The side after creating the child of node `cur` for state `x`, marking
      `x` visited and putting the child at the end of the frontier. */
  function Visit(s: Side, cur: nat, x: string): (s': Side)
    requires cur < |s.arena|
    ensures |s'.arena| == |s.arena| + 1 && s'.arena[cur] == s.arena[cur]
  {
    var index := |s.arena|;
    Side(s.arena + [TreeNode(Some(cur), x, s.arena[cur].depth + 1, 0)], s.frontier + [index], s.visited[x := index])
  }

  lemma VisitMap(s: Side, cur: nat, x: string)
    requires cur < |s.arena|
    requires forall y :: y in s.visited ==> s.visited[y] < |s.arena| && s.arena[s.visited[y]].state == y
    ensures var s' := Visit(s, cur, x);
            forall y :: y in s'.visited ==> s'.visited[y] < |s'.arena| && s'.arena[s'.visited[y]].state == y
  {
    var s' := Visit(s, cur, x);
    forall y | y in s'.visited
      ensures s'.visited[y] < |s'.arena| && s'.arena[s'.visited[y]].state == y
    {
      if y != x {
        assert s'.visited[y] == s.visited[y] && s'.arena[s.visited[y]] == s.arena[s.visited[y]];
      }
    }
  }

  lemma VisitCount(u: set<string>, s: Side, cur: nat, x: string)
    requires cur < |s.arena| && x in u && x !in s.visited
    ensures var s' := Visit(s, cur, x);
            s'.visited.Keys == s.visited.Keys + {x}
            && |u - s'.visited.Keys| + |s'.frontier| == |u - s.visited.Keys| + |s.frontier|
  {
    var s' := Visit(s, cur, x);
    assert s'.visited.Keys == s.visited.Keys + {x};
    assert |s'.frontier| == |s.frontier| + 1;
    RemoveOne(u, s.visited.Keys, x);
  }

  /** Marking one more unvisited state visited leaves one fewer unvisited. */
  lemma RemoveOne(u: set<string>, k: set<string>, x: string)
    requires x in u && x !in k
    ensures |u - (k + {x})| == |u - k| - 1
  {
    assert u - (k + {x}) == (u - k) - {x};
  }

  /** Visiting a new state along an edge keeps a side well formed without
      changing its measure. */
  lemma VisitOk(nodes: seq<string>, graph: seq<seq<string>>, root: string, s: Side, cur: nat, x: string)
    requires SideOk(nodes, graph, root, s) && GraphOk(nodes, graph) && root in nodes && cur < |s.arena|
    requires Edge(nodes, graph, s.arena[cur].state, x) && x !in s.visited
    ensures SideOk(nodes, graph, root, Visit(s, cur, x)) && Measure(nodes, Visit(s, cur, x)) == Measure(nodes, s)
    ensures Visit(s, cur, x).visited.Keys == s.visited.Keys + {x}
  {
    var s' := Visit(s, cur, x);
    assert TreeOk(nodes, graph, root, s'.arena) by {
      TreePath(nodes, graph, root, s.arena, cur);
      TreeAppend(nodes, graph, root, s.arena, cur, TreeNode(Some(cur), x, s.arena[cur].depth + 1, 0));
    }
    assert x in NodeSet(nodes) by {
      EdgeTarget(nodes, graph, s.arena[cur].state, x);
    }
    VisitFrontier(s, cur, x);
    VisitMap(s, cur, x);
    VisitCount(NodeSet(nodes), s, cur, x);
  }

  /** The end of an edge is a node of the graph. */
  lemma EdgeTarget(nodes: seq<string>, graph: seq<seq<string>>, a: string, b: string)
    requires GraphOk(nodes, graph) && Edge(nodes, graph, a, b)
    ensures b in nodes
  {
    assert b in graph[IndexOf(nodes, a)];
  }

  lemma VisitFrontier(s: Side, cur: nat, x: string)
    requires cur < |s.arena| && forall j :: 0 <= j < |s.frontier| ==> s.frontier[j] < |s.arena|
    ensures var s' := Visit(s, cur, x);
            forall j :: 0 <= j < |s'.frontier| ==> s'.frontier[j] < |s'.arena|
  {
    var s' := Visit(s, cur, x);
    assert forall j :: 0 <= j < |s.frontier| ==> s'.frontier[j] == s.frontier[j];
  }

  /** Where a depth limit stops expansion: `current.depth < limit` fails. */
  predicate Cut(limit: Option<int>, depth: nat)
  {
    limit.Some? && depth >= limit.value
  }

  /** Every successor of `x` has been visited. */
  ghost predicate Done(nodes: seq<string>, graph: seq<seq<string>>, visited: map<string, nat>, x: string)
  {
    forall y {:trigger Edge(nodes, graph, x, y)} :: Edge(nodes, graph, x, y) ==> y in visited
  }

  /** Node `i` still waits in the frontier, has had its successors visited,
      or lies at the depth limit. */
  ghost predicate Settled(nodes: seq<string>, graph: seq<seq<string>>, limit: Option<int>, s: Side, i: nat)
    requires i < |s.arena|
  {
    i in s.frontier || Done(nodes, graph, s.visited, s.arena[i].state) || Cut(limit, s.arena[i].depth)
  }

  /** What the search keeps true: a well-formed side that has not visited
      the goal, every node of which is settled. */
  ghost predicate SearchInv(nodes: seq<string>, graph: seq<seq<string>>, start: string, goal: string, limit: Option<int>, s: Side)
  {
    SideOk(nodes, graph, start, s) && goal !in s.visited
    && forall i: nat :: i < |s.arena| ==> Settled(nodes, graph, limit, s, i)
  }

  /** Visiting keeps every node but the one being expanded settled. */
  lemma VisitSettled(nodes: seq<string>, graph: seq<seq<string>>, limit: Option<int>, s: Side, cur: nat, x: string)
    requires cur < |s.arena|
    requires forall i: nat :: i < |s.arena| && i != cur ==> Settled(nodes, graph, limit, s, i)
    ensures var s' := Visit(s, cur, x);
            forall i: nat :: i < |s'.arena| && i != cur ==> Settled(nodes, graph, limit, s', i)
  {
    var s' := Visit(s, cur, x);
    forall i: nat | i < |s'.arena| && i != cur
      ensures Settled(nodes, graph, limit, s', i)
    {
      if i == |s.arena| {
        assert s'.frontier[|s.frontier|] == i;
      } else {
        assert Settled(nodes, graph, limit, s, i);
        assert s'.arena[i] == s.arena[i];
        if i in s.frontier {
          var j :| 0 <= j < |s.frontier| && s.frontier[j] == i;
          assert s'.frontier[j] == i;
        }
      }
    }
  }

  /** Expand node `cur` (already taken off the frontier): visit each
      unvisited successor, in the order `order` gives, and stop with the path
      to the goal as soon as the goal is visited. */
  method Expand(nodes: seq<string>, graph: seq<seq<string>>, start: string, goal: string, limit: Option<int>,
                order: int, s: Side, cur: nat)
    returns (s': Side, found: Option<seq<string>>)
    requires GraphOk(nodes, graph) && start in nodes && (order == 1 || order == -1)
    requires SideOk(nodes, graph, start, s) && goal !in s.visited && cur < |s.arena|
    requires !Cut(limit, s.arena[cur].depth)
    requires forall i: nat :: i < |s.arena| && i != cur ==> Settled(nodes, graph, limit, s, i)
    ensures found.Some? ==> Leads(nodes, graph, found.value, start, goal)
    ensures found.Some? && limit.Some? ==> |found.value| <= limit.value + 1
    ensures found.None? ==> SearchInv(nodes, graph, start, goal, limit, s') && Measure(nodes, s') == Measure(nodes, s)
  {
    var current := s.arena[cur];
    TreePath(nodes, graph, start, s.arena, cur);
    var children := SuccessorsGraph(IndexOf(nodes, current.state), graph, order);
    s', found := s, None;
    for k := 0 to |children|
      invariant Partial(nodes, graph, start, goal, limit, s', cur, current, children[..k])
      invariant Measure(nodes, s') == Measure(nodes, s) && found.None?
    {
      s', found := Consider(nodes, graph, start, goal, limit, s', cur, current, children[..k], children[k]);
      if found.Some? {
        return;
      }
      TakeNext(children, k);
    }
    TakeAll(children);
    assert Settled(nodes, graph, limit, s', cur);
  }

  /** Part way through expanding node `cur`: the side is well formed, has not
      visited the goal, every other node is settled, and the successors
      considered so far are visited. */
  ghost predicate Partial(nodes: seq<string>, graph: seq<seq<string>>, start: string, goal: string, limit: Option<int>,
                          s: Side, cur: nat, current: TreeNode<string>, considered: seq<string>)
  {
    SideOk(nodes, graph, start, s) && goal !in s.visited && cur < |s.arena| && s.arena[cur] == current
    && (forall i: nat :: i < |s.arena| && i != cur ==> Settled(nodes, graph, limit, s, i))
    && forall y :: y in considered ==> y in s.visited
  }

  /** One successor `x` of node `cur`: if it is not visited, create its
      node, mark it visited and put it on the frontier; if it is the goal,
      answer with its path. */
  method Consider(nodes: seq<string>, graph: seq<seq<string>>, start: string, goal: string, limit: Option<int>,
                  s: Side, cur: nat, ghost current: TreeNode<string>, ghost considered: seq<string>, x: string)
    returns (s': Side, found: Option<seq<string>>)
    requires GraphOk(nodes, graph) && start in nodes
    requires Partial(nodes, graph, start, goal, limit, s, cur, current, considered)
    requires Edge(nodes, graph, current.state, x) && !Cut(limit, current.depth)
    ensures found.Some? ==> Leads(nodes, graph, found.value, start, goal)
    ensures found.Some? && limit.Some? ==> |found.value| <= limit.value + 1
    ensures found.None? ==> Partial(nodes, graph, start, goal, limit, s', cur, current, considered + [x])
    ensures found.None? ==> Measure(nodes, s') == Measure(nodes, s)
  {
    s', found := s, None;
    if x !in s.visited {
      VisitOk(nodes, graph, start, s, cur, x);
      VisitSettled(nodes, graph, limit, s, cur, x);
      s' := Visit(s, cur, x);
      if x == goal {
        var child := |s.arena|;
        TreePath(nodes, graph, start, s'.arena, child);
        var path := ShowPath(s'.arena, child);
        found := Some(path);
      }
    }
  }

  /** Where the frontier is taken from: the front of a queue or the top of a stack. */
  datatype Frontier = Queue | Stack

  /** The loop shared by `breadth_first_search` (a queue, successors in
      order), `depth_first_search` (a stack, successors reversed) and
      `depth_limited_search` (the same with a depth limit), after the check
      that start and goal differ. A path found is a walk from start to goal,
      no longer than the limit allows; without a limit, no path found means
      there is no walk from start to goal. */
  method TreeSearch(start: string, goal: string, nodes: seq<string>, graph: seq<seq<string>>,
                    frontier: Frontier, limit: Option<int>)
    returns (r: Option<seq<string>>)
    requires start != goal && start in nodes && GraphOk(nodes, graph)
    ensures r.Some? ==> Leads(nodes, graph, r.value, start, goal)
    ensures r.Some? && limit.Some? ==> |r.value| <= limit.value + 1
    ensures r.None? && limit.None? ==> forall p :: !Leads(nodes, graph, p, start, goal)
  {
    var s := Side([TreeNode(None, start, 0, 0)], [0], map[start := 0]);
    InitialSide(nodes, graph, start, goal, limit);
    while s.frontier != []
      invariant SearchInv(nodes, graph, start, goal, limit, s)
      decreases Measure(nodes, s)
    {
      var found;
      s, found := SearchStep(nodes, graph, start, goal, limit, frontier, s);
      if found.Some? {
        return found;
      }
    }
    if limit.None? {
      Exhausted(nodes, graph, start, goal, s);
    }
    r := None;
  }

  /** The side holding only the start node satisfies the search invariant. */
  lemma InitialSide(nodes: seq<string>, graph: seq<seq<string>>, start: string, goal: string, limit: Option<int>)
    requires start != goal && start in nodes
    ensures SearchInv(nodes, graph, start, goal, limit, Side([TreeNode(None, start, 0, 0)], [0], map[start := 0]))
  {
    var s := Side([TreeNode(None, start, 0, 0)], [0], map[start := 0]);
    assert Settled(nodes, graph, limit, s, 0) by {
      assert 0 in s.frontier;
    }
  }

  /** One turn of the search loop: pop a node, and expand it unless it lies
      at the depth limit. */
  method SearchStep(nodes: seq<string>, graph: seq<seq<string>>, start: string, goal: string,
                    limit: Option<int>, frontier: Frontier, s: Side)
    returns (s': Side, found: Option<seq<string>>)
    requires GraphOk(nodes, graph) && start in nodes
    requires SearchInv(nodes, graph, start, goal, limit, s) && s.frontier != []
    ensures found.Some? ==> Leads(nodes, graph, found.value, start, goal)
    ensures found.Some? && limit.Some? ==> |found.value| <= limit.value + 1
    ensures found.None? ==> SearchInv(nodes, graph, start, goal, limit, s') && Measure(nodes, s') < Measure(nodes, s)
  {
    var cur, popped := Pop(s, frontier);
    PopKeeps(nodes, graph, start, goal, limit, s, cur, popped);
    if Cut(limit, s.arena[cur].depth) {
      s', found := popped, None;
      assert Settled(nodes, graph, limit, s', cur);
    } else {
      s', found := Expand(nodes, graph, start, goal, limit, if frontier == Queue then 1 else -1, popped, cur);
    }
  }

  /** Take the next node off the frontier: `popleft` for a queue, `pop`
      for a stack. */
  method Pop(s: Side, frontier: Frontier) returns (cur: nat, popped: Side)
    requires s.frontier != []
    ensures popped.arena == s.arena && popped.visited == s.visited
    ensures frontier == Queue ==> s.frontier == [cur] + popped.frontier
    ensures frontier == Stack ==> s.frontier == popped.frontier + [cur]
  {
    if frontier == Queue {
      cur := s.frontier[0];
      popped := s.(frontier := s.frontier[1..]);
    } else {
      cur := s.frontier[|s.frontier| - 1];
      popped := s.(frontier := s.frontier[..|s.frontier| - 1]);
    }
  }

  /** After a pop, the side is still well formed, one node shorter in the
      measure, and every node but the popped one is still settled. */
  lemma PopKeeps(nodes: seq<string>, graph: seq<seq<string>>, start: string, goal: string, limit: Option<int>,
                 s: Side, cur: nat, popped: Side)
    requires SearchInv(nodes, graph, start, goal, limit, s)
    requires popped.arena == s.arena && popped.visited == s.visited
    requires s.frontier == [cur] + popped.frontier || s.frontier == popped.frontier + [cur]
    ensures SideOk(nodes, graph, start, popped) && goal !in popped.visited && cur < |s.arena|
    ensures Measure(nodes, popped) == Measure(nodes, s) - 1
    ensures forall i: nat :: i < |s.arena| && i != cur ==> Settled(nodes, graph, limit, popped, i)
  {
    assert cur in s.frontier;
    forall i: nat | i < |s.arena| && i != cur
      ensures Settled(nodes, graph, limit, popped, i)
    {
      assert Settled(nodes, graph, limit, s, i);
    }
    forall j | 0 <= j < |popped.frontier|
      ensures popped.frontier[j] < |popped.arena|
    {
      assert popped.frontier[j] in s.frontier;
    }
  }

  /** An empty frontier without a depth limit: the visited states hold start
      and every successor of each of them, but not the goal, so no walk
      leads from start to goal. */
  lemma Exhausted(nodes: seq<string>, graph: seq<seq<string>>, start: string, goal: string, s: Side)
    requires SearchInv(nodes, graph, start, goal, None, s) && s.frontier == []
    ensures forall p :: !Leads(nodes, graph, p, start, goal)
  {
    var v := s.visited.Keys;
    forall x, y | x in v && Edge(nodes, graph, x, y)
      ensures y in v
    {
      assert Settled(nodes, graph, None, s, s.visited[x]);
    }
    forall p | Leads(nodes, graph, p, start, goal)
      ensures false
    {
      ClosedWalk(nodes, graph, v, p, start, goal);
    }
  }

  /** What a driver needs when start and goal differ: the start is a node
      and the graph is well formed (otherwise the Python raises). */
  ghost predicate Ready(start: string, goal: string, nodes: seq<string>, graph: seq<seq<string>>)
  {
    start != goal ==> start in nodes && GraphOk(nodes, graph)
  }

  /** `breadth_first_search`: `[start]` when start is the goal; otherwise a
      walk from start to goal, or None exactly when no walk exists. */
  method BreadthFirstSearch(start: string, goal: string, nodes: seq<string>, graph: seq<seq<string>>)
    returns (r: Option<seq<string>>)
    requires Ready(start, goal, nodes, graph)
    ensures start == goal ==> r == Some([start])
    ensures r.Some? ==> Leads(nodes, graph, r.value, start, goal)
    ensures r.None? ==> forall p :: !Leads(nodes, graph, p, start, goal)
  {
    if start == goal {
      return Some([start]);
    }
    r := TreeSearch(start, goal, nodes, graph, Queue, None);
  }

  /** `depth_first_search`: the same with a stack and reversed successors. */
  method DepthFirstSearch(start: string, goal: string, nodes: seq<string>, graph: seq<seq<string>>)
    returns (r: Option<seq<string>>)
    requires Ready(start, goal, nodes, graph)
    ensures start == goal ==> r == Some([start])
    ensures r.Some? ==> Leads(nodes, graph, r.value, start, goal)
    ensures r.None? ==> forall p :: !Leads(nodes, graph, p, start, goal)
  {
    if start == goal {
      return Some([start]);
    }
    r := TreeSearch(start, goal, nodes, graph, Stack, None);
  }

  /** `depth_limited_search`: depth-first, expanding only nodes shallower
      than `limit`; a path found has at most `limit + 1` states. */
  method DepthLimitedSearch(start: string, goal: string, nodes: seq<string>, graph: seq<seq<string>>, limit: int)
    returns (r: Option<seq<string>>)
    requires Ready(start, goal, nodes, graph)
    ensures start == goal ==> r == Some([start])
    ensures r.Some? ==> Leads(nodes, graph, r.value, start, goal)
    ensures r.Some? && start != goal ==> |r.value| <= limit + 1
  {
    if start == goal {
      return Some([start]);
    }
    r := TreeSearch(start, goal, nodes, graph, Stack, Some(limit));
  }

  /** `iterative_deepening_search`: depth-limited searches with limits 1 up
      to `maxLimit - 1` (the range excludes `maxLimit`), the start-is-goal
      test inside the loop; so nothing at all is found when `maxLimit <= 1`,
      and a path found has at most `maxLimit` states. */
  method IterativeDeepeningSearch(start: string, goal: string, nodes: seq<string>, graph: seq<seq<string>>, maxLimit: int)
    returns (r: Option<seq<string>>)
    requires Ready(start, goal, nodes, graph)
    ensures maxLimit <= 1 ==> r == None
    ensures start == goal && maxLimit > 1 ==> r == Some([start])
    ensures r.Some? ==> Leads(nodes, graph, r.value, start, goal) && |r.value| <= maxLimit
  {
    var limit := 1;
    while limit < maxLimit
      invariant 1 <= limit && (start == goal ==> limit == 1)
      decreases maxLimit - limit
    {
      if start == goal {
        return Some([start]);
      }
      r := TreeSearch(start, goal, nodes, graph, Stack, Some(limit));
      if r.Some? {
        return r;
      }
      limit := limit + 1;
    }
    r := None;
  }

  /** `show_path_bidirectional`: the start side's path to the meeting state,
      then the goal side's path to it reversed, without the meeting state a
      second time. */
  method ShowPathBidirectional(meetingPoint: string, f: Side, b: Side) returns (path: seq<string>)
    requires Linked(f.arena) && Linked(b.arena)
    requires meetingPoint in f.visited && f.visited[meetingPoint] < |f.arena|
    requires meetingPoint in b.visited && b.visited[meetingPoint] < |b.arena|
    ensures var p1 := PathStates(f.arena, f.visited[meetingPoint]);
            var p2 := PathStates(b.arena, b.visited[meetingPoint]);
            path == p1 + Reversed(p2[..|p2| - 1]) && |path| == |p1| + |p2| - 1
  {
    var path1 := ShowPath(f.arena, f.visited[meetingPoint]);
    var path2 := ShowPath(b.arena, b.visited[meetingPoint]);
    path2 := Reversed(path2[..|path2| - 1]);
    path := path1 + path2;
  }

  /** Two walks to the same state, joined as `show_path_bidirectional` joins
      them: the first part is the first walk, and the rest read backwards is
      the second walk. */
  lemma Joined(nodes: seq<string>, graph: seq<seq<string>>, p1: seq<string>, p2: seq<string>, start: string, goal: string, m: string)
    requires Leads(nodes, graph, p1, start, m) && Leads(nodes, graph, p2, goal, m)
    ensures var path := p1 + Reversed(p2[..|p2| - 1]);
            var k := |p1| - 1;
            path[..k + 1] == p1 && Reversed(path[k..]) == p2 && path[0] == start && path[|path| - 1] == goal
  {
    var path := p1 + Reversed(p2[..|p2| - 1]);
    var k := |p1| - 1;
    assert path[..k + 1] == p1;
    var tail := path[k..];
    assert |tail| == |p2|;
    forall j | 0 <= j < |p2|
      ensures Reversed(tail)[j] == p2[j]
    {
      if j < |p2| - 1 {
        assert tail[|p2| - 1 - j] == Reversed(p2[..|p2| - 1])[|p2| - 2 - j];
      }
    }
  }

  /** One level of a bidirectional side: expand every node that was in the
      frontier when the level began, visiting new successors, and stop at the
      first newly visited state the other side has visited. */
  method ExpandLevel(nodes: seq<string>, graph: seq<seq<string>>, root: string, s: Side, other: Side)
    returns (s': Side, meet: Option<string>)
    requires GraphOk(nodes, graph) && root in nodes && SideOk(nodes, graph, root, s) && s.frontier != []
    ensures SideOk(nodes, graph, root, s')
    ensures meet.Some? ==> meet.value in s'.visited && meet.value in other.visited
    ensures meet.None? ==> Measure(nodes, s') < Measure(nodes, s)
  {
    var level := |s.frontier|;
    s', meet := s, None;
    for j := 0 to level
      invariant SideOk(nodes, graph, root, s') && |s'.frontier| >= level - j
      invariant Measure(nodes, s') <= Measure(nodes, s) - j && meet.None?
    {
      var cur := s'.frontier[0];
      var popped := s'.(frontier := s'.frontier[1..]);
      PopFront(nodes, graph, root, s', popped);
      s', meet := ExpandMeeting(nodes, graph, root, popped, cur, other);
      if meet.Some? {
        return;
      }
    }
  }

  lemma PopFront(nodes: seq<string>, graph: seq<seq<string>>, root: string, s: Side, popped: Side)
    requires SideOk(nodes, graph, root, s) && s.frontier != [] && popped == s.(frontier := s.frontier[1..])
    ensures SideOk(nodes, graph, root, popped) && s.frontier[0] < |popped.arena|
    ensures Measure(nodes, popped) == Measure(nodes, s) - 1
  {
    assert forall j :: 0 <= j < |popped.frontier| ==> popped.frontier[j] == s.frontier[j + 1];
  }

  /** Expand node `cur` of a bidirectional side (successors in order). */
  method ExpandMeeting(nodes: seq<string>, graph: seq<seq<string>>, root: string, s: Side, cur: nat, other: Side)
    returns (s': Side, meet: Option<string>)
    requires GraphOk(nodes, graph) && root in nodes && SideOk(nodes, graph, root, s) && cur < |s.arena|
    ensures SideOk(nodes, graph, root, s')
    ensures meet.Some? ==> meet.value in s'.visited && meet.value in other.visited
    ensures meet.None? ==> Measure(nodes, s') == Measure(nodes, s) && |s'.frontier| >= |s.frontier|
  {
    TreePath(nodes, graph, root, s.arena, cur);
    var children := SuccessorsGraph(IndexOf(nodes, s.arena[cur].state), graph, 1);
    s', meet := s, None;
    for k := 0 to |children|
      invariant SideOk(nodes, graph, root, s') && cur < |s'.arena| && s'.arena[cur] == s.arena[cur]
      invariant Measure(nodes, s') == Measure(nodes, s) && |s'.frontier| >= |s.frontier|
    {
      var x := children[k];
      if x !in s'.visited {
        VisitOk(nodes, graph, root, s', cur, x);
        s' := Visit(s', cur, x);
        if x in other.visited {
          return s', Some(x);
        }
      }
    }
  }

  /** What a bidirectional answer is: a sequence of states from start to
      goal whose part up to position `meet` is a walk from start, and whose
      part from `meet` on, read backwards, is a walk from the goal. */
  ghost predicate MeetsPath(nodes: seq<string>, graph: seq<seq<string>>, p: seq<string>, start: string, goal: string, meet: nat)
  {
    meet < |p| && p[0] == start && p[|p| - 1] == goal
    && Leads(nodes, graph, p[..meet + 1], start, p[meet])
    && Leads(nodes, graph, Reversed(p[meet..]), goal, p[meet])
  }

  lemma SingleMeets(nodes: seq<string>, graph: seq<seq<string>>, x: string)
    ensures MeetsPath(nodes, graph, [x], x, x, 0)
  {
    assert [x][..1] == [x] && [x][0..] == [x];
    assert Reversed([x]) == [x];
  }

  /** `bidirectional_search`: a breadth-first level from the start, then one
      from the goal, while both frontiers are non-empty. Both sides follow
      edges forwards, so the answer is a walk from start to the meeting
      state followed by a walk from the goal to it read backwards. */
  method BidirectionalSearch(start: string, goal: string, nodes: seq<string>, graph: seq<seq<string>>)
    returns (r: Option<seq<string>>, ghost meet: nat)
    requires start != goal ==> start in nodes && goal in nodes && GraphOk(nodes, graph)
    ensures start == goal ==> r == Some([start])
    ensures r.Some? ==> MeetsPath(nodes, graph, r.value, start, goal, meet)
  {
    meet := 0;
    if start == goal {
      SingleMeets(nodes, graph, start);
      return Some([start]), 0;
    }
    var f := Side([TreeNode(None, start, 0, 0)], [0], map[start := 0]);
    var b := Side([TreeNode(None, goal, 0, 0)], [0], map[goal := 0]);
    while f.frontier != [] && b.frontier != []
      invariant SideOk(nodes, graph, start, f) && SideOk(nodes, graph, goal, b)
      decreases Measure(nodes, f) + Measure(nodes, b)
    {
      var m;
      f, m := ExpandLevel(nodes, graph, start, f, b);
      if m.Some? {
        r, meet := Answer(nodes, graph, start, goal, m.value, f, b);
        return;
      }
      b, m := ExpandLevel(nodes, graph, goal, b, f);
      if m.Some? {
        r, meet := Answer(nodes, graph, start, goal, m.value, f, b);
        return;
      }
    }
    r := None;
  }

  /** The answer at a meeting state visited by both sides. */
  method Answer(nodes: seq<string>, graph: seq<seq<string>>, start: string, goal: string, m: string, f: Side, b: Side)
    returns (r: Option<seq<string>>, ghost meet: nat)
    requires GraphOk(nodes, graph) && start in nodes && goal in nodes
    requires SideOk(nodes, graph, start, f) && SideOk(nodes, graph, goal, b) && m in f.visited && m in b.visited
    ensures r.Some? && MeetsPath(nodes, graph, r.value, start, goal, meet)
  {
    TreePath(nodes, graph, start, f.arena, f.visited[m]);
    TreePath(nodes, graph, goal, b.arena, b.visited[m]);
    var path := ShowPathBidirectional(m, f, b);
    var p1 := PathStates(f.arena, f.visited[m]);
    var p2 := PathStates(b.arena, b.visited[m]);
    Joined(nodes, graph, p1, p2, start, goal, m);
    meet := |p1| - 1;
    r := Some(path);
  }
}
