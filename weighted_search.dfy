/** The best-first loop shared by `uniform_cost`, `greedy`, `a_star` and one
    round of `ida_star`, both over weighted graphs
    (backend/service/base/InformedSearch.py) and over grids
    (backend/service/InformedSearch.py). A search is given its successor
    function (a state to its `(state, step cost)` pairs, in the order the
    source lists them) and the priority `v1` of a child from its path cost
    `v2` and its state. The Python deque of `NodeP` nodes kept in order by
    `insert_ordered`, and the `visited` dictionary of nodes, are an arena of
    tree nodes, an ordered list of entries naming arena indices, and a map
    from states to arena indices. */
module WeightedSearch {
  import opened Wrappers
  import opened Costs
  import opened Schedules
  import opened SearchPaths
  import opened OrderedLists

  /** The cost of a walk: the sum of its step costs. */
  function Total(ws: seq<nat>): nat
  {
    if ws == [] then 0 else Total(ws[..|ws| - 1]) + ws[|ws| - 1]
  }

  /** `p` is a walk from `a` to `b` whose `k`-th step goes to the successor
      `p[k + 1]` of `p[k]` at cost `ws[k]`. */
  ghost predicate Walk<S>(succ: S -> seq<(S, nat)>, p: seq<S>, ws: seq<nat>, a: S, b: S)
  {
    |p| > 0 && |ws| == |p| - 1 && p[0] == a && p[|p| - 1] == b
    && forall k :: 0 <= k < |ws| ==> (p[k + 1], ws[k]) in succ(p[k])
  }

  /** Every successor of a state of `universe` is in `universe`. */
  ghost predicate Closed<S>(succ: S -> seq<(S, nat)>, universe: seq<S>)
  {
    forall x, e :: x in universe && e in succ(x) ==> e.0 in universe
  }

  /** Node `i` is a successor of an earlier node, and its path cost is its
      parent's plus the cost of that step. */
  ghost predicate Link<S>(succ: S -> seq<(S, nat)>, arena: seq<TreeNode<S>>, i: nat)
    requires i < |arena|
  {
    arena[i].parent.Some? && arena[i].parent.value < i
    && arena[arena[i].parent.value].g <= arena[i].g
    && (arena[i].state, arena[i].g - arena[arena[i].parent.value].g) in succ(arena[arena[i].parent.value].state)
  }

  /** A search tree grown from `root`, whose path cost is 0. */
  ghost predicate TreeOk<S>(succ: S -> seq<(S, nat)>, root: S, arena: seq<TreeNode<S>>)
  {
    |arena| > 0 && arena[0] == TreeNode(None, root, 0, 0)
    && forall i: nat :: 1 <= i < |arena| ==> Link(succ, arena, i)
  }

  lemma TreeLinked<S>(succ: S -> seq<(S, nat)>, root: S, arena: seq<TreeNode<S>>)
    requires TreeOk(succ, root, arena)
    ensures Linked(arena)
  {
    forall i | 0 <= i < |arena| && arena[i].parent.Some?
      ensures arena[i].parent.value < i
    {
      assert i != 0 && Link(succ, arena, i);
    }
  }

  /** The step costs along the path from the root to node `i`. */
  ghost function PathWeights<S>(arena: seq<TreeNode<S>>, i: nat): (ws: seq<nat>)
    requires Linked(arena) && i < |arena|
    ensures |ws| == |PathStates(arena, i)| - 1
    decreases i
  {
    if arena[i].parent.None? then []
    else
      var p := arena[i].parent.value;
      PathWeights(arena, p) + [if arena[p].g <= arena[i].g then arena[i].g - arena[p].g else 0]
  }

  /** The path of every node of a tree is a walk from the root whose cost is
      the node's path cost `v2`. */
  lemma {:induction false} TreeWalk<S>(succ: S -> seq<(S, nat)>, root: S, arena: seq<TreeNode<S>>, i: nat)
    requires TreeOk(succ, root, arena) && i < |arena|
    ensures Linked(arena)
    ensures Walk(succ, PathStates(arena, i), PathWeights(arena, i), root, arena[i].state)
    ensures Total(PathWeights(arena, i)) == arena[i].g
    decreases i
  {
    TreeLinked(succ, root, arena);
    if i > 0 {
      assert Link(succ, arena, i);
      var p := arena[i].parent.value;
      TreeWalk(succ, root, arena, p);
      var up, ups := PathStates(arena, p), PathWeights(arena, p);
      var path, ws := PathStates(arena, i), PathWeights(arena, i);
      assert path == up + [arena[i].state] && ws == ups + [arena[i].g - arena[p].g];
      assert ws[..|ws| - 1] == ups;
      forall k | 0 <= k < |ws|
        ensures (path[k + 1], ws[k]) in succ(path[k])
      {
        if k < |ups| {
          assert path[k] == up[k] && path[k + 1] == up[k + 1] && ws[k] == ups[k];
        }
      }
    }
  }

  /** A set of states that holds the successors of its members holds the
      end of every walk that starts in it. */
  lemma {:induction false} ClosedWalk<S>(succ: S -> seq<(S, nat)>, c: set<S>, p: seq<S>, ws: seq<nat>, a: S, b: S)
    requires forall x, e :: x in c && e in succ(x) ==> e.0 in c
    requires Walk(succ, p, ws, a, b) && a in c
    ensures b in c
    decreases |p|
  {
    if |p| > 1 {
      var q, qs := p[..|p| - 1], ws[..|ws| - 1];
      forall k | 0 <= k < |qs|
        ensures (q[k + 1], qs[k]) in succ(q[k])
      {
        assert qs[k] == ws[k] && q[k] == p[k] && q[k + 1] == p[k + 1];
      }
      ClosedWalk(succ, c, q, qs, a, q[|q| - 1]);
      assert (p[|p| - 1], ws[|ws| - 1]) in succ(p[|p| - 2]);
    }
  }

  /** The state of a search: the tree so far, the open list (kept in order
      of priority) and the visited map from states to the arena index of
      their most recent node. */
  datatype Frontier<S(==)> = Frontier(arena: seq<TreeNode<S>>, queue: seq<Entry>, visited: map<S, nat>)

  /** Arena node `i` waits in the open list. */
  ghost predicate Queued(queue: seq<Entry>, i: nat)
  {
    exists e :: e in queue && e.node == i
  }

  ghost predicate FrontierOk<S>(succ: S -> seq<(S, nat)>, universe: seq<S>, start: S, s: Frontier<S>)
  {
    TreeOk(succ, start, s.arena)
    && (forall i :: 0 <= i < |s.arena| ==> s.arena[i].state in universe)
    && (forall j :: 0 <= j < |s.queue| ==> s.queue[j].node < |s.arena|)
    && (forall x :: x in s.visited ==> s.visited[x] < |s.arena| && s.arena[s.visited[x]].state == x)
    && start in s.visited
  }

  /** Every successor of `x` has been visited. */
  ghost predicate Done<S>(succ: S -> seq<(S, nat)>, visited: map<S, nat>, x: S)
  {
    forall e :: e in succ(x) ==> e.0 in visited
  }

  /** A visited state's node still waits in the open list; or the state is
      not the goal and its successors are visited, or some child was
      already set aside for exceeding the bound. */
  ghost predicate Settled<S>(succ: S -> seq<(S, nat)>, goal: S, s: Frontier<S>, over: seq<nat>, x: S)
    requires x in s.visited
  {
    Queued(s.queue, s.visited[x]) || (x != goal && (over != [] || Done(succ, s.visited, x)))
  }

  ghost predicate SearchInv<S>(succ: S -> seq<(S, nat)>, universe: seq<S>, start: S, goal: S, s: Frontier<S>, over: seq<nat>)
  {
    FrontierOk(succ, universe, start, s) && forall x :: x in s.visited ==> Settled(succ, goal, s, over, x)
  }

  /** The successors considered so far are visited, or a child was set
      aside for exceeding the bound. */
  ghost predicate Covered<S>(visited: map<S, nat>, over: seq<nat>, considered: seq<(S, nat)>)
  {
    over != [] || forall e :: e in considered ==> e.0 in visited
  }

  /** Part way through expanding node `cur`, a non-goal node taken off the
      open list: every visited state but its own is settled, and its own is
      settled or has the successors considered so far covered. */
  ghost predicate Partial<S>(succ: S -> seq<(S, nat)>, universe: seq<S>, start: S, goal: S, s: Frontier<S>, over: seq<nat>,
                             cur: nat, current: TreeNode<S>, considered: seq<(S, nat)>)
  {
    FrontierOk(succ, universe, start, s) && cur < |s.arena| && s.arena[cur] == current && current.state != goal
    && (forall x :: x in s.visited && x != current.state ==> Settled(succ, goal, s, over, x))
    && (current.state in s.visited ==> Settled(succ, goal, s, over, current.state) || Covered(s.visited, over, considered))
  }

  /** The number of states of the universe not visited yet. */
  ghost function Unvisited<S>(universe: seq<S>, visited: map<S, nat>): nat
  {
    |(set x | x in universe) - visited.Keys|
  }

  /** The path cost recorded for `x` in the visited map (0 when there is none). */
  ghost function RecordedG<S>(arena: seq<TreeNode<S>>, visited: map<S, nat>, x: S): nat
  {
    if x in visited && visited[x] < |arena| then arena[visited[x]].g else 0
  }

  /** The recorded path costs summed over a list of states. */
  ghost function Recorded<S>(xs: seq<S>, arena: seq<TreeNode<S>>, visited: map<S, nat>): nat
  {
    if xs == [] then 0 else Recorded(xs[..|xs| - 1], arena, visited) + RecordedG(arena, visited, xs[|xs| - 1])
  }

  /** Lowering the recorded cost of one state, and no other, lowers the sum
      over any list that holds it, and raises it over none. */
  lemma {:induction false} RecordedLower<S>(xs: seq<S>, a: seq<TreeNode<S>>, v: map<S, nat>, a': seq<TreeNode<S>>, v': map<S, nat>, x: S)
    requires forall y :: y != x ==> RecordedG(a', v', y) == RecordedG(a, v, y)
    requires RecordedG(a', v', x) < RecordedG(a, v, x)
    ensures Recorded(xs, a', v') <= Recorded(xs, a, v)
    ensures x in xs ==> Recorded(xs, a', v') < Recorded(xs, a, v)
    decreases |xs|
  {
    if xs != [] {
      var init := xs[..|xs| - 1];
      RecordedLower(init, a, v, a', v', x);
      assert xs == init + [xs[|xs| - 1]];
    }
  }

  /** The search moves on: nothing changed, one more state is visited, or
      as many are and the recorded costs went down. */
  ghost predicate Progress<S>(universe: seq<S>, a: Frontier<S>, b: Frontier<S>)
  {
    a == b
    || Unvisited(universe, a.visited) < Unvisited(universe, b.visited)
    || (Unvisited(universe, a.visited) == Unvisited(universe, b.visited)
        && Recorded(universe, a.arena, a.visited) < Recorded(universe, b.arena, b.visited))
  }

  lemma ProgressTrans<S>(universe: seq<S>, a: Frontier<S>, b: Frontier<S>, c: Frontier<S>)
    requires Progress(universe, a, b) && Progress(universe, b, c)
    ensures Progress(universe, a, c)
  {
  }

  /** No recorded cost went up, and nothing was forgotten. */
  ghost predicate NoHigher<S>(a: Frontier<S>, b: Frontier<S>)
  {
    forall x :: x in a.visited ==> x in b.visited && RecordedG(b.arena, b.visited, x) <= RecordedG(a.arena, a.visited, x)
  }

  /** `over'` extends `over` by priorities above the bound only. */
  ghost predicate OverBound(bound: Option<real>, over: seq<nat>, over': seq<nat>)
  {
    |over| <= |over'| && over'[..|over|] == over && (bound.None? ==> over' == over)
    && forall k :: |over| <= k < |over'| ==> bound.Some? && over'[k] as real > bound.value
  }

  lemma OverBoundTrans(bound: Option<real>, a: seq<nat>, b: seq<nat>, c: seq<nat>)
    requires OverBound(bound, a, b) && OverBound(bound, b, c)
    ensures OverBound(bound, a, c)
  {
    assert c[..|b|][..|a|] == c[..|a|];
  }

  /** Every priority set aside is at most `cap`. */
  ghost predicate AtMost(over: seq<nat>, cap: nat)
  {
    forall k :: 0 <= k < |over| ==> over[k] <= cap
  }

  /** The dearest of the step costs listed in `es`. */
  ghost function MaxWeight<S>(es: seq<(S, nat)>): (w: nat)
    ensures forall e :: e in es ==> e.1 <= w
    decreases |es|
  {
    if es == [] then 0
    else
      var rest := MaxWeight(es[1..]);
      assert forall e :: e in es ==> e == es[0] || e in es[1..];
      if es[0].1 < rest then rest else es[0].1
  }

  /** The dearest step out of a state of `xs`. */
  ghost function MaxStep<S>(succ: S -> seq<(S, nat)>, xs: seq<S>): (w: nat)
    ensures forall x, e :: x in xs && e in succ(x) ==> e.1 <= w
    decreases |xs|
  {
    if xs == [] then 0
    else
      var rest := MaxStep(succ, xs[..|xs| - 1]);
      var last := MaxWeight(succ(xs[|xs| - 1]));
      assert forall x :: x in xs ==> x in xs[..|xs| - 1] || x == xs[|xs| - 1];
      if rest < last then last else rest
  }

  /** No path cost of a child can exceed this: a path of the tree passes
      each state of the universe at most once, and each step costs at most
      `MaxStep`. */
  ghost function PathCap<S>(succ: S -> seq<(S, nat)>, universe: seq<S>): nat
  {
    |universe| * MaxStep(succ, universe)
  }

  /** `p` lists no state twice. */
  ghost predicate NoRepeats<S>(p: seq<S>)
  {
    forall i, j :: 0 <= i < j < |p| ==> p[i] != p[j]
  }

  lemma {:induction false} NoRepeatsCard<S>(p: seq<S>)
    requires NoRepeats(p)
    ensures |set x | x in p| == |p|
    decreases |p|
  {
    if p != [] {
      NoRepeatsCard(p[1..]);
      assert (set x | x in p) == (set x | x in p[1..]) + {p[0]};
      assert p[0] !in p[1..];
    }
  }

  lemma {:induction false} SeqSetBelow<S>(u: seq<S>)
    ensures |set x | x in u| <= |u|
    decreases |u|
  {
    if u != [] {
      SeqSetBelow(u[1..]);
      assert (set x | x in u) == (set x | x in u[1..]) + {u[0]};
    }
  }

  /** A list without repeats drawn from `u` is no longer than `u`. */
  lemma NoRepeatsWithin<S>(p: seq<S>, u: seq<S>)
    requires NoRepeats(p) && forall k :: 0 <= k < |p| ==> p[k] in u
    ensures |p| <= |u|
  {
    NoRepeatsCard(p);
    SeqSetBelow(u);
    var a, b := set x | x in p, set x | x in u;
    assert a <= b;
    assert |b| == |a| + |b - a|;
  }

  /** Step costs each at most `c` sum to at most `c` per step. */
  lemma {:induction false} TotalBelow(ws: seq<nat>, c: nat)
    requires forall k :: 0 <= k < |ws| ==> ws[k] <= c
    ensures Total(ws) <= |ws| * c
    decreases |ws|
  {
    if ws != [] {
      TotalBelow(ws[..|ws| - 1], c);
      assert |ws| * c == (|ws| - 1) * c + c;
    }
  }

  /** Every node's state is visited, at a recorded path cost no higher than
      the node's, and no path of the tree passes a state twice: a child at
      the state of one of its ancestors is never cheaper than what is
      recorded there, so it is never pushed. */
  ghost predicate SimplePaths<S>(arena: seq<TreeNode<S>>, visited: map<S, nat>)
  {
    Linked(arena) && forall i :: 0 <= i < |arena| ==> SimpleAt(arena, visited, i)
  }

  ghost predicate SimpleAt<S>(arena: seq<TreeNode<S>>, visited: map<S, nat>, i: nat)
    requires Linked(arena) && i < |arena|
  {
    arena[i].state in visited && RecordedG(arena, visited, arena[i].state) <= arena[i].g
    && NoRepeats(PathStates(arena, i))
  }

  /** Every state on the path of node `i` is visited at a recorded cost no
      higher than the path cost of `i`. */
  lemma {:induction false} PathRecorded<S>(succ: S -> seq<(S, nat)>, start: S, arena: seq<TreeNode<S>>, visited: map<S, nat>, i: nat)
    requires TreeOk(succ, start, arena) && SimplePaths(arena, visited) && i < |arena|
    ensures forall k :: 0 <= k < |PathStates(arena, i)| ==>
              PathStates(arena, i)[k] in visited && RecordedG(arena, visited, PathStates(arena, i)[k]) <= arena[i].g
    decreases i
  {
    assert SimpleAt(arena, visited, i);
    if arena[i].parent.Some? {
      var p := arena[i].parent.value;
      assert i != 0 && Link(succ, arena, i);
      PathRecorded(succ, start, arena, visited, p);
      var up := PathStates(arena, p);
      assert PathStates(arena, i) == up + [arena[i].state];
      forall k | 0 <= k < |PathStates(arena, i)|
        ensures PathStates(arena, i)[k] in visited && RecordedG(arena, visited, PathStates(arena, i)[k]) <= arena[i].g
      {
        if k < |up| {
          assert PathStates(arena, i)[k] == up[k];
        }
      }
    }
  }

  /** The path cost of every node leaves room for one more step within
      `PathCap`. */
  lemma PathCostBelow<S>(succ: S -> seq<(S, nat)>, universe: seq<S>, start: S, arena: seq<TreeNode<S>>, visited: map<S, nat>, i: nat)
    requires TreeOk(succ, start, arena) && SimplePaths(arena, visited) && i < |arena|
    requires forall x :: x in visited ==> visited[x] < |arena| && arena[visited[x]].state == x
    requires forall j :: 0 <= j < |arena| ==> arena[j].state in universe
    ensures arena[i].g + MaxStep(succ, universe) <= PathCap(succ, universe)
  {
    TreeWalk(succ, start, arena, i);
    PathRecorded(succ, start, arena, visited, i);
    var p, ws := PathStates(arena, i), PathWeights(arena, i);
    var w := MaxStep(succ, universe);
    assert SimpleAt(arena, visited, i);
    forall k | 0 <= k < |p|
      ensures p[k] in universe
    {
      assert arena[visited[p[k]]].state == p[k];
    }
    NoRepeatsWithin(p, universe);
    forall k | 0 <= k < |ws|
      ensures ws[k] <= w
    {
      assert (p[k + 1], ws[k]) in succ(p[k]);
    }
    TotalBelow(ws, w);
    CapArithmetic(|ws|, |universe|, w);
  }

  lemma CapArithmetic(n: nat, u: nat, w: nat)
    requires n + 1 <= u
    ensures n * w + w <= u * w
  {
    assert n * w + w == (n + 1) * w;
  }

  /** A child pushed at a path cost below the one recorded for its state
      (or at a state not visited yet) keeps the paths simple. */
  lemma PushSimple<S>(succ: S -> seq<(S, nat)>, start: S, arena: seq<TreeNode<S>>, visited: map<S, nat>, cur: nat, x: S, g: nat)
    requires TreeOk(succ, start, arena) && SimplePaths(arena, visited) && cur < |arena|
    requires forall y :: y in visited ==> visited[y] < |arena| && arena[visited[y]].state == y
    requires arena[cur].g <= g && (x, g - arena[cur].g) in succ(arena[cur].state)
    requires x !in visited || g < arena[visited[x]].g
    ensures SimplePaths(arena + [TreeNode(Some(cur), x, 0, g)], visited[x := |arena|])
  {
    var c := TreeNode(Some(cur), x, 0, g);
    var a', v' := arena + [c], visited[x := |arena|];
    PushTree(succ, start, arena, cur, c);
    TreeLinked(succ, start, a');
    TreeLinked(succ, start, arena);
    forall i | 0 <= i < |a'|
      ensures SimpleAt(a', v', i)
    {
      if i < |arena| {
        assert SimpleAt(arena, visited, i);
        PathStatesStable(arena, c, i);
        assert a'[i] == arena[i];
        var y := arena[i].state;
        if y != x {
          assert a'[visited[y]] == arena[visited[y]];
        }
      } else {
        PathStatesStable(arena, c, cur);
        PathRecorded(succ, start, arena, visited, cur);
        assert SimpleAt(arena, visited, cur);
        var up := PathStates(arena, cur);
        assert PathStates(a', i) == up + [x];
        forall k | 0 <= k < |up|
          ensures up[k] != x
        {
          assert RecordedG(arena, visited, up[k]) <= arena[cur].g;
        }
      }
    }
  }

  /** The root alone has a simple path. */
  lemma InitialSimple<S>(start: S)
    ensures SimplePaths([TreeNode(None, start, 0, 0)], map[start := 0])
  {
    var arena := [TreeNode(None, start, 0, 0)];
    assert PathStates(arena, 0) == [start];
    assert SimpleAt(arena, map[start := 0], 0);
  }

  /** With a bound, no child can get a priority above `cap`: whatever its
      state and whatever path cost within `PathCap`. */
  ghost predicate Capped<S>(succ: S -> seq<(S, nat)>, priority: (nat, S) --> nat, universe: seq<S>, bound: Option<real>, cap: nat)
    requires forall g: nat, x :: x in universe ==> priority.requires(g, x)
  {
    bound.Some? ==> forall g: nat, x :: x in universe && g <= PathCap(succ, universe) ==> priority(g, x) <= cap
  }

  /** Create the node of `x` as a child of node `cur` with path cost `g`
      and priority `f`, record it as `x`'s node, and `insert_ordered` it. */
  method Push<S(==)>(s: Frontier<S>, cur: nat, x: S, g: nat, f: nat) returns (s': Frontier<S>)
    ensures var e := Entry(Fin(f), |s.arena|);
            s' == Frontier(s.arena + [TreeNode(Some(cur), x, 0, g)],
                           s.queue[..InsertPosition(s.queue, e)] + [e] + s.queue[InsertPosition(s.queue, e)..],
                           s.visited[x := |s.arena|])
  {
    var q := InsertOrdered(s.queue, Entry(Fin(f), |s.arena|));
    s' := Frontier(s.arena + [TreeNode(Some(cur), x, 0, g)], q, s.visited[x := |s.arena|]);
  }

  /** A pushed child keeps the search state well formed, keeps every entry
      of the open list, and waits in it itself. */
  lemma PushOk<S>(succ: S -> seq<(S, nat)>, universe: seq<S>, start: S, s: Frontier<S>, cur: nat, x: S, g: nat, f: nat)
    requires FrontierOk(succ, universe, start, s) && cur < |s.arena|
    requires s.arena[cur].g <= g && (x, g - s.arena[cur].g) in succ(s.arena[cur].state) && x in universe
    ensures var e := Entry(Fin(f), |s.arena|);
            var q' := s.queue[..InsertPosition(s.queue, e)] + [e] + s.queue[InsertPosition(s.queue, e)..];
            var s' := Frontier(s.arena + [TreeNode(Some(cur), x, 0, g)], q', s.visited[x := |s.arena|]);
            FrontierOk(succ, universe, start, s') && Queued(q', |s.arena|) && (forall e' :: e' in s.queue ==> e' in q')
  {
    var e := Entry(Fin(f), |s.arena|);
    var c := TreeNode(Some(cur), x, 0, g);
    PushQueue(s.queue, e, |s.arena|);
    PushTree(succ, start, s.arena, cur, c);
    PushStates(universe, s.arena, c);
    PushVisited(s.arena, s.visited, c);
  }

  lemma PushQueue(queue: seq<Entry>, e: Entry, n: nat)
    requires e.node == n && forall j :: 0 <= j < |queue| ==> queue[j].node < n
    ensures var q' := queue[..InsertPosition(queue, e)] + [e] + queue[InsertPosition(queue, e)..];
            (forall j :: 0 <= j < |q'| ==> q'[j].node < n + 1)
            && Queued(q', n) && (forall e' :: e' in queue ==> e' in q')
  {
    var q' := queue[..InsertPosition(queue, e)] + [e] + queue[InsertPosition(queue, e)..];
    InsertOrderedContents(queue, e);
    assert e in q';
    forall e' | e' in queue
      ensures e' in q'
    {
      assert e' in multiset(queue);
    }
    forall j | 0 <= j < |q'|
      ensures q'[j].node < n + 1
    {
      assert q'[j] in multiset(q');
      if q'[j] != e {
        assert q'[j] in multiset(queue);
        var k :| 0 <= k < |queue| && queue[k] == q'[j];
      }
    }
  }

  lemma PushTree<S>(succ: S -> seq<(S, nat)>, start: S, arena: seq<TreeNode<S>>, cur: nat, c: TreeNode<S>)
    requires TreeOk(succ, start, arena) && cur < |arena| && c.parent == Some(cur)
    requires arena[cur].g <= c.g && (c.state, c.g - arena[cur].g) in succ(arena[cur].state)
    ensures TreeOk(succ, start, arena + [c])
  {
    var a' := arena + [c];
    forall i: nat | 1 <= i < |a'|
      ensures Link(succ, a', i)
    {
      if i < |arena| {
        assert Link(succ, arena, i);
        assert a'[i] == arena[i] && a'[arena[i].parent.value] == arena[arena[i].parent.value];
      }
    }
  }

  lemma PushStates<S>(universe: seq<S>, arena: seq<TreeNode<S>>, c: TreeNode<S>)
    requires (forall i :: 0 <= i < |arena| ==> arena[i].state in universe) && c.state in universe
    ensures forall i :: 0 <= i < |arena + [c]| ==> (arena + [c])[i].state in universe
  {
    forall i | 0 <= i < |arena + [c]|
      ensures (arena + [c])[i].state in universe
    {
      if i < |arena| {
        assert (arena + [c])[i] == arena[i];
      }
    }
  }

  lemma PushVisited<S>(arena: seq<TreeNode<S>>, visited: map<S, nat>, c: TreeNode<S>)
    requires forall x :: x in visited ==> visited[x] < |arena| && arena[visited[x]].state == x
    ensures var a', v' := arena + [c], visited[c.state := |arena|];
            forall x :: x in v' ==> v'[x] < |a'| && a'[v'[x]].state == x
  {
    var a', v' := arena + [c], visited[c.state := |arena|];
    forall y | y in v'
      ensures v'[y] < |a'| && a'[v'[y]].state == y
    {
      if y != c.state {
        assert a'[visited[y]] == arena[visited[y]];
      }
    }
  }

  /** Settledness survives a step that keeps a state's node, keeps every
      entry of the open list and forgets no visited state. */
  lemma SettledKept<S>(succ: S -> seq<(S, nat)>, goal: S, s: Frontier<S>, over: seq<nat>, s': Frontier<S>, over': seq<nat>, y: S)
    requires y in s.visited && y in s'.visited && s'.visited[y] == s.visited[y]
    requires (forall e :: e in s.queue ==> e in s'.queue) && s.visited.Keys <= s'.visited.Keys
    requires over == [] || over' != []
    requires Settled(succ, goal, s, over, y)
    ensures Settled(succ, goal, s', over', y)
  {
    if Queued(s.queue, s.visited[y]) {
      var e :| e in s.queue && e.node == s.visited[y];
      assert e in s'.queue;
    }
  }

  /** Pushing moves the search on: a new state lowers the unvisited count,
      a cheaper way to a visited one lowers the recorded costs. */
  lemma PushProgress<S>(universe: seq<S>, s: Frontier<S>, s': Frontier<S>, cur: nat, x: S, g: nat)
    requires forall y :: y in s.visited ==> s.visited[y] < |s.arena|
    requires s'.arena == s.arena + [TreeNode(Some(cur), x, 0, g)] && s'.visited == s.visited[x := |s.arena|]
    requires x in universe && (x !in s.visited || g < s.arena[s.visited[x]].g)
    ensures Progress(universe, s', s) && NoHigher(s, s')
  {
    forall y | y != x
      ensures RecordedG(s'.arena, s'.visited, y) == RecordedG(s.arena, s.visited, y)
    {
      if y in s.visited {
        assert s'.arena[s.visited[y]] == s.arena[s.visited[y]];
      }
    }
    if x in s.visited {
      assert s'.visited.Keys == s.visited.Keys;
      RecordedLower(universe, s.arena, s.visited, s'.arena, s'.visited, x);
    } else {
      var u := set y | y in universe;
      assert u - s'.visited.Keys == (u - s.visited.Keys) - {x};
    }
  }

  lemma NoHigherTrans<S>(a: Frontier<S>, b: Frontier<S>, c: Frontier<S>)
    requires NoHigher(a, b) && NoHigher(b, c)
    ensures NoHigher(a, c)
  {
  }

  /** One successor `child` of node `cur`: its path cost `v2` is the
      parent's plus the step cost, its priority `v1` comes from those; with a
      bound, a priority above it is set aside in `over`; otherwise a child
      whose state is not visited, or is reached more cheaply than recorded,
      gets a node that becomes its state's visited node and joins the open
      list in order. */
  method Consider<S(==)>(succ: S -> seq<(S, nat)>, priority: (nat, S) --> nat, ghost universe: seq<S>, start: S, goal: S,
                     bound: Option<real>, ghost cap: nat, s: Frontier<S>, over: seq<nat>, cur: nat,
                     ghost current: TreeNode<S>, ghost considered: seq<(S, nat)>, child: (S, nat))
    returns (s': Frontier<S>, over': seq<nat>)
    requires Closed(succ, universe) && (forall g: nat, x :: x in universe ==> priority.requires(g, x))
    requires Capped(succ, priority, universe, bound, cap)
    requires Partial(succ, universe, start, goal, s, over, cur, current, considered)
    requires SimplePaths(s.arena, s.visited) && AtMost(over, cap)
    requires child in succ(current.state)
    ensures Partial(succ, universe, start, goal, s', over', cur, current, considered + [child])
    ensures Progress(universe, s', s) && NoHigher(s, s') && OverBound(bound, over, over')
    ensures SimplePaths(s'.arena, s'.visited) && AtMost(over', cap)
  {
    s', over' := s, over;
    var node := s.arena[cur];
    var g := node.g + child.1;
    assert child.0 in universe;
    var f := priority(g, child.0);
    if bound.Some? && !(f as real <= bound.value) {
      over' := over + [f];
      PathCostBelow(succ, universe, start, s.arena, s.visited, cur);
      assert f <= cap;
      SetAside(succ, universe, start, goal, s, over, cur, current, considered, child, f);
      Unmoved(universe, bound, s, over);
      assert OverBound(bound, over, over') by {
        assert over'[..|over|] == over;
      }
    } else if child.0 !in s.visited || g < s.arena[s.visited[child.0]].g {
      PushPartial(succ, universe, start, goal, s, over, cur, current, considered, child, g, f);
      PushSimple(succ, start, s.arena, s.visited, cur, child.0, g);
      s' := Push(s, cur, child.0, g, f);
      PushProgress(universe, s, s', cur, child.0, g);
      Unmoved(universe, bound, s, over);
    } else {
      Skip(succ, universe, start, goal, s, over, cur, current, considered, child);
      Unmoved(universe, bound, s, over);
    }
  }

  /** Leaving the frontier and the set-aside priorities alone is allowed progress. */
  lemma Unmoved<S>(universe: seq<S>, bound: Option<real>, s: Frontier<S>, over: seq<nat>)
    ensures Progress(universe, s, s) && NoHigher(s, s) && OverBound(bound, over, over)
  {
    assert over[..|over|] == over;
  }

  /** A child set aside for exceeding the bound covers the node's own state. */
  lemma SetAside<S>(succ: S -> seq<(S, nat)>, universe: seq<S>, start: S, goal: S, s: Frontier<S>, over: seq<nat>,
                    cur: nat, current: TreeNode<S>, considered: seq<(S, nat)>, child: (S, nat), f: nat)
    requires Partial(succ, universe, start, goal, s, over, cur, current, considered)
    ensures Partial(succ, universe, start, goal, s, over + [f], cur, current, considered + [child])
  {
    forall y | y in s.visited && Settled(succ, goal, s, over, y)
      ensures Settled(succ, goal, s, over + [f], y)
    {
      SettledKept(succ, goal, s, over, s, over + [f], y);
    }
  }

  /** A child whose state is visited already covers it. */
  lemma Skip<S>(succ: S -> seq<(S, nat)>, universe: seq<S>, start: S, goal: S, s: Frontier<S>, over: seq<nat>,
                cur: nat, current: TreeNode<S>, considered: seq<(S, nat)>, child: (S, nat))
    requires Partial(succ, universe, start, goal, s, over, cur, current, considered) && child.0 in s.visited
    ensures Partial(succ, universe, start, goal, s, over, cur, current, considered + [child])
  {
  }

  /** Pushing a child keeps the expansion part way through, with the child
      considered. */
  lemma PushPartial<S>(succ: S -> seq<(S, nat)>, universe: seq<S>, start: S, goal: S, s: Frontier<S>, over: seq<nat>,
                       cur: nat, current: TreeNode<S>, considered: seq<(S, nat)>, child: (S, nat), g: nat, f: nat)
    requires Closed(succ, universe)
    requires Partial(succ, universe, start, goal, s, over, cur, current, considered)
    requires child in succ(current.state) && g == current.g + child.1
    ensures var e := Entry(Fin(f), |s.arena|);
            var q' := s.queue[..InsertPosition(s.queue, e)] + [e] + s.queue[InsertPosition(s.queue, e)..];
            var s' := Frontier(s.arena + [TreeNode(Some(cur), child.0, 0, g)], q', s.visited[child.0 := |s.arena|]);
            Partial(succ, universe, start, goal, s', over, cur, current, considered + [child])
  {
    var e := Entry(Fin(f), |s.arena|);
    var q' := s.queue[..InsertPosition(s.queue, e)] + [e] + s.queue[InsertPosition(s.queue, e)..];
    var s' := Frontier(s.arena + [TreeNode(Some(cur), child.0, 0, g)], q', s.visited[child.0 := |s.arena|]);
    assert child.0 in universe;
    PushOk(succ, universe, start, s, cur, child.0, g, f);
    assert s'.arena[cur] == current;
    forall y | y in s.visited && y != child.0 && Settled(succ, goal, s, over, y)
      ensures Settled(succ, goal, s', over, y)
    {
      SettledKept(succ, goal, s, over, s', over, y);
    }
    assert Queued(s'.queue, s'.visited[child.0]);
  }

  /** A node whose successors have all been considered is settled. */
  lemma Finished<S>(succ: S -> seq<(S, nat)>, universe: seq<S>, start: S, goal: S, s: Frontier<S>, over: seq<nat>,
                    cur: nat, current: TreeNode<S>)
    requires Partial(succ, universe, start, goal, s, over, cur, current, succ(current.state))
    ensures SearchInv(succ, universe, start, goal, s, over)
  {
  }

  /** Expand node `cur`, already taken off the open list: consider each of
      its successors in order. */
  method Expand<S(==)>(succ: S -> seq<(S, nat)>, priority: (nat, S) --> nat, ghost universe: seq<S>, start: S, goal: S,
                   bound: Option<real>, ghost cap: nat, s: Frontier<S>, over: seq<nat>, cur: nat)
    returns (s': Frontier<S>, over': seq<nat>)
    requires Closed(succ, universe) && (forall g: nat, x :: x in universe ==> priority.requires(g, x))
    requires Capped(succ, priority, universe, bound, cap)
    requires cur < |s.arena| && Partial(succ, universe, start, goal, s, over, cur, s.arena[cur], [])
    requires SimplePaths(s.arena, s.visited) && AtMost(over, cap)
    ensures SearchInv(succ, universe, start, goal, s', over')
    ensures Progress(universe, s', s) && NoHigher(s, s') && OverBound(bound, over, over')
    ensures SimplePaths(s'.arena, s'.visited) && AtMost(over', cap)
  {
    var current := s.arena[cur];
    var children := succ(current.state);
    s', over' := s, over;
    for k := 0 to |children|
      invariant Partial(succ, universe, start, goal, s', over', cur, current, children[..k])
      invariant Progress(universe, s', s) && NoHigher(s, s') && OverBound(bound, over, over')
      invariant SimplePaths(s'.arena, s'.visited) && AtMost(over', cap)
    {
      ghost var s0, over0 := s', over';
      s', over' := Consider(succ, priority, universe, start, goal, bound, cap, s', over', cur, current, children[..k], children[k]);
      ProgressTrans(universe, s', s0, s);
      NoHigherTrans(s, s0, s');
      OverBoundTrans(bound, over, over0, over');
      TakeNext(children, k);
    }
    TakeAll(children);
    Finished(succ, universe, start, goal, s', over', cur, current);
  }

  /** Taking the first entry off the open list when its node is not the
      goal's leaves every other state settled. */
  lemma PopKeeps<S>(succ: S -> seq<(S, nat)>, universe: seq<S>, start: S, goal: S, s: Frontier<S>, over: seq<nat>)
    requires SearchInv(succ, universe, start, goal, s, over) && s.queue != []
    requires s.arena[s.queue[0].node].state != goal
    ensures Partial(succ, universe, start, goal, s.(queue := s.queue[1..]), over, s.queue[0].node, s.arena[s.queue[0].node], [])
  {
    var cur := s.queue[0].node;
    var popped := s.(queue := s.queue[1..]);
    forall j | 0 <= j < |popped.queue|
      ensures popped.queue[j].node < |popped.arena|
    {
      assert popped.queue[j] == s.queue[j + 1];
    }
    forall x | x in s.visited && x != s.arena[cur].state
      ensures Settled(succ, goal, popped, over, x)
    {
      assert Settled(succ, goal, s, over, x);
      if Queued(s.queue, s.visited[x]) {
        var e :| e in s.queue && e.node == s.visited[x];
        var k :| 0 <= k < |s.queue| && s.queue[k] == e;
        assert k > 0 && popped.queue[k - 1] == e;
      }
    }
  }

  /** An empty open list with nothing set aside: the visited states hold the
      start and every successor of each of them, but not the goal, so no
      walk leads from start to goal. */
  lemma Exhausted<S>(succ: S -> seq<(S, nat)>, universe: seq<S>, start: S, goal: S, s: Frontier<S>)
    requires SearchInv(succ, universe, start, goal, s, []) && s.queue == []
    ensures forall p, ws :: !Walk(succ, p, ws, start, goal)
  {
    var v := s.visited.Keys;
    forall x, e | x in v && e in succ(x)
      ensures e.0 in v
    {
      assert Settled(succ, goal, s, [], x);
    }
    forall p, ws | Walk(succ, p, ws, start, goal)
      ensures false
    {
      ClosedWalk(succ, v, p, ws, start, goal);
    }
  }

  /** The search state before the loop: the root alone, waiting and visited. */
  lemma Initial<S>(succ: S -> seq<(S, nat)>, universe: seq<S>, start: S, goal: S)
    requires start in universe
    ensures SearchInv(succ, universe, start, goal, Frontier([TreeNode(None, start, 0, 0)], [Entry(Fin(0), 0)], map[start := 0]), [])
  {
    assert Queued([Entry(Fin(0), 0)], 0);
  }

  /** `display_path` on a node of the tree: a walk from the root to the
      node's state whose cost is the node's path cost. */
  method DisplayPath<S>(succ: S -> seq<(S, nat)>, start: S, arena: seq<TreeNode<S>>, i: nat)
    returns (path: seq<S>, ghost ws: seq<nat>)
    requires TreeOk(succ, start, arena) && i < |arena|
    ensures Walk(succ, path, ws, start, arena[i].state) && Total(ws) == arena[i].g
  {
    TreeWalk(succ, start, arena, i);
    path := ShowPath(arena, i);
    ws := PathWeights(arena, i);
  }

  /** The search loop after the start-is-goal test: pop the first entry; a
      goal node answers with its path (`display_path`) and path cost `v2`;
      any other node is expanded. Without a bound, an empty open list means
      no walk reaches the goal; with one, the priorities set aside are all
      above it, and when none was set aside an empty open list means the
      same. */
  /** Popping the first entry, which is not the goal, and expanding it
      keeps the invariant and moves the search on. */
  method Step<S(==)>(succ: S -> seq<(S, nat)>, priority: (nat, S) --> nat, ghost universe: seq<S>, start: S, goal: S,
                     bound: Option<real>, ghost cap: nat, s: Frontier<S>, over: seq<nat>)
    returns (s': Frontier<S>, over': seq<nat>)
    requires Closed(succ, universe) && (forall g: nat, x :: x in universe ==> priority.requires(g, x))
    requires Capped(succ, priority, universe, bound, cap)
    requires SearchInv(succ, universe, start, goal, s, over) && s.queue != []
    requires s.arena[s.queue[0].node].state != goal
    requires SimplePaths(s.arena, s.visited) && AtMost(over, cap)
    ensures SearchInv(succ, universe, start, goal, s', over') && OverBound(bound, over, over')
    ensures SimplePaths(s'.arena, s'.visited) && AtMost(over', cap)
    ensures Unvisited(universe, s'.visited) < Unvisited(universe, s.visited)
            || (Unvisited(universe, s'.visited) == Unvisited(universe, s.visited)
                && Recorded(universe, s'.arena, s'.visited) < Recorded(universe, s.arena, s.visited))
            || (Unvisited(universe, s'.visited) == Unvisited(universe, s.visited)
                && Recorded(universe, s'.arena, s'.visited) == Recorded(universe, s.arena, s.visited)
                && |s'.queue| < |s.queue|)
  {
    var cur := s.queue[0].node;
    PopKeeps(succ, universe, start, goal, s, over);
    var popped := s.(queue := s.queue[1..]);
    s', over' := Expand(succ, priority, universe, start, goal, bound, cap, popped, over, cur);
  }

  method BestFirst<S(==)>(succ: S -> seq<(S, nat)>, priority: (nat, S) --> nat, ghost universe: seq<S>, start: S, goal: S,
                      bound: Option<real>, ghost cap: nat)
    returns (r: Option<(seq<S>, nat)>, ghost weights: seq<nat>, over: seq<nat>)
    requires Closed(succ, universe) && (forall g: nat, x :: x in universe ==> priority.requires(g, x))
    requires Capped(succ, priority, universe, bound, cap)
    requires start != goal && start in universe
    ensures r.Some? ==> Walk(succ, r.value.0, weights, start, goal) && Total(weights) == r.value.1
    ensures bound.None? ==> over == []
    ensures forall k :: 0 <= k < |over| ==> bound.Some? && over[k] as real > bound.value
    ensures r.None? && over == [] ==> forall p, ws :: !Walk(succ, p, ws, start, goal)
    ensures forall k :: 0 <= k < |over| ==> over[k] <= cap
  {
    var s := Frontier([TreeNode(None, start, 0, 0)], [Entry(Fin(0), 0)], map[start := 0]);
    over, weights := [], [];
    Initial(succ, universe, start, goal);
    InitialSimple(start);
    while s.queue != []
      invariant SearchInv(succ, universe, start, goal, s, over) && OverBound(bound, [], over)
      invariant SimplePaths(s.arena, s.visited) && AtMost(over, cap)
      decreases Unvisited(universe, s.visited), Recorded(universe, s.arena, s.visited), |s.queue|
    {
      var cur := s.queue[0].node;
      if s.arena[cur].state == goal {
        var path;
        path, weights := DisplayPath(succ, start, s.arena, cur);
        return Some((path, s.arena[cur].g)), weights, over;
      }
      ghost var over0 := over;
      s, over := Step(succ, priority, universe, start, goal, bound, cap, s, over);
      OverBoundTrans(bound, [], over0, over);
    }
    r := None;
    if over == [] {
      Exhausted(succ, universe, start, goal, s);
    }
  }

  /** What the drivers return: `[start]` when start is the goal, the path
      and its cost `v2` when the goal is popped, and None when the open list
      runs out. */
  datatype SearchResult<S> = StartIsGoal(path: seq<S>) | Found(path: seq<S>, cost: nat) | NoPath

  /** What a driver answers when it finds something: `[start]` exactly
      when start is the goal, else a walk from start to goal costing what is
      returned. */
  ghost predicate Answers<S>(succ: S -> seq<(S, nat)>, start: S, goal: S, r: SearchResult<S>, weights: seq<nat>)
  {
    (start == goal <==> r.StartIsGoal?)
    && (r.StartIsGoal? ==> r.path == [start])
    && (r.Found? ==> Walk(succ, r.path, weights, start, goal) && Total(weights) == r.cost)
  }

  /** The start-is-goal test followed by the search loop, for the drivers
      without a bound: nothing is found exactly when no walk exists. */
  method Drive<S(==)>(succ: S -> seq<(S, nat)>, priority: (nat, S) --> nat, ghost universe: seq<S>, start: S, goal: S)
    returns (r: SearchResult<S>, ghost weights: seq<nat>)
    requires start != goal ==> Closed(succ, universe) && (forall g: nat, x :: x in universe ==> priority.requires(g, x)) && start in universe
    ensures Answers(succ, start, goal, r, weights)
    ensures r.NoPath? <==> start != goal && forall p, ws :: !Walk(succ, p, ws, start, goal)
  {
    weights := [];
    if start == goal {
      return StartIsGoal([start]), weights;
    }
    var found, over;
    found, weights, over := BestFirst(succ, priority, universe, start, goal, None, 0);
    if found.Some? {
      r := Found(found.value.0, found.value.1);
    } else {
      r := NoPath;
    }
  }
}
