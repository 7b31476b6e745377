/** The search state of backend/service/implementation/TaskSchedulingNode.py.
    The remaining-task bitmask is modelled as the set of its one-bits: bit `i`
    stands for `task_list[i]`. A node's parent is the index of the parent node
    in the arena of nodes a search has created (`None` for the root). */
module SchedulingNodes {
  import opened Wrappers
  import opened Costs

  /** The identity of a node: (remaining bitmask, last task scheduled). */
  type StateKey = (set<nat>, int)

  /** `v1` is the priority the frontier orders by, `g` is `v2` (the cost so far),
      `h` is `h_cost`; `depth` is set by the depth-first drivers. */
  datatype Node = Node(remaining: set<nat>, last: int, g: Cost, h: Cost, v1: Cost,
                       parent: Option<nat>, depth: nat)

  function Key(n: Node): StateKey
  {
    (n.remaining, n.last)
  }

  /** `TaskSchedulingNode(remaining_bitmask, last_task, g_cost, h_cost, parent)`. */
  function NewNode(remaining: set<nat>, last: int, g: Cost, h: Cost, parent: Option<nat>): (n: Node)
    ensures Key(n) == (remaining, last) && n.g == g && n.h == h && n.parent == parent
    ensures n.v1 == Add(g, h) && n.depth == 0
  {
    Node(remaining, last, g, h, Add(g, h), parent, 0)
  }

  /** `is_goal_state`: the bitmask is zero, i.e. no bit is set. */
  predicate IsGoalState(n: Node)
  {
    n.remaining == {}
  }

  /** The set bits below `n`, in increasing order. */
  function SetBits(bits: set<nat>, n: nat): (r: seq<nat>)
    decreases n
  {
    if n == 0 then [] else SetBits(bits, n - 1) + (if n - 1 in bits then [n - 1] else [])
  }

  lemma {:induction false} SetBitsSpec(bits: set<nat>, n: nat)
    ensures forall k :: 0 <= k < |SetBits(bits, n)| ==> SetBits(bits, n)[k] in bits && SetBits(bits, n)[k] < n
    ensures forall i :: i in bits && i < n ==> i in SetBits(bits, n)
    ensures forall k, l :: 0 <= k < l < |SetBits(bits, n)| ==> SetBits(bits, n)[k] < SetBits(bits, n)[l]
    decreases n
  {
    if n > 0 {
      SetBitsSpec(bits, n - 1);
    }
  }

  /** The list elements whose bit is set, in list order: what both
      `get_remaining_tasks` and `_bitmask_to_tasks` compute. */
  function Selected(bits: set<nat>, list: seq<int>): seq<int>
    decreases |list|
  {
    if list == [] then []
    else
      var n := |list| - 1;
      Selected(bits, list[..n]) + (if n in bits then [list[n]] else [])
  }

  /** `Selected` picks exactly `list[i]` for each set bit `i < |list|`, by increasing `i`. */
  lemma {:induction false} SelectedByIndex(bits: set<nat>, list: seq<int>)
    ensures |Selected(bits, list)| == |SetBits(bits, |list|)|
    ensures forall k :: 0 <= k < |Selected(bits, list)| ==>
              k < |SetBits(bits, |list|)| && SetBits(bits, |list|)[k] < |list|
              && Selected(bits, list)[k] == list[SetBits(bits, |list|)[k]]
    decreases |list|
  {
    SetBitsSpec(bits, |list|);
    if list != [] {
      var n := |list| - 1;
      SelectedByIndex(bits, list[..n]);
      SetBitsSpec(bits, n);
    }
  }

  /** A task is selected iff some set bit below the list length points at it. */
  lemma {:induction false} SelectedMembership(bits: set<nat>, list: seq<int>, x: int)
    ensures x in Selected(bits, list) <==> exists i :: 0 <= i < |list| && i in bits && list[i] == x
    decreases |list|
  {
    if list != [] {
      var n := |list| - 1;
      SelectedMembership(bits, list[..n], x);
      if x in Selected(bits, list[..n]) {
        var i :| 0 <= i < n && i in bits && list[..n][i] == x;
        assert list[i] == x;
      }
    }
  }

  /** The set bits below `n`: the part of a bitmask a task list of length `n` sees. */
  function Below(bits: set<nat>, n: nat): set<nat>
  {
    set i | i in bits && i < n
  }

  /** Bits at or beyond the list length are ignored. */
  lemma SelectedIgnoresHighBits(bits: set<nat>, list: seq<int>)
    ensures Selected(bits, list) == Selected(Below(bits, |list|), list)
  {
    SelectedSame(bits, Below(bits, |list|), list);
  }

  /** With every bit below the length set, all of the list is selected. */
  lemma {:induction false} SelectedAll(bits: set<nat>, list: seq<int>)
    requires forall i :: 0 <= i < |list| ==> i in bits
    ensures Selected(bits, list) == list
    decreases |list|
  {
    if list != [] {
      var n := |list| - 1;
      SelectedAll(bits, list[..n]);
      assert list[..n] + [list[n]] == list;
    }
  }

  /** With no bit below the length set, nothing is selected. */
  lemma {:induction false} SelectedNone(bits: set<nat>, list: seq<int>)
    requires forall i :: i in bits ==> i >= |list|
    ensures Selected(bits, list) == []
    decreases |list|
  {
    if list != [] {
      SelectedNone(bits, list[..|list| - 1]);
    }
  }

  /** A set bit below the list length selects at least one task. */
  lemma SelectedNonEmpty(bits: set<nat>, list: seq<int>, i: nat)
    requires i in bits && i < |list|
    ensures |Selected(bits, list)| > 0
  {
    SelectedMembership(bits, list, list[i]);
  }

  /** Clearing set bit `i` takes exactly one copy of `list[i]` out of the selection. */
  lemma {:induction false} SelectedRemove(bits: set<nat>, list: seq<int>, i: nat)
    requires i in bits && i < |list|
    ensures multiset(Selected(bits, list)) == multiset(Selected(bits - {i}, list)) + multiset{list[i]}
    decreases |list|
  {
    var n := |list| - 1;
    var init := list[..n];
    var tail := if n in bits then [list[n]] else [];
    assert Selected(bits, list) == Selected(bits, init) + tail;
    if i < n {
      SelectedRemove(bits, init, i);
      assert (n in bits - {i}) == (n in bits);
      assert Selected(bits - {i}, list) == Selected(bits - {i}, init) + tail;
      assert init[i] == list[i];
      assert multiset(Selected(bits, list)) == multiset(Selected(bits, init)) + multiset(tail);
    } else {
      SelectedSame(bits, bits - {i}, init);
      assert Selected(bits - {i}, list) == Selected(bits - {i}, init);
      assert tail == [list[i]];
    }
  }

  /** Bit sets that agree below the list length select the same tasks. */
  lemma {:induction false} SelectedSame(bits1: set<nat>, bits2: set<nat>, list: seq<int>)
    requires forall i :: i < |list| ==> (i in bits1 <==> i in bits2)
    ensures Selected(bits1, list) == Selected(bits2, list)
    decreases |list|
  {
    if list != [] {
      SelectedSame(bits1, bits2, list[..|list| - 1]);
    }
  }

  /** `get_remaining_tasks`: the loop over `enumerate(task_list)` appending the
      tasks whose bit is set. */
  method GetRemainingTasks(node: Node, taskList: seq<int>) returns (remaining: seq<int>)
    ensures remaining == Selected(node.remaining, taskList)
  {
    remaining := [];
    for i := 0 to |taskList|
      invariant remaining == Selected(node.remaining, taskList[..i])
    {
      assert taskList[..i + 1][..i] == taskList[..i];
      if i in node.remaining {
        remaining := remaining + [taskList[i]];
      }
    }
    assert taskList[..|taskList|] == taskList;
  }

  /** The right-hand side of `==`: another node or any other Python value. */
  datatype Value = NodeValue(node: Node) | OtherValue

  /** `__eq__`: equal bitmask and last task, whatever the costs and parents. */
  predicate NodeEquals(a: Node, other: Value)
  {
    match other
    case OtherValue => false
    case NodeValue(b) => a.remaining == b.remaining && a.last == b.last
  }

  lemma NodeEqualsIsKeyEquality(a: Node, other: Value)
    ensures NodeEquals(a, other) <==> other.NodeValue? && Key(a) == Key(other.node)
  {
  }

  lemma NodeEqualsEquivalence(a: Node, b: Node, c: Node)
    ensures NodeEquals(a, NodeValue(a))
    ensures NodeEquals(a, NodeValue(b)) ==> NodeEquals(b, NodeValue(a))
    ensures NodeEquals(a, NodeValue(b)) && NodeEquals(b, NodeValue(c)) ==> NodeEquals(a, NodeValue(c))
  {
  }

  /** `__hash__`: a hash of the identity pair only. Python's tuple hash is not
      modelled; any function of `Key(n)` has the properties below. */
  function Hash(n: Node): StateKey
  {
    Key(n)
  }

  lemma EqualNodesHashEqually(a: Node, b: Node)
    requires NodeEquals(a, NodeValue(b))
    ensures Hash(a) == Hash(b)
  {
  }

  lemma HashIgnoresCostsAndParent(a: Node, g: Cost, h: Cost, v1: Cost, parent: Option<nat>, depth: nat)
    ensures Hash(a.(g := g, h := h, v1 := v1, parent := parent, depth := depth)) == Hash(a)
  {
  }
}
