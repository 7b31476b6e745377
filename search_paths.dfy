/** The search trees of the graph and grid searches in
    backend/service/UninformedSearch.py, backend/service/base/InformedSearch.py
    and backend/service/InformedSearch.py. The Python nodes (`Node` and
    `NodeP`, whose files are not part of this model) point at their parents;
    here every node lives in an arena, a sequence in creation order, and a
    parent is an index into it. */
module SearchPaths {
  import opened Wrappers
  import opened Schedules

  /** A search-tree node: its parent, its state, its depth and, for the
      informed searches, the cost `v2` of the way from the root. */
  datatype TreeNode<S> = TreeNode(parent: Option<nat>, state: S, depth: nat, g: nat)

  /** Parents come before their children. */
  ghost predicate Linked<S>(arena: seq<TreeNode<S>>)
  {
    forall i :: 0 <= i < |arena| && arena[i].parent.Some? ==> arena[i].parent.value < i
  }

  /** The states from the root above node `i` down to node `i`. */
  ghost function PathStates<S>(arena: seq<TreeNode<S>>, i: nat): (p: seq<S>)
    requires Linked(arena) && i < |arena|
    ensures |p| >= 1 && p[|p| - 1] == arena[i].state
    decreases i
  {
    if arena[i].parent.None? then [arena[i].state]
    else PathStates(arena, arena[i].parent.value) + [arena[i].state]
  }

  /** Appending to the arena does not change the paths of existing nodes. */
  lemma {:induction false} PathStatesStable<S>(arena: seq<TreeNode<S>>, c: TreeNode<S>, i: nat)
    requires Linked(arena) && Linked(arena + [c]) && i < |arena|
    ensures PathStates(arena + [c], i) == PathStates(arena, i)
    decreases i
  {
    assert (arena + [c])[i] == arena[i];
    if arena[i].parent.Some? {
      PathStatesStable(arena, c, arena[i].parent.value);
    }
  }

  /** `show_path` (and `display_path` in both informed searches): collect the
      states while following the parents up to the root, then reverse. */
  method ShowPath<S>(arena: seq<TreeNode<S>>, i: nat) returns (path: seq<S>)
    requires Linked(arena) && i < |arena|
    ensures path == PathStates(arena, i)
  {
    var collected: seq<S> := [];
    var node: Option<nat> := Some(i);
    while node.Some?
      invariant node.Some? ==> node.value < |arena| && PathStates(arena, node.value) + Reversed(collected) == PathStates(arena, i)
      invariant node.None? ==> Reversed(collected) == PathStates(arena, i)
      decreases if node.Some? then node.value + 1 else 0
    {
      var current := arena[node.value];
      ReversedSnoc(collected, current.state);
      collected := collected + [current.state];
      node := current.parent;
    }
    path := Reversed(collected);
  }

  /** Taking one more element of a sequence. */
  lemma TakeNext<T>(xs: seq<T>, k: nat)
    requires k < |xs|
    ensures xs[..k + 1] == xs[..k] + [xs[k]]
  {
  }

  lemma TakeAll<T>(xs: seq<T>)
    ensures xs[..|xs|] == xs
  {
  }
}
