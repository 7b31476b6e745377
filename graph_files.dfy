/** The frontend's reading of a graph file (frontend/src/features/Methods/utils):
    `parseFileContent` turns the file's lines into a node list and per-line
    edge tokens, and `parseGraph` turns a node list and edges into the
    adjacency lists the backend searches take. */
module GraphFiles {
  import opened Strings
  import Uninformed = GraphUninformed

  /** A graph as the frontend holds it: its nodes and, per file line, the
      line's tokens. */
  datatype Graph = Graph(nodes: seq<string>, edges: seq<seq<string>>)

  /** One line's tokens: split at commas, each trimmed. */
  function Tokens(line: string): (ts: seq<string>)
    ensures |ts| == |Split(line, ',')|
  {
    var parts := Split(line, ',');
    seq(|parts|, k requires 0 <= k < |parts| => JsTrim(parts[k]))
  }

  /** All tokens of all lines, line after line (`flat`). */
  function Flatten(edges: seq<seq<string>>): (xs: seq<string>)
    ensures forall x :: x in xs <==> exists k :: 0 <= k < |edges| && x in edges[k]
  {
    if edges == [] then []
    else
      var init := edges[..|edges| - 1];
      var xs := Flatten(init) + edges[|edges| - 1];
      assert forall k :: 0 <= k < |init| ==> init[k] == edges[k];
      xs
  }

  predicate NoDuplicates(xs: seq<string>)
  {
    forall i, j :: 0 <= i < j < |xs| ==> xs[i] != xs[j]
  }

  /** Every element of `d` occurs in `xs`, and earlier elements of `d` occur
      first in `xs` before later ones do. */
  predicate FirstAppearanceOrder(d: seq<string>, xs: seq<string>)
  {
    (forall i :: 0 <= i < |d| ==> d[i] in xs)
    && forall i, j :: 0 <= i < j < |d| && d[i] in xs && d[j] in xs ==>
         Uninformed.IndexOf(xs, d[i]) < Uninformed.IndexOf(xs, d[j])
  }

  /** The elements of `xs` in order of first appearance (`Array.from(new Set(xs))`). */
  function Distinct(xs: seq<string>): (d: seq<string>)
    ensures forall x :: x in d <==> x in xs
  {
    if xs == [] then []
    else
      var d := Distinct(xs[..|xs| - 1]);
      if xs[|xs| - 1] in d then d else d + [xs[|xs| - 1]]
  }

  /** A set's elements come out once each, in order of first insertion. */
  lemma {:induction false} DistinctOrder(xs: seq<string>)
    ensures NoDuplicates(Distinct(xs))
    ensures FirstAppearanceOrder(Distinct(xs), xs)
  {
    if xs != [] {
      var init := xs[..|xs| - 1];
      var x := xs[|xs| - 1];
      var d := Distinct(init);
      DistinctOrder(init);
      forall y | y in init
        ensures Uninformed.IndexOf(xs, y) == Uninformed.IndexOf(init, y)
      {
        var i := Uninformed.IndexOf(init, y);
        assert xs[..i] == init[..i];
        IndexOfAt(xs, y, i);
      }
      if x !in d {
        assert xs[..|xs| - 1] == init;
        IndexOfAt(xs, x, |xs| - 1);
      }
    }
  }

  /** The first position of `x` is the position before which `x` does not occur. */
  lemma IndexOfAt(xs: seq<string>, x: string, i: nat)
    requires i < |xs| && xs[i] == x && x !in xs[..i]
    ensures Uninformed.IndexOf(xs, x) == i
  {
  }

  /** `xs` without its empty strings. */
  function NonEmpty(xs: seq<string>): (r: seq<string>)
    ensures forall x :: x in r <==> x in xs && x != ""
  {
    if xs == [] then []
    else NonEmpty(xs[..|xs| - 1]) + (if xs[|xs| - 1] == "" then [] else [xs[|xs| - 1]])
  }

  /** Dropping the empty strings keeps the rest distinct and in its order. */
  lemma {:induction false} NonEmptyOrder(d: seq<string>, xs: seq<string>)
    requires NoDuplicates(d) && FirstAppearanceOrder(d, xs)
    ensures NoDuplicates(NonEmpty(d)) && FirstAppearanceOrder(NonEmpty(d), xs)
  {
    if d != [] {
      var init := d[..|d| - 1];
      var last := d[|d| - 1];
      assert forall i :: 0 <= i < |init| ==> init[i] == d[i];
      NonEmptyOrder(init, xs);
      var r := NonEmpty(init);
      if last != "" {
        forall y | y in r
          ensures y != last && Uninformed.IndexOf(xs, y) < Uninformed.IndexOf(xs, last)
        {
          var i :| 0 <= i < |init| && init[i] == y;
        }
        AppendOrder(r, last, xs);
      }
    }
  }

  /** Appending an element that occurs after every listed one keeps a list
      distinct and in order of first appearance. */
  lemma AppendOrder(r: seq<string>, y: string, xs: seq<string>)
    requires NoDuplicates(r) && FirstAppearanceOrder(r, xs) && y in xs
    requires forall z :: z in r ==> z != y && Uninformed.IndexOf(xs, z) < Uninformed.IndexOf(xs, y)
    ensures NoDuplicates(r + [y]) && FirstAppearanceOrder(r + [y], xs)
  {
    var r' := r + [y];
    forall i, j | 0 <= i < j < |r'|
      ensures r'[i] != r'[j]
    {
      if j == |r| {
        assert r'[i] in r;
      }
    }
  }

  /** `parseFileContent`: every line's trimmed comma-separated tokens, and
      the distinct non-empty tokens in order of first appearance. */
  function ParseFileContent(lines: seq<string>): (g: Graph)
    ensures |g.edges| == |lines|
    ensures forall k :: 0 <= k < |lines| ==> g.edges[k] == Tokens(lines[k])
    ensures forall x :: x in g.nodes <==> x != "" && exists k :: 0 <= k < |lines| && x in g.edges[k]
  {
    var edges := seq(|lines|, k requires 0 <= k < |lines| => Tokens(lines[k]));
    Graph(NonEmpty(Distinct(Flatten(edges))), edges)
  }

  /** The node list has no duplicates and lists the tokens by first appearance. */
  lemma ParseFileContentNodes(lines: seq<string>)
    ensures var g := ParseFileContent(lines);
            NoDuplicates(g.nodes) && FirstAppearanceOrder(g.nodes, Flatten(g.edges))
  {
    var g := ParseFileContent(lines);
    DistinctOrder(Flatten(g.edges));
    NonEmptyOrder(Distinct(Flatten(g.edges)), Flatten(g.edges));
  }

  /** The edge `e` counts for position `i`: it has a source and a target,
      both are nodes, and `i` is the first position of its source. */
  predicate EdgeFrom(nodes: seq<string>, e: seq<string>, i: nat)
  {
    |e| >= 2 && e[0] in nodes && e[1] in nodes && Uninformed.IndexOf(nodes, e[0]) == i
  }

  /** The targets `parseGraph` lists for position `i`, in edge order. */
  function Targets(nodes: seq<string>, edges: seq<seq<string>>, i: nat): (ts: seq<string>)
    ensures forall x :: x in ts ==> x in nodes
  {
    if edges == [] then []
    else
      var e := edges[|edges| - 1];
      Targets(nodes, edges[..|edges| - 1], i) + (if EdgeFrom(nodes, e, i) then [e[1]] else [])
  }

  /** A target is listed for position `i` exactly when some edge from the
      node there leads to it. */
  lemma {:induction false} TargetsMember(nodes: seq<string>, edges: seq<seq<string>>, i: nat, x: string)
    ensures x in Targets(nodes, edges, i) <==>
            exists k :: 0 <= k < |edges| && EdgeFrom(nodes, edges[k], i) && edges[k][1] == x
  {
    if edges != [] {
      var init := edges[..|edges| - 1];
      TargetsMember(nodes, init, i, x);
      assert forall k :: 0 <= k < |init| ==> init[k] == edges[k];
      if x in Targets(nodes, edges, i) && x !in Targets(nodes, init, i) {
        assert EdgeFrom(nodes, edges[|edges| - 1], i);
      }
    }
  }

  /** `parseGraph`: one list per node; each edge whose two ends are nodes
      appends its target to the list of the first position of its source. */
  method ParseGraph(nodes: seq<string>, edges: seq<seq<string>>) returns (graph: seq<seq<string>>)
    ensures |graph| == |nodes|
    ensures forall i :: 0 <= i < |nodes| ==> graph[i] == Targets(nodes, edges, i)
    ensures Uninformed.GraphOk(nodes, graph)
  {
    graph := seq(|nodes|, _ => []);
    var k := 0;
    while k < |edges|
      invariant 0 <= k <= |edges| && |graph| == |nodes|
      invariant forall i :: 0 <= i < |nodes| ==> graph[i] == Targets(nodes, edges[..k], i)
    {
      var e := edges[k];
      if |e| >= 2 && e[0] in nodes && e[1] in nodes {
        var from := Uninformed.IndexOf(nodes, e[0]);
        graph := graph[from := graph[from] + [e[1]]];
      }
      assert edges[..k + 1][..k] == edges[..k];
      k := k + 1;
    }
    assert edges[..k] == edges;
  }
}
