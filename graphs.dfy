/** The undirected skeleton graphs of networkx, as a map from each node to
    its neighbour set, with the node enumeration order kept alongside. */
module Graphs {
  import opened Wrappers

  type Node = int
  type Graph = map<Node, set<Node>>

  /** Symmetric adjacency without self-loops, every neighbour a node. */
  ghost predicate WellFormed(g: Graph) {
    forall v, w :: v in g && w in g[v] ==> w in g && v in g[w] && v != w
  }

  predicate Adjacent(g: Graph, v: Node, w: Node) {
    v in g && w in g[v]
  }

  function Degree(g: Graph, v: Node): nat
    requires v in g
  {
    |g[v]|
  }

  /** An undirected edge, stored with the smaller end first. */
  function EdgeOf(v: Node, w: Node): (Node, Node) {
    if v < w then (v, w) else (w, v)
  }

  /** The edge set of `g`; its size is networkx's `number_of_edges()`. */
  ghost function Edges(g: Graph): set<(Node, Node)> {
    set v, w | v in g && w in g[v] && v < w :: (v, w)
  }

  lemma EdgesOfAdjacent(g: Graph, v: Node, w: Node)
    requires WellFormed(g) && Adjacent(g, v, w)
    ensures EdgeOf(v, w) in Edges(g)
  {
  }

  /** An edge of the edge set joins two adjacent nodes, in either direction. */
  lemma AdjacentOfEdge(g: Graph, v: Node, w: Node)
    requires WellFormed(g) && EdgeOf(v, w) in Edges(g)
    ensures Adjacent(g, v, w) && Adjacent(g, w, v)
  {
    var (x, y) := EdgeOf(v, w);
    assert x in g && y in g[x];
  }

  /** `not g.edges()`. */
  predicate EdgeFree(g: Graph) {
    forall v :: v in g ==> g[v] == {}
  }

  /** A graph with a leaf has an edge. */
  lemma LeafNotEdgeFree(g: Graph, v: Node)
    requires v in g && |g[v]| == 1
    ensures !EdgeFree(g)
  {
    assert g[v] != {};
  }

  /** `g.remove_node(v)`: the node and every edge at it disappear. */
  function RemoveNode(g: Graph, v: Node): (r: Graph)
    requires WellFormed(g)
    ensures WellFormed(r)
    ensures r.Keys == g.Keys - {v}
    ensures forall u :: u in r ==> r[u] == g[u] - {v}
  {
    map u | u in g && u != v :: g[u] - {v}
  }

  /** `g.remove_edge(v, w)` on an existing edge: the nodes stay. */
  function RemoveEdge(g: Graph, v: Node, w: Node): (r: Graph)
    requires WellFormed(g) && Adjacent(g, v, w)
    ensures WellFormed(r)
    ensures r.Keys == g.Keys
    ensures Edges(r) == Edges(g) - {EdgeOf(v, w)}
  {
    var r := g[v := g[v] - {w}][w := g[w] - {v}];
    assert Edges(r) == Edges(g) - {EdgeOf(v, w)} by {
      forall e | e in Edges(g) - {EdgeOf(v, w)} ensures e in Edges(r) {
        assert Adjacent(r, e.0, e.1);
      }
    }
    r
  }

  /** A simple path of at least one edge. */
  predicate IsPath(g: Graph, p: seq<Node>) {
    && |p| >= 2
    && (forall i :: 0 <= i < |p| - 1 ==> Adjacent(g, p[i], p[i + 1]))
    && (forall i, j :: 0 <= i < j < |p| ==> p[i] != p[j])
  }

  predicate IsPathBetween(g: Graph, p: seq<Node>, v: Node, w: Node) {
    IsPath(g, p) && p[0] == v && p[|p| - 1] == w
  }

  /** The contract of networkx's path search, the one thing the model needs
      from it: an answer, when there is one, is a simple path between the ends. */
  ghost predicate SoundPathOracle(path: (Graph, Node, Node) -> Option<seq<Node>>) {
    forall g, v, w :: WellFormed(g) && path(g, v, w).Some? ==> IsPathBetween(g, path(g, v, w).value, v, w)
  }

  /** The edge between the `i`-th and the next node of `p`. */
  function StepEdge(p: seq<Node>, i: nat): (Node, Node)
    requires i + 1 < |p|
  {
    EdgeOf(p[i], p[i + 1])
  }

  /** The edges of the first `n` steps of `p`. */
  ghost function PrefixEdges(p: seq<Node>, n: nat): set<(Node, Node)>
    requires n < |p|
  {
    set i | 0 <= i < n :: StepEdge(p, i)
  }

  ghost function PathEdges(p: seq<Node>): set<(Node, Node)>
    requires |p| >= 1
  {
    PrefixEdges(p, |p| - 1)
  }

  /** The route-removal loop `for (v, w) in zip(p[:-1], p[1:]): g.remove_edge(v, w)`. */
  method RemovePathEdges(g: Graph, p: seq<Node>) returns (r: Graph)
    requires WellFormed(g) && IsPath(g, p)
    ensures WellFormed(r)
    ensures r.Keys == g.Keys
    ensures Edges(r) == Edges(g) - PathEdges(p)
    ensures Edges(r) < Edges(g)
  {
    r := g;
    var i := 0;
    while i < |p| - 1
      invariant 0 <= i <= |p| - 1
      invariant WellFormed(r) && r.Keys == g.Keys
      invariant Edges(r) == Edges(g) - PrefixEdges(p, i)
      invariant forall j :: i <= j < |p| - 1 ==> Adjacent(r, p[j], p[j + 1])
    {
      ghost var before := r;
      r := RemoveEdge(r, p[i], p[i + 1]);
      forall j | i + 1 <= j < |p| - 1 ensures Adjacent(r, p[j], p[j + 1]) {
        assert p[j] != p[i] && p[j + 1] != p[i] && p[j + 1] != p[i + 1];
        assert Adjacent(before, p[j], p[j + 1]);
      }
      assert PrefixEdges(p, i + 1) == PrefixEdges(p, i) + {StepEdge(p, i)};
      i := i + 1;
    }
    EdgesOfAdjacent(g, p[0], p[1]);
    assert StepEdge(p, 0) in PathEdges(p);
  }

  // ---------------------------------------------------------------------
  // Node enumeration (networkx `g.nodes()` order)

  /** `order` lists every node of `g` exactly once. */
  ghost predicate Enumerates(order: seq<Node>, g: Graph) {
    && (forall v :: v in g <==> v in order)
    && (forall i, j :: 0 <= i < j < |order| ==> order[i] != order[j])
  }

  /** `[v for v in g.nodes() if g.degree(v) == k]`. */
  function NodesOfDegree(g: Graph, order: seq<Node>, k: nat): (r: seq<Node>)
    ensures forall v :: v in r <==> v in order && v in g && |g[v]| == k
    ensures |r| <= |order|
  {
    if |order| == 0 then []
    else
      var rest := NodesOfDegree(g, order[1..], k);
      if order[0] in g && |g[order[0]]| == k then [order[0]] + rest else rest
  }

  /** `itertools.combinations(s, 2)`: pairs in index order, first index smaller. */
  function Pairs(s: seq<Node>): seq<(Node, Node)>
  {
    if |s| < 2 then [] else PairsWith(s[0], s[1..]) + Pairs(s[1..])
  }

  function PairsWith(x: Node, rest: seq<Node>): (r: seq<(Node, Node)>)
    ensures |r| == |rest|
    ensures forall i :: 0 <= i < |r| ==> r[i] == (x, rest[i])
  {
    if |rest| == 0 then [] else [(x, rest[0])] + PairsWith(x, rest[1..])
  }

  /** Every unordered pair of positions appears once, earlier position first. */
  lemma {:induction false} PairsComplete(s: seq<Node>, i: nat, j: nat)
    requires i < j < |s|
    ensures (s[i], s[j]) in Pairs(s)
  {
    if i == 0 {
      assert PairsWith(s[0], s[1..])[j - 1] == (s[0], s[j]);
    } else {
      PairsComplete(s[1..], i - 1, j - 1);
      assert s[1..][i - 1] == s[i] && s[1..][j - 1] == s[j];
      assert Pairs(s) == PairsWith(s[0], s[1..]) + Pairs(s[1..]);
    }
  }

  /** A pair of `combinations(s, 2)` is made of two entries of `s`. */
  lemma {:induction false} PairsWithin(s: seq<Node>, q: (Node, Node))
    requires q in Pairs(s)
    ensures q.0 in s && q.1 in s
  {
    if q in PairsWith(s[0], s[1..]) {
      var i :| 0 <= i < |s[1..]| && PairsWith(s[0], s[1..])[i] == q;
      assert s[1..][i] in s;
    } else {
      PairsWithin(s[1..], q);
    }
  }

  /** Selecting the nodes of degree `k` from an order split in two selects from
      each part, in order; with `NodesOfDegreeOne` this pins down the result:
      the degree-`k` nodes in the order given. */
  lemma {:induction false} NodesOfDegreeAppend(g: Graph, a: seq<Node>, b: seq<Node>, k: nat)
    ensures NodesOfDegree(g, a + b, k) == NodesOfDegree(g, a, k) + NodesOfDegree(g, b, k)
    decreases |a|
  {
    if |a| == 0 {
      assert a + b == b;
    } else {
      var ab := a + b;
      assert ab[0] == a[0] && ab[1..] == a[1..] + b;
      NodesOfDegreeAppend(g, a[1..], b, k);
      var tail, right := NodesOfDegree(g, a[1..], k), NodesOfDegree(g, b, k);
      if a[0] in g && |g[a[0]]| == k {
        assert [a[0]] + (tail + right) == ([a[0]] + tail) + right;
      }
    }
  }

  /** A single node is selected exactly when it has degree `k`. */
  lemma NodesOfDegreeOne(g: Graph, v: Node, k: nat)
    ensures NodesOfDegree(g, [v], k) == if v in g && |g[v]| == k then [v] else []
  {
    assert [v][1..] == [];
  }
}
