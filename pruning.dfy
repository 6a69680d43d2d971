/** The spur-pruning loop that trims a Voronoi skeleton after it is built
    (`polygon_dots_skeleton` in Skeletron/__init__.py and the identical loop
    in Skeletron2.py's `polygon_skeleton`). */
module Pruning {
  import opened Graphs

  /** A spur deeper than this is kept. */
  const MaxSpurDepth: real := 20.0

  /** `skeleton.node[v].get('depth', 0)`. */
  function DepthOf(depth: map<Node, real>, v: Node): real {
    if v in depth then depth[v] else 0.0
  }

  /** `r` is `g` with some nodes (and every edge at them) removed. */
  ghost predicate Induced(r: Graph, g: Graph) {
    && r.Keys <= g.Keys
    && (forall v :: v in r ==> r[v] == g[v] * r.Keys)
  }

  /** The nodes left after `removed[k]`: the survivors and the nodes removed later. */
  ghost function Later(g: Graph, removed: seq<Node>, k: nat): set<Node> {
    g.Keys + (set j | k < j < |removed| :: removed[j])
  }

  /** `removed` peels `skeleton` down to `g` one leaf at a time: each removed node
      had exactly one neighbour among the nodes still there when it went. */
  ghost predicate Peeled(skeleton: Graph, g: Graph, removed: seq<Node>) {
    && (forall k :: 0 <= k < |removed| ==> removed[k] in skeleton && removed[k] !in g)
    && (forall v :: v in skeleton ==> v in g || v in removed)
    && (forall k :: 0 <= k < |removed| ==> |skeleton[removed[k]] * Later(g, removed, k)| == 1)
  }

  lemma InducedSelf(g: Graph)
    requires WellFormed(g)
    ensures Induced(g, g)
  {
    forall v | v in g ensures g[v] == g[v] * g.Keys {
      forall w | w in g[v] ensures w in g.Keys {
      }
    }
  }

  /** Removing the survivor `v` and recording it last leaves each earlier
      removal's "still there" set as it was. */
  lemma LaterAfterRemoval(g: Graph, removed: seq<Node>, v: Node, k: nat)
    requires WellFormed(g) && v in g && k < |removed|
    ensures Later(RemoveNode(g, v), removed + [v], k) == Later(g, removed, k)
  {
    var g' := RemoveNode(g, v);
    var removed' := removed + [v];
    assert removed'[|removed|] == v;
    forall u | u in Later(g, removed, k) ensures u in Later(g', removed', k) {
      if u !in g'.Keys && u != v {
        var j :| k < j < |removed| && removed[j] == u;
        assert removed'[j] == u;
      }
    }
    forall u | u in Later(g', removed', k) ensures u in Later(g, removed, k) {
      if u !in g.Keys {
        var j :| k < j < |removed'| && removed'[j] == u;
        assert removed[j] == u;
      }
    }
  }

  lemma PeelStep(skeleton: Graph, g: Graph, removed: seq<Node>, v: Node)
    requires WellFormed(skeleton) && WellFormed(g) && Induced(g, skeleton)
    requires Peeled(skeleton, g, removed)
    requires v in g && |g[v]| == 1
    ensures Peeled(skeleton, RemoveNode(g, v), removed + [v])
  {
    var g' := RemoveNode(g, v);
    var removed' := removed + [v];
    forall k | 0 <= k < |removed'| ensures |skeleton[removed'[k]] * Later(g', removed', k)| == 1 {
      if k < |removed| {
        LaterAfterRemoval(g, removed, v, k);
      } else {
        assert Later(g', removed', k) == g'.Keys;
        assert skeleton[v] * g'.Keys == g[v];
      }
    }
  }

  lemma InducedRemove(skeleton: Graph, g: Graph, v: Node)
    requires WellFormed(g) && Induced(g, skeleton)
    ensures Induced(RemoveNode(g, v), skeleton)
  {
    var g' := RemoveNode(g, v);
    forall u | u in g' ensures g'[u] == skeleton[u] * g'.Keys {
      assert g'[u] == g[u] - {v};
      assert g'.Keys == g.Keys - {v};
      assert g[u] == skeleton[u] * g.Keys;
    }
  }

  /** What holds of the pruning state between removals. */
  ghost predicate PruneState(skeleton: Graph, g: Graph, removed: seq<Node>, depth: map<Node, real>) {
    && WellFormed(g) && Induced(g, skeleton) && Peeled(skeleton, g, removed)
    && (forall v :: v in skeleton && skeleton[v] == {} ==> v in g)
    && (forall v :: v in removed ==> DepthOf(depth, v) < MaxSpurDepth)
  }

  /** Nodes without edges in the skeleton are never leaves, so they stay. */
  lemma IsolatedKept(skeleton: Graph, g: Graph, v: Node)
    requires forall u :: u in skeleton && skeleton[u] == {} ==> u in g
    requires WellFormed(g) && Induced(g, skeleton) && v in g && |g[v]| == 1
    ensures forall u :: u in skeleton && skeleton[u] == {} ==> u in RemoveNode(g, v)
  {
    forall u | u in skeleton && skeleton[u] == {} ensures u in RemoveNode(g, v) {
      assert u in g;
      assert g[u] == skeleton[u] * g.Keys == {};
      assert u != v;
    }
  }

  /** Recording the shallow `v` and deepening its surviving neighbour keeps
      every removed node shallow. */
  lemma RemovedShallow(removed: seq<Node>, depth: map<Node, real>, v: Node, other: Node, d': real)
    requires forall u :: u in removed ==> DepthOf(depth, u) < MaxSpurDepth
    requires DepthOf(depth, v) < MaxSpurDepth && other != v && other !in removed
    ensures forall u :: u in removed + [v] ==> DepthOf(depth[other := d'], u) < MaxSpurDepth
  {
    forall u | u in removed + [v] ensures DepthOf(depth[other := d'], u) < MaxSpurDepth {
      if u != v {
        assert u in removed;
      }
    }
  }

  /** Removing one shallow leaf keeps the pruning state and shrinks the graph. */
  lemma PruneStep(skeleton: Graph, g: Graph, removed: seq<Node>, depth: map<Node, real>, v: Node, other: Node, d': real)
    requires WellFormed(skeleton) && PruneState(skeleton, g, removed, depth)
    requires v in g && |g[v]| == 1 && other in g[v] && DepthOf(depth, v) < MaxSpurDepth
    ensures PruneState(skeleton, RemoveNode(g, v), removed + [v], depth[other := d'])
    ensures |RemoveNode(g, v).Keys| < |g.Keys|
  {
    PeelStep(skeleton, g, removed, v);
    InducedRemove(skeleton, g, v);
    IsolatedKept(skeleton, g, v);
    assert other in g && other != v;
    assert other !in removed by {
      assert forall k :: 0 <= k < |removed| ==> removed[k] !in g;
    }
    RemovedShallow(removed, depth, v, other, d');
  }

  lemma PruneInit(skeleton: Graph, depth0: map<Node, real>)
    requires WellFormed(skeleton)
    ensures PruneState(skeleton, skeleton, [], depth0)
  {
    InducedSelf(skeleton);
  }

  /** The one element of a singleton set. */
  method TheNeighbour(s: set<Node>) returns (x: Node)
    requires |s| == 1
    ensures s == {x}
  {
    if forall y :: y !in s {
      assert false;
    }
    x :| x in s;
    assert |s - {x}| == 0;
  }

  /** `v` is not a shallow leaf: it is gone, not a leaf, or deep enough. */
  predicate Settled(g: Graph, depth: map<Node, real>, v: Node) {
    v in g && |g[v]| == 1 ==> DepthOf(depth, v) >= MaxSpurDepth
  }

  /** The depth a removed leaf `v` hands to its neighbour `other`: its own
      depth plus the length of the edge between them. */
  function Handed(depth: map<Node, real>, v: Node, other: Node, length: (Node, Node) -> real): real
  {
    DepthOf(depth, v) + length(v, other)
  }

  /** The turn of `v` in a pass, as a function of the graph and the depths
      before it: a node of degree one with depth below 20 hands its depth
      plus the edge length to its one neighbour and is removed; any other
      node leaves both as they are. */
  ghost function Turn(g: Graph, depth: map<Node, real>, v: Node, length: (Node, Node) -> real)
    : (r: (Graph, map<Node, real>))
    requires WellFormed(g)
    ensures WellFormed(r.0) && r.0.Keys <= g.Keys
    ensures v in g && |g[v]| == 1 && DepthOf(depth, v) < MaxSpurDepth ==> r.0.Keys == g.Keys - {v}
    ensures !(v in g && |g[v]| == 1 && DepthOf(depth, v) < MaxSpurDepth) ==> r == (g, depth)
  {
    if v in g && |g[v]| == 1 && DepthOf(depth, v) < MaxSpurDepth then
      Singleton(g[v]);
      var other :| g[v] == {other};
      (RemoveNode(g, v), depth[other := Handed(depth, v, other, length)])
    else (g, depth)
  }

  /** A set of one element is that element's singleton. */
  lemma Singleton(s: set<Node>)
    requires |s| == 1
    ensures exists x :: s == {x}
  {
    if forall y :: y !in s {
      assert false;
    }
    var x :| x in s;
    assert |s - {x}| == 0;
    assert s == {x};
  }

  /** A proper subset of the node set has fewer nodes. */
  lemma FewerNodes(a: set<Node>, b: set<Node>)
    requires a < b
    ensures |a| < |b|
  {
    if forall y :: y in b ==> y in a {
      assert false;
    }
    var x :| x in b && x !in a;
    assert b == (b - a) + a && (b - a) * a == {};
    assert x in b - a;
  }

  /** The turn of a shallow leaf, written out. */
  lemma TurnOfLeaf(g: Graph, depth: map<Node, real>, v: Node, other: Node, length: (Node, Node) -> real)
    requires WellFormed(g) && v in g && g[v] == {other} && DepthOf(depth, v) < MaxSpurDepth
    ensures Turn(g, depth, v, length).0 == RemoveNode(g, v)
    ensures Turn(g, depth, v, length).1 == depth[other := Handed(depth, v, other, length)]
  {
  }

  /** The turn of any other node changes nothing. */
  lemma TurnOfOther(g: Graph, depth: map<Node, real>, v: Node, length: (Node, Node) -> real)
    requires WellFormed(g) && !(v in g && |g[v]| == 1 && DepthOf(depth, v) < MaxSpurDepth)
    ensures Turn(g, depth, v, length).0 == g && Turn(g, depth, v, length).1 == depth
  {
  }

  /** The turns of `order[i..]`, one after the other. */
  ghost function PassFrom(g: Graph, depth: map<Node, real>, order: seq<Node>, i: nat, length: (Node, Node) -> real)
    : (r: (Graph, map<Node, real>))
    requires WellFormed(g)
    ensures WellFormed(r.0) && r.0.Keys <= g.Keys
    decreases |order| - i
  {
    if i >= |order| then (g, depth)
    else
      var t := Turn(g, depth, order[i], length);
      PassFrom(t.0, t.1, order, i + 1, length)
  }

  /** One pass of `for index in skeleton.nodes()` over the enumeration `order`. */
  ghost function Pass(g: Graph, depth: map<Node, real>, order: seq<Node>, length: (Node, Node) -> real)
    : (Graph, map<Node, real>)
    requires WellFormed(g)
  {
    PassFrom(g, depth, order, 0, length)
  }

  /** `while removing`: passes repeat until one removes nothing. */
  ghost function Spurs(g: Graph, depth: map<Node, real>, order: seq<Node>, length: (Node, Node) -> real)
    : (r: (Graph, map<Node, real>))
    requires WellFormed(g)
    ensures WellFormed(r.0)
    decreases |g.Keys|
  {
    var p := PassFrom(g, depth, order, 0, length);
    if |p.0.Keys| < |g.Keys| then Spurs(p.0, p.1, order, length) else (g, depth)
  }

  /** The turn of `v` in a pass: removing exactly when `v` has degree one
      and depth below 20, and then handing its depth plus the edge length to
      its neighbour. */
  method PruneAt(skeleton: Graph, g0: Graph, depth0: map<Node, real>, ghost removed0: seq<Node>,
                 v: Node, length: (Node, Node) -> real)
    returns (g: Graph, depth: map<Node, real>, ghost removed: seq<Node>, removing: bool)
    requires WellFormed(skeleton) && PruneState(skeleton, g0, removed0, depth0)
    ensures PruneState(skeleton, g, removed, depth)
    ensures (g, depth) == Turn(g0, depth0, v, length)
    ensures removing <==> v in g0 && |g0[v]| == 1 && DepthOf(depth0, v) < MaxSpurDepth
    ensures removing ==> exists other :: (&& g0[v] == {other} && g == RemoveNode(g0, v) && removed == removed0 + [v]
                                          && depth == depth0[other := Handed(depth0, v, other, length)])
    ensures removing ==> |g.Keys| < |g0.Keys|
    ensures !removing ==> g == g0 && depth == depth0 && removed == removed0 && Settled(g0, depth0, v)
  {
    if v in g0 && |g0[v]| == 1 && DepthOf(depth0, v) < MaxSpurDepth {
      var other := TheNeighbour(g0[v]);
      var d' := Handed(depth0, v, other, length);
      TurnOfLeaf(g0, depth0, v, other, length);
      PruneStep(skeleton, g0, removed0, depth0, v, other, d');
      g, depth, removed, removing := RemoveNode(g0, v), depth0[other := d'], removed0 + [v], true;
    } else {
      TurnOfOther(g0, depth0, v, length);
      g, depth, removed, removing := g0, depth0, removed0, false;
    }
  }

  /** One pass, `for index in skeleton.nodes()`: the turns of the nodes of
      `order` in that order. A pass removes something exactly when the graph
      shrinks, and one that removes nothing has found no shallow leaf. */
  method PrunePass(skeleton: Graph, order: seq<Node>, g0: Graph, depth0: map<Node, real>,
                   ghost removed0: seq<Node>, length: (Node, Node) -> real)
    returns (g: Graph, depth: map<Node, real>, ghost removed: seq<Node>, removing: bool)
    requires WellFormed(skeleton) && PruneState(skeleton, g0, removed0, depth0)
    requires forall v :: v in g0 ==> v in order
    ensures PruneState(skeleton, g, removed, depth)
    ensures (g, depth) == Pass(g0, depth0, order, length)
    ensures removing <==> |g.Keys| < |g0.Keys|
    ensures !removing ==> g == g0 && depth == depth0 && removed == removed0
    ensures !removing ==> forall v :: v in g ==> Settled(g, depth, v)
  {
    g, depth, removed, removing := g0, depth0, removed0, false;
    for i := 0 to |order|
      invariant PruneState(skeleton, g, removed, depth)
      invariant PassFrom(g, depth, order, i, length) == Pass(g0, depth0, order, length)
      invariant removing <==> |g.Keys| < |g0.Keys|
      invariant !removing ==> g == g0 && depth == depth0 && removed == removed0
      invariant !removing ==> forall j :: 0 <= j < i ==> Settled(g0, depth0, order[j])
    {
      ghost var t := Turn(g, depth, order[i], length);
      assert PassFrom(g, depth, order, i, length) == PassFrom(t.0, t.1, order, i + 1, length);
      var g', depth', removed', removed1 := PruneAt(skeleton, g, depth, removed, order[i], length);
      if removed1 {
        g, depth, removed, removing := g', depth', removed', true;
      } else if !removing {
        forall j | 0 <= j < i + 1 ensures Settled(g0, depth0, order[j]) {
        }
      }
      assert (g, depth) == t;
    }
    if !removing {
      SettledEverywhere(g, depth, order);
    }
  }

  /** A pass that found every node of its enumeration settled leaves no
      shallow leaf. */
  lemma SettledEverywhere(g: Graph, depth: map<Node, real>, order: seq<Node>)
    requires forall v :: v in g ==> v in order
    requires forall j :: 0 <= j < |order| ==> Settled(g, depth, order[j])
    ensures forall v :: v in g ==> Settled(g, depth, v)
  {
    forall v | v in g ensures Settled(g, depth, v) {
      var j :| 0 <= j < |order| && order[j] == v;
    }
  }

  /** The pruning loop: in passes over the node enumeration `order`, every node
      of degree one whose depth is below 20 hands its depth plus the edge length
      to its neighbour and is removed; passes repeat until one removes nothing.
      `removed` lists the removed nodes in removal order. */
  method PruneSpurs(skeleton: Graph, order: seq<Node>, depth0: map<Node, real>, length: (Node, Node) -> real)
    returns (g: Graph, depth: map<Node, real>, ghost removed: seq<Node>)
    requires WellFormed(skeleton) && Enumerates(order, skeleton)
    ensures (g, depth) == Spurs(skeleton, depth0, order, length)
    ensures WellFormed(g) && Induced(g, skeleton)
    ensures Peeled(skeleton, g, removed)
    ensures forall v :: v in skeleton && skeleton[v] == {} ==> v in g
    ensures forall v :: v in removed ==> DepthOf(depth, v) < MaxSpurDepth
    ensures forall v :: v in g && |g[v]| == 1 ==> DepthOf(depth, v) >= MaxSpurDepth
  {
    g, depth, removed := skeleton, depth0, [];
    PruneInit(skeleton, depth0);
    var removing := true;
    while removing
      invariant PruneState(skeleton, g, removed, depth)
      invariant removing ==> Spurs(g, depth, order, length) == Spurs(skeleton, depth0, order, length)
      invariant !removing ==> (g, depth) == Spurs(skeleton, depth0, order, length)
      invariant !removing ==> forall v :: v in g ==> Settled(g, depth, v)
      decreases |g.Keys| + (if removing then 1 else 0)
    {
      g, depth, removed, removing := PrunePass(skeleton, order, g, depth, removed, length);
    }
  }

  /** A turn of a settled node changes nothing, so neither does a pass over a
      graph without shallow leaves. */
  lemma {:induction false} PassOverSettled(g: Graph, depth: map<Node, real>, order: seq<Node>, i: nat,
                                           length: (Node, Node) -> real)
    requires WellFormed(g) && forall v :: v in g ==> Settled(g, depth, v)
    ensures PassFrom(g, depth, order, i, length) == (g, depth)
    decreases |order| - i
  {
    if i < |order| {
      PassOverSettled(g, depth, order, i + 1, length);
    }
  }

  /** A pass that leaves the node set as it was met only settled nodes. */
  lemma {:induction false} PassKeepingAll(g: Graph, depth: map<Node, real>, order: seq<Node>, i: nat,
                                          length: (Node, Node) -> real)
    requires WellFormed(g) && PassFrom(g, depth, order, i, length).0.Keys == g.Keys
    ensures forall j :: i <= j < |order| ==> Settled(g, depth, order[j])
    decreases |order| - i
  {
    if i < |order| {
      PassKeepingAll(g, depth, order, i + 1, length);
    }
  }

  /** After pruning no node of degree one is shallower than 20, and pruning
      the result again changes nothing. */
  lemma {:induction false} SpursSettled(g: Graph, depth: map<Node, real>, order: seq<Node>, length: (Node, Node) -> real)
    requires WellFormed(g) && forall v :: v in g ==> v in order
    ensures var r := Spurs(g, depth, order, length);
      && (forall v :: v in r.0 && |r.0[v]| == 1 ==> DepthOf(r.1, v) >= MaxSpurDepth)
      && Spurs(r.0, r.1, order, length) == r
    decreases |g.Keys|
  {
    var p := PassFrom(g, depth, order, 0, length);
    if |p.0.Keys| < |g.Keys| {
      SpursSettled(p.0, p.1, order, length);
    } else {
      if p.0.Keys != g.Keys {
        FewerNodes(p.0.Keys, g.Keys);
      }
      PassKeepingAll(g, depth, order, 0, length);
      SettledEverywhere(g, depth, order);
      PassOverSettled(g, depth, order, 0, length);
    }
  }
}
