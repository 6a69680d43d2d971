/** Skeletron/__init__.py: the centerline pipeline around the foreign
    geometry. Buffering, the Voronoi diagram, point division, projection and
    distances are oracles; what is modelled is the control around them. */
module Skeleton {
  import opened Wrappers
  import opened Sorting
  import opened Graphs
  import opened Visvalingam
  import opened Routes

  // ---------------------------------------------------------------------
  // _graph_routes_main

  /** The one thing the model needs from `_graph.neighbors(node)[0]`: it is a
      neighbour whenever the node has one. */
  ghost predicate NeighbourOracle(first: (Graph, Node) -> Node) {
    forall g, v :: v in g && g[v] != {} ==> first(g, v) in g[v]
  }

  /** Whether degree-three nodes join the candidate ends: with exactly one
      leaf, or when the shortest routes are wanted. */
  predicate WithForks(g: Graph, order: seq<Node>, findLongest: bool) {
    |NodesOfDegree(g, order, 1)| == 1 || !findLongest
  }

  /** `v` is a candidate end of a route: a leaf, or a fork when forks join. */
  predicate IsEnd(g: Graph, order: seq<Node>, findLongest: bool, v: Node) {
    v in order && v in g && (|g[v]| == 1 || (|g[v]| == 3 && WithForks(g, order, findLongest)))
  }

  /** The candidate ends of one iteration: the leaves, then the forks when they
      join; failing both, the first node of degree two and its first neighbour.
      None when that fallback finds no node of degree two, where the source's
      `[...][0]` raises IndexError. */
  function Endpoints(g: Graph, order: seq<Node>, findLongest: bool, first: (Graph, Node) -> Node)
    : (r: Option<seq<Node>>)
    ensures r.Some? ==> |r.value| > 0
  {
    var leaves := NodesOfDegree(g, order, 1);
    var ends := if WithForks(g, order, findLongest) then leaves + NodesOfDegree(g, order, 3) else leaves;
    if |ends| > 0 then
      Some(ends)
    else
      var twos := NodesOfDegree(g, order, 2);
      if |twos| == 0 then None else Some([twos[0], first(g, twos[0])])
  }

  /** While a leaf or a joining fork exists, the candidates are exactly those. */
  lemma EndpointsAreEnds(g: Graph, order: seq<Node>, findLongest: bool, first: (Graph, Node) -> Node)
    requires exists v :: IsEnd(g, order, findLongest, v)
    ensures var r := Endpoints(g, order, findLongest, first);
      r.Some? && forall v :: v in r.value <==> IsEnd(g, order, findLongest, v)
  {
    var v :| IsEnd(g, order, findLongest, v);
    if |g[v]| == 1 {
      assert v in NodesOfDegree(g, order, 1);
    } else {
      assert v in NodesOfDegree(g, order, 3);
    }
  }

  /** A candidate end exists exactly when the leaves, with the forks when they
      join, are not empty. */
  lemma EndsExist(g: Graph, order: seq<Node>, findLongest: bool)
    ensures (exists v :: IsEnd(g, order, findLongest, v)) <==>
              |NodesOfDegree(g, order, 1)| > 0 ||
              (WithForks(g, order, findLongest) && |NodesOfDegree(g, order, 3)| > 0)
  {
    var leaves := NodesOfDegree(g, order, 1);
    var forks := NodesOfDegree(g, order, 3);
    if |leaves| > 0 {
      assert IsEnd(g, order, findLongest, leaves[0]);
    } else if WithForks(g, order, findLongest) && |forks| > 0 {
      assert IsEnd(g, order, findLongest, forks[0]);
    }
    forall v | IsEnd(g, order, findLongest, v)
      ensures |leaves| > 0 || (WithForks(g, order, findLongest) && |forks| > 0)
    {
      if |g[v]| == 1 {
        assert v in leaves;
      } else {
        assert v in forks;
      }
    }
  }

  /** Otherwise the candidates are the first node of degree two and its first
      neighbour, and there are none when no node has degree two. */
  lemma EndpointsFallback(g: Graph, order: seq<Node>, findLongest: bool, first: (Graph, Node) -> Node)
    requires forall v :: !IsEnd(g, order, findLongest, v)
    ensures var r := Endpoints(g, order, findLongest, first);
      && (r.None? <==> forall v :: v in order && v in g ==> |g[v]| != 2)
      && (r.Some? ==>
            && |r.value| == 2 && r.value[0] in g && |g[r.value[0]]| == 2
            && (exists i :: 0 <= i < |order| && order[i] == r.value[0] &&
                  forall j :: 0 <= j < i ==> !(order[j] in g && |g[order[j]]| == 2))
            && r.value[1] == first(g, r.value[0])
            && (NeighbourOracle(first) ==> r.value[1] in g[r.value[0]]))
  {
    EndsExist(g, order, findLongest);
    var twos := NodesOfDegree(g, order, 2);
    assert Endpoints(g, order, findLongest, first) ==
           if |twos| == 0 then None else Some([twos[0], first(g, twos[0])]);
    if |twos| > 0 {
      FirstOfDegree(g, order, 2);
      assert twos[0] in twos;
    }
  }

  /** So there are no candidates exactly when no node has degree one or two,
      nor degree three while forks join. */
  lemma EndpointsNone(g: Graph, order: seq<Node>, findLongest: bool, first: (Graph, Node) -> Node)
    ensures Endpoints(g, order, findLongest, first).None? <==>
              forall v :: v in order && v in g ==> |g[v]| != 1 && |g[v]| != 2 && (findLongest || |g[v]| != 3)
  {
    if exists v :: IsEnd(g, order, findLongest, v) {
      EndpointsAreEnds(g, order, findLongest, first);
      var v :| IsEnd(g, order, findLongest, v);
      var u := v;
      if |g[v]| == 3 && findLongest {
        var leaves := NodesOfDegree(g, order, 1);
        assert leaves[0] in leaves;
        u := leaves[0];
      }
      assert u in order && u in g && |g[u]| != 2 && (|g[u]| == 1 || (!findLongest && |g[u]| == 3));
    } else {
      EndpointsFallback(g, order, findLongest, first);
      forall v | v in order && v in g ensures |g[v]| != 1 && (findLongest || |g[v]| != 3) {
        assert !IsEnd(g, order, findLongest, v);
      }
    }
  }

  /** The fallback node is the first node of degree two in the enumeration. */
  lemma {:induction false} FirstOfDegree(g: Graph, order: seq<Node>, k: nat)
    requires |NodesOfDegree(g, order, k)| > 0
    ensures exists i :: 0 <= i < |order| && order[i] == NodesOfDegree(g, order, k)[0] &&
              forall j :: 0 <= j < i ==> !(order[j] in g && |g[order[j]]| == k)
  {
    if order[0] in g && |g[order[0]]| == k {
      assert order[0] == NodesOfDegree(g, order, k)[0];
    } else {
      FirstOfDegree(g, order[1..], k);
      var i :| 0 <= i < |order[1..]| && order[1..][i] == NodesOfDegree(g, order[1..], k)[0] &&
                forall j :: 0 <= j < i ==> !(order[1..][j] in g && |g[order[1..][j]]| == k);
      assert order[i + 1] == NodesOfDegree(g, order, k)[0];
      forall j | 0 <= j < i + 1 ensures !(order[j] in g && |g[order[j]]| == k) {
        if j > 0 {
          assert order[j] == order[1..][j - 1];
        }
      }
    }
  }

  /** `[(point_distance(v, w), v, w) for (v, w) in combinations(leaves, 2)]`. */
  function Distances(pairs: seq<(Node, Node)>, dist: (Node, Node) -> real): (r: seq<(real, Node, Node)>)
    ensures |r| == |pairs|
    ensures forall i :: 0 <= i < |r| ==> r[i] == (dist(pairs[i].0, pairs[i].1), pairs[i].0, pairs[i].1)
  {
    seq(|pairs|, i requires 0 <= i < |pairs| => (dist(pairs[i].0, pairs[i].1), pairs[i].0, pairs[i].1))
  }

  /** The inner `for` over the sorted candidates: the first pair the path search
      connects, with its position. */
  method FirstRoutable(g: Graph, cands: seq<(real, Node, Node)>, path: (Graph, Node, Node) -> Option<seq<Node>>)
    returns (found: Option<seq<Node>>, k: int)
    ensures found.None? <==> forall i :: 0 <= i < |cands| ==> path(g, cands[i].1, cands[i].2).None?
    ensures found.Some? ==>
              && 0 <= k < |cands| && path(g, cands[k].1, cands[k].2) == found
              && forall i :: 0 <= i < k ==> path(g, cands[i].1, cands[i].2).None?
  {
    found, k := None, -1;
    for i := 0 to |cands|
      invariant found.None? ==> forall j :: 0 <= j < i ==> path(g, cands[j].1, cands[j].2).None?
    {
      var indexes := path(g, cands[i].1, cands[i].2);
      if indexes.None? {
        continue;
      }
      found, k := indexes, i;
      break;
    }
  }

  /** What one iteration settles on. */
  datatype Choice =
    | NoEnds
    | NoPath
    | Chosen(t: (real, Node, Node), indexes: seq<Node>)

  /** The orientation of `sorted(distances, reverse=find_longest)`. */
  predicate Before(findLongest: bool, x: (real, Node, Node), y: (real, Node, Node)) {
    if findLongest then TripleLe(y, x) else TripleLe(x, y)
  }

  /** `sorted(distances, reverse=find_longest)`. */
  function Ordered(findLongest: bool, distances: seq<(real, Node, Node)>): seq<(real, Node, Node)> {
    if findLongest then SortDescending(distances, TripleLe) else Sort(distances, TripleLe)
  }

  /** The ordered candidates are the same entries, each before every later one. */
  lemma OrderedSorted(findLongest: bool, distances: seq<(real, Node, Node)>)
    ensures var sorted := Ordered(findLongest, distances);
      && multiset(sorted) == multiset(distances)
      && forall i, j :: 0 <= i < j < |sorted| ==> Before(findLongest, sorted[i], sorted[j])
  {
    TripleLeTotal();
    if findLongest {
      SortDescendingSorted(distances, TripleLe);
    } else {
      SortSorted(distances, TripleLe);
    }
  }

  /** In a list ordered by `Before`, the first entry with a path comes before
      every entry with a path. */
  lemma FirstIsBest(g: Graph, findLongest: bool, sorted: seq<(real, Node, Node)>, k: nat,
                    path: (Graph, Node, Node) -> Option<seq<Node>>, t: (real, Node, Node))
    requires forall i, j :: 0 <= i < j < |sorted| ==> Before(findLongest, sorted[i], sorted[j])
    requires k < |sorted| && forall i :: 0 <= i < k ==> path(g, sorted[i].1, sorted[i].2).None?
    requires t in sorted && path(g, t.1, t.2).Some?
    ensures Before(findLongest, sorted[k], t)
  {
    TripleLeTotal();
    var m :| 0 <= m < |sorted| && sorted[m] == t;
    if m > k {
      assert Before(findLongest, sorted[k], sorted[m]);
    }
  }

  /** Every candidate pair has its entry among the distances. */
  lemma DistancesOfPairs(pairs: seq<(Node, Node)>, dist: (Node, Node) -> real, q: (Node, Node))
    requires q in pairs
    ensures (dist(q.0, q.1), q.0, q.1) in Distances(pairs, dist)
  {
    var i :| 0 <= i < |pairs| && pairs[i] == q;
    assert Distances(pairs, dist)[i] == (dist(q.0, q.1), q.0, q.1);
  }

  /** One iteration of the route loop on a graph with edges: the candidate
      pairs in ascending distance order (descending for the longest routes),
      and the first of them with a path. */
  method ChooseRoute(g: Graph, order: seq<Node>, findLongest: bool, dist: (Node, Node) -> real,
                     path: (Graph, Node, Node) -> Option<seq<Node>>, first: (Graph, Node) -> Node)
    returns (c: Choice)
    ensures c.NoEnds? <==> Endpoints(g, order, findLongest, first).None?
    ensures c.NoPath? ==>
              forall q :: q in Pairs(Endpoints(g, order, findLongest, first).value) ==> path(g, q.0, q.1).None?
    ensures c.Chosen? ==>
              && (c.t.1, c.t.2) in Pairs(Endpoints(g, order, findLongest, first).value)
              && c.t.0 == dist(c.t.1, c.t.2) && path(g, c.t.1, c.t.2) == Some(c.indexes)
    ensures c.Chosen? ==>
              forall q :: q in Pairs(Endpoints(g, order, findLongest, first).value) && path(g, q.0, q.1).Some? ==>
                Before(findLongest, c.t, (dist(q.0, q.1), q.0, q.1))
  {
    var ends := Endpoints(g, order, findLongest, first);
    if ends.None? {
      return NoEnds;
    }
    var pairs := Pairs(ends.value);
    var distances := Distances(pairs, dist);
    var sorted := Ordered(findLongest, distances);
    OrderedSorted(findLongest, distances);
    var found, k := FirstRoutable(g, sorted, path);
    if found.None? {
      forall q | q in pairs ensures path(g, q.0, q.1).None? {
        DistancesOfPairs(pairs, dist, q);
        assert (dist(q.0, q.1), q.0, q.1) in multiset(sorted);
      }
      return NoPath;
    }
    c := Chosen(sorted[k], found.value);
    assert sorted[k] in multiset(distances);
    var i :| 0 <= i < |distances| && distances[i] == sorted[k];
    assert (c.t.1, c.t.2) == pairs[i];
    forall q | q in pairs && path(g, q.0, q.1).Some?
      ensures Before(findLongest, c.t, (dist(q.0, q.1), q.0, q.1))
    {
      DistancesOfPairs(pairs, dist, q);
      assert (dist(q.0, q.1), q.0, q.1) in multiset(sorted);
      FirstIsBest(g, findLongest, sorted, k, path, (dist(q.0, q.1), q.0, q.1));
    }
  }

  /** What one iteration of the route loop does on the working graph `g` when
      it routes something: the graph has edges, and `t` is the first candidate
      pair in `sorted(distances, reverse=find_longest)` with a path, `p`. */
  ghost predicate Chose(g: Graph, order: seq<Node>, findLongest: bool, dist: (Node, Node) -> real,
                        path: (Graph, Node, Node) -> Option<seq<Node>>, first: (Graph, Node) -> Node,
                        t: (real, Node, Node), p: seq<Node>)
  {
    && !EdgeFree(g)
    && Endpoints(g, order, findLongest, first).Some?
    && (t.1, t.2) in Pairs(Endpoints(g, order, findLongest, first).value)
    && t.0 == dist(t.1, t.2) && path(g, t.1, t.2) == Some(p)
    && forall q {:trigger q in Pairs(Endpoints(g, order, findLongest, first).value)} ::
         q in Pairs(Endpoints(g, order, findLongest, first).value) && path(g, q.0, q.1).Some? ==>
           Before(findLongest, t, (dist(q.0, q.1), q.0, q.1))
  }

  /** The loop has nothing more to do on `g`: no edge is left, no candidate
      ends are found, or no candidate pair has a path. */
  ghost predicate Stopped(g: Graph, order: seq<Node>, findLongest: bool,
                          path: (Graph, Node, Node) -> Option<seq<Node>>, first: (Graph, Node) -> Node)
  {
    || EdgeFree(g)
    || Endpoints(g, order, findLongest, first).None?
    || forall q {:trigger q in Pairs(Endpoints(g, order, findLongest, first).value)} ::
         q in Pairs(Endpoints(g, order, findLongest, first).value) ==> path(g, q.0, q.1).None?
  }

  /** Path `i` of `used` was chosen, as `picks[i]`, on the graph left after
      removing the edges of the paths before it. */
  ghost predicate Replayed(graph: Graph, order: seq<Node>, findLongest: bool, dist: (Node, Node) -> real,
                           path: (Graph, Node, Node) -> Option<seq<Node>>, first: (Graph, Node) -> Node,
                           used: seq<seq<Node>>, picks: seq<(real, Node, Node)>)
  {
    && |picks| == |used|
    && (forall i :: 0 <= i < |used| ==> |used[i]| >= 1)
    && forall i {:trigger picks[i]} :: 0 <= i < |used| ==>
         Chose(Remaining(graph, used[..i]), order, findLongest, dist, path, first, picks[i], used[i])
  }

  lemma ReplayedSnoc(graph: Graph, order: seq<Node>, findLongest: bool, dist: (Node, Node) -> real,
                     path: (Graph, Node, Node) -> Option<seq<Node>>, first: (Graph, Node) -> Node,
                     used: seq<seq<Node>>, picks: seq<(real, Node, Node)>, t: (real, Node, Node), p: seq<Node>)
    requires Replayed(graph, order, findLongest, dist, path, first, used, picks) && |p| >= 1
    requires Chose(Remaining(graph, used), order, findLongest, dist, path, first, t, p)
    ensures Replayed(graph, order, findLongest, dist, path, first, used + [p], picks + [t])
  {
    var used', picks' := used + [p], picks + [t];
    forall i | 0 <= i < |used'|
      ensures Chose(Remaining(graph, used'[..i]), order, findLongest, dist, path, first, picks'[i], used'[i])
    {
      if i < |used| {
        assert used'[..i] == used[..i];
      } else {
        assert used'[..i] == used;
      }
    }
  }

  /** One iteration's choice is determined by the graph: the candidate order
      never ties two different pairs. */
  lemma ChoseUnique(g: Graph, order: seq<Node>, findLongest: bool, dist: (Node, Node) -> real,
                    path: (Graph, Node, Node) -> Option<seq<Node>>, first: (Graph, Node) -> Node,
                    t: (real, Node, Node), p: seq<Node>, t': (real, Node, Node), p': seq<Node>)
    requires Chose(g, order, findLongest, dist, path, first, t, p)
    requires Chose(g, order, findLongest, dist, path, first, t', p')
    ensures t == t' && p == p'
  {
    assert Before(findLongest, t, (dist(t'.1, t'.2), t'.1, t'.2));
    assert Before(findLongest, t', (dist(t.1, t.2), t.1, t.2));
    if findLongest {
      TripleLeAntisymmetric(t', t);
    } else {
      TripleLeAntisymmetric(t, t');
    }
  }

  /** Two replays from the same graph agree on their common prefix. */
  lemma {:induction false} ReplayedAgree(graph: Graph, order: seq<Node>, findLongest: bool, dist: (Node, Node) -> real,
                                         path: (Graph, Node, Node) -> Option<seq<Node>>, first: (Graph, Node) -> Node,
                                         used: seq<seq<Node>>, picks: seq<(real, Node, Node)>,
                                         used': seq<seq<Node>>, picks': seq<(real, Node, Node)>, n: nat)
    requires Replayed(graph, order, findLongest, dist, path, first, used, picks)
    requires Replayed(graph, order, findLongest, dist, path, first, used', picks')
    requires n <= |used| && n <= |used'|
    ensures used[..n] == used'[..n] && picks[..n] == picks'[..n]
  {
    if n > 0 {
      ReplayedAgree(graph, order, findLongest, dist, path, first, used, picks, used', picks', n - 1);
      var k := n - 1;
      assert used[..k] == used'[..k];
      ChoseUnique(Remaining(graph, used[..k]), order, findLongest, dist, path, first,
                  picks[k], used[k], picks'[k], used'[k]);
      assert used[..n] == used[..k] + [used[k]];
      assert used'[..n] == used'[..k] + [used'[k]];
      assert picks[..n] == picks[..k] + [picks[k]];
      assert picks'[..n] == picks'[..k] + [picks'[k]];
    }
  }

  /** `_graph_routes_main` is deterministic: a replay that has stopped is the
      only one, so the routed paths are fixed by the graph and the oracles. */
  lemma RoutesDetermined(graph: Graph, order: seq<Node>, findLongest: bool, dist: (Node, Node) -> real,
                         path: (Graph, Node, Node) -> Option<seq<Node>>, first: (Graph, Node) -> Node,
                         used: seq<seq<Node>>, picks: seq<(real, Node, Node)>,
                         used': seq<seq<Node>>, picks': seq<(real, Node, Node)>)
    requires Replayed(graph, order, findLongest, dist, path, first, used, picks)
    requires Stopped(Remaining(graph, used), order, findLongest, path, first)
    requires Replayed(graph, order, findLongest, dist, path, first, used', picks')
    requires Stopped(Remaining(graph, used'), order, findLongest, path, first)
    ensures used == used' && picks == picks'
  {
    if |used| < |used'| {
      ReplayedGoesOn(graph, order, findLongest, dist, path, first, used, picks, used', picks');
      assert false;
    } else if |used'| < |used| {
      ReplayedGoesOn(graph, order, findLongest, dist, path, first, used', picks', used, picks);
      assert false;
    } else {
      ReplayedAgree(graph, order, findLongest, dist, path, first, used, picks, used', picks', |used|);
      assert used == used[..|used|] && used' == used'[..|used'|];
      assert picks == picks[..|picks|] && picks' == picks'[..|picks'|];
    }
  }

  /** A replay longer than `used` goes on from the graph `used` leaves, so
      that graph has not stopped. */
  lemma ReplayedGoesOn(graph: Graph, order: seq<Node>, findLongest: bool, dist: (Node, Node) -> real,
                       path: (Graph, Node, Node) -> Option<seq<Node>>, first: (Graph, Node) -> Node,
                       used: seq<seq<Node>>, picks: seq<(real, Node, Node)>,
                       used': seq<seq<Node>>, picks': seq<(real, Node, Node)>)
    requires Replayed(graph, order, findLongest, dist, path, first, used, picks)
    requires Replayed(graph, order, findLongest, dist, path, first, used', picks')
    requires |used| < |used'|
    ensures !Stopped(Remaining(graph, used), order, findLongest, path, first)
  {
    var n := |used|;
    ReplayedAgree(graph, order, findLongest, dist, path, first, used, picks, used', picks', n);
    assert used'[..n] == used;
    var t := picks'[n];
    var g := Remaining(graph, used);
    assert Chose(g, order, findLongest, dist, path, first, t, used'[n]);
    assert (t.1, t.2) in Pairs(Endpoints(g, order, findLongest, first).value);
  }

  /** How `_graph_routes_main` ends. Only `Done` returns; in the other two the
      source never returns on its own: with no connected candidate pair the
      loop repeats on an unchanged graph until the watchdog interrupts it, and
      a missing node of degree two raises IndexError, which `graph_routes`
      turns into the same timeout. */
  datatype RoutesOutcome =
    | Done(routes: seq<Route>)
    | Stuck(routes: seq<Route>)
    | NoDegreeTwo(routes: seq<Route>)

  /** `_graph_routes_main` on a copy of `graph`: while edges remain, route the
      first connected candidate pair and remove its path's edges. `used` lists
      the removed paths in order, `rest` the final working graph. */
  method GraphRoutesMain(graph: Graph, order: seq<Node>, findLongest: bool, point: Node -> Point,
                         dist: (Node, Node) -> real, path: (Graph, Node, Node) -> Option<seq<Node>>,
                         first: (Graph, Node) -> Node)
    returns (outcome: RoutesOutcome, ghost used: seq<seq<Node>>, ghost picks: seq<(real, Node, Node)>, ghost rest: Graph)
    requires WellFormed(graph) && Enumerates(order, graph) && SoundPathOracle(path)
    ensures WellFormed(rest) && rest.Keys == graph.Keys && Enumerates(order, rest)
    ensures outcome.routes == PathRoutes(used, point)
    ensures EdgeDisjoint(used, rest, graph)
    ensures Edges(graph) == Edges(rest) + UnionEdges(used)
    ensures Replayed(graph, order, findLongest, dist, path, first, used, picks)
    ensures rest == Remaining(graph, used)
    ensures Stopped(rest, order, findLongest, path, first)
    ensures outcome.Done? <==> EdgeFree(rest)
    ensures outcome.NoDegreeTwo? ==> Endpoints(rest, order, findLongest, first).None?
    ensures outcome.Stuck? ==>
              && Endpoints(rest, order, findLongest, first).Some?
              && forall q :: q in Pairs(Endpoints(rest, order, findLongest, first).value) ==>
                   path(rest, q.0, q.1).None?
  {
    var g := graph;
    var routes: seq<Route> := [];
    used, picks := [], [];
    while true
      invariant WellFormed(g) && g.Keys == graph.Keys
      invariant Edges(g) <= Edges(graph)
      invariant routes == PathRoutes(used, point)
      invariant EdgeDisjoint(used, g, graph)
      invariant Edges(graph) == Edges(g) + UnionEdges(used)
      invariant Replayed(graph, order, findLongest, dist, path, first, used, picks)
      decreases Edges(g)
    {
      RemainingIs(graph, used, g);
      if EdgeFree(g) {
        outcome := Done(routes);
        break;
      }
      var c := ChooseRoute(g, order, findLongest, dist, path, first);
      if c.NoEnds? {
        outcome := NoDegreeTwo(routes);
        break;
      }
      if c.NoPath? {
        outcome := Stuck(routes);
        break;
      }
      var indexes := c.indexes;
      assert IsPathBetween(g, indexes, c.t.1, c.t.2);
      var g' := RemovePathEdges(g, indexes);
      RemoveStep(used, g, graph, indexes, g');
      PathRoutesSnoc(used, indexes, point);
      ReplayedSnoc(graph, order, findLongest, dist, path, first, used, picks, c.t, indexes);
      routes := routes + [RoutePoints(indexes, point)];
      used, picks := used + [indexes], picks + [c.t];
      g := g';
    }
    rest := g;
    RemainingIs(graph, used, g);
    if !outcome.Done? {
      assert !EdgeFree(rest);
    }
  }

  // ---------------------------------------------------------------------
  // polygon_skeleton_graphs

  /** A list of skeleton graphs, or the bare empty `Graph()` returned for four
      points or fewer (iterating it yields no skeleton). */
  datatype Skeletons = BareGraph | GraphList(graphs: seq<Graph>)

  /** `_QHullFailure` from the Voronoi step, or the error `divide_points`
      raises on a degenerate split. */
  datatype GraphsFailure = QHullFailure | DivideFailure

  /** Point lists at least this long are divided before skeletonising. */
  const MaxPoints: nat := 5000

  /** What the model needs from `divide_points`: when it returns, the points
      fall into two non-empty halves (an empty half makes numpy raise), each
      with its bounding polygon. */
  ghost predicate SoundDivide<P>(divide: seq<Point> -> Option<(seq<Point>, seq<Point>, P, P)>) {
    forall ps :: divide(ps).Some? ==>
      |divide(ps).value.0| > 0 && |divide(ps).value.1| > 0 &&
      |divide(ps).value.0| + |divide(ps).value.1| == |ps|
  }

  /** The number of points in a list of point lists. */
  function Total(lists: seq<seq<Point>>): nat {
    if |lists| == 0 then 0 else Total(lists[..|lists| - 1]) + |lists[|lists| - 1]|
  }

  /** The termination measure of the worklist: splitting a list of `n` points
      into two non-empty halves turns `2n - 1` into `2n - 2`. */
  function Weight(lists: seq<seq<Point>>): nat {
    if |lists| == 0 then 0
    else Weight(lists[..|lists| - 1]) + (if |lists[|lists| - 1]| == 0 then 0 else 2 * |lists[|lists| - 1]| - 1)
  }

  lemma {:induction false} TotalHead(lists: seq<seq<Point>>)
    requires |lists| > 0
    ensures Total(lists) == |lists[0]| + Total(lists[1..])
    ensures Weight(lists) == (if |lists[0]| == 0 then 0 else 2 * |lists[0]| - 1) + Weight(lists[1..])
  {
    if |lists| > 1 {
      var init := lists[..|lists| - 1];
      TotalHead(init);
      assert init[1..] == lists[1..][..|lists[1..]| - 1];
    } else {
      assert lists[1..] == [];
    }
  }

  lemma TotalAppend(lists: seq<seq<Point>>, x: seq<Point>)
    ensures Total(lists + [x]) == Total(lists) + |x|
    ensures Weight(lists + [x]) == Weight(lists) + (if |x| == 0 then 0 else 2 * |x| - 1)
  {
    assert (lists + [x])[..|lists|] == lists;
  }

  /** The body of `for (_points, _poly) in ...`: a half below `MaxPoints` is
      skeletonised inside its bounding polygon `hpoly` as `clip` trims it
      (buffered and intersected with the whole polygon), a larger one goes
      to the back of the worklist without its polygon. `bounds` are the
      bounding polygons of the halves skeletonised so far. */
  method PlaceHalf<P>(half: seq<Point>, hpoly: P, worklist: seq<seq<Point>>, graphs: seq<Graph>,
                      ghost pieces: seq<seq<Point>>, ghost bounds: seq<P>,
                      clip: P -> P, dots: (P, seq<Point>) -> Option<Graph>)
    returns (ok: bool, worklist': seq<seq<Point>>, graphs': seq<Graph>,
             ghost pieces': seq<seq<Point>>, ghost bounds': seq<P>)
    ensures !ok <==> |half| < MaxPoints && dots(clip(hpoly), half).None?
    ensures ok && |half| < MaxPoints ==>
              && worklist' == worklist && graphs' == graphs + [dots(clip(hpoly), half).value]
              && pieces' == pieces + [half] && bounds' == bounds + [hpoly]
    ensures ok && |half| >= MaxPoints ==>
              worklist' == worklist + [half] && graphs' == graphs && pieces' == pieces && bounds' == bounds
  {
    ok, worklist', graphs', pieces', bounds' := true, worklist, graphs, pieces, bounds;
    if |half| < MaxPoints {
      var g := dots(clip(hpoly), half);
      if g.None? {
        ok := false;
        return;
      }
      graphs' := graphs + [g.value];
      pieces' := pieces + [half];
      bounds' := bounds + [hpoly];
    } else {
      worklist' := worklist + [half];
    }
  }

  /** What holds of the worklist, with `pending` points taken off it and not
      yet placed: each skeleton is that of a piece inside its clipped
      bounding polygon. */
  ghost predicate WorkState<P>(points: seq<Point>, worklist: seq<seq<Point>>, graphs: seq<Graph>,
                               pieces: seq<seq<Point>>, bounds: seq<P>, clip: P -> P,
                               dots: (P, seq<Point>) -> Option<Graph>, pending: nat)
  {
    && (forall i :: 0 <= i < |worklist| ==> |worklist[i]| >= MaxPoints)
    && |graphs| == |pieces| == |bounds|
    && (forall i :: 0 <= i < |pieces| ==>
          0 < |pieces[i]| < MaxPoints && dots(clip(bounds[i]), pieces[i]) == Some(graphs[i]))
    && Total(worklist) + Total(pieces) + pending == |points|
  }

  /** Taking the head off the worklist leaves its points pending. */
  lemma TakeHead<P>(points: seq<Point>, worklist: seq<seq<Point>>, graphs: seq<Graph>,
                    pieces: seq<seq<Point>>, bounds: seq<P>, clip: P -> P,
                    dots: (P, seq<Point>) -> Option<Graph>)
    requires WorkState(points, worklist, graphs, pieces, bounds, clip, dots, 0) && |worklist| > 0
    ensures WorkState(points, worklist[1..], graphs, pieces, bounds, clip, dots, |worklist[0]|)
    ensures Weight(worklist[1..]) + 2 * |worklist[0]| - 1 == Weight(worklist)
  {
    TotalHead(worklist);
  }

  /** Placing one non-empty half keeps the state, the measure growing by less
      than twice the half. */
  lemma PlaceStep<P>(points: seq<Point>, worklist: seq<seq<Point>>, graphs: seq<Graph>,
                     pieces: seq<seq<Point>>, bounds: seq<P>, clip: P -> P,
                     dots: (P, seq<Point>) -> Option<Graph>, pending: nat, half: seq<Point>, hpoly: P,
                     w: seq<seq<Point>>, g: seq<Graph>, q: seq<seq<Point>>, qb: seq<P>)
    requires WorkState(points, worklist, graphs, pieces, bounds, clip, dots, pending + |half|) && |half| > 0
    requires |half| < MaxPoints ==>
               && dots(clip(hpoly), half).Some? && w == worklist && g == graphs + [dots(clip(hpoly), half).value]
               && q == pieces + [half] && qb == bounds + [hpoly]
    requires |half| >= MaxPoints ==> w == worklist + [half] && g == graphs && q == pieces && qb == bounds
    ensures WorkState(points, w, g, q, qb, clip, dots, pending)
    ensures Weight(w) <= Weight(worklist) + 2 * |half| - 1
  {
    TotalAppend(worklist, half);
    TotalAppend(pieces, half);
  }

  /** One of the two halves of a division is small enough to skeletonise
      and its skeleton fails in QHull. */
  predicate HalfFails<P>(halves: (seq<Point>, seq<Point>, P, P), clip: P -> P, dots: (P, seq<Point>) -> Option<Graph>) {
    || (|halves.0| < MaxPoints && dots(clip(halves.2), halves.0).None?)
    || (|halves.1| < MaxPoints && dots(clip(halves.3), halves.1).None?)
  }

  /** One round of the `while point_lists` loop: the head of the worklist is
      divided and both halves placed, or the division or a skeleton fails. */
  method SplitHead<P>(ghost points: seq<Point>, worklist: seq<seq<Point>>, graphs: seq<Graph>,
                      ghost pieces: seq<seq<Point>>, ghost bounds: seq<P>,
                      divide: seq<Point> -> Option<(seq<Point>, seq<Point>, P, P)>,
                      clip: P -> P, dots: (P, seq<Point>) -> Option<Graph>)
    returns (failure: Option<GraphsFailure>, worklist': seq<seq<Point>>, graphs': seq<Graph>,
             ghost pieces': seq<seq<Point>>, ghost bounds': seq<P>)
    requires SoundDivide(divide) && |worklist| > 0
    requires WorkState(points, worklist, graphs, pieces, bounds, clip, dots, 0)
    ensures failure == Some(DivideFailure) <==> divide(worklist[0]).None?
    ensures failure == Some(QHullFailure) <==>
              divide(worklist[0]).Some? && HalfFails(divide(worklist[0]).value, clip, dots)
    ensures failure.None? || failure == Some(DivideFailure) || failure == Some(QHullFailure)
    ensures failure.None? ==>
              WorkState(points, worklist', graphs', pieces', bounds', clip, dots, 0) && Weight(worklist') < Weight(worklist)
  {
    var halves := divide(worklist[0]);
    if halves.None? {
      return Some(DivideFailure), worklist, graphs, pieces, bounds;
    }
    var (points1, points2, poly1, poly2) := halves.value;
    TakeHead(points, worklist, graphs, pieces, bounds, clip, dots);
    var ok1, w1, g1, q1, qb1 := PlaceHalf(points1, poly1, worklist[1..], graphs, pieces, bounds, clip, dots);
    if !ok1 {
      return Some(QHullFailure), worklist, graphs, pieces, bounds;
    }
    PlaceStep(points, worklist[1..], graphs, pieces, bounds, clip, dots, |points2|, points1, poly1, w1, g1, q1, qb1);
    var ok2, w2, g2, q2, qb2 := PlaceHalf(points2, poly2, w1, g1, q1, qb1, clip, dots);
    if !ok2 {
      return Some(QHullFailure), worklist, graphs, pieces, bounds;
    }
    PlaceStep(points, w1, g1, q1, qb1, clip, dots, 0, points2, poly2, w2, g2, q2, qb2);
    failure, worklist', graphs', pieces', bounds' := None, w2, g2, q2, qb2;
  }

  /** `polygon_skeleton_graphs` on `polygon` and its densified perimeter
      `points`: no graph for four points or fewer, the skeleton of the whole
      polygon below `MaxPoints`, and otherwise a first-in first-out worklist
      of halves, each half below `MaxPoints` skeletonised inside its clipped
      bounding polygon and each larger half queued again. `pieces` are the
      point lists that were skeletonised, in order, and `bounds` the bounding
      polygons `divide` gave them. */
  method PolygonSkeletonGraphs<P>(polygon: P, points: seq<Point>,
                                  divide: seq<Point> -> Option<(seq<Point>, seq<Point>, P, P)>,
                                  clip: P -> P, dots: (P, seq<Point>) -> Option<Graph>)
    returns (r: Result<Skeletons, GraphsFailure>, ghost pieces: seq<seq<Point>>, ghost bounds: seq<P>)
    requires SoundDivide(divide)
    ensures |points| <= 4 ==> r == Ok(BareGraph)
    ensures 4 < |points| < MaxPoints ==>
              r == (if dots(polygon, points).Some? then Ok(GraphList([dots(polygon, points).value]))
                    else Err(QHullFailure))
    ensures r == Err(DivideFailure) ==> |points| >= MaxPoints && exists l :: divide(l).None?
    ensures r == Err(QHullFailure) && |points| >= MaxPoints ==>
              exists l :: divide(l).Some? && HalfFails(divide(l).value, clip, dots)
    ensures r.Ok? && |points| >= MaxPoints ==>
              && r.value.GraphList? && |pieces| == |bounds| == |r.value.graphs| && Total(pieces) == |points|
              && forall i :: 0 <= i < |pieces| ==>
                   0 < |pieces[i]| < MaxPoints && dots(clip(bounds[i]), pieces[i]) == Some(r.value.graphs[i])
  {
    pieces, bounds := [], [];
    if |points| <= 4 {
      return Ok(BareGraph), pieces, bounds;
    }
    if |points| < MaxPoints {
      var g := dots(polygon, points);
      if g.None? {
        return Err(QHullFailure), pieces, bounds;
      }
      return Ok(GraphList([g.value])), pieces, bounds;
    }
    var worklist := [points];
    var graphs: seq<Graph> := [];
    assert Total(worklist) == Total([]) + |points|;
    while |worklist| > 0
      invariant WorkState(points, worklist, graphs, pieces, bounds, clip, dots, 0)
      decreases Weight(worklist)
    {
      var failure;
      ghost var head := worklist[0];
      failure, worklist, graphs, pieces, bounds := SplitHead(points, worklist, graphs, pieces, bounds, divide, clip, dots);
      if failure.Some? {
        return Err(failure.value), pieces, bounds;
      }
    }
    r := Ok(GraphList(graphs));
  }

  // ---------------------------------------------------------------------
  // skeleton_routes

  /** `graph_routes(skeleton, True)` for each graph in turn, concatenated; None
      when one of them runs overtime. */
  function AllRoutes(graphs: seq<Graph>, graphRoutes: Graph -> Option<seq<Route>>): (r: Option<seq<Route>>)
    ensures r.None? <==> exists i :: 0 <= i < |graphs| && graphRoutes(graphs[i]).None?
    ensures r.Some? && |graphs| > 0 ==> graphRoutes(graphs[0]).value <= r.value
    ensures r.Some? && |graphs| > 0 ==>
              r.value == graphRoutes(graphs[0]).value + AllRoutes(graphs[1..], graphRoutes).value
    ensures r.Some? ==> forall x :: x in r.value <==>
              exists i :: 0 <= i < |graphs| && x in graphRoutes(graphs[i]).value
  {
    if |graphs| == 0 then Some([])
    else
      match graphRoutes(graphs[0])
      case None => None
      case Some(routes) =>
        var more := AllRoutes(graphs[1..], graphRoutes);
        assert forall i :: 1 <= i < |graphs| ==> graphs[1..][i - 1] == graphs[i];
        if more.None? then None else Some(routes + more.value)
  }

  /** `skeleton_routes`: the routes of every skeleton longer than `min_length`.
      The bare graph yields no skeleton and so no route. */
  function SkeletonRoutes(skeletons: Skeletons, graphRoutes: Graph -> Option<seq<Route>>,
                          dist: (Point, Point) -> real, minLength: real): (r: Option<seq<Route>>)
    ensures skeletons.BareGraph? ==> r == Some([])
    ensures r.None? <==>
              skeletons.GraphList? && exists i :: 0 <= i < |skeletons.graphs| && graphRoutes(skeletons.graphs[i]).None?
    ensures r.Some? ==> forall x :: x in r.value ==> RouteLength(x, dist) > minLength
    ensures r.Some? && skeletons.GraphList? ==> forall x :: x in r.value <==>
              && (exists i :: 0 <= i < |skeletons.graphs| && x in graphRoutes(skeletons.graphs[i]).value)
              && RouteLength(x, dist) > minLength
  {
    match skeletons
    case BareGraph => Some([])
    case GraphList(graphs) =>
      match AllRoutes(graphs, graphRoutes)
      case None => None
      case Some(routes) =>
        var kept := KeepLonger(routes, dist, minLength);
        assert forall x :: x in kept <==> x in routes && RouteLength(x, dist) > minLength by {
          forall x ensures x in kept <==> x in routes && RouteLength(x, dist) > minLength {
            KeepLongerMembers(routes, dist, minLength, x);
          }
        }
        Some(kept)
  }

  // ---------------------------------------------------------------------
  // multigeom_centerline

  datatype GeomType = MultiLineStringType | MultiPolygonType | OtherType(name: string)

  /** The input geometry as the dispatch sees it: its type, and whether it is
      falsy (`None` or empty). */
  datatype Geometry = Geometry(kind: GeomType, falsy: bool)

  /** What one buffer polygon gives: skipped on a QHull failure, an error that
      propagates, or its routes. */
  datatype PolygonRoutes = QHullFailed | DivideFailed | Overtime | Routes(routes: seq<Route>)

  datatype CenterlineError = ValueError(kind: string) | GraphRoutesOvertime | DivideError

  /** A polygon whose failure ends the run. */
  predicate Fails(pr: PolygonRoutes) {
    pr.DivideFailed? || pr.Overtime?
  }

  /** The error a failing polygon raises. */
  function FailureOf(pr: PolygonRoutes): CenterlineError
    requires Fails(pr)
  {
    if pr.DivideFailed? then DivideError else GraphRoutesOvertime
  }

  /** `[simplify(route) for route in routes]`. */
  function SimplifyAll(routes: seq<Route>, simplify: Route -> Route): seq<Route> {
    seq(|routes|, i requires 0 <= i < |routes| => simplify(routes[i]))
  }

  /** What each buffer polygon adds to the lines: its simplified routes, and
      nothing when QHull failed on it. */
  function PolygonLines<P>(polys: seq<P>, routesOf: P -> PolygonRoutes, simplify: Route -> Route)
    : seq<seq<Route>>
  {
    seq(|polys|, i requires 0 <= i < |polys| =>
      if routesOf(polys[i]).Routes? then SimplifyAll(routesOf(polys[i]).routes, simplify) else [])
  }

  /** The lists of `xss` one after another. */
  function Concat(xss: seq<seq<Route>>): seq<Route> {
    if |xss| == 0 then [] else xss[0] + Concat(xss[1..])
  }

  /** The loop over the buffer polygons, one polygon in front of the rest. */
  function CollectLines<P>(polys: seq<P>, routesOf: P -> PolygonRoutes, simplify: Route -> Route)
    : Result<seq<Route>, CenterlineError>
  {
    if |polys| == 0 then Ok([])
    else Prepend(routesOf(polys[0]), CollectLines(polys[1..], routesOf, simplify), simplify)
  }

  /** What the loop over the buffer polygons gives: a QHull failure skips the
      polygon, overtime or a failed division ends the run with the first such
      polygon's error, and otherwise the lines are every other polygon's
      simplified routes, polygon after polygon. */
  lemma {:induction false} CollectLinesMeaning<P>(polys: seq<P>, routesOf: P -> PolygonRoutes, simplify: Route -> Route)
    ensures var r := CollectLines(polys, routesOf, simplify);
      && (r.Ok? <==> forall i :: 0 <= i < |polys| ==> !Fails(routesOf(polys[i])))
      && (r.Ok? ==> r.value == Concat(PolygonLines(polys, routesOf, simplify)))
      && (r.Err? ==> exists i :: && 0 <= i < |polys| && Fails(routesOf(polys[i]))
                                 && r.error == FailureOf(routesOf(polys[i]))
                                 && forall j :: 0 <= j < i ==> !Fails(routesOf(polys[j])))
  {
    if |polys| > 0 {
      CollectLinesMeaning(polys[1..], routesOf, simplify);
      assert forall i :: 1 <= i < |polys| ==> polys[1..][i - 1] == polys[i];
      assert PolygonLines(polys, routesOf, simplify)[1..] == PolygonLines(polys[1..], routesOf, simplify);
      var rest := CollectLines(polys[1..], routesOf, simplify);
      if routesOf(polys[0]).Routes? && rest.Err? {
        var i :| && 0 <= i < |polys[1..]| && Fails(routesOf(polys[1..][i]))
                 && rest.error == FailureOf(routesOf(polys[1..][i]))
                 && forall j :: 0 <= j < i ==> !Fails(routesOf(polys[1..][j]));
        assert polys[i + 1] == polys[1..][i];
      }
      if routesOf(polys[0]).QHullFailed? && rest.Err? {
        var i :| && 0 <= i < |polys[1..]| && Fails(routesOf(polys[1..][i]))
                 && rest.error == FailureOf(routesOf(polys[1..][i]))
                 && forall j :: 0 <= j < i ==> !Fails(routesOf(polys[1..][j]));
        assert polys[i + 1] == polys[1..][i];
      }
    }
  }

  /** One polygon's turn in front of the lines of the polygons after it. */
  function Prepend(pr: PolygonRoutes, rest: Result<seq<Route>, CenterlineError>, simplify: Route -> Route)
    : Result<seq<Route>, CenterlineError>
  {
    match pr
    case QHullFailed => rest
    case DivideFailed => Err(DivideError)
    case Overtime => Err(GraphRoutesOvertime)
    case Routes(routes) =>
      if rest.Err? then rest
      else Ok(SimplifyAll(routes, simplify) + rest.value)
  }

  /** A polygon whose skeleton fails in QHull changes nothing, wherever it is. */
  lemma {:induction false} SkipQHull<P>(a: seq<P>, p: P, b: seq<P>, routesOf: P -> PolygonRoutes,
                                       simplify: Route -> Route)
    requires routesOf(p).QHullFailed?
    ensures CollectLines(a + [p] + b, routesOf, simplify) == CollectLines(a + b, routesOf, simplify)
  {
    if |a| == 0 {
      assert (a + [p] + b)[1..] == a + b;
    } else {
      SkipQHull(a[1..], p, b, routesOf, simplify);
      assert (a + [p] + b)[0] == (a + b)[0] == a[0];
      assert (a + [p] + b)[1..] == a[1..] + [p] + b;
      assert (a + b)[1..] == a[1..] + b;
    }
  }

  /** `multigeom_centerline`: False (here `None`) for a falsy input or when no
      line survives; ValueError for a type other than MultiLineString and
      MultiPolygon; the first failing buffer polygon's error; otherwise the
      simplified routes of the buffer polygons, polygon after polygon. */
  function MultigeomCenterline<P>(geom: Geometry, buffered: Geometry -> seq<P>,
                                  routesOf: P -> PolygonRoutes, simplify: Route -> Route)
    : (r: Result<Option<seq<Route>>, CenterlineError>)
    ensures geom.falsy ==> r == Ok(None)
    ensures !geom.falsy && geom.kind.OtherType? ==> r == Err(ValueError(geom.kind.name))
    ensures var polys := buffered(geom);
      !geom.falsy && !geom.kind.OtherType? ==>
        && (r.Ok? <==> forall i :: 0 <= i < |polys| ==> !Fails(routesOf(polys[i])))
        && (r == Ok(None) <==> r.Ok? && Concat(PolygonLines(polys, routesOf, simplify)) == [])
        && (r.Ok? && r.value.Some? ==> r.value.value == Concat(PolygonLines(polys, routesOf, simplify)))
        && (r.Err? ==> exists i :: && 0 <= i < |polys| && Fails(routesOf(polys[i]))
                                   && r.error == FailureOf(routesOf(polys[i]))
                                   && forall j :: 0 <= j < i ==> !Fails(routesOf(polys[j])))
    ensures r.Ok? && r.value.Some? ==> |r.value.value| > 0
  {
    if geom.falsy then Ok(None)
    else if geom.kind.OtherType? then Err(ValueError(geom.kind.name))
    else
      CollectLinesMeaning(buffered(geom), routesOf, simplify);
      match CollectLines(buffered(geom), routesOf, simplify)
      case Err(e) => Err(e)
      case Ok(lines) => if |lines| == 0 then Ok(None) else Ok(Some(lines))
  }

  lemma {:induction false} ConcatOfEmpty(xss: seq<seq<Route>>)
    requires forall i :: 0 <= i < |xss| ==> xss[i] == []
    ensures Concat(xss) == []
  {
    if |xss| > 0 {
      ConcatOfEmpty(xss[1..]);
    }
  }

  /** When every buffer polygon fails in QHull the centerline is False. */
  lemma CenterlineAllSkipped<P>(geom: Geometry, buffered: Geometry -> seq<P>,
                                routesOf: P -> PolygonRoutes, simplify: Route -> Route)
    requires !geom.kind.OtherType?
    requires forall i :: 0 <= i < |buffered(geom)| ==> routesOf(buffered(geom)[i]).QHullFailed?
    ensures MultigeomCenterline(geom, buffered, routesOf, simplify) == Ok(None)
  {
    ConcatOfEmpty(PolygonLines(buffered(geom), routesOf, simplify));
  }

  // ---------------------------------------------------------------------
  // waynode_multilines

  type NodeId = string

  /** A kept way: its key and its node ids. */
  datatype Way<K> = Way(key: K, nodes: seq<NodeId>)

  /** The projected points of a way, `mercator(lon, lat)` for each node; the
      first unknown node id is the KeyError the lookup raises. */
  function WayLine(ids: seq<NodeId>, nodes: map<NodeId, (real, real)>, mercator: (real, real) -> Point)
    : (r: Result<seq<Point>, NodeId>)
    ensures r.Ok? <==> forall id :: id in ids ==> id in nodes
    ensures r.Ok? ==> |r.value| == |ids|
    ensures r.Ok? ==> forall k :: 0 <= k < |ids| ==> r.value[k] == mercator(nodes[ids[k]].1, nodes[ids[k]].0)
    ensures r.Err? ==> r.error in ids && r.error !in nodes
  {
    if |ids| == 0 then Ok([])
    else if ids[0] !in nodes then Err(ids[0])
    else
      var rest := WayLine(ids[1..], nodes, mercator);
      assert forall id :: id in ids ==> id == ids[0] || id in ids[1..];
      if rest.Err? then rest
      else Ok([mercator(nodes[ids[0]].1, nodes[ids[0]].0)] + rest.value)
  }

  /** A way long enough to become a line: two node ids or more. */
  predicate Drawn<K>(way: Way<K>) {
    |way.nodes| >= 2
  }

  /** How a way's node ids become its line. */
  type LineOf = seq<NodeId> -> Result<seq<Point>, NodeId>

  /** The script's way-to-line conversion, as a LineOf. */
  function WayLineOf(nodes: map<NodeId, (real, real)>, mercator: (real, real) -> Point): LineOf {
    ids => WayLine(ids, nodes, mercator)
  }

  /** The lines of the drawn ways with key `key`, in way order. */
  ghost function LinesOf<K>(ways: seq<Way<K>>, key: K, lineOf: LineOf): seq<seq<Point>>
    requires forall i :: 0 <= i < |ways| && Drawn(ways[i]) ==> lineOf(ways[i].nodes).Ok?
  {
    if |ways| == 0 then []
    else
      var last := ways[|ways| - 1];
      LinesOf(ways[..|ways| - 1], key, lineOf) +
        (if last.key == key && Drawn(last) then [lineOf(last.nodes).value] else [])
  }

  /** The lines of a concatenation of ways are the lines of each part, in order. */
  lemma {:induction false} LinesOfAppend<K>(a: seq<Way<K>>, b: seq<Way<K>>, key: K,
                                            lineOf: LineOf)
    requires forall i :: 0 <= i < |a| && Drawn(a[i]) ==> lineOf(a[i].nodes).Ok?
    requires forall i :: 0 <= i < |b| && Drawn(b[i]) ==> lineOf(b[i].nodes).Ok?
    ensures forall i :: 0 <= i < |a + b| && Drawn((a + b)[i]) ==> lineOf((a + b)[i].nodes).Ok?
    ensures LinesOf(a + b, key, lineOf) == LinesOf(a, key, lineOf) + LinesOf(b, key, lineOf)
  {
    assert forall i :: 0 <= i < |a + b| ==> (a + b)[i] == if i < |a| then a[i] else b[i - |a|];
    if |b| > 0 {
      var b' := b[..|b| - 1];
      LinesOfAppend(a, b', key, lineOf);
      assert (a + b)[..|a + b| - 1] == a + b';
    } else {
      assert a + b == a;
    }
  }

  /** The dictionary after the first `n` ways: every drawn way so far has
      known nodes, and each key seen maps to its lines. */
  ghost predicate Grouped<K(!new)>(ways: seq<Way<K>>, n: nat, multilines: map<K, seq<seq<Point>>>,
                             lineOf: LineOf)
    requires n <= |ways|
  {
    && (forall j :: 0 <= j < n && Drawn(ways[j]) ==> lineOf(ways[j].nodes).Ok?)
    && (forall key :: key in multilines <==> exists j :: 0 <= j < n && Drawn(ways[j]) && ways[j].key == key)
    && (forall key :: key in multilines ==> multilines[key] == LinesOf(ways[..n], key, lineOf))
  }

  /** A way of fewer than two node ids leaves the dictionary as it is. */
  lemma GroupSkip<K(!new)>(ways: seq<Way<K>>, n: nat, multilines: map<K, seq<seq<Point>>>,
                     lineOf: LineOf)
    requires n < |ways| && Grouped(ways, n, multilines, lineOf) && !Drawn(ways[n])
    ensures Grouped(ways, n + 1, multilines, lineOf)
  {
    assert ways[..n + 1][..n] == ways[..n];
  }

  /** A drawn way appends its line under its key. */
  lemma GroupAdd<K(!new)>(ways: seq<Way<K>>, n: nat, multilines: map<K, seq<seq<Point>>>,
                    lineOf: LineOf, line: seq<Point>)
    requires n < |ways| && Grouped(ways, n, multilines, lineOf) && Drawn(ways[n])
    requires lineOf(ways[n].nodes) == Ok(line)
    ensures var lines := if ways[n].key in multilines then multilines[ways[n].key] else [];
      Grouped(ways, n + 1, multilines[ways[n].key := lines + [line]], lineOf)
  {
    assert ways[..n + 1][..n] == ways[..n];
    var key := ways[n].key;
    if key !in multilines {
      LinesOfNone(ways[..n], key, lineOf);
    }
  }

  /** `waynode_multilines`: the lines of the ways of two node ids or more,
      grouped under their key in way order; KeyError on the first unknown node
      id of such a way. Ways are given in the order `ways.values()` yields. */
  method WaynodeMultilines<K(==,!new)>(ways: seq<Way<K>>, nodes: map<NodeId, (real, real)>,
                                  mercator: (real, real) -> Point)
    returns (r: Result<map<K, seq<seq<Point>>>, NodeId>)
    ensures r.Err? <==> exists i :: 0 <= i < |ways| && Drawn(ways[i]) && WayLine(ways[i].nodes, nodes, mercator).Err?
    ensures r.Ok? ==> forall key :: key in r.value <==> exists i :: 0 <= i < |ways| && Drawn(ways[i]) && ways[i].key == key
    ensures r.Ok? ==> forall key :: key in r.value ==> r.value[key] == LinesOf(ways, key, WayLineOf(nodes, mercator))
  {
    r := GroupLines(ways, WayLineOf(nodes, mercator));
  }

  /** The loop of `waynode_multilines` for any conversion of node ids into a
      line: the first failing drawn way ends it with its error. */
  method GroupLines<K(==,!new)>(ways: seq<Way<K>>, lineOf: LineOf)
    returns (r: Result<map<K, seq<seq<Point>>>, NodeId>)
    ensures r.Err? <==> exists i :: 0 <= i < |ways| && Drawn(ways[i]) && lineOf(ways[i].nodes).Err?
    ensures r.Ok? ==> forall key :: key in r.value <==> exists i :: 0 <= i < |ways| && Drawn(ways[i]) && ways[i].key == key
    ensures r.Ok? ==> forall key :: key in r.value ==> r.value[key] == LinesOf(ways, key, lineOf)
  {
    var multilines: map<K, seq<seq<Point>>> := map[];
    for i := 0 to |ways|
      invariant Grouped(ways, i, multilines, lineOf)
    {
      var way := ways[i];
      if |way.nodes| < 2 {
        GroupSkip(ways, i, multilines, lineOf);
        continue;
      }
      var line := lineOf(way.nodes);
      if line.Err? {
        assert Drawn(ways[i]) && lineOf(ways[i].nodes).Err?;
        return Err(line.error);
      }
      GroupAdd(ways, i, multilines, lineOf, line.value);
      var lines := if way.key in multilines then multilines[way.key] else [];
      multilines := multilines[way.key := lines + [line.value]];
    }
    GroupedAll(ways, multilines, lineOf);
    r := Ok(multilines);
  }

  /** The dictionary after every way: no drawn way failed, and each key of a
      drawn way maps to all its lines. */
  lemma GroupedAll<K(!new)>(ways: seq<Way<K>>, multilines: map<K, seq<seq<Point>>>, lineOf: LineOf)
    requires Grouped(ways, |ways|, multilines, lineOf)
    ensures forall i :: 0 <= i < |ways| && Drawn(ways[i]) ==> lineOf(ways[i].nodes).Ok?
    ensures forall key :: key in multilines <==> exists i :: 0 <= i < |ways| && Drawn(ways[i]) && ways[i].key == key
    ensures forall key :: key in multilines ==> multilines[key] == LinesOf(ways, key, lineOf)
  {
    assert ways[..|ways|] == ways;
  }

  /** A key with no drawn way has no lines. */
  lemma {:induction false} LinesOfNone<K>(ways: seq<Way<K>>, key: K, lineOf: LineOf)
    requires forall i :: 0 <= i < |ways| && Drawn(ways[i]) ==> lineOf(ways[i].nodes).Ok?
    requires forall i :: 0 <= i < |ways| && Drawn(ways[i]) ==> ways[i].key != key
    ensures LinesOf(ways, key, lineOf) == []
  {
    if |ways| > 0 {
      LinesOfNone(ways[..|ways| - 1], key, lineOf);
    }
  }
}
