/** Routes through skeleton graphs: their points, their lengths, the order
    used to pick among candidate pairs, and the edge bookkeeping shared by
    the two route-extraction loops. */
module Routes {
  import opened Sorting
  import opened Visvalingam
  import opened Graphs

  type Route = seq<Point>

  /** Python's ordering of `(length, v, w)` tuples. */
  predicate TripleLe(x: (real, Node, Node), y: (real, Node, Node)) {
    x.0 < y.0 || (x.0 == y.0 && (x.1 < y.1 || (x.1 == y.1 && x.2 <= y.2)))
  }

  lemma TripleLeTotal()
    ensures TotalPreorder(TripleLe)
  {
  }

  /** The points of a path, `[(point.x, point.y) for point in line]`. */
  function RoutePoints(p: seq<Node>, point: Node -> Point): (r: Route)
    ensures |r| == |p| && forall k :: 0 <= k < |p| ==> r[k] == point(p[k])
  {
    seq(|p|, k requires 0 <= k < |p| => point(p[k]))
  }

  /** The routes of the removed paths, in removal order. */
  function PathRoutes(used: seq<seq<Node>>, point: Node -> Point): (r: seq<Route>)
    ensures |r| == |used| && forall i :: 0 <= i < |used| ==> r[i] == RoutePoints(used[i], point)
  {
    seq(|used|, i requires 0 <= i < |used| => RoutePoints(used[i], point))
  }

  lemma PathRoutesSnoc(used: seq<seq<Node>>, p: seq<Node>, point: Node -> Point)
    ensures PathRoutes(used + [p], point) == PathRoutes(used, point) + [RoutePoints(p, point)]
  {
  }

  /** `sum(segment.length for segment in segments)` with Shapely's length as `dist`. */
  function RouteLength(route: Route, dist: (Point, Point) -> real): real {
    if |route| < 2 then 0.0
    else RouteLength(route[..|route| - 1], dist) + dist(route[|route| - 2], route[|route| - 1])
  }

  /** A route's length is the sum of non-negative segment lengths, so never negative. */
  lemma {:induction false} RouteLengthNonNegative(route: Route, dist: (Point, Point) -> real)
    requires forall a, b :: dist(a, b) >= 0.0
    ensures RouteLength(route, dist) >= 0.0
  {
    if |route| >= 2 {
      RouteLengthNonNegative(route[..|route| - 1], dist);
    }
  }

  /** `[route for route in routes if LineString(route).length > min_length]`. */
  function KeepLonger(routes: seq<Route>, dist: (Point, Point) -> real, minLength: real): seq<Route> {
    if |routes| == 0 then []
    else
      var init := KeepLonger(routes[..|routes| - 1], dist, minLength);
      var last := routes[|routes| - 1];
      if RouteLength(last, dist) > minLength then init + [last] else init
  }

  /** The filter keeps every longer route as often as it occurs, in order, and
      drops every other. */
  lemma {:induction false} KeepLongerCount(routes: seq<Route>, dist: (Point, Point) -> real, minLength: real,
                                           x: Route)
    ensures multiset(KeepLonger(routes, dist, minLength))[x] ==
              if RouteLength(x, dist) > minLength then multiset(routes)[x] else 0
  {
    if |routes| > 0 {
      var init := routes[..|routes| - 1];
      KeepLongerCount(init, dist, minLength, x);
      assert routes == init + [routes[|routes| - 1]];
    }
  }

  /** Filtering one more route: it is appended when it is longer. */
  lemma KeepLongerSnoc(routes: seq<Route>, x: Route, dist: (Point, Point) -> real, minLength: real)
    ensures KeepLonger(routes + [x], dist, minLength) ==
              KeepLonger(routes, dist, minLength) + (if RouteLength(x, dist) > minLength then [x] else [])
  {
    assert (routes + [x])[..|routes|] == routes;
  }

  /** The filter keeps exactly the longer routes. */
  lemma KeepLongerMembers(routes: seq<Route>, dist: (Point, Point) -> real, minLength: real, x: Route)
    ensures x in KeepLonger(routes, dist, minLength) <==> x in routes && RouteLength(x, dist) > minLength
  {
    KeepLongerCount(routes, dist, minLength, x);
  }

  /** The removed paths so far: each lies in the skeleton, no two share an
      edge, and none shares an edge with the working graph `g`. */
  ghost predicate EdgeDisjoint(used: seq<seq<Node>>, g: Graph, skeleton: Graph) {
    && (forall i :: 0 <= i < |used| ==> |used[i]| >= 2 && PathEdges(used[i]) <= Edges(skeleton))
    && (forall i, j :: 0 <= i < j < |used| ==> PathEdges(used[i]) !! PathEdges(used[j]))
    && (forall i :: 0 <= i < |used| ==> PathEdges(used[i]) !! Edges(g))
  }

  /** Removing a path of the working graph keeps the removed paths edge-disjoint. */
  lemma EdgeDisjointStep(used: seq<seq<Node>>, g: Graph, skeleton: Graph, p: seq<Node>, g': Graph)
    requires EdgeDisjoint(used, g, skeleton) && Edges(g) <= Edges(skeleton)
    requires WellFormed(g) && IsPath(g, p)
    requires Edges(g') == Edges(g) - PathEdges(p)
    ensures EdgeDisjoint(used + [p], g', skeleton)
  {
    PathEdgesIn(g, p);
  }

  /** A path's edges are edges of its graph. */
  lemma PathEdgesIn(g: Graph, p: seq<Node>)
    requires WellFormed(g) && IsPath(g, p)
    ensures PathEdges(p) <= Edges(g)
  {
    forall k | 0 <= k < |p| - 1 ensures StepEdge(p, k) in Edges(g) {
      EdgesOfAdjacent(g, p[k], p[k + 1]);
    }
  }

  /** Removing a path of the working graph moves its edges from the graph to
      the removed paths, which stay edge-disjoint. */
  lemma RemoveStep(used: seq<seq<Node>>, g: Graph, skeleton: Graph, p: seq<Node>, g': Graph)
    requires EdgeDisjoint(used, g, skeleton) && Edges(g) <= Edges(skeleton)
    requires Edges(skeleton) == Edges(g) + UnionEdges(used)
    requires WellFormed(g) && IsPath(g, p)
    requires Edges(g') == Edges(g) - PathEdges(p)
    ensures EdgeDisjoint(used + [p], g', skeleton) && Edges(g') <= Edges(skeleton)
    ensures Edges(skeleton) == Edges(g') + UnionEdges(used + [p])
  {
    EdgeDisjointStep(used, g, skeleton, p, g');
    PathEdgesIn(g, p);
    assert (used + [p])[..|used|] == used;
  }

  /** The graph `g` with the edges of the paths `used` removed and every node kept. */
  ghost function Remaining(g: Graph, used: seq<seq<Node>>): Graph
    requires forall i :: 0 <= i < |used| ==> |used[i]| >= 1
  {
    map v | v in g :: set w | w in g[v] && EdgeOf(v, w) !in UnionEdges(used)
  }

  /** Paths that share no edge with `g` together share none with it. */
  lemma {:induction false} UnionDisjoint(used: seq<seq<Node>>, g: Graph)
    requires forall i :: 0 <= i < |used| ==> |used[i]| >= 1 && PathEdges(used[i]) !! Edges(g)
    ensures UnionEdges(used) !! Edges(g)
    decreases |used|
  {
    if |used| > 0 {
      UnionDisjoint(used[..|used| - 1], g);
    }
  }

  /** The working graph of a route loop is determined by the paths it has
      removed: it is the skeleton without their edges. */
  lemma RemainingIs(skeleton: Graph, used: seq<seq<Node>>, g: Graph)
    requires WellFormed(skeleton) && WellFormed(g) && g.Keys == skeleton.Keys
    requires EdgeDisjoint(used, g, skeleton)
    requires Edges(skeleton) == Edges(g) + UnionEdges(used)
    ensures g == Remaining(skeleton, used)
  {
    var r := Remaining(skeleton, used);
    UnionDisjoint(used, g);
    forall v | v in g ensures g[v] == r[v] {
      forall w | w in g[v] ensures w in r[v] {
        EdgesOfAdjacent(g, v, w);
        AdjacentOfEdge(skeleton, v, w);
      }
      forall w | w in r[v] ensures w in g[v] {
        EdgesOfAdjacent(skeleton, v, w);
        AdjacentOfEdge(g, v, w);
      }
    }
  }

  /** The order on candidate triples never ties two different triples. */
  lemma TripleLeAntisymmetric(x: (real, Node, Node), y: (real, Node, Node))
    requires TripleLe(x, y) && TripleLe(y, x)
    ensures x == y
  {
  }

  /** The edges of all the removed paths together. */
  ghost function UnionEdges(used: seq<seq<Node>>): set<(Node, Node)>
    requires forall i :: 0 <= i < |used| ==> |used[i]| >= 1
  {
    if |used| == 0 then {} else UnionEdges(used[..|used| - 1]) + PathEdges(used[|used| - 1])
  }
}
