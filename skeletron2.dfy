/** Skeletron2.py: the older pipeline's line simplification (no three-point
    floor) and its destructive route extraction from a skeleton graph. */
module Skeletron2 {
  import opened Wrappers
  import opened Sorting
  import opened Visvalingam
  import opened Graphs
  import opened Routes

  /** `simplify_line`: a line of fewer than three points comes back as is;
      otherwise rounds repeat until one drops nothing. */
  method SimplifyLine(points: seq<Point>, small: real) returns (r: seq<Point>)
    ensures |points| < 3 ==> r == points
    ensures IsSubsequence(r, points)
    ensures |points| > 0 ==> |r| > 0 && r[0] == points[0] && r[|r| - 1] == points[|points| - 1]
    ensures |points| >= 2 ==> |r| >= 2
    ensures RemovesNothing(r, small)
    ensures |points| == 3 && TriangleArea(points[0], points[1], points[2]) <= small ==>
              r == [points[0], points[2]]
    ensures r == Rounds(points, small, 2)
  {
    if |points| < 3 {
      ghost var idx := EmbedsIdentity(points);
      return points;
    }
    r := points;
    ghost var idx: seq<int> := seq(|points|, i => i);
    while true
      invariant Embeds(idx, r, points)
      invariant 2 <= |r| <= |points| && r[0] == points[0] && r[|r| - 1] == points[|points| - 1]
      invariant Rounds(r, small, 2) == Rounds(points, small, 2)
      decreases |r|
    {
      var r', dropped;
      ghost var idx';
      r', idx', dropped := SimplifyRound(points, idx, r, small);
      if !dropped {
        RoundsStays(r, small, 2);
        break;
      }
      ghost var m := RoundsUnfold(r, small, 2);
      r, idx := r', idx';
    }
    ThreePoints(points, idx, r, small);
  }

  /** A three-point line whose apex is small enough loses it. */
  lemma ThreePoints(points: seq<Point>, idx: seq<int>, r: seq<Point>, small: real)
    requires Embeds(idx, r, points) && 2 <= |r| <= |points| && RemovesNothing(r, small)
    requires r[0] == points[0] && r[|r| - 1] == points[|points| - 1]
    ensures |points| == 3 && TriangleArea(points[0], points[1], points[2]) <= small ==>
              r == [points[0], points[2]]
  {
    if |points| == 3 {
      if |r| == 3 {
        EmbedsFull(idx, r, points);
        assert TriangleArea(r[0], r[1], r[2]) > small;
      } else {
        assert r == [points[0], points[2]];
      }
    }
  }

  // ---------------------------------------------------------------------
  // skeleton_routes

  /** The `(shortest_path_length(g, v, w), v, w)` entries of the connected pairs,
      in pair order; a pair with no path is skipped. */
  function Lengths(g: Graph, pairs: seq<(Node, Node)>, pathLength: (Graph, Node, Node) -> Option<real>)
    : seq<(real, Node, Node)>
  {
    if |pairs| == 0 then []
    else
      var q := pairs[|pairs| - 1];
      var rest := Lengths(g, pairs[..|pairs| - 1], pathLength);
      match pathLength(g, q.0, q.1)
      case None => rest
      case Some(l) => rest + [(l, q.0, q.1)]
  }

  lemma {:induction false} LengthsMembers(g: Graph, pairs: seq<(Node, Node)>,
                                           pathLength: (Graph, Node, Node) -> Option<real>, t: (real, Node, Node))
    ensures t in Lengths(g, pairs, pathLength) <==>
              (t.1, t.2) in pairs && pathLength(g, t.1, t.2) == Some(t.0)
  {
    if |pairs| > 0 {
      var init := pairs[..|pairs| - 1];
      LengthsMembers(g, init, pathLength, t);
      assert pairs == init + [pairs[|pairs| - 1]];
    }
  }

  /** The loop over the leaf pairs that builds `paths`. */
  method ConnectedLengths(g: Graph, pairs: seq<(Node, Node)>, pathLength: (Graph, Node, Node) -> Option<real>)
    returns (paths: seq<(real, Node, Node)>)
    ensures paths == Lengths(g, pairs, pathLength)
  {
    paths := [];
    for i := 0 to |pairs|
      invariant paths == Lengths(g, pairs[..i], pathLength)
    {
      assert pairs[..i + 1][..i] == pairs[..i];
      var (v, w) := pairs[i];
      var l := pathLength(g, v, w);
      if l.Some? {
        paths := paths + [(l.value, v, w)];
      }
    }
    assert pairs[..|pairs|] == pairs;
  }

  /** The connected leaf pair `skeleton_routes` takes next: the first entry of
      `paths.sort(reverse=True)`, so the longest path, ties to the larger ids. */
  method PickLongest(g: Graph, order: seq<Node>, pathLength: (Graph, Node, Node) -> Option<real>)
    returns (best: Option<(real, Node, Node)>)
    ensures var pairs := Pairs(NodesOfDegree(g, order, 1));
      && (best.None? <==> forall q :: q in pairs ==> pathLength(g, q.0, q.1).None?)
      && (best.Some? ==>
            && (best.value.1, best.value.2) in pairs
            && pathLength(g, best.value.1, best.value.2) == Some(best.value.0))
      && (best.Some? ==>
            forall q :: q in pairs && pathLength(g, q.0, q.1).Some? ==>
              TripleLe((pathLength(g, q.0, q.1).value, q.0, q.1), best.value))
  {
    var leaves := NodesOfDegree(g, order, 1);
    var pairs := Pairs(leaves);
    var paths := ConnectedLengths(g, pairs, pathLength);
    if |paths| == 0 {
      forall q | q in pairs ensures pathLength(g, q.0, q.1).None? {
        if pathLength(g, q.0, q.1).Some? {
          LengthsMembers(g, pairs, pathLength, (pathLength(g, q.0, q.1).value, q.0, q.1));
        }
      }
      return None;
    }
    TripleLeTotal();
    SortDescendingFirst(paths, TripleLe);
    var sorted := SortDescending(paths, TripleLe);
    best := Some(sorted[0]);
    LengthsMembers(g, pairs, pathLength, sorted[0]);
    forall q | q in pairs && pathLength(g, q.0, q.1).Some?
      ensures TripleLe((pathLength(g, q.0, q.1).value, q.0, q.1), sorted[0])
    {
      LengthsMembers(g, pairs, pathLength, (pathLength(g, q.0, q.1).value, q.0, q.1));
    }
  }

  /** What networkx guarantees between its two path calls: when a length is
      reported, a path is too. */
  ghost predicate PathWhenLength(pathLength: (Graph, Node, Node) -> Option<real>,
                                 path: (Graph, Node, Node) -> Option<seq<Node>>)
  {
    forall g, v, w :: pathLength(g, v, w).Some? ==> path(g, v, w).Some?
  }

  /** What one iteration of `skeleton_routes` takes from the working graph
      `g`: `t` is the first entry of `paths.sort(reverse=True)`, the longest
      connected leaf pair, and `p` its shortest path. */
  ghost predicate Longest(g: Graph, order: seq<Node>, pathLength: (Graph, Node, Node) -> Option<real>,
                          path: (Graph, Node, Node) -> Option<seq<Node>>, t: (real, Node, Node), p: seq<Node>)
  {
    && (t.1, t.2) in Pairs(NodesOfDegree(g, order, 1))
    && pathLength(g, t.1, t.2) == Some(t.0)
    && path(g, t.1, t.2) == Some(p)
    && forall q {:trigger q in Pairs(NodesOfDegree(g, order, 1))} ::
         q in Pairs(NodesOfDegree(g, order, 1)) && pathLength(g, q.0, q.1).Some? ==>
           TripleLe((pathLength(g, q.0, q.1).value, q.0, q.1), t)
  }

  /** Nothing more is taken from `g`: no edge is left or no leaf pair is connected. */
  ghost predicate Exhausted(g: Graph, order: seq<Node>, pathLength: (Graph, Node, Node) -> Option<real>) {
    || EdgeFree(g)
    || forall q {:trigger q in Pairs(NodesOfDegree(g, order, 1))} ::
         q in Pairs(NodesOfDegree(g, order, 1)) ==> pathLength(g, q.0, q.1).None?
  }

  /** Path `i` of `used` was taken, as `picks[i]`, from the skeleton without
      the edges of the paths before it. */
  ghost predicate Extracted(skeleton: Graph, order: seq<Node>, pathLength: (Graph, Node, Node) -> Option<real>,
                            path: (Graph, Node, Node) -> Option<seq<Node>>,
                            used: seq<seq<Node>>, picks: seq<(real, Node, Node)>)
  {
    && |picks| == |used|
    && (forall i :: 0 <= i < |used| ==> |used[i]| >= 1)
    && forall i {:trigger picks[i]} :: 0 <= i < |used| ==>
         Longest(Remaining(skeleton, used[..i]), order, pathLength, path, picks[i], used[i])
  }

  lemma ExtractedSnoc(skeleton: Graph, order: seq<Node>, pathLength: (Graph, Node, Node) -> Option<real>,
                      path: (Graph, Node, Node) -> Option<seq<Node>>,
                      used: seq<seq<Node>>, picks: seq<(real, Node, Node)>, t: (real, Node, Node), p: seq<Node>)
    requires Extracted(skeleton, order, pathLength, path, used, picks) && |p| >= 1
    requires Longest(Remaining(skeleton, used), order, pathLength, path, t, p)
    ensures Extracted(skeleton, order, pathLength, path, used + [p], picks + [t])
  {
    var used', picks' := used + [p], picks + [t];
    forall i | 0 <= i < |used'|
      ensures Longest(Remaining(skeleton, used'[..i]), order, pathLength, path, picks'[i], used'[i])
    {
      if i < |used| {
        assert used'[..i] == used[..i];
      } else {
        assert used'[..i] == used;
      }
    }
  }

  /** The longest connected leaf pair is unique: `(length, v, w)` triples never tie. */
  lemma LongestUnique(g: Graph, order: seq<Node>, pathLength: (Graph, Node, Node) -> Option<real>,
                      path: (Graph, Node, Node) -> Option<seq<Node>>,
                      t: (real, Node, Node), p: seq<Node>, t': (real, Node, Node), p': seq<Node>)
    requires Longest(g, order, pathLength, path, t, p) && Longest(g, order, pathLength, path, t', p')
    ensures t == t' && p == p'
  {
    assert TripleLe((pathLength(g, t'.1, t'.2).value, t'.1, t'.2), t);
    assert TripleLe((pathLength(g, t.1, t.2).value, t.1, t.2), t');
    TripleLeAntisymmetric(t, t');
  }

  /** A graph something is taken from still has an edge: its leaves have one each. */
  lemma LongestNotExhausted(g: Graph, order: seq<Node>, pathLength: (Graph, Node, Node) -> Option<real>,
                            path: (Graph, Node, Node) -> Option<seq<Node>>, t: (real, Node, Node), p: seq<Node>)
    requires Longest(g, order, pathLength, path, t, p)
    ensures !Exhausted(g, order, pathLength)
  {
    var leaves := NodesOfDegree(g, order, 1);
    PairsWithin(leaves, (t.1, t.2));
    LeafNotEdgeFree(g, t.1);
    var q := (t.1, t.2);
    assert q in Pairs(leaves) && pathLength(g, q.0, q.1).Some?;
  }

  /** Two extractions from the same skeleton agree on their common prefix. */
  lemma {:induction false} ExtractedAgree(skeleton: Graph, order: seq<Node>, pathLength: (Graph, Node, Node) -> Option<real>,
                                          path: (Graph, Node, Node) -> Option<seq<Node>>,
                                          used: seq<seq<Node>>, picks: seq<(real, Node, Node)>,
                                          used': seq<seq<Node>>, picks': seq<(real, Node, Node)>, n: nat)
    requires Extracted(skeleton, order, pathLength, path, used, picks)
    requires Extracted(skeleton, order, pathLength, path, used', picks')
    requires n <= |used| && n <= |used'|
    ensures used[..n] == used'[..n] && picks[..n] == picks'[..n]
  {
    if n > 0 {
      ExtractedAgree(skeleton, order, pathLength, path, used, picks, used', picks', n - 1);
      var k := n - 1;
      assert used[..k] == used'[..k];
      LongestUnique(Remaining(skeleton, used[..k]), order, pathLength, path, picks[k], used[k], picks'[k], used'[k]);
      assert used[..n] == used[..k] + [used[k]];
      assert used'[..n] == used'[..k] + [used'[k]];
      assert picks[..n] == picks[..k] + [picks[k]];
      assert picks'[..n] == picks'[..k] + [picks'[k]];
    }
  }

  /** An extraction longer than `used` takes something from the graph `used` leaves. */
  lemma ExtractedGoesOn(skeleton: Graph, order: seq<Node>, pathLength: (Graph, Node, Node) -> Option<real>,
                        path: (Graph, Node, Node) -> Option<seq<Node>>,
                        used: seq<seq<Node>>, picks: seq<(real, Node, Node)>,
                        used': seq<seq<Node>>, picks': seq<(real, Node, Node)>)
    requires Extracted(skeleton, order, pathLength, path, used, picks)
    requires Extracted(skeleton, order, pathLength, path, used', picks')
    requires |used| < |used'|
    ensures !Exhausted(Remaining(skeleton, used), order, pathLength)
  {
    var n := |used|;
    ExtractedAgree(skeleton, order, pathLength, path, used, picks, used', picks', n);
    assert used'[..n] == used;
    assert Longest(Remaining(skeleton, used'[..n]), order, pathLength, path, picks'[n], used'[n]);
    LongestNotExhausted(Remaining(skeleton, used), order, pathLength, path, picks'[n], used'[n]);
  }

  /** `skeleton_routes` is deterministic: an extraction that has exhausted its
      graph is the only one, so the routes are fixed by the skeleton and the
      path oracles. */
  lemma ExtractionDetermined(skeleton: Graph, order: seq<Node>, pathLength: (Graph, Node, Node) -> Option<real>,
                             path: (Graph, Node, Node) -> Option<seq<Node>>,
                             used: seq<seq<Node>>, picks: seq<(real, Node, Node)>,
                             used': seq<seq<Node>>, picks': seq<(real, Node, Node)>)
    requires Extracted(skeleton, order, pathLength, path, used, picks)
    requires Exhausted(Remaining(skeleton, used), order, pathLength)
    requires Extracted(skeleton, order, pathLength, path, used', picks')
    requires Exhausted(Remaining(skeleton, used'), order, pathLength)
    ensures used == used' && picks == picks'
  {
    if |used| < |used'| {
      ExtractedGoesOn(skeleton, order, pathLength, path, used, picks, used', picks');
      assert false;
    } else if |used'| < |used| {
      ExtractedGoesOn(skeleton, order, pathLength, path, used', picks', used, picks);
      assert false;
    } else {
      ExtractedAgree(skeleton, order, pathLength, path, used, picks, used', picks', |used|);
      assert used == used[..|used|] && used' == used'[..|used'|];
      assert picks == picks[..|picks|] && picks' == picks'[..|picks'|];
    }
  }

  /** `skeleton_routes` on a copy of `skeleton`: take the longest connected leaf
      pair, remove its path's edges, keep its route when longer than
      `minLength`, until no leaf pair is connected or no edge is left.
      `used` lists the removed paths in order, `rest` the final working graph. */
  method SkeletonRoutes(skeleton: Graph, order: seq<Node>, point: Node -> Point,
                        pathLength: (Graph, Node, Node) -> Option<real>,
                        path: (Graph, Node, Node) -> Option<seq<Node>>,
                        dist: (Point, Point) -> real, minLength: real)
    returns (routes: seq<Route>, ghost used: seq<seq<Node>>, ghost picks: seq<(real, Node, Node)>, ghost rest: Graph)
    requires WellFormed(skeleton) && Enumerates(order, skeleton)
    requires SoundPathOracle(path) && PathWhenLength(pathLength, path)
    ensures routes == KeepLonger(PathRoutes(used, point), dist, minLength)
    ensures forall r :: r in routes ==> RouteLength(r, dist) > minLength
    ensures WellFormed(rest) && rest.Keys == skeleton.Keys && Enumerates(order, rest)
    ensures EdgeDisjoint(used, rest, skeleton)
    ensures Edges(skeleton) == Edges(rest) + UnionEdges(used)
    ensures Extracted(skeleton, order, pathLength, path, used, picks)
    ensures rest == Remaining(skeleton, used)
    ensures Exhausted(rest, order, pathLength)
  {
    var g := skeleton;
    routes, used, picks := [], [], [];
    while true
      invariant WellFormed(g) && g.Keys == skeleton.Keys
      invariant Edges(g) <= Edges(skeleton)
      invariant routes == KeepLonger(PathRoutes(used, point), dist, minLength)
      invariant EdgeDisjoint(used, g, skeleton)
      invariant Edges(skeleton) == Edges(g) + UnionEdges(used)
      invariant Extracted(skeleton, order, pathLength, path, used, picks)
      decreases Edges(g)
    {
      RemainingIs(skeleton, used, g);
      var best := PickLongest(g, order, pathLength);
      if best.None? {
        break;
      }
      var (_, v, w) := best.value;
      var indexes := path(g, v, w).value;
      var g' := RemovePathEdges(g, indexes);
      RemoveStep(used, g, skeleton, indexes, g');
      ExtractedSnoc(skeleton, order, pathLength, path, used, picks, best.value, indexes);
      var route := RoutePoints(indexes, point);
      KeepLongerSnoc(PathRoutes(used, point), route, dist, minLength);
      PathRoutesSnoc(used, indexes, point);
      if RouteLength(route, dist) > minLength {
        routes := routes + [route];
      }
      used, picks := used + [indexes], picks + [best.value];
      g := g';
      if EdgeFree(g) {
        break;
      }
    }
    rest := g;
    RemainingIs(skeleton, used, g);
    forall r | r in routes ensures RouteLength(r, dist) > minLength {
      KeepLongerMembers(PathRoutes(used, point), dist, minLength, r);
    }
  }
}
