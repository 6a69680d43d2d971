/** CGAL/skeletron/__init__.py: what the Python side does around the CGAL
    straight skeleton. The skeleton itself, the winding test and Shapely's
    duplicate-line test are oracles (function parameters); everything the
    module decides on its own is modelled: input checks, the winding fix, the
    typecode partition, the stitching of two lines and the merge passes. */
module CgalSkeletron {
  import opened Wrappers

  /** The typecodes the extension attaches to each skeleton edge. */
  const BORDER := 0
  const OUTER := 1
  const INNER := 2

  type Vertex = (real, real)
  type Ring = seq<Vertex>
  type Line = seq<Vertex>
  /** `(start, end, edge_type)` as returned by `_skeletron.skeleton`. */
  type SkeletonEdge = (Vertex, Vertex, int)
  type Segment = (Vertex, Vertex)

  /** The three kinds of argument the two entry points tell apart. */
  datatype Geometry =
    | GeoInterface(kind: string, coordinates: seq<Ring>)
    | Iterable(items: seq<Ring>)
    | Neither

  datatype SkeletonError =
    | NotAPolygon(kind: string)   // TypeError: a geo interface of another type
    | NotAGeometry                // TypeError: neither a geo interface nor iterable
    | IndexError(code: int)       // a typecode outside the 3-tuple's indexes

  /** The rings of a polygon argument, or the TypeError raised for it. */
  function Rings(g: Geometry): (r: Result<seq<Ring>, SkeletonError>)
    ensures r.Err? <==> g.Neither? || (g.GeoInterface? && g.kind != "Polygon")
    ensures g.GeoInterface? && g.kind != "Polygon" ==> r == Err(NotAPolygon(g.kind))
    ensures g.Neither? ==> r == Err(NotAGeometry)
    ensures r.Ok? && g.GeoInterface? ==> r.value == g.coordinates
    ensures r.Ok? && g.Iterable? ==> r.value == g.items
  {
    match g
    case GeoInterface(kind, coordinates) =>
      if kind != "Polygon" then Err(NotAPolygon(kind)) else Ok(coordinates)
    case Iterable(items) => Ok(items)
    case Neither => Err(NotAGeometry)
  }

  // ---------------------------------------------------------------------
  // Winding fix

  function Reverse<T>(s: seq<T>): (r: seq<T>)
    ensures |r| == |s| && forall i :: 0 <= i < |s| ==> r[i] == s[|s| - 1 - i]
  {
    seq(|s|, i requires 0 <= i < |s| => s[|s| - 1 - i])
  }

  lemma ReverseReverse<T>(s: seq<T>)
    ensures Reverse(Reverse(s)) == s
  {
  }

  lemma ReverseMembers<T>(s: seq<T>)
    ensures forall v :: v in Reverse(s) <==> v in s
  {
    forall v | v in s ensures v in Reverse(s) {
      var i :| 0 <= i < |s| && s[i] == v;
      assert Reverse(s)[|s| - 1 - i] == v;
    }
  }

  /** Ring 0 must wind as an exterior, every later ring as an interior. */
  predicate Misoriented(i: nat, isExterior: bool) {
    (i == 0 && !isExterior) || (i >= 1 && isExterior)
  }

  /** The rings after the winding fix: a misoriented ring is reversed, any
      other ring is left as it was. */
  function Rewound(rings: seq<Ring>, exterior: Ring -> bool): (r: seq<Ring>)
    ensures |r| == |rings|
  {
    seq(|rings|, i requires 0 <= i < |rings| =>
      if Misoriented(i, exterior(rings[i])) then Reverse(rings[i]) else rings[i])
  }

  /** What the winding test promises: reversing a ring flips its winding. */
  ghost predicate FlipsOnReversal(rings: seq<Ring>, exterior: Ring -> bool) {
    forall k :: 0 <= k < |rings| ==> exterior(Reverse(rings[k])) != exterior(rings[k])
  }

  /** After the fix, ring 0 is exterior and every hole is interior. */
  lemma RewoundOriented(rings: seq<Ring>, exterior: Ring -> bool)
    requires FlipsOnReversal(rings, exterior)
    ensures var r := Rewound(rings, exterior);
      && (|r| > 0 ==> exterior(r[0]))
      && forall i :: 1 <= i < |r| ==> !exterior(r[i])
  {
  }

  /** A second fix changes nothing. */
  lemma RewoundIdempotent(rings: seq<Ring>, exterior: Ring -> bool)
    requires FlipsOnReversal(rings, exterior)
    ensures Rewound(Rewound(rings, exterior), exterior) == Rewound(rings, exterior)
  {
    var r := Rewound(rings, exterior);
    forall i | 0 <= i < |r| ensures !Misoriented(i, exterior(r[i])) {
      RewoundOriented(rings, exterior);
    }
  }

  /** The `for (i, coords) in enumerate(edges)` loop of `xray`, rewriting
      `edges[i]` in place. */
  method FixWinding(edges: seq<Ring>, exterior: Ring -> bool) returns (fixed: seq<Ring>)
    ensures fixed == Rewound(edges, exterior)
  {
    fixed := edges;
    for i := 0 to |fixed|
      invariant |fixed| == |edges|
      invariant forall k :: 0 <= k < i ==> fixed[k] == Rewound(edges, exterior)[k]
      invariant forall k :: i <= k < |fixed| ==> fixed[k] == edges[k]
    {
      var coords := fixed[i];
      if Misoriented(i, exterior(coords)) {
        fixed := fixed[i := Reverse(coords)];
      }
    }
  }

  // ---------------------------------------------------------------------
  // Typecode partition

  /** The `(start, end)` of every edge whose typecode is in `codes`, in order. */
  function Picked(edges: seq<SkeletonEdge>, codes: set<int>): (r: seq<Segment>)
    ensures |r| <= |edges|
  {
    if |edges| == 0 then []
    else
      var last := edges[|edges| - 1];
      Picked(edges[..|edges| - 1], codes) + (if last.2 in codes then [(last.0, last.1)] else [])
  }

  lemma {:induction false} PickedMembers(edges: seq<SkeletonEdge>, codes: set<int>, s: Segment)
    ensures s in Picked(edges, codes) <==>
              exists k :: 0 <= k < |edges| && edges[k].0 == s.0 && edges[k].1 == s.1 && edges[k].2 in codes
  {
    if |edges| > 0 {
      var init := edges[..|edges| - 1];
      PickedMembers(init, codes, s);
      if s in Picked(init, codes) {
        var k :| 0 <= k < |init| && init[k].0 == s.0 && init[k].1 == s.1 && init[k].2 in codes;
        assert edges[k] == init[k];
      }
      if exists k :: 0 <= k < |edges| && edges[k].0 == s.0 && edges[k].1 == s.1 && edges[k].2 in codes {
        var k :| 0 <= k < |edges| && edges[k].0 == s.0 && edges[k].1 == s.1 && edges[k].2 in codes;
        if k < |init| {
          assert init[k] == edges[k];
        }
      }
    }
  }

  /** Disjoint code sets pick disjoint shares of the edges. */
  lemma {:induction false} PickedSplit(edges: seq<SkeletonEdge>, a: set<int>, b: set<int>)
    requires a !! b
    ensures |Picked(edges, a + b)| == |Picked(edges, a)| + |Picked(edges, b)|
  {
    if |edges| > 0 {
      PickedSplit(edges[..|edges| - 1], a, b);
    }
  }

  /** Every edge is picked exactly when every typecode is in `codes`. */
  lemma {:induction false} PickedAll(edges: seq<SkeletonEdge>, codes: set<int>)
    ensures |Picked(edges, codes)| == |edges| <==> forall k :: 0 <= k < |edges| ==> edges[k].2 in codes
  {
    if |edges| > 0 {
      var init := edges[..|edges| - 1];
      PickedAll(init, codes);
      if forall k :: 0 <= k < |edges| ==> edges[k].2 in codes {
        assert forall k :: 0 <= k < |init| ==> init[k] == edges[k];
      }
      if |Picked(edges, codes)| == |edges| {
        forall k | 0 <= k < |edges| ensures edges[k].2 in codes {
          if k < |init| {
            assert init[k] == edges[k];
          }
        }
      }
    }
  }

  /** Code sets that agree on every edge pick the same segments. */
  lemma {:induction false} PickedAgree(edges: seq<SkeletonEdge>, a: set<int>, b: set<int>)
    requires forall k :: 0 <= k < |edges| ==> (edges[k].2 in a <==> edges[k].2 in b)
    ensures Picked(edges, a) == Picked(edges, b)
  {
    if |edges| > 0 {
      var init := edges[..|edges| - 1];
      assert forall k :: 0 <= k < |init| ==> init[k] == edges[k];
      PickedAgree(init, a, b);
    }
  }

  /** The partition of `xray` loses an edge exactly when its typecode is not
      one of BORDER, OUTER and INNER. */
  lemma PartitionComplete(edges: seq<SkeletonEdge>)
    ensures |Picked(edges, {BORDER})| + |Picked(edges, {OUTER})| + |Picked(edges, {INNER})| <= |edges|
    ensures (|Picked(edges, {BORDER})| + |Picked(edges, {OUTER})| + |Picked(edges, {INNER})| == |edges|)
              <==> (forall k :: 0 <= k < |edges| ==> 0 <= edges[k].2 <= 2)
  {
    PickedSplit(edges, {BORDER}, {OUTER});
    PickedSplit(edges, {BORDER, OUTER}, {INNER});
    assert {BORDER} + {OUTER} == {BORDER, OUTER};
    assert {BORDER, OUTER} + {INNER} == {0, 1, 2};
    PickedAll(edges, {0, 1, 2});
  }

  /** `LineString((start, end))` for each segment. */
  function AsLines(segments: seq<Segment>): (r: seq<Line>)
    ensures |r| == |segments|
    ensures forall i :: 0 <= i < |r| ==> r[i] == [segments[i].0, segments[i].1]
  {
    seq(|segments|, i requires 0 <= i < |segments| => [segments[i].0, segments[i].1])
  }

  /** One more edge adds its segment to those picked for its code. */
  lemma PickedSnoc(edges: seq<SkeletonEdge>, k: int, codes: set<int>)
    requires 0 <= k < |edges|
    ensures Picked(edges[..k + 1], codes)
            == Picked(edges[..k], codes) + (if edges[k].2 in codes then [(edges[k].0, edges[k].1)] else [])
  {
    assert edges[..k + 1][..k] == edges[..k];
  }

  /** One more edge adds its line to the lines picked for its code. */
  lemma PickedStep(edges: seq<SkeletonEdge>, k: int, codes: set<int>)
    requires 0 <= k < |edges|
    ensures AsLines(Picked(edges[..k + 1], codes))
            == AsLines(Picked(edges[..k], codes)) + (if edges[k].2 in codes then [[edges[k].0, edges[k].1]] else [])
  {
    PickedSnoc(edges, k, codes);
    var segs := Picked(edges[..k], codes);
    if edges[k].2 in codes {
      assert AsLines(segs + [(edges[k].0, edges[k].1)]) == AsLines(segs) + [[edges[k].0, edges[k].1]];
    } else {
      assert segs + [] == segs;
    }
  }

  /** The `for start, end, edge_type in edges` loop of `xray`. */
  method Partition(edges: seq<SkeletonEdge>) returns (inner: seq<Line>, outer: seq<Line>, border: seq<Line>)
    ensures inner == AsLines(Picked(edges, {INNER}))
    ensures outer == AsLines(Picked(edges, {OUTER}))
    ensures border == AsLines(Picked(edges, {BORDER}))
  {
    inner, outer, border := [], [], [];
    for k := 0 to |edges|
      invariant inner == AsLines(Picked(edges[..k], {INNER}))
      invariant outer == AsLines(Picked(edges[..k], {OUTER}))
      invariant border == AsLines(Picked(edges[..k], {BORDER}))
    {
      PickedStep(edges, k, {INNER});
      PickedStep(edges, k, {OUTER});
      PickedStep(edges, k, {BORDER});
      var (start, end, code) := edges[k];
      if code == INNER {
        inner := inner + [[start, end]];
      } else if code == OUTER {
        outer := outer + [[start, end]];
      } else if code == BORDER {
        border := border + [[start, end]];
      }
    }
    assert edges[..|edges|] == edges;
  }

  // ---------------------------------------------------------------------
  // InteriorSkeleton

  /** Python's index into the 3-tuple `(edges, outer, inner)`: negative
      indexes count from the end, anything else raises IndexError. */
  function Slot(code: int): (r: Option<nat>)
    ensures r.Some? <==> -3 <= code < 3
    ensures r.Some? ==> r.value < 3 && (r.value == code || r.value == code + 3)
  {
    if 0 <= code < 3 then Some(code)
    else if -3 <= code < 0 then Some(code + 3)
    else None
  }

  /** The codes that land in each slot of `(edges, outer, inner)`. */
  const BoundaryCodes: set<int> := {0, -3}
  const OuterCodes: set<int> := {1, -2}
  const InnerCodes: set<int> := {2, -1}

  datatype InteriorSkeleton = InteriorSkeleton(boundary: seq<Segment>, outer: seq<Segment>, inner: seq<Segment>)
  {
    /** `bisectors`: the inner bisectors followed by the outer ones. */
    function Bisectors(): (r: seq<Segment>)
      ensures |r| == |inner| + |outer|
      ensures r[..|inner|] == inner && r[|inner|..] == outer
    {
      inner + outer
    }
  }

  /** `InteriorSkeleton.__init__`: check the argument, then sort the edges of
      its skeleton. */
  method NewInteriorSkeleton(polygon: Geometry, skeleton: seq<Ring> -> seq<SkeletonEdge>)
    returns (r: Result<InteriorSkeleton, SkeletonError>)
    ensures Rings(polygon).Err? ==> r == Err(Rings(polygon).error)
    ensures Rings(polygon).Ok? ==> SortedEdges(skeleton(Rings(polygon).value), r)
  {
    var rings := Rings(polygon);
    if rings.Err? {
      return Err(rings.error);
    }
    r := SortEdges(skeleton(rings.value));
  }

  /** What sorting `edges` gives: success exactly when every typecode indexes
      the tuple, the error of the first one that does not, and otherwise the
      segments of each slot in order. */
  predicate SortedEdges(edges: seq<SkeletonEdge>, r: Result<InteriorSkeleton, SkeletonError>) {
    && (r.Ok? <==> forall k :: 0 <= k < |edges| ==> Slot(edges[k].2).Some?)
    && (r.Err? ==> exists k :: 0 <= k < |edges| && Slot(edges[k].2).None? && r.error == IndexError(edges[k].2)
                     && forall k' :: 0 <= k' < k ==> Slot(edges[k'].2).Some?)
    && (r.Ok? ==>
          && r.value.boundary == Picked(edges, BoundaryCodes)
          && r.value.outer == Picked(edges, OuterCodes)
          && r.value.inner == Picked(edges, InnerCodes))
  }

  /** The loop of `__init__`: append each edge's `(start, end)` to the list
      its typecode indexes; the first typecode outside the tuple raises. */
  method SortEdges(edges: seq<SkeletonEdge>) returns (r: Result<InteriorSkeleton, SkeletonError>)
    ensures SortedEdges(edges, r)
  {
    var boundary, outer, inner := [], [], [];
    for k := 0 to |edges|
      invariant forall k' :: 0 <= k' < k ==> Slot(edges[k'].2).Some?
      invariant boundary == Picked(edges[..k], BoundaryCodes)
      invariant outer == Picked(edges[..k], OuterCodes)
      invariant inner == Picked(edges[..k], InnerCodes)
    {
      PickedSnoc(edges, k, BoundaryCodes);
      PickedSnoc(edges, k, OuterCodes);
      PickedSnoc(edges, k, InnerCodes);
      var (start, end, code) := edges[k];
      var slot := Slot(code);
      if slot.None? {
        return Err(IndexError(code));
      }
      assert slot.value == 0 <==> code in BoundaryCodes;
      assert slot.value == 1 <==> code in OuterCodes;
      assert slot.value == 2 <==> code in InnerCodes;
      if slot.value == 0 {
        boundary := boundary + [(start, end)];
      } else if slot.value == 1 {
        outer := outer + [(start, end)];
      } else {
        inner := inner + [(start, end)];
      }
    }
    assert edges[..|edges|] == edges;
    return Ok(InteriorSkeleton(boundary, outer, inner));
  }

  /** With the typecodes the extension emits (0, 1 and 2), the skeleton's
      lists are the segments `xray` sorts into border, outer and inner, and
      every edge lands in exactly one of them. */
  lemma InteriorSkeletonMatchesXray(edges: seq<SkeletonEdge>)
    requires forall k :: 0 <= k < |edges| ==> 0 <= edges[k].2 <= 2
    ensures Picked(edges, BoundaryCodes) == Picked(edges, {BORDER})
    ensures Picked(edges, OuterCodes) == Picked(edges, {OUTER})
    ensures Picked(edges, InnerCodes) == Picked(edges, {INNER})
    ensures |Picked(edges, BoundaryCodes)| + |Picked(edges, OuterCodes)| + |Picked(edges, InnerCodes)| == |edges|
  {
    PickedAgree(edges, BoundaryCodes, {BORDER});
    PickedAgree(edges, OuterCodes, {OUTER});
    PickedAgree(edges, InnerCodes, {INNER});
    PartitionComplete(edges);
  }

  // ---------------------------------------------------------------------
  // _stitch_lines

  /** Whether the two lines share an endpoint, in any combination. */
  predicate SharesEnd(c1: Line, c2: Line)
    requires |c1| > 0 && |c2| > 0
  {
    c1[0] == c2[0] || c1[0] == c2[|c2| - 1] || c1[|c1| - 1] == c2[0] || c1[|c1| - 1] == c2[|c2| - 1]
  }

  /** `_stitch_lines`: a copy of the first line when the duplicate test holds;
      otherwise the two lines joined at the first shared endpoint found in the
      order start/start, start/end, end/start, end/end, the shared coordinate
      kept once; `None` for False. */
  function Stitch(c1: Line, c2: Line, duplicate: (Line, Line) -> bool): (r: Option<Line>)
    requires |c1| > 0 && |c2| > 0
    ensures duplicate(c1, c2) ==> r == Some(c1)
    ensures !duplicate(c1, c2) ==> (r.Some? <==> SharesEnd(c1, c2))
    ensures !duplicate(c1, c2) && c1[0] == c2[0] ==> r == Some(Reverse(c1) + c2[1..])
    ensures !duplicate(c1, c2) && c1[0] != c2[0] && c1[0] == c2[|c2| - 1] ==> r == Some(c2 + c1[1..])
    ensures !duplicate(c1, c2) && c1[0] != c2[0] && c1[0] != c2[|c2| - 1] && c1[|c1| - 1] == c2[0] ==>
              r == Some(c1 + c2[1..])
    ensures (&& !duplicate(c1, c2) && c1[0] != c2[0] && c1[0] != c2[|c2| - 1] && c1[|c1| - 1] != c2[0]
             && c1[|c1| - 1] == c2[|c2| - 1]) ==> r == Some(c1 + Reverse(c2)[1..])
    ensures r.Some? && !duplicate(c1, c2) ==> |r.value| == |c1| + |c2| - 1
    ensures r.Some? ==> forall v :: v in c1 ==> v in r.value
    ensures r.Some? && !duplicate(c1, c2) ==> forall v :: v in c2 ==> v in r.value
    ensures r.Some? ==> forall v :: v in r.value ==> v in c1 || v in c2
  {
    ReverseMembers(c1);
    ReverseMembers(c2);
    assert c1 == [c1[0]] + c1[1..];
    assert c2 == [c2[0]] + c2[1..];
    assert Reverse(c2) == [Reverse(c2)[0]] + Reverse(c2)[1..];
    if duplicate(c1, c2) then Some(c1)
    else if c1[0] == c2[0] then Some(Reverse(c1) + c2[1..])
    else if c1[0] == c2[|c2| - 1] then Some(c2 + c1[1..])
    else if c1[|c1| - 1] == c2[0] then Some(c1 + c2[1..])
    else if c1[|c1| - 1] == c2[|c2| - 1] then Some(c1 + Reverse(c2)[1..])
    else None
  }

  /** Two lines that share both ends (start with start, end with end) are
      stitched into a closed line. */
  lemma StitchClosesLoop(c1: Line, c2: Line, duplicate: (Line, Line) -> bool)
    requires |c1| > 0 && |c2| > 0 && !duplicate(c1, c2)
    requires c1[0] == c2[0] && c1[|c1| - 1] == c2[|c2| - 1]
    ensures var r := Stitch(c1, c2, duplicate).value;
      r[0] == r[|r| - 1] == c1[|c1| - 1]
  {
    var r := Stitch(c1, c2, duplicate).value;
    assert r == Reverse(c1) + c2[1..];
    if |c2| == 1 {
      assert r == Reverse(c1);
    }
  }

  /** A line has length when some coordinate differs from its first;
      `line.length` is zero otherwise. */
  predicate HasLength(l: Line) {
    exists k :: 0 <= k < |l| && l[k] != l[0]
  }

  lemma StitchHasLength(c1: Line, c2: Line, duplicate: (Line, Line) -> bool)
    requires HasLength(c1) && |c2| > 0 && Stitch(c1, c2, duplicate).Some?
    ensures HasLength(Stitch(c1, c2, duplicate).value)
  {
    var r := Stitch(c1, c2, duplicate).value;
    var k :| 0 <= k < |c1| && c1[k] != c1[0];
    assert c1[0] in c1 && c1[k] in c1;
    var x := if r[0] == c1[0] then c1[k] else c1[0];
    assert x in r;
  }

  // ---------------------------------------------------------------------
  // _merge_lines

  /** `[line for line in lines if line.length]`. */
  function Nonzero(lines: seq<Line>): (r: seq<Line>)
    ensures |r| <= |lines|
    ensures forall l :: l in r <==> l in lines && HasLength(l)
  {
    if |lines| == 0 then []
    else
      var last := lines[|lines| - 1];
      assert lines == lines[..|lines| - 1] + [last];
      Nonzero(lines[..|lines| - 1]) + (if HasLength(last) then [last] else [])
  }

  /** The lines at `p` and `q` have points and cannot be stitched. */
  predicate PairFails(lines: seq<Line>, duplicate: (Line, Line) -> bool, p: int, q: int)
    requires 0 <= p < |lines| && 0 <= q < |lines|
  {
    |lines[p]| > 0 && |lines[q]| > 0 && Stitch(lines[p], lines[q], duplicate).None?
  }

  /** No two lines of `lines` can be stitched. */
  predicate Unstitchable(lines: seq<Line>, duplicate: (Line, Line) -> bool) {
    forall p, q :: 0 <= p < q < |lines| ==> PairFails(lines, duplicate, p, q)
  }

  /** Every coordinate of every line in `inner` lies on some line of `outer`. */
  ghost predicate Covers(outer: seq<Line>, inner: seq<Line>) {
    forall l, v :: l in inner && v in l ==> exists o :: o in outer && v in o
  }

  lemma CoversTrans(a: seq<Line>, b: seq<Line>, c: seq<Line>)
    requires Covers(a, b) && Covers(b, c)
    ensures Covers(a, c)
  {
  }

  /** The duplicate test holds only when the second line adds no coordinate
      the first lacks. Shapely's geometric test does not promise this: a
      longer line2 that contains line1 is discarded with its extra points. */
  ghost predicate ExactDuplicates(duplicate: (Line, Line) -> bool) {
    forall a, b :: duplicate(a, b) ==> forall v :: v in b ==> v in a
  }

  /** `lines.remove(v)`: the first occurrence goes. */
  function RemoveFirst(s: seq<Line>, v: Line): (r: seq<Line>)
    requires v in s
    ensures |r| == |s| - 1
    ensures multiset(r) == multiset(s) - multiset{v}
  {
    assert s == [s[0]] + s[1..];
    if s[0] == v then s[1..] else [s[0]] + RemoveFirst(s[1..], v)
  }

  /** The lines of the pass's snapshot whose positions are not touched. */
  function Untouched(snap: seq<Line>, touched: set<int>): seq<Line> {
    if |snap| == 0 then []
    else
      var last := |snap| - 1;
      Untouched(snap[..last], touched) + (if last in touched then [] else [snap[last]])
  }

  lemma {:induction false} UntouchedBeyond(snap: seq<Line>, touched: set<int>, k: int)
    requires k >= |snap|
    ensures Untouched(snap, touched + {k}) == Untouched(snap, touched)
  {
    if |snap| > 0 {
      UntouchedBeyond(snap[..|snap| - 1], touched, k);
    }
  }

  lemma {:induction false} UntouchedTake(snap: seq<Line>, touched: set<int>, i: int)
    requires 0 <= i < |snap| && i !in touched
    ensures multiset(Untouched(snap, touched)) == multiset(Untouched(snap, touched + {i})) + multiset{snap[i]}
  {
    var last := |snap| - 1;
    var init := snap[..last];
    var tail := if last in touched then [] else [snap[last]];
    assert Untouched(snap, touched) == Untouched(init, touched) + tail;
    if i == last {
      UntouchedBeyond(init, touched, i);
      assert Untouched(snap, touched + {i}) == Untouched(init, touched + {i});
    } else {
      UntouchedTake(init, touched, i);
      assert Untouched(snap, touched + {i}) == Untouched(init, touched + {i}) + tail;
      MultisetSnoc(Untouched(init, touched), Untouched(init, touched + {i}), tail, snap[i]);
    }
  }

  lemma MultisetSnoc(a: seq<Line>, b: seq<Line>, tail: seq<Line>, x: Line)
    requires multiset(a) == multiset(b) + multiset{x}
    ensures multiset(a + tail) == multiset(b + tail) + multiset{x}
  {
  }

  lemma {:induction false} UntouchedNone(snap: seq<Line>)
    ensures Untouched(snap, {}) == snap
  {
    if |snap| > 0 {
      UntouchedNone(snap[..|snap| - 1]);
    }
  }

  lemma {:induction false} UntouchedWithin(snap: seq<Line>, touched: set<int>)
    ensures forall x :: x in Untouched(snap, touched) ==> x in snap
  {
    if |snap| > 0 {
      var last := |snap| - 1;
      UntouchedWithin(snap[..last], touched);
      assert forall x :: x in snap[..last] ==> x in snap;
    }
  }

  /** What holds between the stitches of one pass: `r` is the snapshot minus
      the touched lines plus the lines appended, each appended line was made
      from two touched ones, and (with exact duplicates) holds their points. */
  ghost predicate PassInv(snap: seq<Line>, r: seq<Line>, touched: set<int>, appended: seq<Line>,
                          duplicate: (Line, Line) -> bool)
  {
    && (forall l :: l in snap ==> HasLength(l))
    && (forall k :: k in touched ==> 0 <= k < |snap|)
    && multiset(r) == multiset(Untouched(snap, touched)) + multiset(appended)
    && |touched| == 2 * |appended|
    && |r| + |appended| == |snap|
    && (forall a :: a in appended ==> HasLength(a))
    && Covers(snap, appended)
    && (ExactDuplicates(duplicate) ==>
          forall k, v :: k in touched && 0 <= k < |snap| && v in snap[k] ==> exists a :: a in appended && v in a)
  }

  /** The pairs `combinations` has yielded from rows before `i` failed to stitch. */
  ghost predicate RowsTried(snap: seq<Line>, duplicate: (Line, Line) -> bool, i: int) {
    forall p, q :: 0 <= p < q < |snap| && p < i ==> PairFails(snap, duplicate, p, q)
  }

  /** The pairs `(i, q)` with `q < j` failed to stitch. */
  ghost predicate RowTried(snap: seq<Line>, duplicate: (Line, Line) -> bool, i: int, j: int)
    requires 0 <= i < |snap|
  {
    forall q :: i < q < |snap| && q < j ==> PairFails(snap, duplicate, i, q)
  }

  lemma RowDone(snap: seq<Line>, duplicate: (Line, Line) -> bool, i: int)
    requires 0 <= i < |snap|
    requires RowsTried(snap, duplicate, i) && RowTried(snap, duplicate, i, |snap|)
    ensures RowsTried(snap, duplicate, i + 1)
  {
    forall p, q | 0 <= p < q < |snap| && p < i + 1
      ensures PairFails(snap, duplicate, p, q)
    {
      if p == i {
        assert i < q < |snap| && q < |snap|;
      }
    }
  }

  lemma RemoveFirstFrom(s: seq<Line>, v: Line, rest: multiset<Line>)
    requires multiset(s) == rest + multiset{v}
    ensures v in s && multiset(RemoveFirst(s, v)) == rest
  {
    assert v in multiset(s);
  }

  /** Taking the untouched positions `i` and `j` removes their two lines. */
  lemma UntouchedTakeTwo(snap: seq<Line>, touched: set<int>, i: int, j: int)
    requires 0 <= i < j < |snap| && i !in touched && j !in touched
    ensures multiset(Untouched(snap, touched))
              == multiset(Untouched(snap, touched + {i, j})) + multiset{snap[j]} + multiset{snap[i]}
  {
    UntouchedTake(snap, touched, i);
    UntouchedTake(snap, touched + {i}, j);
    assert touched + {i} + {j} == touched + {i, j};
  }

  lemma MergeMultiset(snap: seq<Line>, r: seq<Line>, touched: set<int>, appended: seq<Line>,
                      i: int, j: int, m: Line)
    requires 0 <= i < j < |snap| && i !in touched && j !in touched
    requires multiset(r) == multiset(Untouched(snap, touched)) + multiset(appended)
    ensures snap[i] in r + [m]
    ensures snap[j] in RemoveFirst(r + [m], snap[i])
    ensures multiset(RemoveFirst(RemoveFirst(r + [m], snap[i]), snap[j]))
              == multiset(Untouched(snap, touched + {i, j})) + multiset(appended + [m])
  {
    var si, sj := snap[i], snap[j];
    var kept := multiset(Untouched(snap, touched + {i, j})) + multiset(appended + [m]);
    UntouchedTakeTwo(snap, touched, i, j);
    assert multiset(appended + [m]) == multiset(appended) + multiset{m};
    assert multiset(r + [m]) == multiset(r) + multiset{m};
    assert multiset(r + [m]) == kept + multiset{sj} + multiset{si};
    RemoveFirstFrom(r + [m], si, kept + multiset{sj});
    RemoveFirstFrom(RemoveFirst(r + [m], si), sj, kept);
  }

  /** The merged line has length and only points of the snapshot. */
  lemma MergedLine(snap: seq<Line>, appended: seq<Line>, duplicate: (Line, Line) -> bool, i: int, j: int, m: Line)
    requires forall l :: l in snap ==> HasLength(l)
    requires forall a :: a in appended ==> HasLength(a)
    requires Covers(snap, appended)
    requires 0 <= i < j < |snap| && |snap[i]| > 0 && |snap[j]| > 0
    requires Stitch(snap[i], snap[j], duplicate) == Some(m)
    ensures forall a :: a in appended + [m] ==> HasLength(a)
    ensures Covers(snap, appended + [m])
  {
    assert snap[i] in snap && snap[j] in snap;
    StitchHasLength(snap[i], snap[j], duplicate);
    forall l, v | l in appended + [m] && v in l
      ensures exists o :: o in snap && v in o
    {
      if l != m {
        assert l in appended;
      }
    }
  }

  lemma MergeStep(snap: seq<Line>, r: seq<Line>, touched: set<int>, appended: seq<Line>,
                  duplicate: (Line, Line) -> bool, i: int, j: int, m: Line)
    requires PassInv(snap, r, touched, appended, duplicate)
    requires 0 <= i < j < |snap| && i !in touched && j !in touched
    requires |snap[i]| > 0 && |snap[j]| > 0
    requires Stitch(snap[i], snap[j], duplicate) == Some(m)
    ensures snap[i] in r + [m]
    ensures snap[j] in RemoveFirst(r + [m], snap[i])
    ensures PassInv(snap, RemoveFirst(RemoveFirst(r + [m], snap[i]), snap[j]), touched + {i, j},
                    appended + [m], duplicate)
  {
    MergeMultiset(snap, r, touched, appended, i, j, m);
    MergedLine(snap, appended, duplicate, i, j, m);
    var t' := touched + {i, j};
    var a' := appended + [m];
    var r' := RemoveFirst(RemoveFirst(r + [m], snap[i]), snap[j]);
    TouchTwo(touched, i, j, |snap|);
    assert |r'| + |a'| == |snap|;
    if ExactDuplicates(duplicate) {
      TouchedCovered(snap, touched, appended, duplicate, i, j, m);
    }
  }

  /** Touching two more positions of the snapshot. */
  lemma TouchTwo(touched: set<int>, i: int, j: int, n: int)
    requires forall k :: k in touched ==> 0 <= k < n
    requires 0 <= i < j < n && i !in touched && j !in touched
    ensures |touched + {i, j}| == |touched| + 2
    ensures forall k :: k in touched + {i, j} ==> 0 <= k < n
  {
    assert touched + {i, j} == (touched + {i}) + {j};
  }

  lemma TouchedCovered(snap: seq<Line>, touched: set<int>, appended: seq<Line>,
                       duplicate: (Line, Line) -> bool, i: int, j: int, m: Line)
    requires ExactDuplicates(duplicate)
    requires forall k, v :: k in touched && 0 <= k < |snap| && v in snap[k] ==> exists a :: a in appended && v in a
    requires 0 <= i < j < |snap| && |snap[i]| > 0 && |snap[j]| > 0
    requires Stitch(snap[i], snap[j], duplicate) == Some(m)
    ensures forall k, v :: k in touched + {i, j} && 0 <= k < |snap| && v in snap[k] ==>
              exists a :: a in appended + [m] && v in a
  {
    forall k, v | k in touched + {i, j} && 0 <= k < |snap| && v in snap[k]
      ensures exists a :: a in appended + [m] && v in a
    {
      if k == i || k == j {
        assert v in m;
      } else {
        var a :| a in appended && v in a;
        assert a in appended + [m];
      }
    }
  }

  lemma PassDone(snap: seq<Line>, r: seq<Line>, touched: set<int>, appended: seq<Line>,
                 duplicate: (Line, Line) -> bool)
    requires PassInv(snap, r, touched, appended, duplicate)
    ensures forall l :: l in r ==> HasLength(l)
    ensures Covers(snap, r)
    ensures ExactDuplicates(duplicate) ==> Covers(r, snap)
  {
    UntouchedWithin(snap, touched);
    forall l | l in r ensures HasLength(l) && (l in snap || l in appended) {
      assert l in multiset(r);
    }
    if ExactDuplicates(duplicate) {
      forall l, v | l in snap && v in l ensures exists o :: o in r && v in o {
        var k :| 0 <= k < |snap| && snap[k] == l;
        if k in touched {
          var a :| a in appended && v in a;
          assert a in multiset(r);
        } else {
          UntouchedTake(snap, touched, k);
          assert l in multiset(r);
        }
      }
    }
  }

  /** The pair `(i, j)` of one pass: when neither line has been merged yet and
      they stitch, their merge replaces them. While nothing has merged, the
      pair failed. */
  method MergeAt(snap: seq<Line>, i: int, j: int, r0: seq<Line>, touched0: set<int>, ghost appended0: seq<Line>,
                 duplicate: (Line, Line) -> bool)
    returns (r: seq<Line>, touched: set<int>, ghost appended: seq<Line>)
    requires 0 <= i < j < |snap|
    requires PassInv(snap, r0, touched0, appended0, duplicate)
    ensures PassInv(snap, r, touched, appended, duplicate)
    ensures appended == [] ==> appended0 == [] && r == r0 && PairFails(snap, duplicate, i, j)
  {
    r, touched, appended := r0, touched0, appended0;
    if i !in touched && j !in touched {
      assert |snap[i]| > 0 && |snap[j]| > 0 by {
        assert snap[i] in snap && snap[j] in snap;
      }
      var merged := Stitch(snap[i], snap[j], duplicate);
      if merged.Some? {
        MergeStep(snap, r, touched, appended, duplicate, i, j, merged.value);
        r := r + [merged.value];
        r := RemoveFirst(r, snap[i]);
        r := RemoveFirst(r, snap[j]);
        touched := touched + {i, j};
        appended := appended + [merged.value];
      }
    }
  }

  /** The pairs `(i, j)`, `j > i`, of one pass, in `combinations` order. */
  method MergeRow(snap: seq<Line>, i: int, r0: seq<Line>, touched0: set<int>, ghost appended0: seq<Line>,
                  duplicate: (Line, Line) -> bool)
    returns (r: seq<Line>, touched: set<int>, ghost appended: seq<Line>)
    requires 0 <= i < |snap|
    requires PassInv(snap, r0, touched0, appended0, duplicate)
    requires appended0 == [] ==> r0 == snap && RowsTried(snap, duplicate, i)
    ensures PassInv(snap, r, touched, appended, duplicate)
    ensures appended == [] ==> r == snap && RowsTried(snap, duplicate, i + 1)
  {
    r, touched, appended := r0, touched0, appended0;
    for j := i + 1 to |snap|
      invariant PassInv(snap, r, touched, appended, duplicate)
      invariant appended == [] ==> r == snap && RowsTried(snap, duplicate, i) && RowTried(snap, duplicate, i, j)
    {
      r, touched, appended := MergeAt(snap, i, j, r, touched, appended, duplicate);
    }
    if appended == [] {
      RowDone(snap, duplicate, i);
    }
  }

  /** One `while merge` pass: every untouched pair of the snapshot is tried in
      `combinations` order, and a stitched pair is replaced by its merge. A
      pass that removes nothing leaves the lines as they were, and then no
      pair of them can be stitched. */
  method MergePass(lines: seq<Line>, duplicate: (Line, Line) -> bool) returns (r: seq<Line>)
    requires forall l :: l in lines ==> HasLength(l)
    ensures forall l :: l in r ==> HasLength(l)
    ensures |r| <= |lines|
    ensures |r| == |lines| ==> r == lines && Unstitchable(lines, duplicate)
    ensures Covers(lines, r)
    ensures ExactDuplicates(duplicate) ==> Covers(r, lines)
  {
    var snap := lines;
    r := lines;
    var touched: set<int> := {};
    ghost var appended: seq<Line> := [];
    UntouchedNone(snap);
    for i := 0 to |snap|
      invariant PassInv(snap, r, touched, appended, duplicate)
      invariant appended == [] ==> r == snap && RowsTried(snap, duplicate, i)
    {
      r, touched, appended := MergeRow(snap, i, r, touched, appended, duplicate);
    }
    PassDone(snap, r, touched, appended, duplicate);
  }

  /** What `_merge_lines` returns for `lines`: lines with length, no more of
      them than survive the length filter, no two stitchable, and the same
      coordinates as the filtered input (all of them when duplicates are
      exact). */
  ghost predicate Merged(out: seq<Line>, lines: seq<Line>, duplicate: (Line, Line) -> bool) {
    var kept := Nonzero(lines);
    && (forall l :: l in out ==> HasLength(l))
    && |out| <= |kept|
    && Unstitchable(out, duplicate)
    && Covers(kept, out)
    && (ExactDuplicates(duplicate) ==> Covers(out, kept))
  }

  /** `_merge_lines`: drop zero-length lines, then run passes until one
      brings no reduction; the count shrinks with every further pass. */
  method MergeLines(lines: seq<Line>, duplicate: (Line, Line) -> bool) returns (r: seq<Line>)
    ensures Merged(r, lines, duplicate)
  {
    var kept := Nonzero(lines);
    r := kept;
    while true
      invariant forall l :: l in r ==> HasLength(l)
      invariant |r| <= |kept|
      invariant Covers(kept, r)
      invariant ExactDuplicates(duplicate) ==> Covers(r, kept)
      decreases |r|
    {
      var next := MergePass(r, duplicate);
      CoversTrans(kept, r, next);
      if ExactDuplicates(duplicate) {
        CoversTrans(next, r, kept);
      }
      if |next| == |r| {
        return;
      }
      r := next;
    }
  }

  // ---------------------------------------------------------------------
  // xray

  /** `xray`: check the argument, fix the winding, take the skeleton of the
      fixed rings, partition its edges by typecode and merge the inner ones.
      The result is `(inner, outer, border)`. */
  method Xray(polygon: Geometry, exterior: Ring -> bool, skeleton: seq<Ring> -> seq<SkeletonEdge>,
              duplicate: (Line, Line) -> bool)
    returns (r: Result<(seq<Line>, seq<Line>, seq<Line>), SkeletonError>)
    ensures Rings(polygon).Err? ==> r == Err(Rings(polygon).error)
    ensures Rings(polygon).Ok? ==> r.Ok?
    ensures r.Ok? ==>
      var edges := skeleton(Rewound(Rings(polygon).value, exterior));
      && Merged(r.value.0, AsLines(Picked(edges, {INNER})), duplicate)
      && r.value.1 == AsLines(Picked(edges, {OUTER}))
      && r.value.2 == AsLines(Picked(edges, {BORDER}))
  {
    var rings := Rings(polygon);
    if rings.Err? {
      return Err(rings.error);
    }
    var fixed := FixWinding(rings.value, exterior);
    var edges := skeleton(fixed);
    var inner, outer, border := Partition(edges);
    inner := MergeLines(inner, duplicate);
    return Ok((inner, outer, border));
  }
}
