/** One round of Visvalingam–Whyatt line simplification, shared by both
    `simplify_line` variants: the apex triangle areas, the selection of apexes
    to drop, and the rebuilt line. */
module Visvalingam {
  import opened Sorting

  type Point = (real, real)

  function Abs(x: real): (r: real)
    ensures r >= 0.0 && (r == x || r == -x)
  {
    if x < 0.0 then -x else x
  }

  /** The area of triangle `a b c` by the shoelace formula (Shapely's
      `Polygon((a, b, c)).area`, computed exactly). */
  function TriangleArea(a: Point, b: Point, c: Point): (r: real)
    ensures r >= 0.0
  {
    Abs(a.0 * (b.1 - c.1) + b.0 * (c.1 - a.1) + c.0 * (a.1 - b.1)) / 2.0
  }

  /** Walking the line backwards sees the same apex areas. */
  lemma TriangleAreaReversed(a: Point, b: Point, c: Point)
    ensures TriangleArea(a, b, c) == TriangleArea(c, b, a)
  {
    var s := a.0 * (b.1 - c.1) + b.0 * (c.1 - a.1) + c.0 * (a.1 - b.1);
    var t := c.0 * (b.1 - a.1) + b.0 * (a.1 - c.1) + a.0 * (c.1 - b.1);
    assert t == -s;
  }

  /** An apex that repeats its predecessor spans no area. */
  lemma TriangleAreaRepeated(a: Point, c: Point)
    ensures TriangleArea(a, a, c) == 0.0
  {
    var s := a.0 * (a.1 - c.1) + a.0 * (c.1 - a.1) + c.0 * (a.1 - a.1);
    assert s == 0.0;
  }

  /** `[triangle.area for triangle in triangles]` over the triples
      `zip(points[:-2], points[1:-1], points[2:])`: entry `i` is the triangle
      whose apex is point `i + 1`. */
  function ApexAreas(points: seq<Point>): (r: seq<real>)
    ensures |r| == if |points| < 2 then 0 else |points| - 2
    ensures forall i {:trigger r[i]} :: 0 <= i < |r| ==> r[i] == TriangleArea(points[i], points[i + 1], points[i + 2])
  {
    seq(if |points| < 2 then 0 else |points| - 2,
        i requires 0 <= i < |points| - 2 => TriangleArea(points[i], points[i + 1], points[i + 2]))
  }

  /** Python's ordering of `(area, index)` tuples. */
  predicate AreaIndexLe(x: (real, int), y: (real, int)) {
    x.0 < y.0 || (x.0 == y.0 && x.1 <= y.1)
  }

  lemma AreaIndexLeTotal()
    ensures TotalPreorder(AreaIndexLe)
  {
  }

  /** `sorted((area, index) for (index, area) in enumerate(areas))`: smallest
      triangle first, ties by index; every apex exactly once. */
  function Candidates(areas: seq<real>): (r: seq<(real, int)>)
    ensures |r| == |areas|
    ensures SortedBy(r, AreaIndexLe)
    ensures forall c {:trigger c in r} :: c in r ==> 0 <= c.1 < |areas| && c.0 == areas[c.1]
    ensures forall i :: 0 <= i < |areas| ==> (areas[i], i) in r
  {
    var pairs := seq(|areas|, i requires 0 <= i < |areas| => (areas[i], i));
    AreaIndexLeTotal();
    SortSorted(pairs, AreaIndexLe);
    var r := Sort(pairs, AreaIndexLe);
    forall c | c in r ensures 0 <= c.1 < |areas| && c.0 == areas[c.1] {
      assert c in multiset(pairs);
    }
    forall i | 0 <= i < |areas| ensures (areas[i], i) in r {
      assert pairs[i] in multiset(r);
    }
    r
  }

  /** The apexes (`index + 1`) of the candidates whose area is at most `small`. */
  ghost function SmallApexes(cands: seq<(real, int)>, small: real): set<int> {
    set j | 0 <= j < |cands| && cands[j].0 <= small :: cands[j].1 + 1
  }

  /** What the selection loop knows after visiting the first `k` candidates;
      `origin` names, for each popped apex, the candidate that dropped it. */
  ghost predicate SelectionInvariant(cands: seq<(real, int)>, small: real, k: nat,
                                     popped: set<int>, preserved: set<int>, origin: map<int, int>)
  {
    && k <= |cands|
    && popped == origin.Keys
    && (forall p :: p in origin ==> 0 <= origin[p] < k && cands[origin[p]].1 + 1 == p)
    && popped !! preserved
    && (forall p :: p in popped ==> p - 1 in preserved && p + 1 in preserved)
    && (forall j :: 0 <= j < k ==> cands[j].0 <= small)
    && (forall j :: 0 <= j < k ==> cands[j].1 + 1 in popped || cands[j].1 + 1 in preserved)
    && (k > 0 ==> popped != {})
    && (preserved != {} ==> popped != {})
  }

  /** Dropping the apex of candidate `k` keeps the invariant. */
  lemma SelectionStep(cands: seq<(real, int)>, small: real, k: nat,
                      popped: set<int>, preserved: set<int>, origin: map<int, int>)
    requires SelectionInvariant(cands, small, k, popped, preserved, origin)
    requires k < |cands| && cands[k].0 <= small && cands[k].1 + 1 !in preserved
    ensures SelectionInvariant(cands, small, k + 1, popped + {cands[k].1 + 1},
              preserved + {cands[k].1, cands[k].1 + 2}, origin[cands[k].1 + 1 := k])
  {
  }

  /** Skipping candidate `k`, whose apex is preserved, keeps the invariant. */
  lemma SelectionSkip(cands: seq<(real, int)>, small: real, k: nat,
                      popped: set<int>, preserved: set<int>, origin: map<int, int>)
    requires SelectionInvariant(cands, small, k, popped, preserved, origin)
    requires k < |cands| && cands[k].0 <= small && cands[k].1 + 1 in preserved
    ensures SelectionInvariant(cands, small, k + 1, popped, preserved, origin)
  {
    forall j | 0 <= j < k + 1 ensures cands[j].1 + 1 in popped || cands[j].1 + 1 in preserved {
    }
  }

  /** In the sorted candidates, everything after an area above `small` is above it too. */
  lemma SortedTail(cands: seq<(real, int)>, small: real, k: nat)
    requires SortedBy(cands, AreaIndexLe)
    requires k < |cands| && cands[k].0 > small
    ensures forall j :: k <= j < |cands| ==> cands[j].0 > small
  {
    forall j | k <= j < |cands| ensures cands[j].0 > small {
      if j > k {
        assert AreaIndexLe(cands[k], cands[j]);
      }
    }
  }

  /** Once every remaining candidate is above `small`, the selection is complete. */
  lemma SelectionDone(cands: seq<(real, int)>, small: real, k: nat,
                      popped: set<int>, preserved: set<int>, origin: map<int, int>)
    requires SelectionInvariant(cands, small, k, popped, preserved, origin)
    requires forall j :: k <= j < |cands| ==> cands[j].0 > small
    ensures popped <= SmallApexes(cands, small)
    ensures popped !! preserved
    ensures forall p :: p in popped ==> p - 1 in preserved && p + 1 in preserved
    ensures forall p, q :: p in popped && q in popped ==> q != p + 1
    ensures forall j :: 0 <= j < |cands| && cands[j].0 <= small ==>
              cands[j].1 + 1 in popped || cands[j].1 + 1 in preserved
    ensures popped == {} <==> forall j :: 0 <= j < |cands| ==> cands[j].0 > small
  {
    forall p | p in popped ensures p in SmallApexes(cands, small) {
      var j := origin[p];
      assert cands[j].1 + 1 == p && cands[j].0 <= small;
    }
  }

  /** The selection loop from candidate `k` on, with what it has popped and
      preserved so far (the `for (area, index) in sorted(areas)` loop): stop
      at the first area above `small`; skip a candidate whose apex is
      preserved; otherwise pop the apex and preserve both its neighbours. */
  function Greedy(cands: seq<(real, int)>, small: real, k: nat, popped: set<int>, preserved: set<int>): (set<int>, set<int>)
    requires k <= |cands|
    decreases |cands| - k
  {
    if k == |cands| || cands[k].0 > small then (popped, preserved)
    else if cands[k].1 + 1 in preserved then Greedy(cands, small, k + 1, popped, preserved)
    else Greedy(cands, small, k + 1, popped + {cands[k].1 + 1}, preserved + {cands[k].1, cands[k].1 + 2})
  }

  /** The popped and preserved sets of one whole pass. */
  function Selection(cands: seq<(real, int)>, small: real): (set<int>, set<int>) {
    Greedy(cands, small, 0, {}, {})
  }

  /** The six facts a finished pass establishes. */
  ghost predicate WellSelected(cands: seq<(real, int)>, small: real, popped: set<int>, preserved: set<int>) {
    && popped <= SmallApexes(cands, small)
    && popped !! preserved
    && (forall p :: p in popped ==> p - 1 in preserved && p + 1 in preserved)
    && (forall p, q :: p in popped && q in popped ==> q != p + 1)
    && (forall j :: 0 <= j < |cands| && cands[j].0 <= small ==>
          cands[j].1 + 1 in popped || cands[j].1 + 1 in preserved)
    && (popped == {} <==> forall j :: 0 <= j < |cands| ==> cands[j].0 > small)
  }

  lemma {:induction false} GreedyFacts(cands: seq<(real, int)>, small: real, k: nat,
                                       popped: set<int>, preserved: set<int>, origin: map<int, int>)
    requires SortedBy(cands, AreaIndexLe)
    requires SelectionInvariant(cands, small, k, popped, preserved, origin)
    ensures WellSelected(cands, small, Greedy(cands, small, k, popped, preserved).0, Greedy(cands, small, k, popped, preserved).1)
    decreases |cands| - k, 1
  {
    if k == |cands| || cands[k].0 > small {
      if k < |cands| {
        SortedTail(cands, small, k);
      }
      SelectionDone(cands, small, k, popped, preserved, origin);
    } else {
      GreedyTakeOrSkip(cands, small, k, popped, preserved, origin);
    }
  }

  /** The pass visits candidate `k`, whose area is small: it skips or takes it. */
  lemma {:induction false} GreedyTakeOrSkip(cands: seq<(real, int)>, small: real, k: nat,
                                            popped: set<int>, preserved: set<int>, origin: map<int, int>)
    requires SortedBy(cands, AreaIndexLe)
    requires SelectionInvariant(cands, small, k, popped, preserved, origin)
    requires k < |cands| && cands[k].0 <= small
    ensures WellSelected(cands, small, Greedy(cands, small, k, popped, preserved).0, Greedy(cands, small, k, popped, preserved).1)
    decreases |cands| - k, 0
  {
    var i := cands[k].1;
    var (popped', preserved', origin') :=
      if i + 1 in preserved then (popped, preserved, origin)
      else (popped + {i + 1}, preserved + {i, i + 2}, origin[i + 1 := k]);
    assert Greedy(cands, small, k, popped, preserved) == Greedy(cands, small, k + 1, popped', preserved');
    if i + 1 in preserved {
      SelectionSkip(cands, small, k, popped, preserved, origin);
    } else {
      SelectionStep(cands, small, k, popped, preserved, origin);
    }
    GreedyFacts(cands, small, k + 1, popped', preserved', origin');
  }

  /** A pass over sorted candidates pops only small apexes, never two
      neighbours, and every small apex is popped or preserved. */
  lemma SelectionFacts(cands: seq<(real, int)>, small: real)
    requires SortedBy(cands, AreaIndexLe)
    ensures WellSelected(cands, small, Selection(cands, small).0, Selection(cands, small).1)
  {
    GreedyFacts(cands, small, 0, {}, {}, map[]);
  }

  /** The pass is greedy, smallest first: of two small neighbouring apexes
      only the smaller one goes, and the other is preserved. */
  lemma SelectionGreedyExample()
    ensures Selection([(1.0, 0), (2.0, 1)], 5.0) == ({1}, {0, 2})
  {
    var cands := [(1.0, 0), (2.0, 1)];
    var popped: set<int>, preserved: set<int> := {}, {};
    assert popped + {cands[0].1 + 1} == {1};
    assert preserved + {cands[0].1, cands[0].1 + 2} == {0, 2};
    assert cands[1].1 + 1 in {0, 2};
    assert Greedy(cands, 5.0, 2, {1}, {0, 2}) == ({1}, {0, 2});
  }

  /** One pass over the sorted candidates: the loop computes `Selection`. */
  method SelectApexes(cands: seq<(real, int)>, small: real) returns (popped: set<int>, preserved: set<int>)
    requires SortedBy(cands, AreaIndexLe)
    ensures (popped, preserved) == Selection(cands, small)
    ensures WellSelected(cands, small, popped, preserved)
  {
    popped, preserved := {}, {};
    var k := 0;
    while k < |cands|
      invariant k <= |cands|
      invariant Greedy(cands, small, k, popped, preserved) == Selection(cands, small)
    {
      var (area, index) := cands[k];
      if area > small {
        break;
      }
      if index + 1 in preserved {
        k := k + 1;
        continue;
      }
      preserved := preserved + {index, index + 2};
      popped := popped + {index + 1};
      k := k + 1;
    }
    SelectionFacts(cands, small);
  }

  /** `[index for index in range(n) if index not in popped]`, ascending. */
  function Kept(n: nat, popped: set<int>): (r: seq<int>)
    ensures |r| <= n
    ensures forall k :: 0 <= k < |r| ==> 0 <= r[k] < n && r[k] !in popped
    ensures forall k, l :: 0 <= k < l < |r| ==> r[k] < r[l]
    ensures forall i :: 0 <= i < n && i !in popped ==> i in r
  {
    if n == 0 then [] else Kept(n - 1, popped) + (if n - 1 in popped then [] else [n - 1])
  }

  /** `[point for (index, point) in enumerate(points) if index not in popped]`. */
  function Reduce(points: seq<Point>, popped: set<int>): (r: seq<Point>)
    ensures Embeds(Kept(|points|, popped), r, points)
  {
    var idx := Kept(|points|, popped);
    seq(|idx|, k requires 0 <= k < |idx| => points[idx[k]])
  }

  /** `idx` lists, in increasing order, the positions in `s` that make up `r`. */
  ghost predicate Embeds(idx: seq<int>, r: seq<Point>, s: seq<Point>) {
    && |idx| == |r|
    && (forall k :: 0 <= k < |idx| ==> 0 <= idx[k] < |s| && r[k] == s[idx[k]])
    && (forall k, l :: 0 <= k < l < |idx| ==> idx[k] < idx[l])
  }

  /** `r` is `s` with some points left out and the rest in their order. */
  ghost predicate IsSubsequence(r: seq<Point>, s: seq<Point>) {
    exists idx :: Embeds(idx, r, s)
  }

  /** No apex of `points` spans an area of at most `small`. */
  predicate RemovesNothing(points: seq<Point>, small: real) {
    forall i :: 0 <= i < |points| - 2 ==> TriangleArea(points[i], points[i + 1], points[i + 2]) > small
  }

  lemma EmbedsIdentity(s: seq<Point>) returns (idx: seq<int>)
    ensures Embeds(idx, s, s)
  {
    idx := seq(|s|, i => i);
  }

  lemma {:induction false} EmbedsLow(idx: seq<int>, r: seq<Point>, s: seq<Point>, k: nat)
    requires Embeds(idx, r, s) && k < |idx|
    ensures idx[k] >= k
  {
    if k > 0 {
      EmbedsLow(idx, r, s, k - 1);
    }
  }

  lemma {:induction false} EmbedsHigh(idx: seq<int>, r: seq<Point>, s: seq<Point>, k: nat)
    requires Embeds(idx, r, s) && k < |idx|
    ensures idx[k] <= |s| - (|idx| - k)
    decreases |idx| - k
  {
    if k + 1 < |idx| {
      EmbedsHigh(idx, r, s, k + 1);
    }
  }

  /** A subsequence as long as the sequence is the sequence itself. */
  lemma EmbedsFull(idx: seq<int>, r: seq<Point>, s: seq<Point>)
    requires Embeds(idx, r, s) && |r| == |s|
    ensures r == s
  {
    forall k | 0 <= k < |r| ensures r[k] == s[k] {
      EmbedsLow(idx, r, s, k);
      EmbedsHigh(idx, r, s, k);
    }
  }

  lemma EmbedsCompose(i1: seq<int>, r: seq<Point>, m: seq<Point>, i2: seq<int>, s: seq<Point>) returns (idx: seq<int>)
    requires Embeds(i1, r, m) && Embeds(i2, m, s)
    ensures Embeds(idx, r, s)
  {
    idx := seq(|i1|, k requires 0 <= k < |i1| => i2[i1[k]]);
  }

  /** An increasing run of positions that covers the first and the last one. */
  lemma {:induction false} KeptEnds(n: nat, popped: set<int>)
    requires n > 0 && 0 !in popped && n - 1 !in popped
    ensures |Kept(n, popped)| > 0
    ensures Kept(n, popped)[0] == 0
    ensures Kept(n, popped)[|Kept(n, popped)| - 1] == n - 1
  {
    var r := Kept(n, popped);
    assert 0 in r;
  }

  /** Dropping one position in range shortens the line. */
  lemma {:induction false} KeptShrinks(n: nat, popped: set<int>, p: int)
    requires 0 <= p < n && p in popped
    ensures |Kept(n, popped)| < n
  {
    if n - 1 != p {
      KeptShrinks(n - 1, popped, p);
    }
  }

  /** With the first position kept and no two neighbours dropped, at least
      every other position survives. */
  lemma {:induction false} KeptHalf(n: nat, popped: set<int>)
    requires n >= 1 && 0 !in popped
    requires forall p, q :: p in popped && q in popped ==> q != p + 1
    ensures 2 * |Kept(n, popped)| >= n
  {
    if n >= 2 {
      if n - 1 in popped {
        assert n - 2 !in popped;
        if n > 2 {
          KeptHalf(n - 2, popped);
        }
        assert Kept(n - 1, popped) == Kept(n - 2, popped) + [n - 2];
      } else {
        KeptHalf(n - 1, popped);
      }
    }
  }

  /** A round's popped set, as SelectApexes returns it for the apexes of
      `points`: only inner apexes of area at most `small`, never two neighbours. */
  ghost predicate ValidRound(points: seq<Point>, popped: set<int>, small: real) {
    && (forall p :: p in popped ==> 1 <= p <= |points| - 2 && ApexAreas(points)[p - 1] <= small)
    && (forall p, q :: p in popped && q in popped ==> q != p + 1)
  }

  lemma RoundFromSelection(points: seq<Point>, popped: set<int>, small: real)
    requires popped <= SmallApexes(Candidates(ApexAreas(points)), small)
    requires forall p, q :: p in popped && q in popped ==> q != p + 1
    ensures ValidRound(points, popped, small)
  {
    SmallApexesBounded(ApexAreas(points), Candidates(ApexAreas(points)), popped, small);
  }

  /** Each apex a candidate list selects is an interior point whose area is
      small enough. */
  lemma SmallApexesBounded(areas: seq<real>, cands: seq<(real, int)>, popped: set<int>, small: real)
    requires forall c {:trigger c in cands} :: c in cands ==> 0 <= c.1 < |areas| && c.0 == areas[c.1]
    requires popped <= SmallApexes(cands, small)
    ensures forall p :: p in popped ==> 1 <= p <= |areas| && areas[p - 1] <= small
  {
    forall p | p in popped ensures 1 <= p <= |areas| && areas[p - 1] <= small {
      var j :| 0 <= j < |cands| && cands[j].0 <= small && cands[j].1 + 1 == p;
      assert cands[j] in cands;
    }
  }

  /** One round keeps both endpoints, leaves at least half of the line, and
      shortens it exactly when it drops something. */
  lemma {:induction false} RoundShape(points: seq<Point>, popped: set<int>, small: real)
    requires |points| >= 2 && ValidRound(points, popped, small)
    ensures var r := Reduce(points, popped);
      && |r| >= 1 && r[0] == points[0] && r[|r| - 1] == points[|points| - 1]
      && 2 * |r| >= |points| + 1
      && (popped != {} ==> |r| < |points|)
  {
    var n := |points|;
    KeptEnds(n, popped);
    KeptHalf(n - 1, popped);
    assert Kept(n, popped) == Kept(n - 1, popped) + [n - 1];
    if popped != {} {
      var p := Member(popped);
      KeptShrinks(n, popped, p);
    }
  }

  /** The apexes one round of `simplify_line` pops from `points`. */
  function Popped(points: seq<Point>, small: real): set<int> {
    Selection(Candidates(ApexAreas(points)), small).0
  }

  /** A round pops small, non-adjacent inner apexes, and pops nothing exactly
      when no apex is small. */
  lemma PoppedValid(points: seq<Point>, small: real)
    ensures ValidRound(points, Popped(points, small), small)
    ensures Popped(points, small) == {} <==> RemovesNothing(points, small)
  {
    var cands := Candidates(ApexAreas(points));
    SelectionFacts(cands, small);
    var (popped, preserved) := Selection(cands, small);
    RoundFromSelection(points, popped, small);
    PoppedEmptyExactly(points, cands, popped, small);
  }

  lemma PoppedEmptyExactly(points: seq<Point>, cands: seq<(real, int)>, popped: set<int>, small: real)
    requires cands == Candidates(ApexAreas(points)) && ValidRound(points, popped, small)
    requires popped == {} <==> forall j :: 0 <= j < |cands| ==> cands[j].0 > small
    ensures popped == {} <==> RemovesNothing(points, small)
  {
    if popped == {} {
      EmptySelection(points, small);
    } else {
      var p := Member(popped);
      assert ApexAreas(points)[p - 1] <= small;
    }
  }

  /** A round that pops something shortens the line. */
  lemma PoppedShrinks(points: seq<Point>, small: real)
    requires Popped(points, small) != {}
    ensures |points| >= 3
    ensures |Reduce(points, Popped(points, small))| < |points|
  {
    PoppedValid(points, small);
    var p := Member(Popped(points, small));
    RoundShape(points, Popped(points, small), small);
  }

  /** Rounds repeated while the line is longer than `floor` points, until one
      pops nothing: `simplify_line`'s outer loop. */
  function Rounds(points: seq<Point>, small: real, floor: nat): seq<Point>
    decreases |points|
  {
    if |points| <= floor then points
    else
      var popped := Popped(points, small);
      if popped == {} then points
      else
        PoppedShrinks(points, small);
        Rounds(Reduce(points, popped), small, floor)
  }

  /** `r`, reached from `points` by rounds, is settled: at most `floor` points
      or no small apex left, a subsequence of `points` with both endpoints. */
  ghost predicate SettledFrom(points: seq<Point>, r: seq<Point>, idx: seq<int>, small: real, floor: nat) {
    && (|r| <= floor || RemovesNothing(r, small))
    && Embeds(idx, r, points)
    && (|points| >= 2 ==> |r| >= 2 && r[0] == points[0] && r[|r| - 1] == points[|points| - 1])
  }

  /** The rounds end with a line of at most `floor` points or one with no
      small apex left; it is a subsequence of the input with both endpoints. */
  lemma {:induction false} RoundsSettled(points: seq<Point>, small: real, floor: nat) returns (idx: seq<int>)
    ensures SettledFrom(points, Rounds(points, small, floor), idx, small, floor)
    decreases |points|
  {
    if |points| <= floor || Popped(points, small) == {} {
      idx := SettledAtOnce(points, small, floor);
    } else {
      var m := RoundsUnfold(points, small, floor);
      var i1 := RoundsSettled(m, small, floor);
      idx := SettledCompose(points, Popped(points, small), small, floor, Rounds(m, small, floor), i1);
    }
  }

  /** A line the rounds leave alone is settled. */
  lemma SettledAtOnce(points: seq<Point>, small: real, floor: nat) returns (idx: seq<int>)
    requires |points| <= floor || Popped(points, small) == {}
    ensures SettledFrom(points, Rounds(points, small, floor), idx, small, floor)
  {
    PoppedValid(points, small);
    idx := EmbedsIdentity(points);
  }

  /** A line the rounds leave alone comes back as it is. */
  lemma RoundsStays(points: seq<Point>, small: real, floor: nat)
    requires |points| <= floor || Popped(points, small) == {}
    ensures Rounds(points, small, floor) == points
  {
  }

  /** A line the rounds shorten: simplifying it is simplifying its reduction. */
  lemma RoundsUnfold(points: seq<Point>, small: real, floor: nat) returns (m: seq<Point>)
    requires |points| > floor && Popped(points, small) != {}
    ensures m == Reduce(points, Popped(points, small)) && |m| < |points|
    ensures Rounds(points, small, floor) == Rounds(m, small, floor)
    ensures |points| >= 2 && ValidRound(points, Popped(points, small), small)
  {
    PoppedShrinks(points, small);
    PoppedValid(points, small);
    m := Reduce(points, Popped(points, small));
  }

  /** A settled line reached from the reduced line is reached from the line. */
  lemma SettledCompose(points: seq<Point>, popped: set<int>, small: real, floor: nat, r: seq<Point>, i1: seq<int>)
    returns (idx: seq<int>)
    requires |points| >= 2 && ValidRound(points, popped, small)
    requires SettledFrom(Reduce(points, popped), r, i1, small, floor)
    ensures SettledFrom(points, r, idx, small, floor)
  {
    RoundShape(points, popped, small);
    idx := EmbedsCompose(i1, r, Reduce(points, popped), Kept(|points|, popped), points);
  }

  /** Simplifying a simplified line changes nothing. */
  lemma {:induction false} RoundsIdempotent(points: seq<Point>, small: real, floor: nat)
    ensures Rounds(Rounds(points, small, floor), small, floor) == Rounds(points, small, floor)
  {
    var r := Rounds(points, small, floor);
    var _ := RoundsSettled(points, small, floor);
    if |r| > floor {
      PoppedValid(r, small);
    }
  }

  /** The selection step of one round on `points`: sorts the apex areas,
      selects, and reports which apexes go. */
  method SelectRound(points: seq<Point>, small: real) returns (popped: set<int>)
    ensures popped == Popped(points, small)
    ensures ValidRound(points, popped, small)
    ensures popped == {} <==> RemovesNothing(points, small)
  {
    var cands := Candidates(ApexAreas(points));
    var preserved;
    popped, preserved := SelectApexes(cands, small);
    PoppedValid(points, small);
  }

  /** A round composed with the rounds before it: the line stays a
      subsequence of the original. */
  lemma RoundStep(original: seq<Point>, idx: seq<int>, points: seq<Point>, popped: set<int>, small: real)
    returns (idx2: seq<int>)
    requires Embeds(idx, points, original)
    requires |points| >= 2 && ValidRound(points, popped, small)
    ensures Embeds(idx2, Reduce(points, popped), original)
    ensures var r := Reduce(points, popped);
      && |r| >= 1 && r[0] == points[0] && r[|r| - 1] == points[|points| - 1]
      && 2 * |r| >= |points| + 1
      && (popped != {} ==> |r| < |points|)
  {
    RoundShape(points, popped, small);
    var kept := Kept(|points|, popped);
    idx2 := EmbedsCompose(kept, Reduce(points, popped), points, idx, original);
  }

  /** One round of `simplify_line`'s loop on `points`, a subsequence of
      `original`: the selected apexes are dropped, and nothing is dropped
      exactly when no apex is small enough. */
  method SimplifyRound(ghost original: seq<Point>, ghost idx: seq<int>, points: seq<Point>, small: real)
    returns (r: seq<Point>, ghost idx2: seq<int>, dropped: bool)
    requires Embeds(idx, points, original) && |points| >= 2
    ensures Embeds(idx2, r, original)
    ensures |r| >= 1 && r[0] == points[0] && r[|r| - 1] == points[|points| - 1]
    ensures 2 * |r| >= |points| + 1
    ensures dropped ==> |r| < |points|
    ensures !dropped <==> RemovesNothing(points, small)
    ensures dropped <==> Popped(points, small) != {}
    ensures dropped ==> |points| >= 3 && r == Reduce(points, Popped(points, small))
    ensures !dropped ==> r == points
  {
    var popped := SelectRound(points, small);
    if popped == {} {
      r, idx2, dropped := points, idx, false;
      RoundKeeps(original, idx, points, small);
    } else {
      idx2 := RoundDrops(original, idx, points, small);
      r, dropped := Reduce(points, popped), true;
    }
  }

  /** What one round leaves: `r` is the line, `idx2` its place in `original`,
      and `dropped` tells whether anything went. */
  ghost predicate RoundOutcome(original: seq<Point>, points: seq<Point>, small: real,
                               r: seq<Point>, idx2: seq<int>, dropped: bool)
    requires |points| >= 2
  {
    && Embeds(idx2, r, original)
    && |r| >= 1 && r[0] == points[0] && r[|r| - 1] == points[|points| - 1]
    && 2 * |r| >= |points| + 1
    && (dropped <==> Popped(points, small) != {})
    && (!dropped <==> RemovesNothing(points, small))
    && (dropped ==> |points| >= 3 && |r| < |points| && r == Reduce(points, Popped(points, small)))
    && (!dropped ==> r == points)
  }

  lemma RoundKeeps(original: seq<Point>, idx: seq<int>, points: seq<Point>, small: real)
    requires Embeds(idx, points, original) && |points| >= 2 && Popped(points, small) == {}
    ensures RoundOutcome(original, points, small, points, idx, false)
  {
    PoppedValid(points, small);
  }

  lemma RoundDrops(original: seq<Point>, idx: seq<int>, points: seq<Point>, small: real) returns (idx2: seq<int>)
    requires Embeds(idx, points, original) && |points| >= 2 && Popped(points, small) != {}
    ensures RoundOutcome(original, points, small, Reduce(points, Popped(points, small)), idx2, true)
  {
    PoppedValid(points, small);
    PoppedShrinks(points, small);
    idx2 := RoundStep(original, idx, points, Popped(points, small), small);
  }

  lemma Member(s: set<int>) returns (x: int)
    requires s != {}
    ensures x in s
  {
    if forall y :: y !in s {
      assert false;
    }
    x :| x in s;
  }

  /** If nothing is small enough to drop, the line has no removable apex. */
  lemma EmptySelection(points: seq<Point>, small: real)
    requires forall j :: 0 <= j < |Candidates(ApexAreas(points))| ==> Candidates(ApexAreas(points))[j].0 > small
    ensures RemovesNothing(points, small)
  {
    var areas := ApexAreas(points);
    var cands := Candidates(areas);
    forall i | 0 <= i < |points| - 2
      ensures TriangleArea(points[i], points[i + 1], points[i + 2]) > small
    {
      assert (areas[i], i) in cands;
    }
  }
}
