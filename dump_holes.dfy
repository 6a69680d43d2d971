/** CGAL/dump/dump-skeleton.cpp: standard input, one point per line, becomes
    a polygon with holes. Points go to the outer ring until the first empty
    line; every empty line starts a new hole, and later points go to the
    newest hole. A non-empty line that does not read as a point is reported
    and skipped. The straight skeleton of the result is foreign. */
module DumpHoles {
  import opened Wrappers
  import opened Strings
  import opened LineInput
  import opened CgalPolygon

  /** What the reading loop has built: the outer ring, the holes in order,
      and the lines reported as bad. */
  datatype Parsed = Parsed(outer: seq<Point>, holes: seq<seq<Point>>, bad: seq<string>)

  /** One line of the loop. */
  function Step(p: Parsed, line: string, read: Reader): Parsed {
    if line == "" then p.(holes := p.holes + [[]])
    else
      match read(line)
      case None => p.(bad := p.bad + [line])
      case Some(pt) =>
        if |p.holes| == 0 then p.(outer := p.outer + [pt])
        else
          var last := |p.holes| - 1;
          p.(holes := p.holes[..last] + [p.holes[last] + [pt]])
  }

  /** The loop over the lines, from empty rings. */
  function Parse(lines: seq<string>, read: Reader): Parsed
    decreases |lines|
  {
    if |lines| == 0 then Parsed([], [], [])
    else Step(Parse(lines[..|lines| - 1], read), lines[|lines| - 1], read)
  }

  /** The polygon with holes the program hands to the skeleton. */
  datatype PolygonWithHoles = PolygonWithHoles(outer: seq<Point>, holes: seq<seq<Point>>)

  // ---------------------------------------------------------------------
  // The reading loop over objects

  /** The `while (getline)` loop: `current` starts at the outer ring and is
      moved to a fresh hole at each empty line; a readable line pushes its
      point onto the current ring. */
  method ReadRings(lines: seq<string>, read: Reader) returns (outer: Polygon, inners: seq<Polygon>, bad: seq<string>)
    ensures Holds(Parse(lines, read), outer, inners, if |inners| == 0 then outer else inners[|inners| - 1], bad)
  {
    outer := new Polygon();
    inners := [];
    bad := [];
    var current := outer;
    ghost var p := Parse([], read);
    for i := 0 to |lines|
      invariant fresh(current)
      invariant p == Parse(lines[..i], read)
      invariant Holds(p, outer, inners, current, bad)
    {
      ParseStep(lines, i, read);
      inners, current, bad := ReadLine(lines[i], read, p, outer, inners, current, bad);
      p := Step(p, lines[i], read);
    }
    assert lines[..|lines|] == lines;
  }

  /** The rings read so far are `p`: `outer` holds the outer ring, `inners`
      the holes in order (distinct objects), `current` is the last ring. */
  ghost predicate Holds(p: Parsed, outer: Polygon, inners: seq<Polygon>, current: Polygon, bad: seq<string>)
    reads outer, inners
  {
    && current == (if |inners| == 0 then outer else inners[|inners| - 1])
    && (|inners| > 0 ==> current != outer)
    && (forall k :: 0 <= k < |inners| - 1 ==> inners[k] != current)
    && outer.points == p.outer && bad == p.bad && |inners| == |p.holes|
    && (forall k :: 0 <= k < |inners| ==> inners[k].points == p.holes[k])
  }

  /** One turn of the loop: an empty line starts a fresh hole, which becomes
      the current ring; a readable line pushes its point onto the current
      ring; any other line is set aside. */
  method ReadLine(line: string, read: Reader, ghost p: Parsed, outer: Polygon, inners: seq<Polygon>, current: Polygon, bad: seq<string>)
    returns (inners': seq<Polygon>, current': Polygon, bad': seq<string>)
    requires Holds(p, outer, inners, current, bad)
    modifies current
    ensures current' == current || fresh(current')
    ensures Holds(Step(p, line, read), outer, inners', current', bad')
  {
    inners', current', bad' := inners, current, bad;
    if line == "" {
      current' := new Polygon();
      inners' := inners + [current'];
    } else {
      var pt := read(line);
      if pt.None? {
        bad' := bad + [line];
      } else {
        current.PushBack(pt.value);
      }
    }
  }

  /** One more line of the loop. */
  lemma ParseStep(lines: seq<string>, i: nat, read: Reader)
    requires i < |lines|
    ensures Parse(lines[..i + 1], read) == Step(Parse(lines[..i], read), lines[i], read)
  {
    assert lines[..i + 1][..i] == lines[..i];
  }

  /** The polygon with holes built from the lines: the rings are read, and
      each inner ring is added as a hole in order. */
  method ReadPolygon(lines: seq<string>, read: Reader) returns (poly: PolygonWithHoles, bad: seq<string>)
    ensures poly == PolygonWithHoles(Parse(lines, read).outer, Parse(lines, read).holes)
    ensures bad == Parse(lines, read).bad
  {
    var outer, inners;
    outer, inners, bad := ReadRings(lines, read);
    poly := PolygonWithHoles(outer.points, []);
    for k := 0 to |inners|
      invariant poly.outer == outer.points
      invariant |poly.holes| == k
      invariant forall j :: 0 <= j < k ==> poly.holes[j] == inners[j].points
    {
      poly := poly.(holes := poly.holes + [inners[k].points]);
    }
  }

  /** The whole program up to the skeleton: the lines `getline` delivers,
      each read with `iss >> x >> y`. */
  method Run(input: string) returns (poly: PolygonWithHoles, bad: seq<string>)
    ensures poly == PolygonWithHoles(Parse(Lines(input), ReadPair).outer, Parse(Lines(input), ReadPair).holes)
    ensures bad == Parse(Lines(input), ReadPair).bad
  {
    poly, bad := ReadPolygon(Lines(input), ReadPair);
  }

  // ---------------------------------------------------------------------
  // The rings described line by line

  /** The rings in order: the outer ring first, then the holes. */
  function Rings(p: Parsed): seq<seq<Point>> {
    [p.outer] + p.holes
  }

  /** The points of each run of lines between empty lines. */
  function SegmentPoints(segs: seq<seq<string>>, read: Reader): (r: seq<seq<Point>>)
    ensures |r| == |segs|
  {
    seq(|segs|, k requires 0 <= k < |segs| => Points(segs[k], read))
  }

  /** The lines that are reported: not empty, yet not read as a point. */
  function BadLines(lines: seq<string>, read: Reader): seq<string>
    decreases |lines|
  {
    if |lines| == 0 then []
    else
      var n := |lines| - 1;
      BadLines(lines[..n], read) + (if lines[n] != "" && read(lines[n]).None? then [lines[n]] else [])
  }

  /** An empty line appends an empty ring. */
  lemma RingsOfBlank(p: Parsed, read: Reader)
    ensures Rings(Step(p, "", read)) == Rings(p) + [[]]
  {
    assert Rings(Step(p, "", read)) == [p.outer] + (p.holes + [[]]);
  }

  /** An unreadable line leaves the rings as they are. */
  lemma RingsOfBad(p: Parsed, line: string, read: Reader)
    requires line != "" && read(line).None?
    ensures var rs := Rings(p);
            Rings(Step(p, line, read)) == rs[..|rs| - 1] + [rs[|rs| - 1] + LinePoints(line, read)]
  {
    var rs := Rings(p);
    assert rs[|rs| - 1] + [] == rs[|rs| - 1];
    assert rs[..|rs| - 1] + [rs[|rs| - 1]] == rs;
  }

  /** A point before the first empty line extends the outer ring. */
  lemma RingsOfOuterPoint(p: Parsed, line: string, read: Reader)
    requires line != "" && read(line).Some? && |p.holes| == 0
    ensures var rs := Rings(p);
            Rings(Step(p, line, read)) == rs[..|rs| - 1] + [rs[|rs| - 1] + LinePoints(line, read)]
  {
    assert Rings(p) == [p.outer];
  }

  /** A point after an empty line extends the newest hole. */
  lemma RingsOfHolePoint(p: Parsed, line: string, read: Reader)
    requires line != "" && read(line).Some? && |p.holes| > 0
    ensures var rs := Rings(p);
            Rings(Step(p, line, read)) == rs[..|rs| - 1] + [rs[|rs| - 1] + LinePoints(line, read)]
  {
    var rs := Rings(p);
    var last := |p.holes| - 1;
    assert rs[..|rs| - 1] == [p.outer] + p.holes[..last];
    assert rs[|rs| - 1] == p.holes[last];
  }

  /** A non-empty line adds its point, if any, to the last ring. */
  lemma RingsOfLine(p: Parsed, line: string, read: Reader)
    requires line != ""
    ensures var rs := Rings(p);
            Rings(Step(p, line, read)) == rs[..|rs| - 1] + [rs[|rs| - 1] + LinePoints(line, read)]
  {
    if read(line).None? {
      RingsOfBad(p, line, read);
    } else if |p.holes| == 0 {
      RingsOfOuterPoint(p, line, read);
    } else {
      RingsOfHolePoint(p, line, read);
    }
  }

  /** An empty line opens an empty ring. */
  lemma SegmentsBlank(segs: seq<seq<string>>, read: Reader)
    ensures SegmentPoints(segs + [[]], read) == SegmentPoints(segs, read) + [[]]
  {
    assert Points([], read) == [];
  }

  /** A line within a run adds its point to the last ring. */
  lemma SegmentsExtend(segs: seq<seq<string>>, line: string, read: Reader)
    requires |segs| > 0
    ensures var k := |segs| - 1;
            var rs := SegmentPoints(segs, read);
            SegmentPoints(segs[..k] + [segs[k] + [line]], read) == rs[..k] + [rs[k] + LinePoints(line, read)]
  {
    var k := |segs| - 1;
    PointsSnoc(segs[k], line, read);
  }

  /** The outer ring holds the points before the first empty line, and hole
      `k` the points between the `k`-th empty line and the next. */
  lemma {:induction false} RingsAreSegments(lines: seq<string>, read: Reader)
    ensures Rings(Parse(lines, read)) == SegmentPoints(Split(lines, ""), read)
    decreases |lines|
  {
    if |lines| > 0 {
      var n := |lines| - 1;
      var init, line := lines[..n], lines[n];
      var segs := Split(init, "");
      RingsAreSegments(init, read);
      assert Parse(lines, read) == Step(Parse(init, read), line, read);
      assert init + [line] == lines;
      SplitSnoc(init, line, "");
      if line == "" {
        RingsOfBlank(Parse(init, read), read);
        SegmentsBlank(segs, read);
      } else {
        RingsOfLine(Parse(init, read), line, read);
        SegmentsExtend(segs, line, read);
      }
    }
  }

  /** There is one hole per empty line. */
  lemma {:induction false} HoleCount(lines: seq<string>, read: Reader)
    ensures |Parse(lines, read).holes| == multiset(lines)[""]
    decreases |lines|
  {
    if |lines| > 0 {
      var n := |lines| - 1;
      HoleCount(lines[..n], read);
      assert lines == lines[..n] + [lines[n]];
    }
  }

  /** The reported lines are exactly the non-empty unreadable ones, in order. */
  lemma {:induction false} BadCount(lines: seq<string>, read: Reader)
    ensures Parse(lines, read).bad == BadLines(lines, read)
    decreases |lines|
  {
    if |lines| > 0 {
      BadCount(lines[..|lines| - 1], read);
    }
  }

  /** A last line without its newline changes nothing: the result is that
      of the newline-terminated lines alone. */
  lemma UnterminatedTailIgnored(ls: seq<string>, tail: string, read: Reader)
    requires forall i :: 0 <= i < |ls| ==> '\n' !in ls[i]
    requires '\n' !in tail
    ensures Parse(Lines(Unlines(ls) + tail), read) == Parse(ls, read)
  {
    LinesUnlines(ls, tail);
  }
}
