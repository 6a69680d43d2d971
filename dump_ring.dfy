/** CGAL/dump-skeleton.cpp: standard input, one point per line, becomes a
    single outer ring. Every line that does not read as a point, empty lines
    included, is reported and skipped. */
module DumpRing {
  import opened Wrappers
  import opened Strings
  import opened LineInput
  import opened CgalPolygon
  import DumpHoles

  /** The lines that are reported: those that do not read as a point. */
  function Unreadable(lines: seq<string>, read: Reader): seq<string>
    decreases |lines|
  {
    if |lines| == 0 then []
    else
      var n := |lines| - 1;
      Unreadable(lines[..n], read) + (if read(lines[n]).None? then [lines[n]] else [])
  }

  /** The `while (getline)` loop pushing each readable point onto `outer`. */
  method ReadRing(lines: seq<string>, read: Reader) returns (outer: Polygon, bad: seq<string>)
    ensures fresh(outer)
    ensures outer.points == Points(lines, read) && bad == Unreadable(lines, read)
  {
    outer := new Polygon();
    bad := [];
    for i := 0 to |lines|
      invariant fresh(outer)
      invariant outer.points == Points(lines[..i], read) && bad == Unreadable(lines[..i], read)
    {
      var line := lines[i];
      ReadRingStep(lines, i, read);
      var pt := read(line);
      if pt.None? {
        bad := bad + [line];
      } else {
        outer.PushBack(pt.value);
      }
    }
    assert lines[..|lines|] == lines;
  }

  /** One more line of the loop: its point, or the line itself, at the end. */
  lemma ReadRingStep(lines: seq<string>, i: nat, read: Reader)
    requires i < |lines|
    ensures Points(lines[..i + 1], read) == Points(lines[..i], read) + LinePoints(lines[i], read)
    ensures Unreadable(lines[..i + 1], read) == Unreadable(lines[..i], read) + (if read(lines[i]).None? then [lines[i]] else [])
  {
    assert lines[..i + 1] == lines[..i] + [lines[i]];
    PointsSnoc(lines[..i], lines[i], read);
  }

  /** The whole program up to the skeleton: the ring of the lines `getline`
      delivers, read with `iss >> x >> y`, and the reported lines. */
  method Run(input: string) returns (ring: seq<Point>, bad: seq<string>)
    ensures ring == Points(Lines(input), ReadPair) && bad == Unreadable(Lines(input), ReadPair)
  {
    var outer;
    outer, bad := ReadRing(Lines(input), ReadPair);
    ring := outer.points;
  }

  /** Every readable line contributes its point, so the ring has one point
      per line that is not reported. */
  lemma {:induction false} RingCount(lines: seq<string>, read: Reader)
    ensures |Points(lines, read)| + |Unreadable(lines, read)| == |lines|
    decreases |lines|
  {
    if |lines| > 0 {
      var n := |lines| - 1;
      RingCount(lines[..n], read);
      assert lines == lines[..n] + [lines[n]];
      PointsSnoc(lines[..n], lines[n], read);
    }
  }

  /** Without empty lines both dump programs read the same outer ring, the
      holes variant finds no holes, and both report the same lines. */
  lemma {:induction false} AgreesWithoutBlankLines(lines: seq<string>, read: Reader)
    requires "" !in lines
    ensures DumpHoles.Parse(lines, read) == DumpHoles.Parsed(Points(lines, read), [], Unreadable(lines, read))
    decreases |lines|
  {
    if |lines| > 0 {
      var n := |lines| - 1;
      assert "" !in lines[..n] by {
        assert forall x :: x in lines[..n] ==> x in lines;
      }
      AgreesWithoutBlankLines(lines[..n], read);
      assert lines == lines[..n] + [lines[n]];
      PointsSnoc(lines[..n], lines[n], read);
    }
  }

  /** A last line without its newline is never read. */
  lemma UnterminatedTailIgnored(ls: seq<string>, tail: string, read: Reader)
    requires forall i :: 0 <= i < |ls| ==> '\n' !in ls[i]
    requires '\n' !in tail
    ensures Points(Lines(Unlines(ls) + tail), read) == Points(ls, read)
    ensures Unreadable(Lines(Unlines(ls) + tail), read) == Unreadable(ls, read)
  {
    LinesUnlines(ls, tail);
  }
}
