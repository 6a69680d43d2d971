/** Skeletron/util.py: Visvalingam–Whyatt simplification down to three
    points, the rings of a buffer polygon, and the file-opening dispatch. */
module Util {
  import opened Visvalingam
  import opened Strings

  /** `simplify_line`: rounds of apex removal while more than three points
      remain; a round that drops nothing ends the loop. */
  method SimplifyLine(points: seq<Point>, small: real) returns (r: seq<Point>)
    ensures |points| <= 3 ==> r == points
    ensures IsSubsequence(r, points)
    ensures |points| > 0 ==> |r| > 0 && r[0] == points[0] && r[|r| - 1] == points[|points| - 1]
    ensures |points| >= 4 ==> |r| >= 3
    ensures |r| <= 3 || RemovesNothing(r, small)
    ensures r == Rounds(points, small, 3)
  {
    if |points| <= 3 {
      ghost var idx := EmbedsIdentity(points);
      RoundsStays(points, small, 3);
      return points;
    }
    r := points;
    ghost var idx: seq<int> := seq(|points|, i => i);
    while |r| > 3
      invariant Embeds(idx, r, points)
      invariant |r| >= 3 && r[0] == points[0] && r[|r| - 1] == points[|points| - 1]
      invariant Rounds(r, small, 3) == Rounds(points, small, 3)
      decreases |r|
    {
      var r', dropped;
      ghost var idx';
      r', idx', dropped := SimplifyRound(points, idx, r, small);
      if !dropped {
        RoundsStays(r, small, 3);
        break;
      }
      ghost var m := RoundsUnfold(r, small, 3);
      r, idx := r', idx';
    }
    if |r| <= 3 {
      RoundsStays(r, small, 3);
    }
  }

  // ---------------------------------------------------------------------
  // polygon_rings

  type Ring = seq<Point>

  datatype Polygon = Polygon(exterior: Ring, interiors: seq<Ring>)

  /** A buffer result: a single Polygon, or a collection with `.geoms`. */
  datatype Shape = Single(polygon: Polygon) | Multi(geoms: seq<Polygon>)

  /** Each polygon's exterior followed by its interiors, polygon after polygon. */
  function Flatten(geoms: seq<Polygon>): seq<Ring> {
    if |geoms| == 0 then []
    else Flatten(geoms[..|geoms| - 1]) + [geoms[|geoms| - 1].exterior] + geoms[|geoms| - 1].interiors
  }

  /** `polygon_rings`: a lone polygon gives `[exterior] + interiors`; a collection
      appends each member's exterior and extends with its interiors. */
  method PolygonRings(shape: Shape) returns (rings: seq<Ring>)
    ensures shape.Single? ==> rings == Flatten([shape.polygon])
    ensures shape.Multi? ==> rings == Flatten(shape.geoms)
  {
    if shape.Single? {
      return [shape.polygon.exterior] + shape.polygon.interiors;
    }
    rings := [];
    for i := 0 to |shape.geoms|
      invariant rings == Flatten(shape.geoms[..i])
    {
      assert shape.geoms[..i + 1][..i] == shape.geoms[..i];
      rings := rings + [shape.geoms[i].exterior];
      rings := rings + shape.geoms[i].interiors;
    }
    assert shape.geoms[..|shape.geoms|] == shape.geoms;
  }

  /** The rings of a collection are the rings of its parts, in order. */
  lemma {:induction false} FlattenAppend(a: seq<Polygon>, b: seq<Polygon>)
    ensures Flatten(a + b) == Flatten(a) + Flatten(b)
  {
    if |b| > 0 {
      var c := a + b;
      assert c[..|c| - 1] == a + b[..|b| - 1];
      FlattenAppend(a, b[..|b| - 1]);
    } else {
      assert a + b == a;
    }
  }

  /** Polygon `i`'s exterior comes right after the rings of the polygons before it,
      and its interiors follow it. */
  lemma ExteriorPosition(geoms: seq<Polygon>, i: nat)
    requires i < |geoms|
    ensures var k := |Flatten(geoms[..i])|;
      && k + 1 + |geoms[i].interiors| <= |Flatten(geoms)| && Flatten(geoms)[k] == geoms[i].exterior
      && Flatten(geoms)[k + 1..k + 1 + |geoms[i].interiors|] == geoms[i].interiors
  {
    assert geoms == geoms[..i] + [geoms[i]] + geoms[i + 1..];
    FlattenAppend(geoms[..i] + [geoms[i]], geoms[i + 1..]);
    FlattenAppend(geoms[..i], [geoms[i]]);
    assert Flatten([geoms[i]]) == [geoms[i].exterior] + geoms[i].interiors;
  }

  // ---------------------------------------------------------------------
  // open_file

  /** Index of the last `c` in `s`, or -1 (Python's `str.rfind`). */
  function RFind(s: string, c: char): (r: int)
    ensures -1 <= r < |s|
    ensures r >= 0 ==> s[r] == c
    ensures forall i :: r < i < |s| ==> s[i] != c
  {
    if |s| == 0 then -1
    else if s[|s| - 1] == c then |s| - 1
    else RFind(s[..|s| - 1], c)
  }

  /** Whether `s[lo..hi]` holds a character other than `.`. */
  predicate HasNonDot(s: string, lo: int, hi: int)
    requires 0 <= lo && hi <= |s|
  {
    exists i :: lo <= i < hi && s[i] != '.'
  }

  /** The extension `os.path.splitext` reports: from the last dot of the
      final path component, unless that component is all dots before it. */
  function Ext(name: string): (ext: string)
    ensures ext == "" || (ext[0] == '.' && EndsWith(name, ext))
    ensures forall i :: 0 <= i < |ext| ==> ext[i] != '/'
    ensures forall i :: 0 < i < |ext| ==> ext[i] != '.'
  {
    var sepIndex := RFind(name, '/');
    var dotIndex := RFind(name, '.');
    if dotIndex > sepIndex && HasNonDot(name, sepIndex + 1, dotIndex) then name[dotIndex..] else ""
  }

  /** Where `open_file` sends a name and mode. */
  datatype Opened =
    | Stdin
    | Stdout
    | Bz2File(name: string, mode: string)
    | GzipFile(name: string, mode: string)
    | PlainFile(name: string, mode: string)

  function OpenFile(name: string, mode: string): (r: Opened)
    ensures r.Stdin? <==> name == "-" && mode == "r"
    ensures r.Stdout? <==> name == "-" && mode == "w"
    ensures !r.Stdin? && !r.Stdout? ==> r.name == name && r.mode == mode
    ensures r.Bz2File? <==> !(name == "-" && mode in {"r", "w"}) && Ext(name) == ".bz2"
    ensures r.GzipFile? <==> !(name == "-" && mode in {"r", "w"}) && Ext(name) == ".gz"
  {
    if name == "-" && mode == "r" then Stdin
    else if name == "-" && mode == "w" then Stdout
    else
      var ext := Ext(name);
      if ext == ".bz2" then Bz2File(name, mode)
      else if ext == ".gz" then GzipFile(name, mode)
      else PlainFile(name, mode)
  }

  /** A name that ends in `suffix` (one dot, no slash) after an ordinary
      character has exactly that extension. */
  lemma ExtOfSuffix(stem: string, suffix: string)
    requires |suffix| >= 1 && suffix[0] == '.'
    requires forall i :: 0 <= i < |suffix| ==> suffix[i] != '/'
    requires forall i :: 0 < i < |suffix| ==> suffix[i] != '.'
    requires |stem| > 0 && stem[|stem| - 1] != '/' && stem[|stem| - 1] != '.'
    ensures Ext(stem + suffix) == suffix
  {
    var name := stem + suffix;
    var d := |stem|;
    assert name[d] == '.';
    var dotIndex := RFind(name, '.');
    var sepIndex := RFind(name, '/');
    assert dotIndex == d;
    assert sepIndex < d - 1;
    assert name[d - 1] == stem[d - 1];
    assert HasNonDot(name, sepIndex + 1, dotIndex);
    assert name[d..] == suffix;
  }

  /** So `a.gz` opens with gzip, `a.tar.bz2` with bz2, and `.gz` plainly. */
  lemma OpenFileExamples()
    ensures OpenFile("a.gz", "r") == GzipFile("a.gz", "r")
    ensures OpenFile("a.tar.bz2", "w") == Bz2File("a.tar.bz2", "w")
    ensures OpenFile(".gz", "r") == PlainFile(".gz", "r")
    ensures OpenFile("-", "a") == PlainFile("-", "a")
  {
    ExtOfSuffix("a", ".gz");
    assert "a" + ".gz" == "a.gz";
    ExtOfSuffix("a.tar", ".bz2");
    assert "a.tar" + ".bz2" == "a.tar.bz2";
    var n := ".gz";
    assert RFind(n, '.') == 0;
    assert !HasNonDot(n, RFind(n, '/') + 1, 0);
    assert RFind("-", '.') == -1;
  }
}
