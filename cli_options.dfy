/** What skeletron-osm-route-rels.py and skeletron-osm-streets.py share: the
    `--width` option's value, the conversion of a line width in pixels at a
    zoom level into a buffer in metres (the ground resolution of 256-pixel
    spherical Mercator tiles), the derived keyword arguments, and the values
    of the `key_properties` dictionaries. Arithmetic is exact over reals;
    floating-point rounding is not modelled. */
module CliOptions {
  import opened Wrappers
  import opened OsmKeys

  /** `earth_radius`, in metres. */
  const EarthRadius: real := 6378137.0

  /** The double nearest to pi that `math.pi` holds, written out exactly. */
  const Pi: real := 3.141592653589793115997963468544185161590576171875

  /** The length of the equator in spherical Mercator, `2 * pi * earth_radius`. */
  const Circumference: real := 2.0 * Pi * EarthRadius

  /** `options.width`: an `int` when it is optparse's default, which optparse
      does not convert; a `float` when given on the command line
      (`type='float'`). */
  datatype Width = IntWidth(i: int) | FloatWidth(r: real)

  function WidthValue(w: Width): real {
    match w
    case IntWidth(i) => i as real
    case FloatWidth(r) => r
  }

  /** `2**e`, also for negative `e`. */
  function Pow2(e: int): (r: real)
    ensures r > 0.0
    decreases if e >= 0 then e else -e
  {
    if e == 0 then 1.0
    else if e > 0 then 2.0 * Pow2(e - 1)
    else Pow2(e + 1) / 2.0
  }

  lemma Pow2Succ(e: int)
    ensures Pow2(e + 1) == 2.0 * Pow2(e)
  {
  }

  /** Equal exponents give equal powers. */
  lemma Pow2Eq(d: int, e: int)
    requires d == e
    ensures Pow2(d) == Pow2(e)
  {
  }

  // ---------------------------------------------------------------------
  // buffer = options.width / 2

  /** `options.width / 2` as written: Python 2 divides an `int` by an `int`
      with floor division, so the default width 15 halves to 7. */
  function HalfWidthAsWritten(w: Width): real {
    match w
    case IntWidth(i) => (i / 2) as real
    case FloatWidth(r) => r / 2.0
  }

  /** Half the width, as the option's help text means it. */
  function HalfWidth(w: Width): (r: real)
    ensures r * 2.0 == WidthValue(w)
  {
    WidthValue(w) / 2.0
  }

  /** The default width 15 of the route script halves to 7 pixels, whereas
      `--width 15` halves to 7.5. */
  lemma HalfWidthDefaultFloors()
    ensures HalfWidthAsWritten(IntWidth(15)) == 7.0
    ensures HalfWidthAsWritten(FloatWidth(15.0)) == 7.5 == HalfWidth(IntWidth(15))
  {
  }

  /** Halving is exact for an even integer default (the streets script's 10)
      and for every width given on the command line; only odd integer widths
      lose half a pixel. */
  lemma {:induction false} HalfWidthAsWrittenExact(w: Width)
    ensures HalfWidthAsWritten(w) == HalfWidth(w) <==> (w.IntWidth? ==> w.i % 2 == 0)
    ensures w.IntWidth? && w.i % 2 == 1 ==> HalfWidthAsWritten(w) + 0.5 == HalfWidth(w)
  {
    if w.IntWidth? {
      var q := w.i / 2;
      assert w.i == 2 * q + w.i % 2;
      assert HalfWidth(w) == q as real + (w.i % 2) as real / 2.0;
    }
  }

  // ---------------------------------------------------------------------
  // buffer *= (2 * pi * earth_radius) / (2**(options.zoom + 8))

  /** Metres covered by one pixel at a zoom level: the equator spread over
      `2**zoom` tiles of 256 pixels. */
  function GroundResolution(zoom: int): (r: real)
    ensures r > 0.0
  {
    Resolution(Circumference, zoom)
  }

  /** A length `c` spread over `2**zoom` tiles of 256 pixels. */
  function Resolution(c: real, zoom: int): real {
    c / Pow2(zoom + 8)
  }

  /** The buffer in metres for a line `width` pixels wide at `zoom`: half the
      width times the ground resolution. */
  function Buffer(w: Width, zoom: int): (r: real)
    ensures r > 0.0 <==> WidthValue(w) > 0.0
    ensures r == 0.0 <==> WidthValue(w) == 0.0
  {
    HalfWidth(w) * GroundResolution(zoom)
  }

  lemma CircumferencePositive()
    ensures Circumference > 0.0
  {
  }

  /** Dividing by twice `q` and doubling divides by `q`. */
  lemma HalveDivide(c: real, p: real, q: real)
    requires q > 0.0 && p == 2.0 * q
    ensures c / p * 2.0 == c / q
  {
    var x := c / p;
    assert x * p == c;
    assert (x * 2.0) * q == c;
  }

  lemma ResolutionHalves(c: real, zoom: int, next: int)
    requires next == zoom + 1
    ensures Resolution(c, next) * 2.0 == Resolution(c, zoom)
  {
    var e := zoom + 8;
    Pow2Succ(e);
    Pow2Eq(next + 8, e + 1);
    HalveDivide(c, Pow2(next + 8), Pow2(e));
  }

  /** One zoom level in, a pixel covers half the ground. */
  lemma GroundResolutionHalves(zoom: int, next: int)
    requires next == zoom + 1
    ensures GroundResolution(next) * 2.0 == GroundResolution(zoom)
  {
    ResolutionHalves(Circumference, zoom, next);
  }

  lemma Scale(h: real, a: real, b: real)
    requires a * 2.0 == b
    ensures h * a * 2.0 == h * b
  {
  }

  /** `x` halved `k` times. */
  function Halved(x: real, k: nat): real {
    if k == 0 then x else Halved(x, k - 1) / 2.0
  }

  /** Each zoom level in halves the buffer. */
  lemma BufferHalves(w: Width, zoom: int, next: int)
    requires next == zoom + 1
    ensures Buffer(w, next) * 2.0 == Buffer(w, zoom)
  {
    GroundResolutionHalves(zoom, next);
    Scale(HalfWidth(w), GroundResolution(next), GroundResolution(zoom));
  }

  /** `k` zoom levels in, the buffer is halved `k` times. */
  lemma {:induction false} BufferZoomIn(w: Width, zoom: int, k: nat)
    ensures Buffer(w, zoom + k) == Halved(Buffer(w, zoom), k)
    decreases k
  {
    if k > 0 {
      BufferZoomIn(w, zoom, k - 1);
      BufferHalves(w, zoom + (k - 1), zoom + k);
    }
  }

  /** The buffer is proportional to the width at every zoom level. */
  lemma BufferProportional(w1: Width, w2: Width, zoom: int)
    ensures WidthValue(w1) * Buffer(w2, zoom) == WidthValue(w2) * Buffer(w1, zoom)
  {
    var g := GroundResolution(zoom);
    assert WidthValue(w1) * (WidthValue(w2) / 2.0 * g) == WidthValue(w2) * (WidthValue(w1) / 2.0 * g);
  }

  /** `buffer` as the scripts compute it, with the floor-dividing half. */
  function BufferAsWritten(w: Width, zoom: int): real {
    HalfWidthAsWritten(w) * GroundResolution(zoom)
  }

  // ---------------------------------------------------------------------
  // kwargs

  /** The keyword arguments handed to `multilines_geojson`. */
  datatype Kwargs = Kwargs(buffer: real, density: real, minLength: real, minArea: real)

  // ---------------------------------------------------------------------
  // key_properties

  /** The values a properties dictionary holds. */
  datatype Value = Text(s: string) | Null | Int(i: int) | Float(r: real)

  function OptText(o: Option<string>): Value {
    if o.Some? then Text(o.value) else Null
  }

  /** `options.width` as the value it is. */
  function WidthProperty(w: Width): Value {
    match w
    case IntWidth(i) => Int(i)
    case FloatWidth(r) => Float(r)
  }

  /** The tuple a key is, as `key_properties` unpacks it; a bare string
      unpacks into its characters. */
  function KeyTuple(k: Key): seq<Value> {
    match k
    case Name(name) => [Text(name)]
    case NameHighway(name, highway) => [Text(name), Text(highway)]
    case NetworkRefModifier(network, ref, modifier) => [Text(network), Text(ref), Text(modifier)]
    case NameHighwayRef(name, highway, ref) => [OptText(name), OptText(highway), OptText(ref)]
    case RouteHighway(network, ref, modifier, highway) => [Text(network), Text(ref), Text(modifier), OptText(highway)]
    case Ref(ref) => Chars(ref)
  }

  function Chars(s: string): (r: seq<Value>)
    ensures |r| == |s|
  {
    if |s| == 0 then [] else [Text([s[0]])] + Chars(s[1..])
  }

  /** Why a `key_properties` call fails. */
  datatype UnpackError = WrongArity(expected: nat, got: nat)
}
