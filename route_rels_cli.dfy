/** skeletron-osm-route-rels.py after parsing its options: the buffer, the
    keyword arguments derived from it, and the properties each route
    relation's multiline is written with. */
module RouteRelsCli {
  import opened Wrappers
  import opened OsmKeys
  import opened CliOptions
  import RouteKeys

  const DefaultZoom: int := 12
  /** optparse leaves a default as it is written, so the width is an `int`. */
  const DefaultWidth: Width := IntWidth(15)
  const DefaultMerge: string := "no"
  const MergeChoices: seq<string> := ["yes", "no", "largest"]

  datatype Options = Options(zoom: int, width: Width, merge: string)

  /** The options after optparse: each flag not given keeps its default; a
      `--merge-highways` value outside the choices is an error. */
  function ParseOptions(zoom: Option<int>, width: Option<real>, merge: Option<string>): (r: Result<Options, string>)
    ensures r.Err? <==> merge.Some? && merge.value !in MergeChoices
    ensures r.Ok? ==> r.value.merge in MergeChoices
    ensures r.Ok? ==> (r.value.width.IntWidth? <==> width.None?)
  {
    var m := merge.GetOr(DefaultMerge);
    if m !in MergeChoices then Err("invalid choice: " + m)
    else
      var w := if width.Some? then FloatWidth(width.value) else DefaultWidth;
      Ok(Options(zoom.GetOr(DefaultZoom), w, m))
  }

  lemma ParseDefaults()
    ensures ParseOptions(None, None, None) == Ok(Options(12, IntWidth(15), "no"))
  {
  }

  /** `buffer` as the script computes it: Python 2 halves an `int` width
      with floor division. A float width or an even `int` one gives the
      exact buffer; an odd `int` one loses half a pixel. */
  function OptionsBuffer(o: Options): (r: real)
    ensures r > 0.0 <==> HalfWidthAsWritten(o.width) > 0.0
    ensures (o.width.IntWidth? ==> o.width.i % 2 == 0) ==> r == Buffer(o.width, o.zoom)
    ensures o.width.IntWidth? && o.width.i % 2 == 1 ==>
              r + GroundResolution(o.zoom) / 2.0 == Buffer(o.width, o.zoom)
  {
    HalfWidthAsWrittenExact(o.width);
    BufferAsWritten(o.width, o.zoom)
  }

  /** The default options halve the width to 7 pixels, not the 7.5 that
      `--width 15` gives: their buffer is 14/15 of that one. */
  lemma DefaultBufferFloors()
    ensures OptionsBuffer(Options(12, IntWidth(15), "no")) * 15.0 == OptionsBuffer(Options(12, FloatWidth(15.0), "no")) * 14.0
    ensures OptionsBuffer(Options(12, FloatWidth(15.0), "no")) == Buffer(DefaultWidth, DefaultZoom)
  {
    HalfWidthDefaultFloors();
    var g := GroundResolution(DefaultZoom);
    assert 7.0 * g * 15.0 == 7.5 * g * 14.0;
  }

  /** `kwargs`: density half the buffer, minimum length eight buffers,
      minimum area a quarter of the buffer squared. */
  function RouteKwargs(buffer: real): (r: Kwargs)
    ensures r.buffer == buffer && r.density * 2.0 == buffer
    ensures r.minLength == 16.0 * r.density
    ensures r.minArea == r.density * r.density
  {
    Kwargs(buffer, buffer / 2.0, 8.0 * buffer, (buffer * buffer) / 4.0)
  }

  /** `key_properties`: with `merge_highways` 'yes' it unpacks a 3-tuple and
      has no highway; otherwise it unpacks a 4-tuple ending in the highway.
      A key of another length fails to unpack. */
  function KeyProperties(o: Options, key: Key): (r: Result<map<string, Value>, UnpackError>)
    ensures r.Ok? <==> |KeyTuple(key)| == (if o.merge == "yes" then 3 else 4)
    ensures r.Ok? ==> ("highway" in r.value <==> o.merge != "yes")
    ensures r.Ok? ==> r.value.Keys == {"network", "ref", "modifier", "zoomlevel", "pixelwidth"}
                                       + (if o.merge == "yes" then {} else {"highway"})
    ensures r.Ok? ==> r.value["zoomlevel"] == Int(o.zoom) && r.value["pixelwidth"] == WidthProperty(o.width)
  {
    var t := KeyTuple(key);
    if o.merge == "yes" then
      if |t| != 3 then Err(WrongArity(3, |t|))
      else Ok(map["network" := t[0], "ref" := t[1], "modifier" := t[2],
                  "zoomlevel" := Int(o.zoom), "pixelwidth" := WidthProperty(o.width)])
    else
      if |t| != 4 then Err(WrongArity(4, |t|))
      else Ok(map["network" := t[0], "ref" := t[1], "modifier" := t[2], "highway" := t[3],
                  "zoomlevel" := Int(o.zoom), "pixelwidth" := WidthProperty(o.width)])
  }

  /** Every key route relation parsing gives a way in the same mode unpacks:
      the route's network, ref and modifier, and in every mode but 'yes' the
      highway the mode chose. */
  lemma KeyPropertiesOfRouteKeys(o: Options, m: RouteKeys.Member, largest: Option<string>)
    ensures var r := KeyProperties(o, RouteKeys.KeyFor(o.merge, m, largest));
            && r.Ok?
            && r.value["network"] == Text(m.route.0) && r.value["ref"] == Text(m.route.1)
            && r.value["modifier"] == Text(m.route.2)
            && (o.merge != "yes" ==> r.value["highway"] == OptText(RouteKeys.KeyFor(o.merge, m, largest).wayHighway))
  {
  }

  /** A 4-tuple key under 'yes', or a 3-tuple one under another mode, raises. */
  lemma KeyPropertiesMismatch(o: Options, m: RouteKeys.Member, mode: string, largest: Option<string>)
    requires (o.merge == "yes") != (mode == "yes")
    ensures KeyProperties(o, RouteKeys.KeyFor(mode, m, largest)).Err?
  {
  }
}
