/** skeletron-osm-streets.py after parsing its options: the buffer, the
    keyword arguments derived from it, and the properties each street's
    multiline is written with. The short street name comes from a foreign
    module and enters as a parameter. */
module StreetsCli {
  import opened Wrappers
  import opened OsmKeys
  import opened CliOptions

  const DefaultZoom: int := 12
  const DefaultWidth: Width := IntWidth(10)

  datatype Options = Options(zoom: int, width: Width, useHighway: bool)

  /** The options after optparse: `--ignore-highway` stores False into
      `use_highway`, whose default is True. */
  function ParseOptions(zoom: Option<int>, width: Option<real>, ignoreHighway: bool): (r: Options)
    ensures r.useHighway <==> !ignoreHighway
    ensures r.width.IntWidth? <==> width.None?
  {
    Options(zoom.GetOr(DefaultZoom), if width.Some? then FloatWidth(width.value) else DefaultWidth, !ignoreHighway)
  }

  /** The default width halves exactly, so here the floor division of the
      source changes nothing. */
  lemma DefaultBuffer()
    ensures ParseOptions(None, None, false) == Options(12, IntWidth(10), true)
    ensures BufferAsWritten(DefaultWidth, DefaultZoom) == Buffer(DefaultWidth, DefaultZoom)
  {
    HalfWidthAsWrittenExact(DefaultWidth);
  }

  /** `kwargs`: as for routes, but the minimum length is two buffers. */
  function StreetKwargs(buffer: real): (r: Kwargs)
    ensures r.buffer == buffer && r.density * 2.0 == buffer
    ensures r.minLength == 4.0 * r.density
    ensures r.minArea == r.density * r.density
  {
    Kwargs(buffer, buffer / 2.0, 2.0 * buffer, (buffer * buffer) / 4.0)
  }

  /** `parse_street_waynodes`: ways are keyed by name and highway, or by name
      alone when highways are ignored. */
  function WayKey(useHighway: bool, tags: Tags): (r: Option<Key>)
    ensures r.Some? <==> HasValue(tags, "name") && (useHighway ==> HasValue(tags, "highway"))
    ensures r.Some? ==> |KeyTuple(r.value)| == (if useHighway then 2 else 1)
  {
    if useHighway then NameHighwayKey(tags) else NameKey(tags)
  }

  /** `key_properties`: the name, the highway when highways are used, the
      short name, zoom level and pixel width; a key of another length fails
      to unpack. */
  function KeyProperties(o: Options, shortName: Value -> Value, key: Key): (r: Result<map<string, Value>, UnpackError>)
    ensures r.Ok? <==> |KeyTuple(key)| == (if o.useHighway then 2 else 1)
    ensures r.Ok? ==> r.value.Keys == {"name", "zoomlevel", "pixelwidth", "shortname"}
                                       + (if o.useHighway then {"highway"} else {})
    ensures r.Ok? ==> r.value["name"] == KeyTuple(key)[0] && r.value["shortname"] == shortName(KeyTuple(key)[0])
    ensures r.Ok? ==> r.value["zoomlevel"] == Int(o.zoom) && r.value["pixelwidth"] == WidthProperty(o.width)
  {
    var t := KeyTuple(key);
    if o.useHighway then
      if |t| != 2 then Err(WrongArity(2, |t|))
      else Ok(map["name" := t[0], "highway" := t[1], "zoomlevel" := Int(o.zoom),
                  "pixelwidth" := WidthProperty(o.width), "shortname" := shortName(t[0])])
    else
      if |t| != 1 then Err(WrongArity(1, |t|))
      else Ok(map["name" := t[0], "zoomlevel" := Int(o.zoom),
                  "pixelwidth" := WidthProperty(o.width), "shortname" := shortName(t[0])])
  }

  /** Every key the street parse gives a way under the same options unpacks,
      into the way's own name and highway tags. */
  lemma KeyPropertiesOfWayKeys(o: Options, shortName: Value -> Value, tags: Tags)
    requires WayKey(o.useHighway, tags).Some?
    ensures var r := KeyProperties(o, shortName, WayKey(o.useHighway, tags).value);
            && r.Ok?
            && r.value["name"] == Text(tags["name"])
            && (o.useHighway ==> r.value["highway"] == Text(tags["highway"]))
  {
  }
}
