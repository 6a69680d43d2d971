/** Skeletron/input.py, lines 5-58: the functions that turn OSM tags into the
    keys ways and relations are grouped by. A Python tuple key is a `Key`;
    `None` is `Option.None`, and every tuple these functions build is truthy. */
module OsmKeys {
  import opened Wrappers
  import opened Strings

  type Tags = map<string, string>

  datatype Key =
    | Name(name: string)
    | NameHighway(name: string, highway: string)
    | NetworkRefModifier(network: string, ref: string, modifier: string)
    | NameHighwayRef(wayName: Option<string>, wayHighway: Option<string>, wayRef: Option<string>)
    | RouteHighway(network: string, ref: string, modifier: string, wayHighway: Option<string>)
    // the bare, non-empty string key of skeletron-osm-motorways.py
    | Ref(ref: string)

  /** A tag that is present and not the empty string. */
  predicate HasValue(tags: Tags, k: string) {
    k in tags && tags[k] != ""
  }

  /** `tags.get(k, None)`. */
  function Get(tags: Tags, k: string): (r: Option<string>)
    ensures r.Some? <==> k in tags
    ensures r.Some? ==> r.value == tags[k]
  {
    if k in tags then Some(tags[k]) else None
  }

  /** `name_key`: the 1-tuple of a non-empty name. */
  function NameKey(tags: Tags): (r: Option<Key>)
    ensures r.None? <==> !HasValue(tags, "name")
    ensures r.Some? ==> r.value == Name(tags["name"])
  {
    if "name" !in tags then None
    else if tags["name"] == "" then None
    else Some(Name(tags["name"]))
  }

  /** `name_highway_key`: name and highway, both required and non-empty. */
  function NameHighwayKey(tags: Tags): (r: Option<Key>)
    ensures r.None? <==> !HasValue(tags, "name") || !HasValue(tags, "highway")
    ensures r.Some? ==> r.value == NameHighway(tags["name"], tags["highway"])
  {
    if "name" !in tags then None
    else if "highway" !in tags then None
    else if tags["name"] == "" || tags["highway"] == "" then None
    else Some(NameHighway(tags["name"], tags["highway"]))
  }

  /** `network_ref_modifier_key`: network and ref required and non-empty; a
      missing modifier becomes the empty string. */
  function NetworkRefModifierKey(tags: Tags): (r: Option<Key>)
    ensures r.None? <==> !HasValue(tags, "network") || !HasValue(tags, "ref")
    ensures r.Some? ==> r.value.NetworkRefModifier? && r.value.network == tags["network"] && r.value.ref == tags["ref"]
    ensures r.Some? ==> r.value.modifier == Get(tags, "modifier").GetOr("")
  {
    if "network" !in tags then None
    else if "ref" !in tags then None
    else if tags["network"] == "" || tags["ref"] == "" then None
    else Some(NetworkRefModifier(tags["network"], tags["ref"], Get(tags, "modifier").GetOr("")))
  }

  /** `name_highway_ref_key`: never None; a non-empty highway ending in
      `_link` loses those five characters, and a missing tag is None inside. */
  function NameHighwayRefKey(tags: Tags): (r: Key)
    ensures r.NameHighwayRef? && r.wayName == Get(tags, "name") && r.wayRef == Get(tags, "ref")
    ensures r.wayHighway.Some? <==> "highway" in tags
    ensures HasValue(tags, "highway") && EndsWith(tags["highway"], "_link") ==>
              r.wayHighway.value + "_link" == tags["highway"]
    ensures !(HasValue(tags, "highway") && EndsWith(tags["highway"], "_link")) ==> r.wayHighway == Get(tags, "highway")
  {
    var highway := Get(tags, "highway");
    if highway.Some? && highway.value != "" && EndsWith(highway.value, "_link") then
      var h := highway.value;
      assert h == h[..|h| - 5] + h[|h| - 5..];
      NameHighwayRef(Get(tags, "name"), Some(h[..|h| - 5]), Get(tags, "ref"))
    else
      NameHighwayRef(Get(tags, "name"), highway, Get(tags, "ref"))
  }

  /** So `motorway_link` is keyed as `motorway`, and a bare way keeps three Nones. */
  lemma NameHighwayRefKeyExamples()
    ensures NameHighwayRefKey(map["highway" := "motorway_link"]) == NameHighwayRef(None, Some("motorway"), None)
    ensures NameHighwayRefKey(map[]) == NameHighwayRef(None, None, None)
  {
    var r := NameHighwayRefKey(map["highway" := "motorway_link"]);
    assert EndsWith("motorway_link", "_link");
    assert r.wayHighway.value + "_link" == "motorway_link";
    assert "motorway" + "_link" == "motorway_link";
  }
}
