/** Skeletron/input.py, lines 176-289: `ParserOSM`, the expat handlers that
    collect nodes, keyed ways and keyed route relations from OSM XML. Expat
    itself is not modelled: the document arrives as its sequence of start and
    end events. `float()` is the parameter `parseFloat`. */
module OsmParser {
  import opened Wrappers
  import opened Strings
  import opened OsmKeys

  type Attrs = map<string, string>

  /** `(lat, lon)` of a node. */
  type Coord = (real, real)

  /** A way's dict: `{nodes, tags, key=None}` while open, `{nodes, key}` once kept. */
  datatype WayRec =
    | OpenWay(nodes: seq<string>, tags: Tags)
    | KeptWay(nodes: seq<string>, key: Key)

  /** A relation's dict: `{parts, tags, key=None}` while open, `{parts, key}` once kept. */
  datatype RelRec =
    | OpenRel(parts: seq<string>, tags: Tags)
    | KeptRel(parts: seq<string>, key: Key)

  datatype Event = StartTag(name: string, attrs: Attrs) | EndTag(name: string)

  /** The exceptions the handlers raise: `KeyError` for a missing attribute,
      `ValueError` from `float()`, and `KeyError: None` for an end tag with
      nothing open. */
  datatype ParseError =
    | MissingAttribute(attr: string)
    | NotANumber(text: string)
    | NothingOpen(element: string)

  /** The parser's fields `nodes`, `ways`, `rels`, `way` and `rel`. */
  datatype Snapshot = Snapshot(nodes: map<string, Coord>, ways: map<string, WayRec>,
                               rels: map<string, RelRec>, way: Option<string>, rel: Option<string>)

  const Initial := Snapshot(map[], map[], map[], None, None)

  /** Python truth of `self.way` / `self.rel`: set and not the empty string. */
  predicate Truthy(id: Option<string>) {
    id.Some? && id.value != ""
  }

  /** The open way and the open relation name open records. */
  predicate Open(s: Snapshot) {
    && (s.way.Some? ==> s.way.value in s.ways && s.ways[s.way.value].OpenWay?)
    && (s.rel.Some? ==> s.rel.value in s.rels && s.rels[s.rel.value].OpenRel?)
  }

  /** What the handlers keep true: every way lists only known node ids, and
      every relation part is `way:<id>` or `rel:<id>`. */
  predicate Valid(s: Snapshot) {
    Open(s) && WaysKnown(s.nodes, s.ways) && PartsTyped(s.rels)
  }

  /** Every way lists only known node ids. */
  predicate WaysKnown(nodes: map<string, Coord>, ways: map<string, WayRec>) {
    forall id, n :: id in ways && n in ways[id].nodes ==> n in nodes
  }

  /** Every relation part is `way:<id>` or `rel:<id>`. */
  predicate PartsTyped(rels: map<string, RelRec>) {
    forall id, p :: id in rels && p in rels[id].parts ==> StartsWith(p, "way:") || StartsWith(p, "rel:")
  }

  // ---------------------------------------------------------------------
  // The handlers as functions of the parser state

  function TagWayS(s: Snapshot, k: string, v: string): Snapshot
    requires Open(s) && s.way.Some?
  {
    var w := s.ways[s.way.value];
    s.(ways := s.ways[s.way.value := OpenWay(w.nodes, w.tags[k := v])])
  }

  function ExtendWayS(s: Snapshot, id: string): Snapshot
    requires Open(s) && s.way.Some?
  {
    var w := s.ways[s.way.value];
    s.(ways := s.ways[s.way.value := OpenWay(w.nodes + [id], w.tags)])
  }

  function TagRelationS(s: Snapshot, k: string, v: string): Snapshot
    requires Open(s) && s.rel.Some?
  {
    var r := s.rels[s.rel.value];
    s.(rels := s.rels[s.rel.value := OpenRel(r.parts, r.tags[k := v])])
  }

  function ExtendRelationS(s: Snapshot, id: string, member: string): Snapshot
    requires Open(s) && s.rel.Some?
  {
    var r := s.rels[s.rel.value];
    s.(rels := s.rels[s.rel.value := OpenRel(r.parts + [member + ":" + id], r.tags)])
  }

  /** `start_element`: the elif chain, with `attrs['ref'] in self.nodes` of an
      `nd` looked up before the open way is checked. */
  function Start(s: Snapshot, name: string, attrs: Attrs, parseFloat: string -> Option<real>)
    : (r: Result<Snapshot, ParseError>)
    requires Open(s)
    ensures r.Ok? ==> Open(r.value)
    ensures r.Ok? ==> r.value.nodes.Keys >= s.nodes.Keys
  {
    if name == "node" then
      if "id" !in attrs then Err(MissingAttribute("id"))
      else if "lat" !in attrs then Err(MissingAttribute("lat"))
      else if parseFloat(attrs["lat"]).None? then Err(NotANumber(attrs["lat"]))
      else if "lon" !in attrs then Err(MissingAttribute("lon"))
      else if parseFloat(attrs["lon"]).None? then Err(NotANumber(attrs["lon"]))
      else Ok(s.(nodes := s.nodes[attrs["id"] := (parseFloat(attrs["lat"]).value, parseFloat(attrs["lon"]).value)]))
    else if name == "way" then
      if "id" !in attrs then Err(MissingAttribute("id"))
      else Ok(s.(way := Some(attrs["id"]), ways := s.ways[attrs["id"] := OpenWay([], map[])]))
    else if name == "tag" && Truthy(s.way) then
      if "k" !in attrs then Err(MissingAttribute("k"))
      else if "v" !in attrs then Err(MissingAttribute("v"))
      else Ok(TagWayS(s, attrs["k"], attrs["v"]))
    else if name == "nd" && "ref" !in attrs then Err(MissingAttribute("ref"))
    else if name == "nd" && attrs["ref"] in s.nodes && Truthy(s.way) then
      Ok(ExtendWayS(s, attrs["ref"]))
    else if name == "relation" then
      if "id" !in attrs then Err(MissingAttribute("id"))
      else Ok(s.(rel := Some(attrs["id"]), rels := s.rels[attrs["id"] := OpenRel([], map[])]))
    else if name == "tag" && Truthy(s.rel) then
      if "k" !in attrs then Err(MissingAttribute("k"))
      else if "v" !in attrs then Err(MissingAttribute("v"))
      else Ok(TagRelationS(s, attrs["k"], attrs["v"]))
    else if name == "member" then
      if "type" !in attrs then Err(MissingAttribute("type"))
      else if attrs["type"] == "way" && "ref" !in attrs then Err(MissingAttribute("ref"))
      else if attrs["type"] == "way" && attrs["ref"] in s.ways && Truthy(s.rel) then
        Ok(ExtendRelationS(s, attrs["ref"], "way"))
      else if attrs["type"] == "relation" && Truthy(s.rel) then
        if "ref" !in attrs then Err(MissingAttribute("ref"))
        else Ok(ExtendRelationS(s, attrs["ref"], "rel"))
      else Ok(s)
    else Ok(s)
  }

  /** `end_way`: keep the open way under its key, or delete it. */
  function EndWayS(s: Snapshot, wayKey: Tags -> Option<Key>): (r: Result<Snapshot, ParseError>)
    requires Open(s)
    ensures r.Ok? ==> Open(r.value) && r.value.way.None?
    ensures r.Err? <==> s.way.None?
  {
    if s.way.None? then Err(NothingOpen("way"))
    else
      var id := s.way.value;
      var w := s.ways[id];
      match wayKey(w.tags)
      case Some(key) => Ok(s.(ways := s.ways[id := KeptWay(w.nodes, key)], way := None))
      case None => Ok(s.(ways := s.ways - {id}, way := None))
  }

  /** `end_relation`: keep the open relation under its key, or delete it. */
  function EndRelationS(s: Snapshot, relKey: Tags -> Option<Key>): (r: Result<Snapshot, ParseError>)
    requires Open(s)
    ensures r.Ok? ==> Open(r.value) && r.value.rel.None?
    ensures r.Err? <==> s.rel.None?
  {
    if s.rel.None? then Err(NothingOpen("relation"))
    else
      var id := s.rel.value;
      var rr := s.rels[id];
      match relKey(rr.tags)
      case Some(key) => Ok(s.(rels := s.rels[id := KeptRel(rr.parts, key)], rel := None))
      case None => Ok(s.(rels := s.rels - {id}, rel := None))
  }

  /** `end_element`: only `way` and `relation` end tags do anything. */
  function End(s: Snapshot, name: string, wayKey: Tags -> Option<Key>, relKey: Tags -> Option<Key>)
    : (r: Result<Snapshot, ParseError>)
    requires Open(s)
    ensures r.Ok? ==> Open(r.value)
    ensures r.Ok? ==> r.value.nodes == s.nodes
    ensures name != "way" && name != "relation" ==> r == Ok(s)
  {
    if name == "way" then EndWayS(s, wayKey)
    else if name == "relation" then EndRelationS(s, relKey)
    else Ok(s)
  }

  function Step(s: Snapshot, e: Event, parseFloat: string -> Option<real>,
                wayKey: Tags -> Option<Key>, relKey: Tags -> Option<Key>): (r: Result<Snapshot, ParseError>)
    requires Open(s)
    ensures r.Ok? ==> Open(r.value)
  {
    match e
    case StartTag(name, attrs) => Start(s, name, attrs, parseFloat)
    case EndTag(name) => End(s, name, wayKey, relKey)
  }

  /** `ParseFile`: the events in order; the first exception ends the parse. */
  function Run(s: Snapshot, events: seq<Event>, parseFloat: string -> Option<real>,
               wayKey: Tags -> Option<Key>, relKey: Tags -> Option<Key>): (r: Result<Snapshot, ParseError>)
    requires Open(s)
    ensures r.Ok? ==> Open(r.value)
    decreases |events|
  {
    if |events| == 0 then Ok(s)
    else
      match Step(s, events[0], parseFloat, wayKey, relKey)
      case Err(e) => Err(e)
      case Ok(s') => Run(s', events[1..], parseFloat, wayKey, relKey)
  }

  // ---------------------------------------------------------------------
  // What the handlers promise

  /** An `nd` is appended to the open way only when a way is open and its ref
      is an already-seen node id; otherwise it is ignored. */
  lemma NdRule(s: Snapshot, attrs: Attrs, parseFloat: string -> Option<real>)
    requires Open(s) && "ref" in attrs
    ensures Start(s, "nd", attrs, parseFloat).Ok?
    ensures var r := Start(s, "nd", attrs, parseFloat).value;
      && r.nodes == s.nodes && r.rels == s.rels && r.way == s.way && r.rel == s.rel
      && (attrs["ref"] in s.nodes && Truthy(s.way) ==>
            r.ways.Keys == s.ways.Keys && r.ways[s.way.value].nodes == s.ways[s.way.value].nodes + [attrs["ref"]])
      && (!(attrs["ref"] in s.nodes && Truthy(s.way)) ==> r.ways == s.ways)
  {
  }

  /** A way member is recorded as `way:<ref>` only while a relation is open and
      only when that way is in `ways`; a relation member as `rel:<ref>`
      whenever a relation is open. Nothing else changes. */
  lemma MemberRule(s: Snapshot, attrs: Attrs, parseFloat: string -> Option<real>)
    requires Open(s) && "type" in attrs && "ref" in attrs
    ensures Start(s, "member", attrs, parseFloat).Ok?
    ensures var r := Start(s, "member", attrs, parseFloat).value;
      && r.nodes == s.nodes && r.ways == s.ways && r.way == s.way && r.rel == s.rel
      && r.rels.Keys == s.rels.Keys
      && (attrs["type"] == "way" && attrs["ref"] in s.ways && Truthy(s.rel) ==>
            r.rels[s.rel.value].parts == s.rels[s.rel.value].parts + ["way:" + attrs["ref"]])
      && (attrs["type"] == "relation" && Truthy(s.rel) ==>
            r.rels[s.rel.value].parts == s.rels[s.rel.value].parts + ["rel:" + attrs["ref"]])
      && (!Truthy(s.rel) || attrs["type"] !in {"way", "relation"} ==> r == s)
  {
    assert "way" + ":" == "way:" && "rel" + ":" == "rel:";
  }

  /** A tag goes to the open way if there is one, else to the open relation,
      else nowhere. */
  lemma TagRule(s: Snapshot, k: string, v: string, parseFloat: string -> Option<real>)
    requires Open(s)
    ensures var r := Start(s, "tag", map["k" := k, "v" := v], parseFloat);
      && r.Ok? && r.value.nodes == s.nodes && r.value.way == s.way && r.value.rel == s.rel
      && (Truthy(s.way) ==>
            && r.value.rels == s.rels && r.value.ways.Keys == s.ways.Keys
            && r.value.ways[s.way.value].tags == s.ways[s.way.value].tags[k := v])
      && (!Truthy(s.way) && Truthy(s.rel) ==>
            && r.value.ways == s.ways && r.value.rels.Keys == s.rels.Keys
            && r.value.rels[s.rel.value].tags == s.rels[s.rel.value].tags[k := v])
      && (!Truthy(s.way) && !Truthy(s.rel) ==> r.value == s)
  {
    var attrs := map["k" := k, "v" := v];
    assert "k" in attrs && "v" in attrs;
  }

  /** On `</way>` the open way is kept iff the key function gives a key; a kept
      way swaps its tags for the key, a dropped one is deleted, and no way is
      open afterwards. */
  lemma EndWayRule(s: Snapshot, wayKey: Tags -> Option<Key>, relKey: Tags -> Option<Key>)
    requires Open(s) && s.way.Some?
    ensures var r := End(s, "way", wayKey, relKey);
      var id := s.way.value;
      && r.Ok? && r.value.way.None? && r.value.rels == s.rels && r.value.rel == s.rel
      && (id in r.value.ways <==> wayKey(s.ways[id].tags).Some?)
      && (id in r.value.ways ==> r.value.ways[id] == KeptWay(s.ways[id].nodes, wayKey(s.ways[id].tags).value))
      && (forall other :: other != id ==> (other in r.value.ways <==> other in s.ways))
      && (forall other :: other != id && other in s.ways ==> r.value.ways[other] == s.ways[other])
  {
  }

  /** On `</relation>` the open relation is kept iff the key function gives a
      key, with the same swap of tags for key. */
  lemma EndRelationRule(s: Snapshot, wayKey: Tags -> Option<Key>, relKey: Tags -> Option<Key>)
    requires Open(s) && s.rel.Some?
    ensures var r := End(s, "relation", wayKey, relKey);
      var id := s.rel.value;
      && r.Ok? && r.value.rel.None? && r.value.ways == s.ways && r.value.way == s.way
      && (id in r.value.rels <==> relKey(s.rels[id].tags).Some?)
      && (id in r.value.rels ==> r.value.rels[id] == KeptRel(s.rels[id].parts, relKey(s.rels[id].tags).value))
      && (forall other :: other != id ==> (other in r.value.rels <==> other in s.rels))
      && (forall other :: other != id && other in s.rels ==> r.value.rels[other] == s.rels[other])
  {
  }

  lemma PartsPrefixed(member: string, id: string)
    requires member in {"way", "rel"}
    ensures StartsWith(member + ":" + id, "way:") || StartsWith(member + ":" + id, "rel:")
  {
    var p := member + ":" + id;
    assert p[..4] == member + ":";
  }

  /** A new node keeps every way's nodes known. */
  lemma WaysKnownNode(nodes: map<string, Coord>, ways: map<string, WayRec>, id: string, c: Coord)
    requires WaysKnown(nodes, ways)
    ensures WaysKnown(nodes[id := c], ways)
  {
  }

  /** Storing a way of known nodes keeps every way's nodes known. */
  lemma WaysKnownPut(nodes: map<string, Coord>, ways: map<string, WayRec>, id: string, w: WayRec)
    requires WaysKnown(nodes, ways) && forall n :: n in w.nodes ==> n in nodes
    ensures WaysKnown(nodes, ways[id := w])
  {
  }

  /** Storing a relation of typed parts keeps every part typed. */
  lemma PartsTypedPut(rels: map<string, RelRec>, id: string, r: RelRec)
    requires PartsTyped(rels)
    requires forall p :: p in r.parts ==> StartsWith(p, "way:") || StartsWith(p, "rel:")
    ensures PartsTyped(rels[id := r])
  {
  }

  /** Every start handler keeps the parser state valid. */
  lemma StartValid(s: Snapshot, name: string, attrs: Attrs, parseFloat: string -> Option<real>)
    requires Valid(s)
    ensures var r := Start(s, name, attrs, parseFloat); r.Ok? ==> Valid(r.value)
  {
    var r := Start(s, name, attrs, parseFloat);
    if r.Ok? {
      if name == "node" {
        if r.value != s {
          WaysKnownNode(s.nodes, s.ways, attrs["id"], (parseFloat(attrs["lat"]).value, parseFloat(attrs["lon"]).value));
        }
      } else if name == "way" {
        WaysKnownPut(s.nodes, s.ways, attrs["id"], OpenWay([], map[]));
      } else if name == "tag" && Truthy(s.way) {
        var w := s.ways[s.way.value];
        WaysKnownPut(s.nodes, s.ways, s.way.value, OpenWay(w.nodes, w.tags[attrs["k"] := attrs["v"]]));
      } else if name == "nd" && "ref" in attrs && attrs["ref"] in s.nodes && Truthy(s.way) {
        var w := s.ways[s.way.value];
        WaysKnownPut(s.nodes, s.ways, s.way.value, OpenWay(w.nodes + [attrs["ref"]], w.tags));
      } else if name == "relation" {
        PartsTypedPut(s.rels, attrs["id"], OpenRel([], map[]));
      } else if name == "tag" && Truthy(s.rel) {
        var rr := s.rels[s.rel.value];
        PartsTypedPut(s.rels, s.rel.value, OpenRel(rr.parts, rr.tags[attrs["k"] := attrs["v"]]));
      } else if name == "member" && r.value != s {
        var member := if attrs["type"] == "way" && attrs["ref"] in s.ways then "way" else "rel";
        PartsPrefixed(member, attrs["ref"]);
        var rr := s.rels[s.rel.value];
        PartsTypedPut(s.rels, s.rel.value, OpenRel(rr.parts + [member + ":" + attrs["ref"]], rr.tags));
      }
    }
  }

  /** Every end handler keeps the parser state valid. */
  lemma EndValid(s: Snapshot, name: string, wayKey: Tags -> Option<Key>, relKey: Tags -> Option<Key>)
    requires Valid(s)
    ensures var r := End(s, name, wayKey, relKey); r.Ok? ==> Valid(r.value)
  {
  }

  /** So a whole parse that succeeds leaves every way listing known nodes and
      every relation holding only `way:` and `rel:` parts. */
  lemma {:induction false} RunValid(s: Snapshot, events: seq<Event>, parseFloat: string -> Option<real>,
                                    wayKey: Tags -> Option<Key>, relKey: Tags -> Option<Key>)
    requires Valid(s)
    ensures var r := Run(s, events, parseFloat, wayKey, relKey); r.Ok? ==> Valid(r.value)
    decreases |events|
  {
    if |events| > 0 {
      match events[0] {
        case StartTag(name, attrs) => StartValid(s, name, attrs, parseFloat);
        case EndTag(name) => EndValid(s, name, wayKey, relKey);
      }
      var step := Step(s, events[0], parseFloat, wayKey, relKey);
      if step.Ok? {
        RunValid(step.value, events[1..], parseFloat, wayKey, relKey);
      }
    }
  }

  /** The parser object: its handlers update the fields in place. */
  class ParserOSM {
    var nodes: map<string, Coord>
    var ways: map<string, WayRec>
    var rels: map<string, RelRec>
    var way: Option<string>
    var rel: Option<string>
    const wayKey: Tags -> Option<Key>
    const relKey: Tags -> Option<Key>

    function State(): Snapshot
      reads this
    {
      Snapshot(nodes, ways, rels, way, rel)
    }

    /** `ParserOSM()` followed by the start of `parse`: empty dicts, nothing open. */
    constructor (wayKey: Tags -> Option<Key>, relKey: Tags -> Option<Key>)
      ensures State() == Initial
      ensures this.wayKey == wayKey && this.relKey == relKey
    {
      nodes, ways, rels, way, rel := map[], map[], map[], None, None;
      this.wayKey, this.relKey := wayKey, relKey;
    }

    method AddNode(id: string, lat: real, lon: real)
      modifies this
      ensures nodes == old(nodes)[id := (lat, lon)]
      ensures ways == old(ways) && rels == old(rels) && way == old(way) && rel == old(rel)
    {
      nodes := nodes[id := (lat, lon)];
    }

    method AddWay(id: string)
      modifies this
      ensures way == Some(id) && ways == old(ways)[id := OpenWay([], map[])]
      ensures nodes == old(nodes) && rels == old(rels) && rel == old(rel)
    {
      way := Some(id);
      ways := ways[id := OpenWay([], map[])];
    }

    method TagWay(k: string, v: string)
      requires Open(State()) && way.Some?
      modifies this
      ensures State() == TagWayS(old(State()), k, v)
    {
      var w := ways[way.value];
      ways := ways[way.value := OpenWay(w.nodes, w.tags[k := v])];
    }

    method ExtendWay(id: string)
      requires Open(State()) && way.Some?
      modifies this
      ensures State() == ExtendWayS(old(State()), id)
    {
      var w := ways[way.value];
      ways := ways[way.value := OpenWay(w.nodes + [id], w.tags)];
    }

    method EndWay() returns (err: Option<ParseError>)
      requires Open(State())
      modifies this
      ensures var r := EndWayS(old(State()), wayKey);
        && (r.Ok? ==> err.None? && State() == r.value)
        && (r.Err? ==> err == Some(r.error) && State() == old(State()))
    {
      if way.None? {
        return Some(NothingOpen("way"));
      }
      var w := ways[way.value];
      var key := wayKey(w.tags);
      if key.Some? {
        ways := ways[way.value := KeptWay(w.nodes, key.value)];
      } else {
        ways := ways - {way.value};
      }
      way := None;
      err := None;
    }

    method AddRelation(id: string)
      modifies this
      ensures rel == Some(id) && rels == old(rels)[id := OpenRel([], map[])]
      ensures nodes == old(nodes) && ways == old(ways) && way == old(way)
    {
      rel := Some(id);
      rels := rels[id := OpenRel([], map[])];
    }

    method TagRelation(k: string, v: string)
      requires Open(State()) && rel.Some?
      modifies this
      ensures State() == TagRelationS(old(State()), k, v)
    {
      var r := rels[rel.value];
      rels := rels[rel.value := OpenRel(r.parts, r.tags[k := v])];
    }

    method ExtendRelation(id: string, member: string)
      requires Open(State()) && rel.Some?
      modifies this
      ensures State() == ExtendRelationS(old(State()), id, member)
    {
      var r := rels[rel.value];
      rels := rels[rel.value := OpenRel(r.parts + [member + ":" + id], r.tags)];
    }

    method EndRelation() returns (err: Option<ParseError>)
      requires Open(State())
      modifies this
      ensures var r := EndRelationS(old(State()), relKey);
        && (r.Ok? ==> err.None? && State() == r.value)
        && (r.Err? ==> err == Some(r.error) && State() == old(State()))
    {
      if rel.None? {
        return Some(NothingOpen("relation"));
      }
      var r := rels[rel.value];
      var key := relKey(r.tags);
      if key.Some? {
        rels := rels[rel.value := KeptRel(r.parts, key.value)];
      } else {
        rels := rels - {rel.value};
      }
      rel := None;
      err := None;
    }

    /** `start_element`; an exception leaves the fields as they were. */
    method StartElement(name: string, attrs: Attrs, parseFloat: string -> Option<real>)
      returns (err: Option<ParseError>)
      requires Open(State())
      modifies this
      ensures var r := Start(old(State()), name, attrs, parseFloat);
        && (r.Ok? ==> err.None? && State() == r.value)
        && (r.Err? ==> err == Some(r.error) && State() == old(State()))
    {
      err := None;
      if name == "node" {
        if "id" !in attrs {
          return Some(MissingAttribute("id"));
        }
        if "lat" !in attrs {
          return Some(MissingAttribute("lat"));
        }
        var lat := parseFloat(attrs["lat"]);
        if lat.None? {
          return Some(NotANumber(attrs["lat"]));
        }
        if "lon" !in attrs {
          return Some(MissingAttribute("lon"));
        }
        var lon := parseFloat(attrs["lon"]);
        if lon.None? {
          return Some(NotANumber(attrs["lon"]));
        }
        AddNode(attrs["id"], lat.value, lon.value);
      } else if name == "way" {
        if "id" !in attrs {
          return Some(MissingAttribute("id"));
        }
        AddWay(attrs["id"]);
      } else if name == "tag" && Truthy(way) {
        if "k" !in attrs {
          return Some(MissingAttribute("k"));
        }
        if "v" !in attrs {
          return Some(MissingAttribute("v"));
        }
        TagWay(attrs["k"], attrs["v"]);
      } else if name == "nd" && "ref" !in attrs {
        return Some(MissingAttribute("ref"));
      } else if name == "nd" && attrs["ref"] in nodes && Truthy(way) {
        ExtendWay(attrs["ref"]);
      } else if name == "relation" {
        if "id" !in attrs {
          return Some(MissingAttribute("id"));
        }
        AddRelation(attrs["id"]);
      } else if name == "tag" && Truthy(rel) {
        if "k" !in attrs {
          return Some(MissingAttribute("k"));
        }
        if "v" !in attrs {
          return Some(MissingAttribute("v"));
        }
        TagRelation(attrs["k"], attrs["v"]);
      } else if name == "member" {
        if "type" !in attrs {
          return Some(MissingAttribute("type"));
        }
        if attrs["type"] == "way" && "ref" !in attrs {
          return Some(MissingAttribute("ref"));
        }
        if attrs["type"] == "way" && attrs["ref"] in ways && Truthy(rel) {
          ExtendRelation(attrs["ref"], "way");
        } else if attrs["type"] == "relation" && Truthy(rel) {
          if "ref" !in attrs {
            return Some(MissingAttribute("ref"));
          }
          ExtendRelation(attrs["ref"], "rel");
        }
      }
    }

    /** `end_element`. */
    method EndElement(name: string) returns (err: Option<ParseError>)
      requires Open(State())
      modifies this
      ensures var r := End(old(State()), name, wayKey, relKey);
        && (r.Ok? ==> err.None? && State() == r.value)
        && (r.Err? ==> err == Some(r.error) && State() == old(State()))
    {
      err := None;
      if name == "way" {
        err := EndWay();
      } else if name == "relation" {
        err := EndRelation();
      }
    }

    /** `parse`: feed every event to its handler; the first exception ends the
        parse, otherwise the result is `(rels, ways, nodes)`. */
    method Parse(events: seq<Event>, parseFloat: string -> Option<real>)
      returns (r: Result<(map<string, RelRec>, map<string, WayRec>, map<string, Coord>), ParseError>)
      requires State() == Initial
      modifies this
      ensures var run := Run(Initial, events, parseFloat, wayKey, relKey);
        && (run.Err? <==> r.Err?)
        && (run.Err? ==> r.error == run.error)
        && (run.Ok? ==> r.value == (run.value.rels, run.value.ways, run.value.nodes) && State() == run.value)
    {
      for i := 0 to |events|
        invariant Open(State())
        invariant Run(Initial, events, parseFloat, wayKey, relKey) == Run(State(), events[i..], parseFloat, wayKey, relKey)
      {
        var err: Option<ParseError>;
        match events[i] {
          case StartTag(name, attrs) =>
            err := StartElement(name, attrs, parseFloat);
          case EndTag(name) =>
            err := EndElement(name);
        }
        if err.Some? {
          return Err(err.value);
        }
        assert events[i..][1..] == events[i + 1..];
      }
      r := Ok((rels, ways, nodes));
    }
  }
}
