# Skeletron, modelled in Dafny

Skeletron generalises map linework for a given spherical-Mercator zoom level and pixel width. Lines of OpenStreetMap ways or route relations are grouped by key and buffered into polygons. A skeleton of each polygon is then built: a Voronoi diagram from `qvoronoi`, or a straight skeleton from CGAL. Its spurs are pruned, and it is walked into routes, which are simplified with Visvalingam–Whyatt.

The skeleton constructions and all geometry are foreign code. This project models the repository's own logic around them:

- **OSM input** (`Skeletron/input.py`):
  - the tag-to-key functions;
  - the expat handler state machine of `ParserOSM`, a class whose methods update its fields;
  - the sub-relation flattening loop;
  - route-key assignment in each `merge_highways` mode.
- **Line simplification**:
  - Visvalingam–Whyatt in both variants (`Skeletron/util.py` and `Skeletron2.py`), with triangle areas computed exactly by the shoelace formula;
  - `polygon_rings`;
  - the `open_file` dispatch.
- **Skeleton graphs** (`Skeletron/__init__.py`, `Skeletron2.py`):
  - spur pruning;
  - destructive route extraction;
  - the worklist that splits large point sets;
  - `waynode_multilines` grouping;
  - the `multigeom_centerline` dispatch.

  A graph is a map from node to neighbour set. Shortest paths, A*, distances and edge lengths are oracle parameters.
- **Straight-skeleton post-processing** (`CGAL/skeletron/__init__.py`):
  - the winding fix;
  - the typecode partition in `xray` and `InteriorSkeleton`;
  - `_stitch_lines`, and `_merge_lines` run to a fixpoint.
- **The Postgres dump script** (`skeletron-pgdump-route-rels.py`):
  - tag-array decoding and the exclusion filters;
  - relation traversal over a database modelled as maps;
  - `cascaded_union`;
  - group cutting;
  - the element tree with its negative ids.
- **The command-line scripts**:
  - the keys lister's semicolon product rows;
  - motorway ref keying;
  - the pixel-width-to-metres buffer with the derived keyword arguments and `key_properties`;
  - the line-oriented ring readers of the two `dump-skeleton.cpp` programs.

Imperative source code is modelled as methods with loops and invariants, proved against specification functions. Pure code is modelled as functions and lemmas. Oracles enter as function parameters, and properties that depend on them are stated under explicit assumptions about them (for example `SoundPathOracle`).

The files come from different versions of the repository, and each function is modelled as written in its own file. `Skeletron/__init__.py` imports `simplify_line_vw`, `simplify_line_dp`, `cascaded_union` and `point_distance` from `util.py`, which defines none of them; here they are oracles. `skeletron-osm-keys-list.py` unpacks two results from `ParserOSM.parse`, which returns three; `skeletron-osm-motorways.py` calls `.items()` on that result. The model starts both scripts from the parsed ways.

Where the source has a bug listed under "## Findings", the code as written and the corrected code are both modelled, and the operations built on them take the choice as a parameter: `fixed` in the route-key assignment (false is the source as written) and `stopOnSeen` in the Postgres relation traversal (true is the source's `break`). The route-relations script's buffer is computed as written.

## Model

| member | source | states |
|---|---|---|
| OsmKeys.Get | Skeletron/input.py:48 | `tags.get(k, None)`: present exactly when the tag is, and then its value |
| OsmKeys.NameKey | Skeletron/input.py:5-16 | None exactly when `name` is missing or empty, otherwise the 1-tuple of the name |
| OsmKeys.NameHighwayKey | Skeletron/input.py:18-32 | None exactly when `name` or `highway` is missing or empty, otherwise `(name, highway)` |
| OsmKeys.NetworkRefModifierKey | Skeletron/input.py:34-48 | None exactly when `network` or `ref` is missing or empty; otherwise `(network, ref, modifier)` with a missing modifier as `''` |
| OsmKeys.NameHighwayRefKey | Skeletron/input.py:50-58 | never None; name and ref are `tags.get`; a non-empty highway ending in `_link` loses those five characters, any other highway is kept as is |
| OsmKeys.NameHighwayRefKeyExamples | Skeletron/input.py:55-58 | `motorway_link` is keyed as `motorway`; an untagged way keys as three Nones |
| OsmParser.Start | Skeletron/input.py:205-229 | the start handler's elif chain as a state transition; the open-record shape is kept and no node is ever forgotten |
| OsmParser.End | Skeletron/input.py:231-236 | the end handler: only `way` and `relation` change anything, and nodes are untouched |
| OsmParser.EndWayS | Skeletron/input.py:253-264 | `end_way` fails exactly when no way is open, and otherwise leaves none open |
| OsmParser.EndRelationS | Skeletron/input.py:278-289 | `end_relation` fails exactly when no relation is open, and otherwise leaves none open |
| OsmParser.NdRule | Skeletron/input.py:215-251 | an `nd` appends its ref to the open way only while a way is open and the ref is an already-seen node; otherwise nothing changes |
| OsmParser.MemberRule | Skeletron/input.py:224-276 | a way member is recorded as `way:<id>` only when its id is in `ways` (a way already kept, or the way still open) and a relation is open; a relation member as `rel:<id>` whenever a relation is open; anything else changes nothing |
| OsmParser.TagRule | Skeletron/input.py:212-272 | a tag goes to the open way if there is one, else to the open relation, else is ignored; nothing else changes |
| OsmParser.EndWayRule | Skeletron/input.py:253-264 | the closed way is kept, with its nodes and its key in place of its tags, exactly when the key function gives a key; it is deleted otherwise; no other way changes and the open way is reset |
| OsmParser.EndRelationRule | Skeletron/input.py:278-289 | the same for relations: kept with parts and key iff keyed, deleted otherwise, nothing else changes |
| OsmParser.StartValid | Skeletron/input.py:205-229 | every start handler keeps ways listing only known nodes and relation parts typed `way:`/`rel:` |
| OsmParser.EndValid | Skeletron/input.py:231-236 | every end handler keeps the same invariant |
| OsmParser.RunValid | Skeletron/input.py:192-203 | a whole event sequence that parses leaves the invariant true |
| OsmParser.ParserOSM.AddNode | Skeletron/input.py:238-239 | stores the node's coordinates under its id; nothing else changes |
| OsmParser.ParserOSM.AddWay | Skeletron/input.py:241-243 | opens an empty way under its id; nothing else changes |
| OsmParser.ParserOSM.TagWay | Skeletron/input.py:245-247 | the open way's tags gain the tag |
| OsmParser.ParserOSM.ExtendWay | Skeletron/input.py:249-251 | the open way's node list gains the id at its end |
| OsmParser.ParserOSM.EndWay | Skeletron/input.py:253-264 | the fields become `EndWayS` of the old state, or stay as they were on error |
| OsmParser.ParserOSM.AddRelation | Skeletron/input.py:266-268 | opens an empty relation under its id; nothing else changes |
| OsmParser.ParserOSM.TagRelation | Skeletron/input.py:270-272 | the open relation's tags gain the tag |
| OsmParser.ParserOSM.ExtendRelation | Skeletron/input.py:274-276 | the open relation's parts gain `member:id` |
| OsmParser.ParserOSM.EndRelation | Skeletron/input.py:278-289 | the fields become `EndRelationS` of the old state, or stay as they were on error |
| OsmParser.ParserOSM.StartElement | Skeletron/input.py:205-229 | the fields become `Start` of the old state; on a missing attribute or bad number the error is returned and nothing changes |
| OsmParser.ParserOSM.EndElement | Skeletron/input.py:231-236 | the fields become `End` of the old state |
| OsmParser.ParserOSM.Parse | Skeletron/input.py:192-203 | from the initial state, returns `(rels, ways, nodes)` of running every event, or the first error |
| RouteRelations.DictOrder | Skeletron/input.py:89 | an iteration order lists every relation id exactly once |
| RouteRelations.WithoutDistinct | Skeletron/input.py:101 | deleting an id from an order without repeats leaves an order without repeats |
| RouteRelations.PartCountShrinks | Skeletron/input.py:105-114 | dropping parts of one relation lowers the total part count, the termination measure of the loop |
| RouteRelations.SpliceStep | Skeletron/input.py:93-102 | splicing in an existing sub-relation's parts deletes it, marks the round changed, and lowers the relation count |
| RouteRelations.SplicedFromPool | Skeletron/input.py:100 | a splice only moves parts that some relation already held |
| RouteRelations.DropStep | Skeletron/input.py:103-115 | dropping a dangling `rel:` part or a part of unknown kind marks the round changed |
| RouteRelations.KeepStep | Skeletron/input.py:108-110 | a `way:` part is kept and the walk moves on |
| RouteRelations.InlineParts | Skeletron/input.py:90-115 | the inner `enumerate(parts)` walk over the live list is exactly `Inline` of the relation's parts: a sub-relation spliced in at the `rel:` part and deleted, a dangling `rel:` part or a part of another kind removed, a `way:` part kept, the walk going on at the next index after each |
| RouteRelations.Step | Skeletron/input.py:93-115 | one position of the walk either deletes a relation or keeps the relations and does not lengthen the list |
| RouteRelations.StepWalk | Skeletron/input.py:93-115 | each step of the walk keeps the walk invariant, including that a relation is only deleted when a `rel:` part named it |
| RouteRelations.InlineWalk | Skeletron/input.py:90-115 | the whole walk keeps the walk invariant to the end of the list |
| RouteRelations.RoundFromFacts | Skeletron/input.py:86-119 | the rest of a round, after relations whose walks changed nothing, keeps the relations' kinds and keys, invents no part, deletes only named relations, and either changes nothing with every part a `way:` part or shrinks the relations |
| RouteRelations.RoundFromChanged | Skeletron/input.py:117-119 | a round stops at the first walk that changed something, and its result keeps kinds and keys, invents no part, deletes only named relations and shrinks the relations |
| RouteRelations.UnchangedWalkFlat | Skeletron/input.py:95-115 | a walk that changed nothing found only `way:` parts in its relation |
| RouteRelations.RoundFromEnd | Skeletron/input.py:86-119 | a round that walked every relation without change leaves the relations as they were, all flat |
| RouteRelations.Round | Skeletron/input.py:86-119 | one round of `while changing` (the first relation in dict order whose walk changes something is rewritten, or deleted if it named itself, and the round stops): it changes nothing only when every part is a `way:` part, and otherwise deletes a relation or lowers the part count |
| RouteRelations.FlattenRound | Skeletron/input.py:86-119 | the `for rel in rels.values()` round with its `break` computes `Round` of the relations and dict order |
| RouteRelations.RoundEnd | Skeletron/input.py:117-119 | a changed round stores the walked parts back and has shrunk the relations |
| RouteRelations.UnchangedRound | Skeletron/input.py:86-117 | a round that changed nothing leaves only `way:` parts |
| RouteRelations.FlattenRelations | Skeletron/input.py:84-119 | the `while changing` loop computes `Flatten` of the parsed relations and dict order |
| RouteRelations.Flatten | Skeletron/input.py:84-119 | after flattening every remaining part is a `way:` part, every remaining relation is a parsed one with its kind and key, no part is invented, and a relation is gone only when some `rel:` part named it |
| RouteRelations.InlineKeepsWays | Skeletron/input.py:93-115 | a walk loses none of the list's `way:` parts and keeps their order |
| RouteRelations.StepKeepsWays | Skeletron/input.py:93-115 | one step keeps every `way:` part of the list, in order |
| RouteRelations.SpliceKeepsWays | Skeletron/input.py:98-99 | replacing a part that is not a way by a sub-relation's parts keeps the surrounding `way:` parts in order |
| RouteRelations.RoundFromKeepsWays | Skeletron/input.py:86-119 | a round loses no `way:` part of any relation it keeps |
| RouteRelations.FlattenKeepsOwnWays | Skeletron/input.py:84-119 | each surviving relation still holds its own `way:` parts in their order, with spliced-in parts between them |
| RouteRelations.InlineOverWays | Skeletron/input.py:108-110 | a walk over `way:` parts only changes nothing |
| RouteRelations.RoundFromOverFlat | Skeletron/input.py:86-119 | a round over relations with only `way:` parts changes nothing |
| RouteRelations.FlattenFlat | Skeletron/input.py:84-119 | relations with only `way:` parts are left as they are, and flattening a flattened result changes nothing |
| RouteRelations.DropKeepsWays | Skeletron/input.py:103-115 | removing a part that is not a way leaves the `way:` parts as they were |
| RouteRelations.InlineWithoutSubrelations | Skeletron/input.py:90-115 | a walk over parts that name no relation deletes nothing and only drops the parts that are not ways |
| RouteRelations.RoundFromWithoutSubrelations | Skeletron/input.py:86-119 | a round without sub-relations keeps every relation and its `way:` parts |
| RouteRelations.ChangedWithoutSubrelations | Skeletron/input.py:103-119 | a walk over relations without sub-relations that changed something only drops parts that are not ways, so no relation is lost and every `way:` part stays |
| RouteRelations.RoundWithoutSubrelations | Skeletron/input.py:86-119 | the same for a whole round |
| RouteRelations.FlattenWithoutSubrelations | Skeletron/input.py:84-119 | without `rel:` parts nothing is deleted and each relation ends with exactly its own `way:` parts, in order, and its key |
| RouteRelations.WaysAppend | Skeletron/input.py:108-110 | the way parts of two lists are those of each, in order |
| RouteRelations.WaysOfWays | Skeletron/input.py:108-110 | a list of way parts is its own way parts |
| RouteKeys.Resolve | Skeletron/input.py:133-138 | looking up a member way and unpacking both keys fails exactly when the way is missing, was dropped, or either key is not the expected tuple |
| RouteKeys.ResolveAllFirstError | Skeletron/input.py:130-138 | the member list fails exactly when some member fails, and then with the first failing member's error |
| RouteKeys.ResolveAllEach | Skeletron/input.py:130-138 | a list that resolves holds each member's own lookup, in order |
| RouteKeys.ResolveAllKeepsError | Skeletron/input.py:130-138 | once a member fails, later members do not change the error |
| RouteKeys.Rank | Skeletron/input.py:127-147 | `highways.get(h, 0)`: between 0 and 9, motorway 9, tertiary 5, None 0 |
| RouteKeys.NoteHighway | Skeletron/input.py:143-153 | the corrected note: only the route's own 3-tuple entry may change |
| RouteKeys.NetRefsAsWrittenLast | Skeletron/input.py:145-153 | as written, every key stored is a 3-tuple, so the 2-tuple lookup never hits and each route ends with the highway of its last way |
| RouteKeys.NetRefsLargest | Skeletron/input.py:143-153 | corrected: each route's entry is the highway of one of its ways, of the highest rank among them |
| RouteKeys.NetRefsKeys | Skeletron/input.py:153 | a route none of whose ways was seen has no entry |
| RouteKeys.LargestExample | Skeletron/input.py:143-153 | a motorway way followed by a primary way on the same route: as written `primary` wins, corrected `motorway` |
| RouteKeys.KeyFor | Skeletron/input.py:140-156 | `'yes'` gives the 3-tuple route key and exactly then; other modes give a 4-tuple with the way's highway, or the route's largest in `'largest'` mode |
| RouteKeys.AssignRelation | Skeletron/input.py:131-158 | one relation's parts: each appends a copy of its way keyed for the mode, or the first failing lookup ends the whole run with that error |
| RouteKeys.ApplyLargest | Skeletron/input.py:162-170 | in `'largest'` mode every way gets its route's entry of whatever `net_refs` the first pass built, as long as every route has one, so ways on one route share one highway |
| RouteKeys.NetRefsForKeys | Skeletron/input.py:143-153 | as written (`fixed` false) and corrected alike, every route with a way member has an entry in `net_refs` |
| RouteKeys.KeyedLargest | Skeletron/input.py:140-170 | in `'largest'` mode every way is kept and keyed with a 4-tuple: as written (`fixed` false) with the highway of the route's last way, corrected with a highway of the route's highest rank |
| RouteKeys.AssignKeys | Skeletron/input.py:125-170 | `rel_ways` holds, in order, one copy per way member keyed for the mode from the `net_refs` of the first pass (as written when `fixed` is false, corrected when true), or the first lookup error, exactly when some member's lookup fails |
| RouteKeys.RouteRelationWaynodes | Skeletron/input.py:70-174 | parse errors pass through; otherwise the relations are `Flatten` of the parsed relations in dict order (relations deleted only when named by a `rel:` part, each survivor keeping its own `way:` parts in order), the result fails exactly when one of their lookups fails, with the first error, and else returns the parsed nodes and, in member order, each member's way kept and keyed for the mode (`fixed` false is the source as written); every returned way lists only returned nodes |
| Util.SimplifyLine | Skeletron/util.py:9-48 | the result is `Rounds` with a floor of three points: the rounds repeated while more than three points remain and a round pops something; a line of at most three points comes back unchanged; otherwise it is a subsequence of the input with both endpoints kept, never below three points when the input had four or more, and when more than three remain no apex has a triangle of area at most `small_area` |
| Util.PolygonRings | Skeletron/util.py:69-83 | a lone polygon gives its exterior then its interiors; a collection gives, polygon by polygon, each exterior followed by its interiors; the same code appears at `Skeletron2.py` lines 105-117 |
| Util.FlattenAppend | Skeletron/util.py:79-81 | the rings of two collections in a row are the rings of the first followed by those of the second |
| Util.ExteriorPosition | Skeletron/util.py:79-81 | polygon `i`'s exterior sits right after the rings of the polygons before it, and its interiors follow it in order |
| Util.Ext | Skeletron/util.py:94 | `splitext`'s extension: empty, or a dot-led suffix of the name with no further dot and no slash |
| Util.OpenFile | Skeletron/util.py:85-102 | `-` opens stdin exactly for mode `r` and stdout exactly for mode `w`; otherwise a `.bz2` extension opens a BZ2File, `.gz` a GzipFile, anything else a plain file, with the name and mode passed on |
| Util.ExtOfSuffix | Skeletron/util.py:94-100 | a name ending in a dot-led suffix with no dot or slash inside has that suffix as its extension |
| Util.OpenFileExamples | Skeletron/util.py:94-102 | `a.gz` is gzip, `a.tar.bz2` is bz2 (only the last extension counts), a leading-dot name `.gz` has no extension, and `-` with mode `a` is a plain file |
| Visvalingam.TriangleArea | Skeletron/util.py:21-22 | the shoelace area of an apex triangle is never negative |
| Visvalingam.TriangleAreaReversed | Skeletron/util.py:20-22 | the area does not depend on the direction the line runs |
| Visvalingam.TriangleAreaRepeated | Skeletron/util.py:20-22 | a repeated point makes an apex of area zero, so it is always a candidate |
| Visvalingam.ApexAreas | Skeletron/util.py:20-22 | one area per apex, `n - 2` of them, the `i`-th for points `i, i+1, i+2` |
| Visvalingam.AreaIndexLeTotal | Skeletron/util.py:28 | the `(area, index)` tuple order `sorted` uses is a total preorder |
| Visvalingam.Candidates | Skeletron/util.py:22-28 | `sorted(areas)`: ascending by area then index, one entry per apex carrying that apex's area and index |
| Visvalingam.SelectionStep | Skeletron/util.py:37-39 | taking a candidate pops its apex and preserves both neighbours, keeping the selection invariant |
| Visvalingam.SelectionSkip | Skeletron/util.py:33-35 | skipping a candidate whose apex is preserved keeps the invariant |
| Visvalingam.SortedTail | Skeletron/util.py:29-31 | once a candidate's area exceeds the threshold, every later one does too, so the `break` loses nothing |
| Visvalingam.SelectionDone | Skeletron/util.py:28-39 | at the end of the walk only small apexes are popped, popped and preserved are disjoint, a popped apex has both neighbours preserved, no two popped apexes are adjacent, every small candidate is popped or preserved, and nothing is popped exactly when no candidate is small |
| Visvalingam.SelectApexes | Skeletron/util.py:28-39 | the selection loop computes `Selection`, the greedy pass over the sorted candidates, and so establishes the six facts of `WellSelected`; the same code appears at `Skeletron2.py` lines 33-44 |
| Visvalingam.SelectionFacts | Skeletron/util.py:28-39 | the greedy pass over candidates sorted by `(area, index)` pops only small apexes, never two neighbours, keeps popped and preserved apart, preserves both neighbours of each popped apex, leaves every small apex popped or preserved, and pops nothing exactly when no candidate is small |
| Visvalingam.GreedyFacts | Skeletron/util.py:29-39 | from any point of the walk where the loop invariant holds, the rest of the pass ends in a state with those six facts |
| Visvalingam.SelectionGreedyExample | Skeletron/util.py:28-39 | smallest first: of two small neighbouring apexes only the smaller is popped, and the other is preserved |
| Visvalingam.Kept | Skeletron/util.py:46 | the indices kept are, in increasing order, exactly those below `n` that were not popped |
| Visvalingam.Reduce | Skeletron/util.py:46 | the reduced line is the input at the kept indices, in order |
| Visvalingam.EmbedsFull | Skeletron/util.py:46 | an order-preserving embedding of a line into one of the same length is the identity |
| Visvalingam.EmbedsCompose | Skeletron/util.py:12-46 | the result of several rounds is still a subsequence of the original |
| Visvalingam.KeptEnds | Skeletron/util.py:46 | when neither endpoint is popped the reduced line starts and ends with the original's endpoints |
| Visvalingam.KeptShrinks | Skeletron/util.py:41-46 | popping any index shortens the line |
| Visvalingam.KeptHalf | Skeletron/util.py:33-46 | with no two adjacent pops and the first point kept, at least half the points stay |
| Visvalingam.RoundFromSelection | Skeletron/util.py:20-39 | a selection of small, non-adjacent apexes never pops an endpoint |
| Visvalingam.RoundShape | Skeletron/util.py:41-46 | a round keeps both endpoints, keeps at least half the points and shortens the line when it pops anything |
| Visvalingam.SelectRound | Skeletron/util.py:18-43 | one round's popped set is `Popped`, the greedy selection on this line's sorted apex areas; it is a valid round, and it is empty exactly when no apex has area at most `small_area` |
| Visvalingam.PoppedValid | Skeletron/util.py:18-43 | the apexes a round pops form a valid round, and none are popped exactly when no apex has area at most `small_area` |
| Visvalingam.PoppedShrinks | Skeletron/util.py:41-46 | a round that pops something works on at least three points and shortens the line |
| Visvalingam.RoundsSettled | Skeletron/util.py:12-46 | the repeated rounds end with at most `floor` points or no small apex left, on a subsequence of the input that keeps both endpoints and at least two points |
| Visvalingam.RoundsStays | Skeletron/util.py:12-43 | a line at or below the floor, or one a round leaves alone, comes back as it is |
| Visvalingam.RoundsUnfold | Skeletron/util.py:41-46 | above the floor, a round that pops something is followed by the rounds on the reduced, shorter line |
| Visvalingam.RoundsIdempotent | Skeletron/util.py:12-46 | simplifying an already simplified line changes nothing |
| Visvalingam.RoundKeeps | Skeletron/util.py:41-43 | when a round pops nothing the line is unchanged and nothing is reported dropped |
| Visvalingam.RoundDrops | Skeletron/util.py:41-46 | when a round pops something the reduced line is reported dropped, shorter, and still embeds in the original |
| Visvalingam.RoundStep | Skeletron/util.py:46 | a round's output still embeds in the original line, with the shape of `RoundShape` |
| Visvalingam.SimplifyRound | Skeletron/util.py:18-46 | one loop iteration: something is dropped exactly when `Popped` is non-empty, and then the result is the line without the popped apexes (`Reduce`), strictly shorter; otherwise nothing dropped exactly when no apex is small and the line is unchanged; the result embeds in the original, keeps the endpoints and at least half the points; the same code appears at `Skeletron2.py` lines 23-51 |
| Visvalingam.EmptySelection | Skeletron/util.py:29-43 | when no candidate is small, no apex of the line is small |
| Skeletron2.SimplifyLine | Skeletron2.py:11-53 | the result is `Rounds` with a floor of two points: the rounds repeated while a round pops something; fewer than three points come back unchanged; otherwise the result is a subsequence keeping both endpoints and at least two points, with no small apex left; a three-point line with a small apex becomes its two endpoints (no three-point floor) |
| Skeletron2.ThreePoints | Skeletron2.py:14-48 | a stable result of a three-point input whose apex is small is the two endpoints |
| Skeletron2.LengthsMembers | Skeletron2.py:184-190 | `(d, v, w)` is among the collected paths exactly when `(v, w)` is a leaf pair and the path-length oracle gives `d` for it |
| Skeletron2.ConnectedLengths | Skeletron2.py:182-190 | the loop collects `Lengths`: the connected pairs with their lengths, in pair order, skipping `NetworkXNoPath` |
| Skeletron2.PickLongest | Skeletron2.py:180-196 | no pick exactly when no leaf pair is connected; otherwise a connected leaf pair with its length that is greatest in `(length, v, w)` order among all connected pairs |
| Skeletron2.SkeletonRoutes | Skeletron2.py:171-212 | given an order listing each node once: each path taken is, on the skeleton without the edges of the paths before it, the path of the longest connected leaf pair (`Extracted`); the working copy is the skeleton without the edges of all paths taken, and together with those paths it holds exactly the skeleton's edges; the loop stops with no edges left or no leaf pair connected (`Exhausted`); the routes are the paths' routes, filtered to length above `min_length` |
| Skeletron2.ExtractedSnoc | Skeletron2.py:195-199 | taking the longest connected leaf pair of the remaining graph extends an extraction by one path |
| Skeletron2.LongestUnique | Skeletron2.py:195-196 | the longest connected leaf pair and its path are unique: `(length, v, w)` triples never tie |
| Skeletron2.LongestNotExhausted | Skeletron2.py:180-196 | a graph from which a leaf pair is taken still has an edge and a connected leaf pair |
| Skeletron2.ExtractedAgree | Skeletron2.py:179-210 | two extractions from the same skeleton agree on every common prefix |
| Skeletron2.ExtractedGoesOn | Skeletron2.py:179-210 | a longer extraction takes another path from the graph a shorter one leaves, so that graph is not exhausted |
| Skeletron2.ExtractionDetermined | Skeletron2.py:179-210 | two extractions that both end exhausted are the same: the paths taken are fixed by the skeleton and the path oracles |
| Routes.TripleLeTotal | Skeletron2.py:195 | the tuple order of `(length, v, w)` is a total preorder |
| Routes.RoutePoints | Skeletron2.py:201-202 | a route is the point of each node of its path, in order |
| Routes.PathRoutes | Skeletron/__init__.py:278-280 | one route per path taken, in the order taken |
| Routes.PathRoutesSnoc | Skeletron/__init__.py:280 | appending a path appends its route |
| Routes.RouteLengthNonNegative | Skeletron2.py:203-204 | with non-negative segment lengths a route's length is never negative |
| Routes.KeepLongerCount | Skeletron/__init__.py:514 | the length filter keeps each longer route as often as it occurs and drops every other |
| Routes.KeepLongerSnoc | Skeletron2.py:206-207 | a new route is appended exactly when its length exceeds `min_length` |
| Routes.KeepLongerMembers | Skeletron/__init__.py:514 | a route survives exactly when it was there and is longer than `min_length` |
| Routes.EdgeDisjointStep | Skeletron/__init__.py:275-276 | removing a path's edges from the working graph keeps every route's edges disjoint from the others and from what remains |
| Routes.PathEdgesIn | Skeletron/__init__.py:275-276 | a path's edges are edges of the graph it runs in |
| Routes.RemoveStep | Skeletron/__init__.py:275-276 | after removing a path, the skeleton's edges are still exactly the remaining ones plus those of the paths taken |
| Routes.RemainingIs | Skeletron/__init__.py:275-276 | a working graph with the same nodes whose edges, with the removed paths' edges, are exactly the skeleton's is the skeleton without those edges |
| Routes.UnionDisjoint | Skeletron/__init__.py:275-276 | paths each edge-disjoint from a graph are together edge-disjoint from it |
| Routes.TripleLeAntisymmetric | Skeletron2.py:195 | the `(length, v, w)` order never ties two different triples |
| Graphs.RemoveNode | Skeletron/__init__.py:499 | `remove_node`: the node and every edge at it go; all other adjacency stays and the graph stays well formed |
| Graphs.RemoveEdge | Skeletron/__init__.py:276 | `remove_edge`: exactly that edge goes; nodes stay |
| Graphs.RemovePathEdges | Skeletron/__init__.py:275-276 | removing each edge of a path leaves the nodes and exactly the other edges, strictly fewer than before |
| Graphs.NodesOfDegree | Skeletron/__init__.py:253 | a node is selected exactly when it is in the graph with degree `k`; the order is pinned down by `Graphs.NodesOfDegreeAppend` and `Graphs.NodesOfDegreeOne` |
| Graphs.NodesOfDegreeAppend | Skeletron/__init__.py:253 | selecting from a split node order selects from each part, the first part's nodes first |
| Graphs.NodesOfDegreeOne | Skeletron/__init__.py:253 | a single node is selected exactly when it has degree `k` |
| Graphs.PairsWithin | Skeletron/__init__.py:266 | each pair of `combinations(s, 2)` is made of two entries of `s` |
| Graphs.AdjacentOfEdge | Skeletron/__init__.py:276 | an edge of the edge set joins two nodes adjacent in both directions |
| Graphs.LeafNotEdgeFree | Skeletron/__init__.py:250-253 | a graph with a leaf has an edge, so `not g.edges()` is false |
| Graphs.PairsWith | Skeletron/__init__.py:266 | the pairs of one node with each later one, in order |
| Graphs.PairsComplete | Skeletron/__init__.py:266 | `combinations(leaves, 2)` yields every pair `i < j` |
| Pruning.PeelStep | Skeletron/__init__.py:494-499 | removing a degree-one node extends the peeling record: each removed node had one neighbour left when it went |
| Pruning.InducedRemove | Skeletron/__init__.py:499 | the pruned graph is always the skeleton restricted to its remaining nodes |
| Pruning.IsolatedKept | Skeletron/__init__.py:494 | removing a leaf never removes a node that had no edges in the skeleton |
| Pruning.RemovedShallow | Skeletron/__init__.py:496-498 | writing the neighbour's depth keeps every removed node's recorded depth below 20 |
| Pruning.PruneStep | Skeletron/__init__.py:494-500 | one removal keeps the pruning state and lowers the node count, the loop's measure |
| Pruning.PruneInit | Skeletron/__init__.py:488 | the unpruned skeleton satisfies the pruning state |
| Pruning.TheNeighbour | Skeletron/__init__.py:497 | `neighbors(index)[0]` of a degree-one node is its only neighbour |
| Pruning.Singleton | Skeletron/__init__.py:497 | a node of degree one has exactly one neighbour |
| Pruning.Turn | Skeletron/__init__.py:494-499 | a turn changes the graph exactly when the node is a leaf shallower than 20, and then only by removing nodes |
| Pruning.TurnOfLeaf | Skeletron/__init__.py:494-499 | the turn of a shallow leaf removes it and gives its neighbour its depth plus the edge length |
| Pruning.TurnOfOther | Skeletron/__init__.py:494-495 | the turn of a node that is not a shallow leaf changes neither the graph nor the depths |
| Pruning.PassFrom | Skeletron/__init__.py:493-500 | the turns of the rest of a pass only remove nodes |
| Pruning.Spurs | Skeletron/__init__.py:488-500 | repeated passes keep a well-formed graph |
| Pruning.PruneAt | Skeletron/__init__.py:494-500 | one node's turn is `Turn`: it removes the node exactly when it has degree one and depth below 20, and then removes it, records it and sets its one neighbour's depth to its depth plus the edge length; otherwise nothing changes and the node is settled |
| Pruning.PrunePass | Skeletron/__init__.py:491-500 | a pass computes `Pass`, the turns of the enumerated nodes in order; it reports removal exactly when the graph shrank, and a pass that removes nothing changes nothing and leaves every node settled |
| Pruning.SettledEverywhere | Skeletron/__init__.py:493-500 | a pass over every node that removed nothing has settled every node |
| Pruning.PruneSpurs | Skeletron/__init__.py:488-500 | the loop computes `Spurs`, passes until one removes nothing; the result is the skeleton restricted to its remaining nodes, peeled one leaf at a time; isolated nodes stay, every removed node had depth below 20, and every remaining leaf has depth at least 20; the same code appears at `Skeletron2.py` lines 155-167 |
| Pruning.PassOverSettled | Skeletron/__init__.py:493-500 | a pass over a graph without shallow leaves changes nothing |
| Pruning.PassKeepingAll | Skeletron/__init__.py:493-500 | a pass that removed no node found every enumerated node settled |
| Pruning.SpursSettled | Skeletron/__init__.py:488-500 | after pruning no leaf is shallower than 20, and pruning the result again changes nothing |
| Skeleton.Endpoints | Skeletron/__init__.py:253-263 | a candidate list, when there is one, is never empty |
| Skeleton.EndpointsAreEnds | Skeletron/__init__.py:253-257 | when any leaf or joining fork exists, the candidates are exactly the leaves plus, with one leaf or when not finding the longest, the degree-three nodes |
| Skeleton.EndsExist | Skeletron/__init__.py:253-259 | such candidates exist exactly when there is a leaf, or forks join and there is a degree-three node |
| Skeleton.EndpointsFallback | Skeletron/__init__.py:259-263 | with no candidates the first degree-two node in node order and its first neighbour are used, and the source's IndexError is exactly the case of no degree-two node |
| Skeleton.EndpointsNone | Skeletron/__init__.py:253-261 | the IndexError happens exactly when no node has degree one or two, nor degree three while forks join |
| Skeleton.FirstOfDegree | Skeletron/__init__.py:261 | `[...][0]` is the first node of that degree in node order |
| Skeleton.Distances | Skeletron/__init__.py:265-266 | one `(distance, v, w)` per candidate pair, in pair order |
| Skeleton.FirstRoutable | Skeletron/__init__.py:268-273 | the first candidate with a path in the sorted order, and the path; none exactly when no candidate has a path |
| Skeleton.OrderedSorted | Skeletron/__init__.py:268 | `sorted(distances, reverse=find_longest)` is a permutation ordered ascending, or descending when finding the longest |
| Skeleton.FirstIsBest | Skeletron/__init__.py:268-283 | the first routable candidate comes before every other routable one in that order |
| Skeleton.DistancesOfPairs | Skeletron/__init__.py:265-266 | every candidate pair has its distance entry |
| Skeleton.ChooseRoute | Skeletron/__init__.py:253-283 | one iteration: no candidates exactly when `Endpoints` fails; no route only when no candidate pair has a path; otherwise a candidate pair with its path that is first in the search order among all pairs with a path |
| Skeleton.GraphRoutesMain | Skeletron/__init__.py:207-287 | given an order listing each node once, on a copy: each path taken is the one iteration's choice (`Chose`) on the graph without the edges of the paths before it (`Replayed`); the working copy is the graph without the edges of all paths taken, and with them exactly the graph's edges; the routes are the points of those paths; the loop has nothing more to do when it ends (`Stopped`); done exactly when no edge remains; otherwise stopped by the IndexError or stuck with no connected candidate pair (the source spins until its watchdog fires) |
| Skeleton.ReplayedSnoc | Skeletron/__init__.py:268-280 | the iteration's choice on the remaining graph extends a replay by one path |
| Skeleton.ChoseUnique | Skeletron/__init__.py:268-273 | one iteration's choice is unique: the candidate order never ties two different pairs |
| Skeleton.ReplayedAgree | Skeletron/__init__.py:249-283 | two replays from the same graph agree on every common prefix |
| Skeleton.ReplayedGoesOn | Skeletron/__init__.py:249-283 | a longer replay chooses again on the graph a shorter one leaves, so that graph has not stopped |
| Skeleton.RoutesDetermined | Skeletron/__init__.py:249-283 | two replays that have both stopped are the same: the routed paths are fixed by the graph and the oracles |
| Skeleton.PlaceHalf | Skeletron/__init__.py:393-398 | a half below 5000 points is skeletonised inside its bounding polygon buffered and clipped to the whole polygon (failing on a QHull failure), a larger one requeued without its polygon |
| Skeleton.TakeHead | Skeletron/__init__.py:388-389 | `point_lists.pop(0)` keeps the worklist invariant and lowers the measure |
| Skeleton.PlaceStep | Skeletron/__init__.py:393-398 | placing a half keeps the invariant: every point is in exactly one skeletonised piece, queued list or pending half, and each skeleton is that of its piece inside its polygon |
| Skeleton.SplitHead | Skeletron/__init__.py:387-398 | one round of the worklist: it fails with the division error exactly when the head cannot be divided, with the QHull failure exactly when a half below 5000 points has no skeleton inside its clipped polygon, and otherwise places both halves, keeping the invariant and lowering the measure |
| Skeleton.PolygonSkeletonGraphs | Skeletron/__init__.py:359-400 | at most four points give a bare `Graph()`, not a list; below 5000 the skeleton of the whole polygon in a one-graph list, or the QHull failure; larger sets are divided until every piece is below 5000 points and skeletonised inside a clipped polygon of a half, the pieces adding up to all the points; a division failure comes from a point list `divide` rejects, and a QHull failure from a division one of whose small halves has no skeleton |
| Skeleton.AllRoutes | Skeletron/__init__.py:511-512 | the first graph's routes followed by those of the rest, so a route is in the result exactly when it is a route of some graph; failing exactly when some graph's routes fail |
| Skeleton.SkeletonRoutes | Skeletron/__init__.py:506-514 | a bare graph gives no routes; the result fails exactly when some graph's route search fails; otherwise a route is in it exactly when it is a route of some graph and longer than `min_length` |
| Skeleton.CollectLinesMeaning | Skeletron/__init__.py:151-175 | the loop over the buffer polygons succeeds exactly when no polygon has a division failure or an overtime route search, and then gives every polygon's simplified routes, polygon after polygon, with nothing from a polygon that hit a QHull failure; otherwise it fails with the first failing polygon's error |
| Skeleton.SkipQHull | Skeletron/__init__.py:155-165 | a polygon with a QHull failure contributes nothing, wherever it sits |
| Skeleton.MultigeomCenterline | Skeletron/__init__.py:109-182 | falsy input gives False; a type other than MultiLineString or MultiPolygon raises ValueError; otherwise the result fails exactly when a buffer polygon fails, with the first failing polygon's error, is False exactly when the simplified routes of the polygons, in order, are empty, and else is those routes |
| Skeleton.CenterlineAllSkipped | Skeletron/__init__.py:151-180 | when every polygon hits a QHull failure the result is False |
| Skeleton.ConcatOfEmpty | Skeletron/__init__.py:155-165 | polygons that add no lines add nothing to the result |
| Skeleton.WayLine | Skeletron/__init__.py:304 | the projected point of every node id in order, or a KeyError naming a missing id |
| Skeleton.GroupSkip | Skeletron/__init__.py:298-299 | a way with fewer than two node ids changes nothing |
| Skeleton.GroupAdd | Skeletron/__init__.py:301-305 | a drawn way appends its line under its key, creating the key's list when new |
| Skeleton.WaynodeMultilines | Skeletron/__init__.py:289-311 | fails exactly when a drawn way names a missing node; otherwise the keys are exactly those of drawn ways and each holds its ways' lines in iteration order |
| Skeleton.GroupLines | Skeletron/__init__.py:294-305 | the grouping loop computes that dictionary |
| Skeleton.GroupedAll | Skeletron/__init__.py:294-305 | after the loop every drawn way's line was found and the dictionary is as stated |
| Skeleton.LinesOfNone | Skeletron/__init__.py:298-302 | a key no drawn way has collects no lines |
| CgalSkeletron.Rings | CGAL/skeletron/__init__.py:15-26 | a geo-interface of type Polygon gives its coordinates and an iterable its items; another geometry type or an object that is neither raises TypeError |
| CgalSkeletron.Reverse | CGAL/skeletron/__init__.py:35 | `reversed(coords)`: the same points in the opposite order |
| CgalSkeletron.ReverseReverse | CGAL/skeletron/__init__.py:35 | reversing twice gives the ring back |
| CgalSkeletron.ReverseMembers | CGAL/skeletron/__init__.py:35 | reversal keeps the same points |
| CgalSkeletron.Rewound | CGAL/skeletron/__init__.py:31-35 | the winding fix leaves the number of rings unchanged |
| CgalSkeletron.RewoundOriented | CGAL/skeletron/__init__.py:31-35 | when reversal flips the winding test, ring 0 ends exterior and every later ring interior |
| CgalSkeletron.RewoundIdempotent | CGAL/skeletron/__init__.py:31-35 | fixing the winding twice changes nothing more |
| CgalSkeletron.FixWinding | CGAL/skeletron/__init__.py:31-35 | the in-place loop produces `Rewound` |
| CgalSkeletron.Picked | CGAL/skeletron/__init__.py:43-49 | picking edges by typecode never yields more segments than edges |
| CgalSkeletron.PickedMembers | CGAL/skeletron/__init__.py:43-49 | a segment is picked exactly when some edge with that start and end has a typecode in the set |
| CgalSkeletron.PickedSplit | CGAL/skeletron/__init__.py:43-49 | disjoint typecode sets split the count |
| CgalSkeletron.PickedAll | CGAL/skeletron/__init__.py:43-49 | every edge is picked exactly when every typecode is in the set |
| CgalSkeletron.PickedAgree | CGAL/skeletron/__init__.py:174-175 | typecode sets that agree on the edges present pick the same segments |
| CgalSkeletron.PartitionComplete | CGAL/skeletron/__init__.py:43-49 | inner, outer and border together never exceed the edges, and cover them exactly when every typecode is 0, 1 or 2 |
| CgalSkeletron.AsLines | CGAL/skeletron/__init__.py:45-49 | each segment becomes the two-point line `(start, end)` |
| CgalSkeletron.PickedStep | CGAL/skeletron/__init__.py:43-49 | one more edge appends its line to its list when its code matches |
| CgalSkeletron.Partition | CGAL/skeletron/__init__.py:41-49 | the `xray` loop puts INNER edges in `inner`, OUTER in `outer`, BORDER in `border`, in order, and drops any other code |
| CgalSkeletron.Slot | CGAL/skeletron/__init__.py:175 | indexing a 3-tuple succeeds exactly for codes -3..2, negative codes counting from the end |
| CgalSkeletron.InteriorSkeleton.Bisectors | CGAL/skeletron/__init__.py:177-179 | `bisectors` is `inner` followed by `outer` |
| CgalSkeletron.NewInteriorSkeleton | CGAL/skeletron/__init__.py:163-175 | the constructor raises the TypeError of `Rings`, and otherwise sorts the skeleton's edges as `SortedEdges` says |
| CgalSkeletron.SortEdges | CGAL/skeletron/__init__.py:173-175 | succeeds exactly when every typecode indexes the tuple, and then holds each list's edges in order; otherwise fails with the first bad code |
| CgalSkeletron.InteriorSkeletonMatchesXray | CGAL/skeletron/__init__.py:43-175 | for codes 0..2 `InteriorSkeleton`'s lists equal `xray`'s border, outer and inner, and together hold every edge |
| CgalSkeletron.Stitch | CGAL/skeletron/__init__.py:85-116 | a duplicate gives a copy of line 1; otherwise the first matching case in the order start-start (line 1 reversed, then line 2 without its first point), start-end (line 2, then line 1 without its first point), end-start (line 1, then line 2 without its first point), end-end (line 1, then line 2 reversed without its first point), and no line when no endpoint is shared; a stitched line has `len1 + len2 - 1` coordinates, every coordinate of both lines and no others |
| CgalSkeletron.StitchClosesLoop | CGAL/skeletron/__init__.py:101-102 | two lines sharing both ends stitch into a closed loop |
| CgalSkeletron.StitchHasLength | CGAL/skeletron/__init__.py:95-111 | stitching a line of non-zero length gives a line of non-zero length |
| CgalSkeletron.Nonzero | CGAL/skeletron/__init__.py:121 | zero-length lines are dropped and exactly those |
| CgalSkeletron.RemoveFirst | CGAL/skeletron/__init__.py:136-137 | `list.remove` drops one occurrence |
| CgalSkeletron.UntouchedTake | CGAL/skeletron/__init__.py:129-139 | marking one untouched line touched removes exactly that line from the untouched ones |
| CgalSkeletron.RowDone | CGAL/skeletron/__init__.py:128 | once every later partner of line `i` failed, every pair up to row `i` failed |
| CgalSkeletron.MergeStep | CGAL/skeletron/__init__.py:132-139 | a stitch appends the merged line, removes both inputs and keeps the pass invariant |
| CgalSkeletron.MergedLine | CGAL/skeletron/__init__.py:132-135 | the merged line has length and its points come from the snapshot |
| CgalSkeletron.TouchTwo | CGAL/skeletron/__init__.py:138-139 | touching two new lines raises the touched count by two |
| CgalSkeletron.TouchedCovered | CGAL/skeletron/__init__.py:129-139 | with exact duplicates, every point of a touched line is on some appended line |
| CgalSkeletron.PassDone | CGAL/skeletron/__init__.py:128-139 | after a pass every line has length, its points come from the input, and with exact duplicates it covers the input |
| CgalSkeletron.MergeAt | CGAL/skeletron/__init__.py:129-139 | one pair's turn keeps the pass invariant; a pass that has merged nothing still holds the snapshot and this pair failed |
| CgalSkeletron.MergeRow | CGAL/skeletron/__init__.py:128-139 | one row of pairs keeps the invariant, and a row with no merge has tried every pair up to it |
| CgalSkeletron.MergePass | CGAL/skeletron/__init__.py:125-141 | a pass never grows the list; when it does not shrink it, the list is unchanged and no pair stitches; the points come from the input and cover it given exact duplicates |
| CgalSkeletron.MergeLines | CGAL/skeletron/__init__.py:118-143 | the result has only lines with length, no more than the non-zero input lines, no pair that stitches, points only from the input, and all input points under exact duplicates |
| CgalSkeletron.Xray | CGAL/skeletron/__init__.py:12-55 | raises `Rings`' TypeError, or returns the merged inner lines and the outer and border lines of the rewound rings' skeleton |
| DumpHoles.ReadRings | CGAL/dump/dump-skeleton.cpp:24-43 | the outer ring, hole rings and bad lines hold what the line-by-line parse describes |
| DumpHoles.ReadLine | CGAL/dump/dump-skeleton.cpp:31-43 | one line: a blank line opens a new empty hole as the current ring, a bad line is reported, a point goes to the current ring |
| DumpHoles.ParseStep | CGAL/dump/dump-skeleton.cpp:31-43 | the parse of one more line is one more step |
| DumpHoles.ReadPolygon | CGAL/dump/dump-skeleton.cpp:24-47 | the polygon with holes has the parsed outer ring and holes in order of appearance, and the bad lines are reported |
| DumpHoles.Run | CGAL/dump/dump-skeleton.cpp:22-51 | the whole program on its input text reads the polygon of its newline-terminated lines |
| DumpHoles.SegmentPoints | CGAL/dump/dump-skeleton.cpp:33-42 | one point list per run of lines between blank lines |
| DumpHoles.RingsOfBlank | CGAL/dump/dump-skeleton.cpp:33-36 | a blank line appends an empty ring |
| DumpHoles.RingsOfLine | CGAL/dump/dump-skeleton.cpp:38-42 | any other line adds its point, if any, to the last ring |
| DumpHoles.RingsAreSegments | CGAL/dump/dump-skeleton.cpp:31-43 | the rings are the points of the blank-separated runs of lines: the outer ring first, then one hole per blank line |
| DumpHoles.HoleCount | CGAL/dump/dump-skeleton.cpp:33-36 | there are exactly as many holes as blank lines, consecutive blanks giving empty holes |
| DumpHoles.BadCount | CGAL/dump/dump-skeleton.cpp:38-41 | the lines reported are exactly the non-blank lines that do not start with two numbers |
| DumpHoles.UnterminatedTailIgnored | CGAL/dump/dump-skeleton.cpp:31 | a final line without a newline is never processed |
| DumpRing.ReadRing | CGAL/dump-skeleton.cpp:23-44 | a fresh ring holding the point of every readable line in order; the other lines are reported |
| DumpRing.ReadRingStep | CGAL/dump-skeleton.cpp:37-44 | one more line adds its point or its report |
| DumpRing.Run | CGAL/dump-skeleton.cpp:21-48 | the whole program reads the ring of its newline-terminated lines |
| DumpRing.RingCount | CGAL/dump-skeleton.cpp:37-44 | every line is either a point or a reported line |
| DumpRing.AgreesWithoutBlankLines | CGAL/dump-skeleton.cpp:37-44 | without blank lines the single-ring reader and the hole reader agree, with no holes |
| DumpRing.UnterminatedTailIgnored | CGAL/dump-skeleton.cpp:37 | a final line without a newline is never processed |
| LineInput.Lines | CGAL/dump-skeleton.cpp:37 | the lines `getline` delivers before eof contain no newline |
| LineInput.LinesUnlines | CGAL/dump-skeleton.cpp:37 | the lines of newline-terminated lines plus an unterminated tail are exactly those lines |
| LineInput.LinesCover | CGAL/dump-skeleton.cpp:37 | the input is its lines, each newline-terminated, plus a tail without a newline |
| LineInput.BlankHasNoNumber | CGAL/dump/dump-skeleton.cpp:38-41 | a whitespace-only line holds no number, so it is a bad line |
| LineInput.ReadIntToString | CGAL/dump-skeleton.cpp:38-39 | `is >> x` reads back any written integer |
| LineInput.ReadAfterSpace | CGAL/dump-skeleton.cpp:38-39 | leading whitespace is skipped before a number |
| LineInput.ReadPairInts | CGAL/dump-skeleton.cpp:38-43 | a line of two integers separated by a space reads as that point |
| LineInput.LinePoints | CGAL/dump-skeleton.cpp:39-43 | a line gives one point exactly when it reads |
| LineInput.PointsAppend | CGAL/dump-skeleton.cpp:37-44 | the points of two runs of lines are the points of each, in order |
| CgalPolygon.Polygon.constructor | CGAL/dump-skeleton.cpp:23 | a new polygon is empty |
| CgalPolygon.Polygon.PushBack | CGAL/dump-skeleton.cpp:43 | `push_back` appends the point and changes nothing else |
| PgDump.PairUp | skeletron-pgdump-route-rels.py:40 | `zip(tags[0::2], tags[1::2])`: the pairs of each even entry with the next, an odd last entry dropped |
| PgDump.DictOfPairs | skeletron-pgdump-route-rels.py:40 | the dict has a key exactly when some pair carries it, with the value of the last such pair |
| PgDump.RelationsListMembers | skeletron-pgdump-route-rels.py:31-54 | a relation is listed exactly when its row has `network` and `ref` entries and its tags are not excluded |
| PgDump.GetRelationsList | skeletron-pgdump-route-rels.py:28-56 | the loop keeps the rows in query order and never a bike, walking or rail relation |
| PgDump.Decode | skeletron-pgdump-route-rels.py:89-93 | `r…` is a relation, `w…` a way when it does not start with `r`, anything else ignored; an id that `int()` rejects is an error |
| PgDump.EvenEntries | skeletron-pgdump-route-rels.py:88 | `members[0::2]`: the even-indexed entries |
| PgDump.DecodeAll | skeletron-pgdump-route-rels.py:88-93 | each entry decoded in order |
| PgDump.CollectOk | skeletron-pgdump-route-rels.py:88-93 | the member scan fails exactly on a malformed entry |
| PgDump.CollectMembers | skeletron-pgdump-route-rels.py:88-93 | a scan that succeeds queues exactly the named relations and collects exactly the named ways |
| PgDump.ExpandFacts | skeletron-pgdump-route-rels.py:88-93 | the same facts for a member list |
| PgDump.CollectErrExtends | skeletron-pgdump-route-rels.py:88-93 | the first error ends the scan |
| PgDump.TraverseStep | skeletron-pgdump-route-rels.py:65-93 | one dequeue: a seen id stops everything (as written) or is skipped (corrected); a new id is scanned, its relations queued and its ways added |
| PgDump.TraverseReach | skeletron-pgdump-route-rels.py:65-93 | on a database without malformed entries the traversal returns the ways of the relations it visited, and those are reached from the queue |
| PgDump.RelationWaysReachable | skeletron-pgdump-route-rels.py:61-95 | corrected traversal: the ways of exactly the smallest set of relations that holds the start and is closed under sub-relations |
| PgDump.RelationWaysAsWrittenSound | skeletron-pgdump-route-rels.py:68-69 | as written the traversal still succeeds and returns only ways of that closed set |
| PgDump.TraceRepeatedChild | skeletron-pgdump-route-rels.py:65-93 | a relation naming the same sub-relation twice: the `break` stops before the grandchild's ways, the corrected walk collects them |
| PgDump.BreakLosesRelations | skeletron-pgdump-route-rels.py:68-69 | on a concrete three-relation database the as-written result misses one way that the corrected one has |
| PgDump.ScanMembers | skeletron-pgdump-route-rels.py:88-93 | the member loop computes `Expand` |
| PgDump.GetRelationWays | skeletron-pgdump-route-rels.py:58-95 | the queue loop computes the traversal, with the seen-id rule as chosen |
| PgGroups.TagsFromArrayKeys | skeletron-pgdump-route-rels.py:111 | the way's tag dict has exactly the keys at even positions |
| PgGroups.WayTags | skeletron-pgdump-route-rels.py:97-113 | a missing way gives an empty dict; otherwise the keys are those of its tag array |
| PgGroups.WayLinestring | skeletron-pgdump-route-rels.py:115-134 | None exactly when fewer than two coordinates are found, otherwise those coordinates |
| PgGroups.RelationKey | skeletron-pgdump-route-rels.py:164-167 | `(network, ref, modifier)` with `''` for each missing tag |
| PgGroups.RelationKeyOfRouteKey | skeletron-pgdump-route-rels.py:164-167 | on tags that `network_ref_modifier_key` accepts, the two keys agree |
| PgGroups.EntryLeTotalPreorder | skeletron-pgdump-route-rels.py:176 | the order `sorted` uses on `(key, (id, tags))` is a total preorder |
| PgGroups.CascadedUnionIsFold | skeletron-pgdump-route-rels.py:136-162 | for an associative union and no empty shapes, the divide-and-conquer union equals the union of the present shapes left to right, None when none is present |
| PgGroups.CascadedUnionOfNones | skeletron-pgdump-route-rels.py:139-155 | only Nones give None |
| PgGroups.EmptyShapeLosesPartner | skeletron-pgdump-route-rels.py:145-155 | an empty (falsy) shape paired with a real one gives None, where the plain union keeps the real one |
| PgGroups.PairUnion | skeletron-pgdump-route-rels.py:145-155 | two truthy-or-None shapes give their union or the one present |
| PgGroups.UnionOfAppend | skeletron-pgdump-route-rels.py:157-162 | the union of a split list is the union of the two halves' unions |
| PgGroups.GroupsFlatten | skeletron-pgdump-route-rels.py:174-194 | the groups yielded, concatenated, are the sorted relations exactly |
| PgGroups.GroupsCut | skeletron-pgdump-route-rels.py:178-180 | each group ends exactly where the running count exceeded 100000 and the key changed, never earlier; the last group is empty exactly when there are no relations |
| PgGroups.SortedRelationsFacts | skeletron-pgdump-route-rels.py:172-176 | the relations sorted by key are a permutation of the keyed relations in order |
| PgGroups.ReadWaysFromDb | skeletron-pgdump-route-rels.py:182-184 | the entry holds the tags and line of each of the relation's ways |
| PgGroups.RelationEntry | skeletron-pgdump-route-rels.py:182-190 | with the traversal chosen by `stopOnSeen` (true is the script's `break`, false the corrected skip), one relation's entry fails exactly when its traversal fails; otherwise it holds the relation's id, tags, and its ways read from the database |
| PgGroups.GroupStep | skeletron-pgdump-route-rels.py:176-192 | with either traversal, one relation of the sorted loop keeps the grouping invariant or reports its traversal error |
| PgGroups.GenRelationGroups | skeletron-pgdump-route-rels.py:169-194 | with the traversal chosen by `stopOnSeen` (true is the script's `break`): the groups are the cut of the sorted relations, one entry per relation read from the database, or the error of some relation's traversal |
| PgTree.NodesFrom | skeletron-pgdump-route-rels.py:218-220 | one node per coordinate, numbered consecutively, with lat and lon swapped from `(lon, lat)` |
| PgTree.TreeIds | skeletron-pgdump-route-rels.py:199-230 | the tree uses exactly the next ids from the counter, each once |
| PgTree.TreeIdsDistinct | skeletron-pgdump-route-rels.py:199 | no two elements share an `id` string |
| PgTree.TreeRefs | skeletron-pgdump-route-rels.py:218-226 | each way's `nd`s name earlier nodes and each relation's members name earlier ways |
| PgTree.TreeRelations | skeletron-pgdump-route-rels.py:202-230 | one relation per entry, in order, with the entry's tags and one member per drawn line |
| PgTree.MakeGroupTree | skeletron-pgdump-route-rels.py:196-232 | the loops append exactly `Tree` of the group with the counter starting at 1 |
| KeysList.DefaultTagNames | skeletron-osm-keys-list.py:13-27 | the default tags split into `ref` and `highway` |
| KeysList.Header | skeletron-osm-keys-list.py:28 | one header cell per tag, `input ` followed by the tag |
| KeysList.KeyFunc | skeletron-osm-keys-list.py:30-31 | one value per tag, present exactly when the way has the tag |
| KeysList.CellsJoin | skeletron-osm-keys-list.py:41 | a falsy cell becomes `[None]`; a truthy one splits into semicolon-free pieces that join back to it |
| KeysList.ProductMembers | skeletron-osm-keys-list.py:44 | `product` yields exactly the combinations with one entry from each list |
| KeysList.CollectRows | skeletron-osm-keys-list.py:37-45 | the loop's set is the union of each way's combinations |
| KeysList.AllRowsMembers | skeletron-osm-keys-list.py:37-45 | a row is in the set exactly when some way's cells yield it |
| KeysList.RowLeTotalPreorder | skeletron-osm-keys-list.py:47 | Python 2 tuple order with None below every string is a total preorder |
| KeysList.SortedRows | skeletron-osm-keys-list.py:47 | the rows in sorted order, each once |
| KeysList.KeysRows | skeletron-osm-keys-list.py:27-48 | the header, then every distinct combination once, in sorted order |
| Motorways.HighwayKey | skeletron-osm-motorways.py:10-25 | the raw `ref` exactly when `ref` and `highway` are present and non-empty and the highway is motorway or trunk; None otherwise |
| Motorways.HighwayKeyExamples | skeletron-osm-motorways.py:19-25 | `A1;A2` is kept whole; `motorway_link` and a missing ref give None |
| Motorways.RefPieces | skeletron-osm-motorways.py:46-47 | one stripped piece per semicolon field, none containing a semicolon or starting or ending with whitespace |
| Motorways.RefPiecesSingle | skeletron-osm-motorways.py:46-47 | a plain ref is its own only piece |
| Motorways.RefMultilines | skeletron-osm-motorways.py:43-55 | the nested loops build `Collected` |
| Motorways.AddRefsLookup | skeletron-osm-motorways.py:46-55 | one key's pieces union the multiline into each of them, once per occurrence |
| Motorways.CollectedLookup | skeletron-osm-motorways.py:43-55 | each ref's entry is the union, in order, of the multilines of every key that names it |
| Motorways.CollectedKeys | skeletron-osm-motorways.py:43-55 | a ref has an entry exactly when some key names it |
| Motorways.EmitFeatures | skeletron-osm-motorways.py:57-70 | one feature per ref whose centerline is truthy, with that centerline, and none for any other ref |
| RouteRelsCli.ParseOptions | skeletron-osm-route-rels.py:33-44 | a merge value outside yes/no/largest is an error; a width left at its default is an `int` |
| RouteRelsCli.ParseDefaults | skeletron-osm-route-rels.py:33 | the defaults are zoom 12, width 15 and merge `no` |
| RouteRelsCli.OptionsBuffer | skeletron-osm-route-rels.py:50-51 | the buffer as the script computes it, with Python 2 floor division of an `int` width: the exact buffer for a float or even width, half a pixel less for an odd `int` width, and positive exactly when the halved width is |
| RouteRelsCli.DefaultBufferFloors | skeletron-osm-route-rels.py:33-50 | the default width buffers 14/15 of what `--width 15` does, which is the exact half-width buffer |
| RouteRelsCli.RouteKwargs | skeletron-osm-route-rels.py:66 | density is half the buffer, minimum length 16 densities (8 buffers) and minimum area a density squared (a quarter buffer squared) |
| RouteRelsCli.KeyProperties | skeletron-osm-route-rels.py:68-75 | a 3-tuple under `yes` and a 4-tuple otherwise unpack; the dict has network, ref, modifier, zoomlevel and pixelwidth, plus highway exactly when not `yes` |
| RouteRelsCli.KeyPropertiesOfRouteKeys | skeletron-osm-route-rels.py:68-75 | every key the input layer assigns for the same mode unpacks, with the route's network, ref and modifier |
| RouteRelsCli.KeyPropertiesMismatch | skeletron-osm-route-rels.py:68-75 | a key assigned for the other mode fails to unpack |
| StreetsCli.ParseOptions | skeletron-osm-streets.py:30-41 | `--ignore-highway` turns highways off; a width left at its default is an `int` |
| StreetsCli.DefaultBuffer | skeletron-osm-streets.py:30-48 | the defaults are zoom 12, width 10 and highways on; the even default halves exactly |
| StreetsCli.StreetKwargs | skeletron-osm-streets.py:63 | density is half the buffer, minimum length 4 densities (2 buffers) and minimum area a density squared |
| StreetsCli.WayKey | Skeletron/input.py:60-68 | a street is keyed exactly when it has a name, and a highway when highways are used; the key is a 2-tuple or a 1-tuple accordingly |
| StreetsCli.KeyProperties | skeletron-osm-streets.py:65-74 | the key unpacks exactly when its length matches the mode; the dict has name, shortname, zoomlevel and pixelwidth, plus highway with highways on |
| StreetsCli.KeyPropertiesOfWayKeys | skeletron-osm-streets.py:65-74 | every key of `parse_street_waynodes` unpacks, with the way's name and highway |
| CliOptions.Pow2 | skeletron-osm-route-rels.py:51 | `2**e` is positive for every exponent |
| CliOptions.HalfWidth | skeletron-osm-route-rels.py:40-50 | corrected: twice the half is the width |
| CliOptions.HalfWidthDefaultFloors | skeletron-osm-route-rels.py:33-50 | as written the default 15 halves to 7, while 15.0 halves to 7.5 |
| CliOptions.HalfWidthAsWrittenExact | skeletron-osm-streets.py:30-47 | the floor division is exact exactly for a float width or an even integer default such as the streets script's 10; an odd integer loses half a pixel |
| CliOptions.GroundResolution | skeletron-osm-route-rels.py:25-51 | metres per pixel at a zoom level are positive |
| CliOptions.Buffer | skeletron-osm-route-rels.py:50-51 | corrected: the buffer is positive, zero or negative as the width is |
| CliOptions.GroundResolutionHalves | skeletron-osm-route-rels.py:51 | one zoom level in, a pixel covers half the ground |
| CliOptions.BufferHalves | skeletron-osm-route-rels.py:50-51 | one zoom level in, the buffer halves |
| CliOptions.BufferZoomIn | skeletron-osm-route-rels.py:50-51 | `k` levels in, the buffer is halved `k` times |
| CliOptions.BufferProportional | skeletron-osm-streets.py:47-48 | at a fixed zoom the buffer is proportional to the width |
| CliOptions.Chars | skeletron-osm-route-rels.py:69-75 | a bare string unpacks into one value per character |
| Strings.JoinSplit | skeletron-osm-keys-list.py:41 | `split` then `join` on the same separator gives the string back |
| Strings.SplitPiecesFree | skeletron-osm-motorways.py:46 | no piece of a split contains the separator |
| Strings.Strip | skeletron-osm-motorways.py:47 | `strip` removes whitespace at both ends only and leaves a string without whitespace unchanged |
| Strings.ParseIntToString | skeletron-pgdump-route-rels.py:90-93 | `int()` reads back any written integer |
| Strings.StrLeTotal | skeletron-osm-keys-list.py:47 | string order is total |
| Sorting.SortSorted | Skeletron/util.py:28 | the sort model is ordered for any total preorder |
| Sorting.Sort | Skeletron/util.py:28 | the sort model is a permutation of its input |
| Sorting.SortDescendingFirst | Skeletron2.py:195-196 | after `sort(reverse=True)` the first entry is the greatest |
| Sorting.SetToSeq | skeletron-pgdump-route-rels.py:183-184 | iterating a set visits every element once |
| Motorways.Lookup | skeletron-osm-motorways.py:49-55 | the `ref in multilines` test: an entry is found exactly when the ref is a key |
| Motorways.UnionAllAppend | skeletron-osm-motorways.py:49-55 | unioning two runs of multilines in turn is unioning the first, then the second onto it |
| Motorways.ContributionsNonEmpty | skeletron-osm-motorways.py:43-55 | a ref collects some multiline exactly when some key names it |
| KeysList.ProductYields | skeletron-osm-keys-list.py:41-45 | a row is in the product of a way's cells exactly when each of its entries is one of that cell's values |
| KeysList.AllRowsSound | skeletron-osm-keys-list.py:37-45 | every row in the set comes from some way |
| KeysList.AllRowsComplete | skeletron-osm-keys-list.py:37-45 | every combination of every way is in the set |
| LineInput.ReadNumber | CGAL/dump-skeleton.cpp:38-39 | a number that reads consumes at least one character |
| LineInput.ReadNumberLeavesTail | CGAL/dump-skeleton.cpp:38-39 | `is >> x` skips whitespace, consumes at least one character after it, and leaves the unread tail of the line for the next read |
| LineInput.ReadSignedLeavesSuffix | CGAL/dump-skeleton.cpp:38-39 | what follows a read number is the tail of the text it was read from |
| LineInput.ReadUnsignedLeavesSuffix | CGAL/dump-skeleton.cpp:38-39 | the same after an optional sign |
| LineInput.ReadFractionLeavesSuffix | CGAL/dump-skeleton.cpp:38-39 | the same after the integer digits |
| LineInput.ReadExponentLeavesSuffix | CGAL/dump-skeleton.cpp:38-39 | the same after the fraction |
| LineInput.Points | CGAL/dump-skeleton.cpp:37-44 | no more points than lines |
| LineInput.PointsSnoc | CGAL/dump-skeleton.cpp:37-44 | one more line appends its point, if any |
| DumpHoles.RingsOfBad | CGAL/dump/dump-skeleton.cpp:38-41 | a bad line adds nothing to the rings |
| DumpHoles.RingsOfOuterPoint | CGAL/dump/dump-skeleton.cpp:29-42 | before the first blank line a point goes to the outer ring |
| DumpHoles.RingsOfHolePoint | CGAL/dump/dump-skeleton.cpp:35-42 | after a blank line a point goes to the newest hole |
| PgDump.DecodeRelation | skeletron-pgdump-route-rels.py:89-90 | `r` followed by a written id decodes to that relation |
| PgDump.DecodeWay | skeletron-pgdump-route-rels.py:92-93 | `w` followed by a written id decodes to that way |
| PgGroups.Keyed | skeletron-pgdump-route-rels.py:172 | each relation paired with its `relation_key`, in order |
| PgGroups.ReadWays | skeletron-pgdump-route-rels.py:182-185 | the entry carries the relation's id and tags and one tag dict and one line per way |
| PgGroups.LineCoordsJoined | skeletron-pgdump-route-rels.py:185 | the sum over drawn lines is the number of coordinates of those lines put together: a missing line adds nothing, a drawn one all of its coordinates |
| PgGroups.LineCoordsAppend | skeletron-pgdump-route-rels.py:185 | the count over a split of the way lines is the sum of the two counts |
| PgGroups.EntryCoords | skeletron-pgdump-route-rels.py:184-185 | what a relation adds to the running count is the number of coordinates of all its drawn way lines |
| PgGroups.Groups | skeletron-pgdump-route-rels.py:174-194 | at least one group is always yielded, the final one possibly empty |
| PgTree.IdsFrom | skeletron-pgdump-route-rels.py:199 | `count` ids drawn from the counter |
| Graphs.EdgesOfAdjacent | Skeletron/__init__.py:276 | an adjacency is an edge of the graph |
| Skeleton.LinesOfAppend | Skeletron/__init__.py:294-305 | grouping two runs of ways collects, under each key, the first run's lines then the second's |
| Sorting.SortDescending | Skeletron2.py:195 | `sort(reverse=True)` is a permutation of its input |
| Sorting.SortDescendingSorted | Skeletron2.py:195 | and is ordered from greatest to least |

## Left out

- Reading and writing files, stdin and stdout, the expat tokeniser, the psycopg2 connection (the database is a value of maps), the multiprocessing writer and XML, GeoJSON and CSV serialisation: I/O is outside the model, which starts from parsed values and ends at the values written.
- Python 2 dictionary and set iteration order is arbitrary: the model takes the order as an explicit sequence (for example `RouteRelations.DictOrder`, `Sorting.SetToSeq`) and proves each result for every order.
- Shapely, pyproj and the spherical-Mercator projection (buffering, `union`, `linemerge`, `length`, `is_empty`, `project`) are foreign code: they enter as function parameters, with only the algebraic facts a proof needs assumed as preconditions.
- `qvoronoi` and CGAL's straight-skeleton construction, and the parsing of their output: foreign programs, entering as oracle parameters.
- `densify_line` and `divide_points`: pure geometry over floats, entering as parameters; the worklist that uses `divide_points` is modelled with the split as an oracle.
- `_turn` and `_coord_winding`: the winding test is a parameter of `CgalSkeletron.Rewound`.
- Floating point: all arithmetic is exact over `real` or `int`; the C++ `>>` reading of a double (sign, digits, fraction, exponent) is modelled, and the lemmas about it are stated for integer text only.
- `%.7f` formatting of coordinates, UTF-8 encoding of CSV cells, logging and messages on stderr: text output only.
- The `Timer`/`interrupt_main` watchdog of `_graph_routes_main`: a clock; the loop the watchdog would interrupt is reported as the `Stuck` outcome.
- optparse itself: the scripts' options are modelled as already parsed values with the source's defaults and types.
- `short_street_name`, imported by `skeletron-osm-streets.py` from the separate `StreetNames` module, is not part of this model: it is a parameter of the streets script's `key_properties`.
- Motorways.RefPieces: strips ASCII whitespace only (space and characters 9 to 13), where Python 2's `unicode.strip` also removes other Unicode spaces such as U+00A0 and U+2003; a ref piece padded with those keeps them in the model.
- `InteriorSkeleton.lines`: it is a `linemerge` of `bisectors`, foreign code.
- DumpHoles.ReadRings: does not state that the hole rings are fresh objects, only their contents.
- PgDump.GetRelationWays: a relation with an empty member list (the source's `continue`) is modelled as scanning no members, which has the same effect.
- CgalSkeletron.MergeLines: states that every input point is covered only when the duplicate test means exact equality (`ExactDuplicates`), since Shapely's `equals` may hold for a line with extra vertices that are then lost.
- LineInput.ReadNumber: reads any digit string as an exact number, while libstdc++'s `>>` sets failbit when the value overflows a double (`1e999`, say), so the program reports such a line as a bad input line and skips it where the model reads a point.
- Skeleton.Endpoints: the IndexError of `[...][0]` on an empty list is modelled as `None`, which `GraphRoutesMain` reports as its own outcome.
- `skeletron-osm-keys-list.py` and `skeletron-osm-motorways.py` unpack the parser's result in ways that do not fit the current `ParserOSM.parse`: both are modelled from the parsed ways onward.

## Findings

| source | as written | input that shows it | evidently intended | confidence | as-written member | corrected member |
|---|---|---|---|---|---|---|
| Skeletron/input.py:145-153 | in `'largest'` mode the highway of a route is looked up under `(network, ref)`, but stored under `(network, ref, modifier)`, so the lookup never hits and the last way's highway wins | a route relation with a `motorway` way followed by a `primary` way, in `'largest'` mode: every way is keyed `primary` | each route is keyed by the highest-ranked highway among its ways (`motorway`) | high; not executed | RouteKeys.NetRefsAsWrittenLast | RouteKeys.NetRefsLargest |
| skeletron-pgdump-route-rels.py:68-69 | the traversal `break`s out of the whole loop when it meets an already-seen relation id, dropping every relation still queued | relation 1 lists relation 2 twice; relation 2 lists way 10 and relation 3; relation 3 lists way 30: the result is `{10}` | `continue`: skip the seen id and return the ways of every relation reachable from the start, `{10, 30}` | high; not executed | PgDump.BreakLosesRelations | PgDump.RelationWaysReachable |
| skeletron-osm-route-rels.py:33, 50 | the default width 15 is an `int`, which optparse does not convert, so `options.width / 2` is Python 2 floor division and gives 7 | running the script without `--width`: the buffer is 7 pixels where `--width 15` gives 7.5 | half the width, 7.5 pixels, as for a width given on the command line | medium; not executed | CliOptions.HalfWidthDefaultFloors | CliOptions.HalfWidth |
