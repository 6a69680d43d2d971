/** skeletron-pgdump-route-rels.py: route relations read from an osm2pgsql
    database, filtered, grouped and rebuilt as OSM element trees. The
    database is a value (`Db`); the queries become lookups in its maps. */
module PgDump {
  import opened Wrappers
  import opened Strings
  import opened Sorting
  import opened OsmKeys

  /** `(lon, lat)` of one way node. */
  type Coord = (real, real)

  /** The three tables the script reads: relation members, way tags, and the
      coordinates the node join returns for each way. */
  datatype Db = Db(rels: map<int, seq<string>>, wayTags: map<int, seq<string>>, wayCoords: map<int, seq<Coord>>)

  // ---------------------------------------------------------------------
  // Tag arrays and the relation list

  /** `zip(tags[0::2], tags[1::2])`: consecutive entries paired up, an
      unpaired last entry dropped. */
  function PairUp(a: seq<string>): (r: seq<(string, string)>)
    ensures |r| == |a| / 2
    ensures forall p :: 0 <= p < |r| ==> r[p] == (a[2 * p], a[2 * p + 1])
  {
    seq(|a| / 2, p requires 0 <= p < |a| / 2 => (a[2 * p], a[2 * p + 1]))
  }

  /** `dict(pairs)`: a later pair overrides an earlier one. */
  function DictOf(pairs: seq<(string, string)>): Tags {
    if |pairs| == 0 then map[]
    else
      var last := pairs[|pairs| - 1];
      DictOf(pairs[..|pairs| - 1])[last.0 := last.1]
  }

  /** A key is present iff some pair carries it, and it maps to the value of
      the last pair that does. */
  lemma {:induction false} DictOfPairs(pairs: seq<(string, string)>, k: string)
    ensures k in DictOf(pairs) <==> exists p :: 0 <= p < |pairs| && pairs[p].0 == k
    ensures forall p :: 0 <= p < |pairs| && pairs[p].0 == k &&
                        (forall p' :: p < p' < |pairs| ==> pairs[p'].0 != k) ==>
              DictOf(pairs)[k] == pairs[p].1
  {
    if |pairs| > 0 {
      var init := pairs[..|pairs| - 1];
      DictOfPairs(init, k);
      assert forall p :: 0 <= p < |init| ==> init[p] == pairs[p];
    }
  }

  /** `dict(zip(tags[0::2], tags[1::2]))`: a flat tag array read as a dict. */
  function TagsFromArray(a: seq<string>): Tags {
    DictOf(PairUp(a))
  }

  const BikeNetworks: set<string> := {"lcn", "rcn", "ncn", "icn", "mtb"}
  const WalkNetworks: set<string> := {"lwn", "rwn", "nwn", "iwn"}
  const RailRoutes: set<string> := {"bus", "tram", "train", "subway"}

  /** Bicycle and walking networks and rail or bus routes are skipped. */
  predicate Excluded(tags: Tags) {
    || Get(tags, "network").GetOr("") in BikeNetworks
    || Get(tags, "network").GetOr("") in WalkNetworks
    || Get(tags, "route").GetOr("") in RailRoutes
  }

  /** The query's `WHERE`: `network` and `ref` both occur in the tag array. */
  predicate Selected(tags: seq<string>) {
    "network" in tags && "ref" in tags
  }

  /** The relations `get_relations_list` returns for the table rows, in order. */
  function RelationsList(rows: seq<(int, seq<string>)>): seq<(int, Tags)> {
    if |rows| == 0 then []
    else
      var row := rows[|rows| - 1];
      var tags := TagsFromArray(row.1);
      RelationsList(rows[..|rows| - 1]) + (if Selected(row.1) && !Excluded(tags) then [(row.0, tags)] else [])
  }

  lemma {:induction false} RelationsListMembers(rows: seq<(int, seq<string>)>, rel: (int, Tags))
    ensures rel in RelationsList(rows) <==>
              exists i :: 0 <= i < |rows| && rows[i].0 == rel.0 && Selected(rows[i].1)
                       && TagsFromArray(rows[i].1) == rel.1 && !Excluded(rel.1)
  {
    if |rows| > 0 {
      var init := rows[..|rows| - 1];
      RelationsListMembers(init, rel);
      assert forall i :: 0 <= i < |init| ==> init[i] == rows[i];
    }
  }

  /** `get_relations_list`: the selected rows, their tag arrays decoded, the
      excluded networks and routes skipped, in query order. */
  method GetRelationsList(rows: seq<(int, seq<string>)>) returns (relations: seq<(int, Tags)>)
    ensures relations == RelationsList(rows)
    ensures forall rel :: rel in relations ==> !Excluded(rel.1)
  {
    relations := [];
    for i := 0 to |rows|
      invariant relations == RelationsList(rows[..i])
    {
      assert rows[..i + 1][..i] == rows[..i];
      var (id, tagArray) := rows[i];
      if !Selected(tagArray) {
        continue;
      }
      var tags := TagsFromArray(tagArray);
      if Get(tags, "network").GetOr("") in BikeNetworks {
        continue;
      }
      if Get(tags, "network").GetOr("") in WalkNetworks {
        continue;
      }
      if Get(tags, "route").GetOr("") in RailRoutes {
        continue;
      }
      relations := relations + [(id, tags)];
    }
    assert rows[..|rows|] == rows;
    forall rel | rel in relations ensures !Excluded(rel.1) {
      RelationsListMembers(rows, rel);
    }
  }

  // ---------------------------------------------------------------------
  // get_relation_ways

  /** What one entry of a member list names. */
  datatype MemberRef = RelRef(id: int) | WayRef(id: int) | OtherRef | Malformed(member: string)

  /** `r<id>` and `w<id>` entries; `int()` of a bad id raises ValueError. */
  function Decode(member: string): (r: MemberRef)
    ensures r.RelRef? <==> StartsWith(member, "r") && ParseInt(member[1..]).Some?
    ensures r.WayRef? <==> !StartsWith(member, "r") && StartsWith(member, "w") && ParseInt(member[1..]).Some?
    ensures r.OtherRef? <==> !StartsWith(member, "r") && !StartsWith(member, "w")
    ensures (r.RelRef? || r.WayRef?) ==> Some(r.id) == ParseInt(member[1..])
  {
    if StartsWith(member, "r") then
      match ParseInt(member[1..])
      case Some(id) => RelRef(id)
      case None => Malformed(member)
    else if StartsWith(member, "w") then
      match ParseInt(member[1..])
      case Some(id) => WayRef(id)
      case None => Malformed(member)
    else OtherRef
  }

  /** `members[0::2]`: the member ids, without their roles. */
  function EvenEntries(members: seq<string>): (r: seq<string>)
    ensures |r| == (|members| + 1) / 2
    ensures forall i :: 0 <= i < |r| ==> r[i] == members[2 * i]
  {
    seq((|members| + 1) / 2, i requires 0 <= i < (|members| + 1) / 2 => members[2 * i])
  }

  /** A relation's member list; a missing row reads as empty. */
  function Members(db: Db, id: int): seq<string> {
    if id in db.rels then db.rels[id] else []
  }

  /** Each entry decoded. */
  function DecodeAll(entries: seq<string>): (r: seq<MemberRef>)
    ensures |r| == |entries| && forall i :: 0 <= i < |entries| ==> r[i] == Decode(entries[i])
  {
    seq(|entries|, i requires 0 <= i < |entries| => Decode(entries[i]))
  }

  /** Decoded entries in order: the relation ids to enqueue and the way ids
      found, or the first malformed entry. */
  function Collect(refs: seq<MemberRef>): Result<(seq<int>, set<int>), string> {
    if |refs| == 0 then Ok(([], {}))
    else CollectNext(Collect(refs[..|refs| - 1]), refs[|refs| - 1])
  }

  /** One iteration of the loop over member ids. */
  function CollectNext(acc: Result<(seq<int>, set<int>), string>, ref: MemberRef): Result<(seq<int>, set<int>), string> {
    match acc
    case Err(e) => Err(e)
    case Ok(found) =>
      match ref
      case RelRef(id) => Ok((found.0 + [id], found.1))
      case WayRef(id) => Ok((found.0, found.1 + {id}))
      case OtherRef => Ok(found)
      case Malformed(m) => Err(m)
  }

  lemma CollectPrefix(refs: seq<MemberRef>, k: nat)
    requires k < |refs|
    ensures Collect(refs[..k + 1]) == CollectNext(Collect(refs[..k]), refs[k])
  {
    assert refs[..k + 1][..k] == refs[..k];
  }

  /** One relation's member ids read in order, as the loop over them does. */
  function Expand(entries: seq<string>): Result<(seq<int>, set<int>), string> {
    Collect(DecodeAll(entries))
  }

  /** Collecting fails exactly on a malformed entry. */
  lemma {:induction false} CollectOk(refs: seq<MemberRef>)
    ensures Collect(refs).Ok? <==> forall i :: 0 <= i < |refs| ==> !refs[i].Malformed?
  {
    if |refs| > 0 {
      var init := refs[..|refs| - 1];
      CollectOk(init);
      assert forall i :: 0 <= i < |init| ==> init[i] == refs[i];
    }
  }

  /** Collected ids are exactly the relation and way ids the entries name. */
  lemma {:induction false} CollectMembers(refs: seq<MemberRef>)
    ensures Collect(refs).Ok? ==>
              && (forall x :: x in Collect(refs).value.0 <==> RelRef(x) in refs)
              && (forall x :: x in Collect(refs).value.1 <==> WayRef(x) in refs)
  {
    if |refs| > 0 && Collect(refs).Ok? {
      var init := refs[..|refs| - 1];
      var last := refs[|refs| - 1];
      CollectMembers(init);
      assert refs == init + [last];
      var found := Collect(init).value;
      forall x ensures RelRef(x) in refs <==> RelRef(x) in init || last == RelRef(x) {
      }
      forall x ensures WayRef(x) in refs <==> WayRef(x) in init || last == WayRef(x) {
      }
      match last
      case RelRef(id) =>
        assert Collect(refs).value == (found.0 + [id], found.1);
      case WayRef(id) =>
        assert Collect(refs).value == (found.0, found.1 + {id});
      case OtherRef =>
        assert Collect(refs).value == found;
    }
  }

  lemma ExpandFacts(entries: seq<string>)
    ensures Expand(entries).Ok? <==> forall i :: 0 <= i < |entries| ==> !Decode(entries[i]).Malformed?
    ensures Expand(entries).Ok? ==>
              && (forall x :: x in Expand(entries).value.0 <==> exists e :: e in entries && Decode(e) == RelRef(x))
              && (forall x :: x in Expand(entries).value.1 <==> exists e :: e in entries && Decode(e) == WayRef(x))
  {
    var refs := DecodeAll(entries);
    CollectOk(refs);
    CollectMembers(refs);
    forall x ensures RelRef(x) in refs <==> exists e :: e in entries && Decode(e) == RelRef(x) {
      if RelRef(x) in refs {
        var i :| 0 <= i < |refs| && refs[i] == RelRef(x);
        assert entries[i] in entries;
      }
    }
    forall x ensures WayRef(x) in refs <==> exists e :: e in entries && Decode(e) == WayRef(x) {
      if WayRef(x) in refs {
        var i :| 0 <= i < |refs| && refs[i] == WayRef(x);
        assert entries[i] in entries;
      }
    }
  }

  /** Once a prefix fails, the whole list fails with the same entry. */
  lemma {:induction false} CollectErrExtends(refs: seq<MemberRef>, k: nat)
    requires k <= |refs| && Collect(refs[..k]).Err?
    ensures Collect(refs) == Collect(refs[..k])
    decreases |refs|
  {
    if k < |refs| {
      var init := refs[..|refs| - 1];
      assert init[..k] == refs[..k];
      CollectErrExtends(init, k);
    } else {
      assert refs[..k] == refs;
    }
  }

  /** Every relation id named by some member list. */
  ghost function Universe(db: Db): set<int> {
    set k, e | k in db.rels && e in EvenEntries(db.rels[k]) && Decode(e).RelRef? :: Decode(e).id
  }

  /** The relation ids a relation names. */
  ghost function Children(db: Db, id: int): set<int> {
    set e | e in EvenEntries(Members(db, id)) && Decode(e).RelRef? :: Decode(e).id
  }

  /** The way ids the relations of `s` name. */
  ghost function WaysOf(db: Db, s: set<int>): set<int> {
    set k, e | k in s && e in EvenEntries(Members(db, k)) && Decode(e).WayRef? :: Decode(e).id
  }

  /** No member list holds a malformed id. */
  ghost predicate WellFormed(db: Db) {
    forall k :: k in db.rels ==> forall e :: e in EvenEntries(db.rels[k]) ==> !Decode(e).Malformed?
  }

  /** Every relation named by a relation of `s` is in `s`. */
  ghost predicate Closed(db: Db, s: set<int>) {
    forall k :: k in s ==> Children(db, k) <= s
  }

  lemma ChildrenWithin(db: Db, id: int)
    ensures Children(db, id) <= Universe(db)
  {
    forall c | c in Children(db, id) ensures c in Universe(db) {
      var e :| e in EvenEntries(Members(db, id)) && Decode(e).RelRef? && Decode(e).id == c;
      assert id in db.rels;
    }
  }

  /** The relations a member list names lie within any bound on the universe. */
  lemma FoundWithin(db: Db, id: int, bound: set<int>)
    requires Universe(db) <= bound
    ensures Expand(EvenEntries(Members(db, id))).Ok? ==>
              forall q :: q in Expand(EvenEntries(Members(db, id))).value.0 ==> q in bound
  {
    ChildrenWithin(db, id);
    ExpandFacts(EvenEntries(Members(db, id)));
  }

  /** The traversal of `get_relation_ways`, from a queue, the ids seen and the
      ways found. An id dequeued a second time ends the traversal when
      `stopOnSeen` holds (the script's `break`) and is skipped otherwise. */
  ghost function Traverse(db: Db, queue: seq<int>, seen: set<int>, ways: set<int>, stopOnSeen: bool,
                          bound: set<int>): Result<set<int>, string>
    requires seen <= bound && (forall q :: q in queue ==> q in bound) && Universe(db) <= bound
    decreases |bound - seen|, |queue|
  {
    if |queue| == 0 then Ok(ways)
    else
      var id := queue[0];
      if id in seen then
        if stopOnSeen then Ok(ways) else Traverse(db, queue[1..], seen, ways, stopOnSeen, bound)
      else
        match Expand(EvenEntries(Members(db, id)))
        case Err(m) => Err(m)
        case Ok(found) =>
          FoundWithin(db, id, bound);
          assert bound - (seen + {id}) < bound - seen;
          Traverse(db, queue[1..] + found.0, seen + {id}, ways + found.1, stopOnSeen, bound)
  }

  /** One step of the traversal, as the loop body takes it. */
  lemma TraverseStep(db: Db, queue: seq<int>, seen: set<int>, ways: set<int>, stopOnSeen: bool, bound: set<int>)
    requires seen <= bound && (forall q :: q in queue ==> q in bound) && Universe(db) <= bound
    requires |queue| > 0
    ensures queue[0] in seen && stopOnSeen ==> Traverse(db, queue, seen, ways, stopOnSeen, bound) == Ok(ways)
    ensures queue[0] in seen && !stopOnSeen ==>
              Traverse(db, queue, seen, ways, stopOnSeen, bound) == Traverse(db, queue[1..], seen, ways, stopOnSeen, bound)
    ensures queue[0] !in seen && Expand(EvenEntries(Members(db, queue[0]))).Err? ==>
              Traverse(db, queue, seen, ways, stopOnSeen, bound) == Err(Expand(EvenEntries(Members(db, queue[0]))).error)
    ensures queue[0] !in seen && Expand(EvenEntries(Members(db, queue[0]))).Ok? ==>
              var found := Expand(EvenEntries(Members(db, queue[0]))).value;
              && (forall q :: q in found.0 ==> q in bound)
              && Traverse(db, queue, seen, ways, stopOnSeen, bound)
                   == Traverse(db, queue[1..] + found.0, seen + {queue[0]}, ways + found.1, stopOnSeen, bound)
  {
    FoundWithin(db, queue[0], bound);
  }

  /** The ways of `s + {id}` are those of `s` and those `id` names. */
  lemma WaysOfAdd(db: Db, s: set<int>, id: int, found: set<int>)
    requires forall x :: x in found <==> exists e :: e in EvenEntries(Members(db, id)) && Decode(e) == WayRef(x)
    ensures WaysOf(db, s + {id}) == WaysOf(db, s) + found
  {
    forall x | x in found ensures x in WaysOf(db, s + {id}) {
      var e :| e in EvenEntries(Members(db, id)) && Decode(e) == WayRef(x);
    }
  }

  /** A member list with no malformed id expands without error. */
  lemma ExpandWellFormed(db: Db, id: int)
    requires WellFormed(db)
    ensures Expand(EvenEntries(Members(db, id))).Ok?
  {
    ExpandFacts(EvenEntries(Members(db, id)));
  }

  /** Every relation id `k` names is seen or queued. */
  ghost predicate ChildrenListed(db: Db, k: int, seen: set<int>, queue: seq<int>) {
    forall c :: c in Children(db, k) ==> c in seen || c in queue
  }

  /** Every relation seen has all its children seen or queued. */
  ghost predicate Covered(db: Db, seen: set<int>, queue: seq<int>) {
    forall k :: k in seen ==> ChildrenListed(db, k, seen, queue)
  }

  /** The relations a traversal from `queue` ends having visited: every one
      of them is in each closed set holding `seen` and `queue`; without the
      `break` the whole queue is visited and, when every seen relation's
      children are seen or queued, the visited set is closed. */
  ghost predicate Reached(db: Db, queue: seq<int>, seen: set<int>, stopOnSeen: bool, visited: set<int>) {
    && seen <= visited
    && (forall s :: Closed(db, s) && seen <= s && (forall q :: q in queue ==> q in s) ==> visited <= s)
    && (!stopOnSeen ==> forall q :: q in queue ==> q in visited)
    && (!stopOnSeen && Covered(db, seen, queue) ==>
          Closed(db, visited))
  }

  /** The traversal from `queue` finds exactly the ways of the relations it
      visits, provided no member list is malformed. */
  lemma {:induction false} TraverseReach(db: Db, queue: seq<int>, seen: set<int>, ways: set<int>, stopOnSeen: bool,
                                         bound: set<int>) returns (visited: set<int>)
    requires seen <= bound && (forall q :: q in queue ==> q in bound) && Universe(db) <= bound
    requires WellFormed(db) && ways == WaysOf(db, seen)
    ensures Traverse(db, queue, seen, ways, stopOnSeen, bound) == Ok(WaysOf(db, visited))
    ensures Reached(db, queue, seen, stopOnSeen, visited)
    decreases |bound - seen|, |queue|, 1
  {
    if |queue| == 0 {
      visited := seen;
    } else {
      var id := queue[0];
      TraverseStep(db, queue, seen, ways, stopOnSeen, bound);
      if id !in seen {
        visited := TraverseReachNew(db, queue, seen, ways, stopOnSeen, bound);
      } else if stopOnSeen {
        visited := seen;
      } else {
        visited := TraverseReach(db, queue[1..], seen, ways, stopOnSeen, bound);
        assert forall q :: q in queue ==> q == id || q in queue[1..];
      }
    }
  }

  /** `TraverseReach` when the head of the queue is a relation not yet seen. */
  lemma {:induction false} TraverseReachNew(db: Db, queue: seq<int>, seen: set<int>, ways: set<int>, stopOnSeen: bool,
                                            bound: set<int>) returns (visited: set<int>)
    requires seen <= bound && (forall q :: q in queue ==> q in bound) && Universe(db) <= bound
    requires WellFormed(db) && ways == WaysOf(db, seen)
    requires |queue| > 0 && queue[0] !in seen
    ensures Traverse(db, queue, seen, ways, stopOnSeen, bound) == Ok(WaysOf(db, visited))
    ensures Reached(db, queue, seen, stopOnSeen, visited)
    decreases |bound - seen|, |queue|, 0
  {
    var id := queue[0];
    var entries := EvenEntries(Members(db, id));
    ExpandWellFormed(db, id);
    var found := Expand(entries).value;
    assert forall x :: x in found.1 <==> exists e :: e in entries && Decode(e) == WayRef(x) by {
      ExpandFacts(entries);
    }
    assert forall c :: c in Children(db, id) <==> c in found.0 by {
      ExpandFacts(entries);
    }
    var queue' := queue[1..] + found.0;
    assert Traverse(db, queue, seen, ways, stopOnSeen, bound)
           == Traverse(db, queue', seen + {id}, ways + found.1, stopOnSeen, bound) by {
      TraverseStep(db, queue, seen, ways, stopOnSeen, bound);
    }
    assert forall q :: q in queue' ==> q in bound by {
      ChildrenWithin(db, id);
      assert forall q :: q in queue' ==> q in queue[1..] || q in found.0;
    }
    WaysOfAdd(db, seen, id, found.1);
    assert bound - (seen + {id}) < bound - seen;
    visited := TraverseReach(db, queue', seen + {id}, ways + found.1, stopOnSeen, bound);
    ReachedStep(db, queue, seen, found.0, stopOnSeen, visited);
  }

  /** Visiting a new head of the queue and queueing its children keeps what
      `Reached` says. */
  lemma ReachedStep(db: Db, queue: seq<int>, seen: set<int>, found: seq<int>, stopOnSeen: bool, visited: set<int>)
    requires |queue| > 0 && (forall c :: c in Children(db, queue[0]) <==> c in found)
    requires Reached(db, queue[1..] + found, seen + {queue[0]}, stopOnSeen, visited)
    ensures Reached(db, queue, seen, stopOnSeen, visited)
  {
    StepMinimal(db, queue, seen, found, visited);
    if !stopOnSeen {
      StepQueue(queue, seen, found, visited);
      StepClosed(db, queue, seen, found, visited);
    }
  }

  /** A closed set holding what was seen and queued before a step holds what
      is seen and queued after it. */
  lemma StepMinimal(db: Db, queue: seq<int>, seen: set<int>, found: seq<int>, visited: set<int>)
    requires |queue| > 0 && (forall c :: c in Children(db, queue[0]) <==> c in found)
    requires forall s :: Closed(db, s) && seen + {queue[0]} <= s && (forall q :: q in queue[1..] + found ==> q in s) ==>
               visited <= s
    ensures forall s :: Closed(db, s) && seen <= s && (forall q :: q in queue ==> q in s) ==> visited <= s
  {
    var id := queue[0];
    forall s | Closed(db, s) && seen <= s && (forall q :: q in queue ==> q in s)
      ensures visited <= s
    {
      assert id in s;
      assert Children(db, id) <= s;
      forall q | q in queue[1..] + found
        ensures q in s
      {
        if q in queue[1..] {
          assert q in queue;
        } else {
          assert q in Children(db, id);
        }
      }
    }
  }

  lemma StepQueue(queue: seq<int>, seen: set<int>, found: seq<int>, visited: set<int>)
    requires |queue| > 0 && seen + {queue[0]} <= visited
    requires forall q :: q in queue[1..] + found ==> q in visited
    ensures forall q :: q in queue ==> q in visited
  {
    forall q | q in queue
      ensures q in visited
    {
      if q != queue[0] {
        assert q in queue[1..];
        assert q in queue[1..] + found;
      }
    }
  }

  /** If every child of a seen relation is seen or queued before the step, the
      same holds after it. */
  lemma StepClosed(db: Db, queue: seq<int>, seen: set<int>, found: seq<int>, visited: set<int>)
    requires |queue| > 0 && (forall c :: c in Children(db, queue[0]) <==> c in found)
    requires Covered(db, seen + {queue[0]}, queue[1..] + found) ==> Closed(db, visited)
    ensures Covered(db, seen, queue) ==> Closed(db, visited)
  {
    var id := queue[0];
    var queue' := queue[1..] + found;
    if Covered(db, seen, queue) {
      forall k | k in seen + {id}
        ensures ChildrenListed(db, k, seen + {id}, queue')
      {
        if k != id {
          assert ChildrenListed(db, k, seen, queue);
        }
        forall c | c in Children(db, k) ensures c in seen + {id} || c in queue' {
          if k == id {
            assert c in found;
          } else if c !in seen {
            assert c in queue;
            if c != id {
              assert c in queue[1..];
            }
          }
        }
      }
    }
  }

  /** The traversal `get_relation_ways` evidently intends: the ways of the
      least closed set of relations holding the start relation. */
  lemma RelationWaysReachable(db: Db, relId: int) returns (visited: set<int>)
    requires WellFormed(db)
    ensures Traverse(db, [relId], {}, {}, false, Universe(db) + {relId}) == Ok(WaysOf(db, visited))
    ensures relId in visited && Closed(db, visited)
    ensures forall s :: Closed(db, s) && relId in s ==> visited <= s
  {
    assert WaysOf(db, {}) == {};
    visited := TraverseReach(db, [relId], {}, {}, false, Universe(db) + {relId});
  }

  /** As written, with the `break`, every way found still belongs to the
      start relation's closure, but some may be missing. */
  lemma RelationWaysAsWrittenSound(db: Db, relId: int, s: set<int>)
    requires WellFormed(db) && Closed(db, s) && relId in s
    ensures Traverse(db, [relId], {}, {}, true, Universe(db) + {relId}).Ok?
    ensures Traverse(db, [relId], {}, {}, true, Universe(db) + {relId}).value <= WaysOf(db, s)
  {
    assert WaysOf(db, {}) == {};
    var visited := TraverseReach(db, [relId], {}, {}, true, Universe(db) + {relId});
    assert visited <= s;
  }

  /** `r<id>` as the id renders decodes to that relation. */
  lemma DecodeRelation(n: int)
    ensures Decode("r" + IntToString(n)) == RelRef(n)
  {
    var m := "r" + IntToString(n);
    ParseIntToString(n);
    assert m[1..] == IntToString(n);
    assert StartsWith(m, "r");
  }

  /** `w<id>` as the id renders decodes to that way. */
  lemma DecodeWay(n: int)
    ensures Decode("w" + IntToString(n)) == WayRef(n)
  {
    var m := "w" + IntToString(n);
    ParseIntToString(n);
    assert m[1..] == IntToString(n);
    assert StartsWith(m, "w") && !StartsWith(m, "r");
  }

  /** A member list naming `ids` in order, each with an empty role. */
  function WithRoles(ids: seq<string>): (r: seq<string>)
    ensures |r| == 2 * |ids|
  {
    if |ids| == 0 then [] else [ids[0], ""] + WithRoles(ids[1..])
  }

  /** `members[0::2]` of such a list gives back the ids. */
  lemma {:induction false} EvenEntriesWithRoles(ids: seq<string>)
    ensures EvenEntries(WithRoles(ids)) == ids
  {
    if |ids| > 0 {
      var rest := WithRoles(ids[1..]);
      EvenEntriesWithRoles(ids[1..]);
      var all := WithRoles(ids);
      assert all == [ids[0], ""] + rest;
      forall i | 1 <= i < |ids| ensures EvenEntries(all)[i] == ids[i] {
        assert all[2 * i] == rest[2 * (i - 1)];
        assert EvenEntries(rest)[i - 1] == ids[1..][i - 1];
      }
    }
  }

  /** Visiting a relation not yet seen queues its children and adds its ways. */
  lemma TraverseVisit(db: Db, queue: seq<int>, seen: set<int>, ways: set<int>, stopOnSeen: bool, bound: set<int>,
                      found: (seq<int>, set<int>))
    requires seen <= bound && (forall q :: q in queue ==> q in bound) && Universe(db) <= bound
    requires |queue| > 0 && queue[0] !in seen && Expand(EvenEntries(Members(db, queue[0]))) == Ok(found)
    ensures forall q :: q in queue[1..] + found.0 ==> q in bound
    ensures Traverse(db, queue, seen, ways, stopOnSeen, bound)
            == Traverse(db, queue[1..] + found.0, seen + {queue[0]}, ways + found.1, stopOnSeen, bound)
  {
    TraverseStep(db, queue, seen, ways, stopOnSeen, bound);
  }

  /** The traversals from `x` when `x` names `y` twice, `y` names way `u`
      and relation `z`, and `z` names way `v`. */
  lemma TraceRepeatedChild(db: Db, x: int, y: int, z: int, u: int, v: int, stopOnSeen: bool, bound: set<int>)
    requires x != y && y != z && x != z
    requires Universe(db) <= bound && x in bound && y in bound && z in bound
    requires Expand(EvenEntries(Members(db, x))) == Ok(([y, y], {}))
    requires Expand(EvenEntries(Members(db, y))) == Ok(([z], {u}))
    requires Expand(EvenEntries(Members(db, z))) == Ok(([], {v}))
    ensures Traverse(db, [x], {}, {}, stopOnSeen, bound) == if stopOnSeen then Ok({u}) else Ok({u, v})
  {
    assert Traverse(db, [x], {}, {}, stopOnSeen, bound) == Traverse(db, [y, y], {x}, {}, stopOnSeen, bound) by {
      TraverseVisit(db, [x], {}, {}, stopOnSeen, bound, ([y, y], {}));
      var none: set<int> := {};
      assert [x][1..] + [y, y] == [y, y] && none + {x} == {x} && none + none == none;
    }
    assert Traverse(db, [y, y], {x}, {}, stopOnSeen, bound) == Traverse(db, [y, z], {x, y}, {u}, stopOnSeen, bound) by {
      TraverseVisit(db, [y, y], {x}, {}, stopOnSeen, bound, ([z], {u}));
      var none: set<int> := {};
      assert [y, y][1..] + [z] == [y, z] && {x} + {y} == {x, y} && none + {u} == {u};
    }
    if stopOnSeen {
      assert Traverse(db, [y, z], {x, y}, {u}, stopOnSeen, bound) == Ok({u}) by {
        TraverseStep(db, [y, z], {x, y}, {u}, stopOnSeen, bound);
      }
    } else {
      assert Traverse(db, [y, z], {x, y}, {u}, stopOnSeen, bound) == Traverse(db, [z], {x, y}, {u}, stopOnSeen, bound) by {
        TraverseStep(db, [y, z], {x, y}, {u}, stopOnSeen, bound);
        assert [y, z][1..] == [z];
      }
      assert Traverse(db, [z], {x, y}, {u}, stopOnSeen, bound) == Traverse(db, [], {x, y, z}, {u, v}, stopOnSeen, bound) by {
        TraverseVisit(db, [z], {x, y}, {u}, stopOnSeen, bound, ([], {v}));
        assert [z][1..] + [] == [] && {x, y} + {z} == {x, y, z} && {u} + {v} == {u, v};
      }
    }
  }

  lemma DecodeAllPair(a: string, b: string)
    ensures DecodeAll([a, b]) == [Decode(a), Decode(b)]
  {
  }

  lemma DecodeAllOne(a: string)
    ensures DecodeAll([a]) == [Decode(a)]
  {
  }

  /** A relation named by any relation of the dump is in its universe. */
  lemma InUniverse(db: Db, k: int, e: string)
    requires k in db.rels && e in EvenEntries(db.rels[k]) && Decode(e).RelRef?
    ensures Decode(e).id in Universe(db)
  {
  }

  /** What the member lists of the example below collect to. */
  lemma CollectExample(y: int, z: int, u: int, v: int)
    ensures Collect([RelRef(y), RelRef(y)]) == Ok(([y, y], {}))
    ensures Collect([WayRef(u), RelRef(z)]) == Ok(([z], {u}))
    ensures Collect([WayRef(v)]) == Ok(([], {v}))
  {
    var none: set<int> := {};
    var a := [RelRef(y)];
    assert a[..0] == [];
    assert Collect(a) == Ok(([y], none)) by {
      assert [] + [y] == [y];
    }
    var b := [RelRef(y), RelRef(y)];
    assert b[..1] == a;
    assert Collect(b) == Ok(([y] + [y], none));
    assert [y] + [y] == [y, y];
    var c := [WayRef(u)];
    assert c[..0] == [];
    assert Collect(c) == Ok(([], {u})) by {
      assert none + {u} == {u};
    }
    var e := [WayRef(u), RelRef(z)];
    assert e[..1] == c;
    assert Collect(e) == Ok(([] + [z], {u}));
    assert [] + [z] == [z];
    var f := [WayRef(v)];
    assert f[..0] == [];
    assert none + {v} == {v};
  }

  /** Relation `x` lists relation `y` twice; `y` lists way `u` and relation
      `z`, which lists way `v`. The second visit to `y` ends the traversal as
      written before `z` is read, so way `v` is lost; skipping the repeated id
      instead finds both ways. */
  lemma BreakLosesRelations(x: int, y: int, z: int, u: int, v: int)
    requires x != y && y != z && x != z && u != v
    ensures var db := Db(map[x := WithRoles(["r" + IntToString(y), "r" + IntToString(y)]),
                             y := WithRoles(["w" + IntToString(u), "r" + IntToString(z)]),
                             z := WithRoles(["w" + IntToString(v)])], map[], map[]);
            && Traverse(db, [x], {}, {}, true, Universe(db) + {x}) == Ok({u})
            && Traverse(db, [x], {}, {}, false, Universe(db) + {x}) == Ok({u, v})
  {
    var ry, rz := "r" + IntToString(y), "r" + IntToString(z);
    var wu, wv := "w" + IntToString(u), "w" + IntToString(v);
    var e1, e2, e3 := [ry, ry], [wu, rz], [wv];
    var mx, my, mz := WithRoles(e1), WithRoles(e2), WithRoles(e3);
    var db := Db(map[x := mx, y := my, z := mz], map[], map[]);
    var none: set<int> := {};
    CollectExample(y, z, u, v);
    assert Expand(EvenEntries(Members(db, x))) == Ok(([y, y], none)) by {
      assert Members(db, x) == mx;
      EvenEntriesWithRoles(e1);
      DecodeRelation(y);
      DecodeAllPair(ry, ry);
    }
    assert Expand(EvenEntries(Members(db, y))) == Ok(([z], {u})) by {
      assert Members(db, y) == my;
      EvenEntriesWithRoles(e2);
      DecodeWay(u);
      DecodeRelation(z);
      DecodeAllPair(wu, rz);
    }
    assert Expand(EvenEntries(Members(db, z))) == Ok(([], {v})) by {
      assert Members(db, z) == mz;
      EvenEntriesWithRoles(e3);
      DecodeWay(v);
      DecodeAllOne(wv);
    }
    assert y in Universe(db) && z in Universe(db) by {
      EvenEntriesWithRoles(e1);
      EvenEntriesWithRoles(e2);
      DecodeRelation(y);
      DecodeRelation(z);
      assert ry == e1[0] && rz == e2[1];
      InUniverse(db, x, ry);
      InUniverse(db, y, rz);
    }
    TraceRepeatedChild(db, x, y, z, u, v, true, Universe(db) + {x});
    TraceRepeatedChild(db, x, y, z, u, v, false, Universe(db) + {x});
  }

  /** The `for member in members[0::2]` loop: relation ids in order, way ids
      as a set; the first malformed id raises. */
  method ScanMembers(entries: seq<string>) returns (r: Result<(seq<int>, set<int>), string>)
    ensures r == Expand(entries)
  {
    var relIds: seq<int> := [];
    var wayIds: set<int> := {};
    for k := 0 to |entries|
      invariant Collect(DecodeAll(entries)[..k]) == Ok((relIds, wayIds))
    {
      ghost var refs := DecodeAll(entries);
      CollectPrefix(refs, k);
      var member := entries[k];
      assert refs[k] == Decode(member);
      if StartsWith(member, "r") {
        var parsed := ParseInt(member[1..]);
        if parsed.None? {
          CollectErrExtends(refs, k + 1);
          return Err(member);
        }
        relIds := relIds + [parsed.value];
      } else if StartsWith(member, "w") {
        var parsed := ParseInt(member[1..]);
        if parsed.None? {
          CollectErrExtends(refs, k + 1);
          return Err(member);
        }
        wayIds := wayIds + {parsed.value};
      }
    }
    assert DecodeAll(entries)[..|entries|] == DecodeAll(entries);
    return Ok((relIds, wayIds));
  }

  lemma SeenShrinks(bound: set<int>, seen: set<int>, id: int)
    requires id in bound && id !in seen
    ensures |bound - (seen + {id})| < |bound - seen|
  {
    var d := bound - seen;
    assert bound - (seen + {id}) == d - {id};
    assert d == (d - {id}) + {id};
  }

  /** `get_relation_ways(db, relId)`; `stopOnSeen` chooses between the
      script's `break` and the `continue` it evidently means. */
  method GetRelationWays(db: Db, relId: int, stopOnSeen: bool) returns (r: Result<set<int>, string>)
    ensures r == Traverse(db, [relId], {}, {}, stopOnSeen, Universe(db) + {relId})
  {
    ghost var bound := Universe(db) + {relId};
    var relIds := [relId];
    var relsSeen: set<int> := {};
    var wayIds: set<int> := {};
    while |relIds| > 0
      invariant relsSeen <= bound && forall q :: q in relIds ==> q in bound
      invariant Traverse(db, relIds, relsSeen, wayIds, stopOnSeen, bound)
                  == Traverse(db, [relId], {}, {}, stopOnSeen, bound)
      decreases |bound - relsSeen|, |relIds|
    {
      var id := relIds[0];
      TraverseStep(db, relIds, relsSeen, wayIds, stopOnSeen, bound);
      relIds := relIds[1..];
      if id in relsSeen {
        if stopOnSeen {
          return Ok(wayIds);
        }
        continue;
      }
      SeenShrinks(bound, relsSeen, id);
      relsSeen := relsSeen + {id};
      var members := if id in db.rels then db.rels[id] else [];
      // `if not members: continue` -- an empty list scans to nothing
      var scanned: Result<(seq<int>, set<int>), string> := Ok(([], {}));
      if |members| > 0 {
        scanned := ScanMembers(EvenEntries(members));
      } else {
        assert EvenEntries(members) == [] && DecodeAll([]) == [];
      }
      assert members == Members(db, id) && scanned == Expand(EvenEntries(Members(db, id)));
      if scanned.Err? {
        return Err(scanned.error);
      }
      relIds := relIds + scanned.value.0;
      wayIds := wayIds + scanned.value.1;
    }
    return Ok(wayIds);
  }
}
