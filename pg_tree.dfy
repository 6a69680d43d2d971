// make_group_tree of skeletron-pgdump-route-rels.py: one group of relations
// written back out as an OSM document with fresh negative ids.

module PgTree {
  import opened Wrappers
  import opened Strings
  import opened OsmKeys
  import opened PgDump
  import opened PgGroups

  /** A child of the `osm` root. `num` is the counter value `k` behind the
      element's `id` attribute `str(-k)` (see `Id`); a way's `nd` children and
      a relation's `member` children are the counter values of the ids they
      name. Every element also carries `version='1'` and the zero timestamp,
      and the `tag` children are the element's tag map. Coordinates stay
      exact reals (the `%.7f` rendering is left out). */
  datatype Element =
    | Node(num: int, lat: real, lon: real)
    | Way(num: int, tags: Tags, nds: seq<int>)
    | Relation(num: int, tags: Tags, members: seq<int>)

  /** The `n`-th value of `ids = (str(-id) for id in count(1))`. */
  function Id(n: int): string {
    IntToString(-n)
  }

  /** The element's `id` attribute. */
  function IdAttr(e: Element): string {
    Id(e.num)
  }

  /** `if not line: continue` — a missing or empty line writes nothing. */
  predicate Drawn(line: Option<seq<Coord>>) {
    line.Some? && |line.value| > 0
  }

  /** How many ids one line takes: its way and one node per coordinate. */
  function LineIds(line: Option<seq<Coord>>): nat {
    if Drawn(line) then 1 + |line.value| else 0
  }

  function LinesIds(lines: seq<Option<seq<Coord>>>): nat {
    if |lines| == 0 then 0 else LinesIds(lines[..|lines| - 1]) + LineIds(lines[|lines| - 1])
  }

  /** `zip(way_tags, way_lines)` stops at the shorter list. */
  function Pairs(e: GroupEntry): nat {
    if |e.wayTags| < |e.wayLines| then |e.wayTags| else |e.wayLines|
  }

  /** How many ids one relation takes: its own and those of its lines. */
  function EntryIds(e: GroupEntry): nat {
    1 + LinesIds(e.wayLines[..Pairs(e)])
  }

  function GroupIds(group: seq<GroupEntry>): nat {
    if |group| == 0 then 0 else GroupIds(group[..|group| - 1]) + EntryIds(group[|group| - 1])
  }

  /** The nodes of a line whose first node takes id number `n`; `coord[0]`
      is the longitude and `coord[1]` the latitude. */
  function NodesFrom(coords: seq<Coord>, n: int): (r: seq<Element>)
    ensures |r| == |coords|
  {
    seq(|coords|, t requires 0 <= t < |coords| => Node(n + t, coords[t].1, coords[t].0))
  }

  /** The ids `n`, ..., `n + count - 1`. */
  function IdsFrom(n: int, count: nat): (r: seq<int>)
    ensures |r| == count
  {
    seq(count, t requires 0 <= t < count => n + t)
  }

  /** One drawn line whose way takes id number `n`: its nodes, then the way. */
  function WayPart(tags: Tags, coords: seq<Coord>, n: int): seq<Element> {
    NodesFrom(coords, n + 1) + [Way(n, tags, IdsFrom(n + 1, |coords|))]
  }

  /** The elements written for the lines of one relation, the first taking id
      number `n`, and the ids of the ways, which become the relation's members. */
  function WaysPart(wayTags: seq<Tags>, lines: seq<Option<seq<Coord>>>, n: int): (seq<Element>, seq<int>)
    requires |wayTags| == |lines|
  {
    if |lines| == 0 then ([], [])
    else
      var k := |lines| - 1;
      var prev := WaysPart(wayTags[..k], lines[..k], n);
      var m := n + LinesIds(lines[..k]);
      if Drawn(lines[k]) then (prev.0 + WayPart(wayTags[k], lines[k].value, m), prev.1 + [m])
      else prev
  }

  /** The elements written for one relation whose id number is `n`: its
      ways, each after its nodes, and then the relation. */
  function EntryPart(e: GroupEntry, n: int): seq<Element> {
    var p := Pairs(e);
    var ways := WaysPart(e.wayTags[..p], e.wayLines[..p], n + 1);
    ways.0 + [Relation(n, e.tags, ways.1)]
  }

  /** The children of the `osm` root for a group, the first id number being `n`. */
  function Tree(group: seq<GroupEntry>, n: int): seq<Element> {
    if |group| == 0 then []
    else
      var k := |group| - 1;
      Tree(group[..k], n) + EntryPart(group[k], n + GroupIds(group[..k]))
  }

  lemma Regroup<T>(a: seq<T>, b: seq<T>, c: seq<T>, d: seq<T>)
    ensures ((a + b) + c) + d == a + (b + (c + d))
  {
  }

  lemma WaysPartSnoc(wayTags: seq<Tags>, lines: seq<Option<seq<Coord>>>, j: nat, n: int)
    requires |wayTags| == |lines| && j < |lines|
    ensures var prev := WaysPart(wayTags[..j], lines[..j], n);
            var m := n + LinesIds(lines[..j]);
            WaysPart(wayTags[..j + 1], lines[..j + 1], n)
              == if Drawn(lines[j]) then (prev.0 + WayPart(wayTags[j], lines[j].value, m), prev.1 + [m]) else prev
    ensures LinesIds(lines[..j + 1]) == LinesIds(lines[..j]) + LineIds(lines[j])
  {
    assert wayTags[..j + 1][..j] == wayTags[..j] && lines[..j + 1][..j] == lines[..j];
  }

  lemma TreeSnoc(group: seq<GroupEntry>, k: nat, n: int)
    requires k < |group|
    ensures Tree(group[..k + 1], n) == Tree(group[..k], n) + EntryPart(group[k], n + GroupIds(group[..k]))
    ensures GroupIds(group[..k + 1]) == GroupIds(group[..k]) + EntryIds(group[k])
  {
    assert group[..k + 1][..k] == group[..k];
  }

  // ---------------------------------------------------------------------
  // Ids: every element gets a different one, all from the counter

  /** Every id comes from the counter values `lo <= k < hi`. */
  predicate IdsWithin(els: seq<Element>, lo: int, hi: int) {
    forall i :: 0 <= i < |els| ==> lo <= els[i].num < hi
  }

  predicate DistinctIds(els: seq<Element>) {
    forall i, j :: 0 <= i < j < |els| ==> els[i].num != els[j].num
  }

  lemma AppendIds(a: seq<Element>, b: seq<Element>, lo: int, mid: int, hi: int)
    requires lo <= mid <= hi
    requires IdsWithin(a, lo, mid) && IdsWithin(b, mid, hi) && DistinctIds(a) && DistinctIds(b)
    ensures IdsWithin(a + b, lo, hi) && DistinctIds(a + b)
  {
    var c := a + b;
    forall i | 0 <= i < |c|
      ensures lo <= c[i].num < hi
    {
      if i < |a| {
        assert c[i] == a[i];
      } else {
        assert c[i] == b[i - |a|];
      }
    }
    forall i, j | 0 <= i < j < |c|
      ensures c[i].num != c[j].num
    {
      if i < |a| && j >= |a| {
        assert c[i] == a[i] && c[j] == b[j - |a|];
      } else if i >= |a| {
        assert c[i] == b[i - |a|] && c[j] == b[j - |a|];
      } else {
        assert c[i] == a[i] && c[j] == a[j];
      }
    }
  }

  lemma WayPartIds(tags: Tags, coords: seq<Coord>, n: int)
    ensures IdsWithin(WayPart(tags, coords, n), n, n + 1 + |coords|) && DistinctIds(WayPart(tags, coords, n))
  {
  }

  lemma {:induction false} WaysPartIds(wayTags: seq<Tags>, lines: seq<Option<seq<Coord>>>, n: int)
    requires |wayTags| == |lines|
    ensures var ws := WaysPart(wayTags, lines, n).0;
            |ws| == LinesIds(lines) && IdsWithin(ws, n, n + LinesIds(lines)) && DistinctIds(ws)
  {
    if |lines| > 0 {
      var k := |lines| - 1;
      WaysPartIds(wayTags[..k], lines[..k], n);
      if Drawn(lines[k]) {
        var m := n + LinesIds(lines[..k]);
        WayPartIds(wayTags[k], lines[k].value, m);
        AppendIds(WaysPart(wayTags[..k], lines[..k], n).0, WayPart(wayTags[k], lines[k].value, m),
                  n, m, m + 1 + |lines[k].value|);
      }
    }
  }

  lemma EntryPartIds(e: GroupEntry, n: int)
    ensures |EntryPart(e, n)| == EntryIds(e)
    ensures IdsWithin(EntryPart(e, n), n, n + EntryIds(e)) && DistinctIds(EntryPart(e, n))
  {
    var p := Pairs(e);
    var ws := WaysPart(e.wayTags[..p], e.wayLines[..p], n + 1).0;
    WaysPartIds(e.wayTags[..p], e.wayLines[..p], n + 1);
    var c := EntryPart(e, n);
    assert c[|ws|].num == n;
    forall i | 0 <= i < |ws|
      ensures c[i] == ws[i]
    {
    }
  }

  lemma {:induction false} TreeIds(group: seq<GroupEntry>, n: int)
    ensures |Tree(group, n)| == GroupIds(group)
    ensures IdsWithin(Tree(group, n), n, n + GroupIds(group)) && DistinctIds(Tree(group, n))
  {
    if |group| > 0 {
      var k := |group| - 1;
      TreeIds(group[..k], n);
      var m := n + GroupIds(group[..k]);
      EntryPartIds(group[k], m);
      AppendIds(Tree(group[..k], n), EntryPart(group[k], m), n, m, m + EntryIds(group[k]));
    }
  }

  /** `make_group_tree` numbers its elements "-1", "-2", ... without gaps or
      repeats: the `id` attributes are distinct and each is `str(-k)` for
      some `1 <= k <= len`, so together they are exactly "-1" to "-len". */
  lemma TreeIdsDistinct(group: seq<GroupEntry>)
    ensures var t := Tree(group, 1);
            && (forall i, j :: 0 <= i < j < |t| ==> IdAttr(t[i]) != IdAttr(t[j]))
            && (forall i :: 0 <= i < |t| ==> 1 <= t[i].num <= |t|)
  {
    TreeIds(group, 1);
    var t := Tree(group, 1);
    forall i, j | 0 <= i < j < |t|
      ensures IdAttr(t[i]) != IdAttr(t[j])
    {
      if IdAttr(t[i]) == IdAttr(t[j]) {
        IntToStringInjective(-t[i].num, -t[j].num);
      }
    }
  }

  // ---------------------------------------------------------------------
  // References: every `nd` and `member` names an element written before it

  /** Some element before position `i` has counter value `r` and is a node
      (`node`) or a way (`!node`). */
  ghost predicate Earlier(els: seq<Element>, i: int, r: int, node: bool) {
    exists j :: 0 <= j < i && j < |els| && els[j].num == r && (if node then els[j].Node? else els[j].Way?)
  }

  /** The element at `i` refers back only: a way to earlier nodes, a
      relation to earlier ways. */
  ghost predicate RefsOk(els: seq<Element>, i: int)
    requires 0 <= i < |els|
  {
    && (els[i].Way? ==> forall r :: r in els[i].nds ==> Earlier(els, i, r, true))
    && (els[i].Relation? ==> forall r :: r in els[i].members ==> Earlier(els, i, r, false))
  }

  ghost predicate RefsBack(els: seq<Element>) {
    forall i :: 0 <= i < |els| ==> RefsOk(els, i)
  }

  lemma EarlierAppend(a: seq<Element>, b: seq<Element>, i: int, k: int, r: int, node: bool)
    requires Earlier(a, i, r, node) && i <= k
    ensures Earlier(a + b, k, r, node)
  {
    var j :| 0 <= j < i && j < |a| && a[j].num == r && (if node then a[j].Node? else a[j].Way?);
    assert (a + b)[j] == a[j];
  }

  lemma EarlierShift(a: seq<Element>, b: seq<Element>, i: int, r: int, node: bool)
    requires Earlier(b, i, r, node)
    ensures Earlier(a + b, |a| + i, r, node)
  {
    var j :| 0 <= j < i && j < |b| && b[j].num == r && (if node then b[j].Node? else b[j].Way?);
    assert (a + b)[|a| + j] == b[j];
  }

  lemma RefsAppend(a: seq<Element>, b: seq<Element>)
    requires RefsBack(a) && RefsBack(b)
    ensures RefsBack(a + b)
  {
    var c := a + b;
    forall i | 0 <= i < |c|
      ensures RefsOk(c, i)
    {
      if i < |a| {
        assert c[i] == a[i] && RefsOk(a, i);
        forall r | c[i].Way? && r in c[i].nds
          ensures Earlier(c, i, r, true)
        {
          EarlierAppend(a, b, i, i, r, true);
        }
        forall r | c[i].Relation? && r in c[i].members
          ensures Earlier(c, i, r, false)
        {
          EarlierAppend(a, b, i, i, r, false);
        }
      } else {
        var i' := i - |a|;
        assert c[i] == b[i'] && RefsOk(b, i');
        forall r | c[i].Way? && r in c[i].nds
          ensures Earlier(c, i, r, true)
        {
          EarlierShift(a, b, i', r, true);
        }
        forall r | c[i].Relation? && r in c[i].members
          ensures Earlier(c, i, r, false)
        {
          EarlierShift(a, b, i', r, false);
        }
      }
    }
  }

  /** A way's nodes are written just before it. */
  lemma WayPartRefs(tags: Tags, coords: seq<Coord>, n: int)
    ensures RefsBack(WayPart(tags, coords, n))
  {
    var c := WayPart(tags, coords, n);
    var w := |coords|;
    forall r | r in c[w].nds
      ensures Earlier(c, w, r, true)
    {
      var t :| 0 <= t < w && c[w].nds[t] == r;
      assert c[t].num == r && c[t].Node?;
    }
    assert RefsOk(c, w);
  }

  /** The elements for the lines refer back, and the members name ways
      among them. */
  lemma {:induction false} WaysPartRefs(wayTags: seq<Tags>, lines: seq<Option<seq<Coord>>>, n: int)
    requires |wayTags| == |lines|
    ensures var ws := WaysPart(wayTags, lines, n);
            RefsBack(ws.0) && forall r :: r in ws.1 ==> Earlier(ws.0, |ws.0|, r, false)
  {
    if |lines| > 0 {
      var k := |lines| - 1;
      WaysPartRefs(wayTags[..k], lines[..k], n);
      if Drawn(lines[k]) {
        var prev := WaysPart(wayTags[..k], lines[..k], n);
        var m := n + LinesIds(lines[..k]);
        var part := WayPart(wayTags[k], lines[k].value, m);
        WayPartRefs(wayTags[k], lines[k].value, m);
        RefsAppend(prev.0, part);
        var c := prev.0 + part;
        forall r | r in prev.1 + [m]
          ensures Earlier(c, |c|, r, false)
        {
          if r in prev.1 {
            EarlierAppend(prev.0, part, |prev.0|, |c|, r, false);
          } else {
            assert c[|c| - 1] == Way(m, wayTags[k], IdsFrom(m + 1, |lines[k].value|));
          }
        }
      }
    }
  }

  lemma EntryPartRefs(e: GroupEntry, n: int)
    ensures RefsBack(EntryPart(e, n))
  {
    var p := Pairs(e);
    var ws := WaysPart(e.wayTags[..p], e.wayLines[..p], n + 1);
    WaysPartRefs(e.wayTags[..p], e.wayLines[..p], n + 1);
    var rel := [Relation(n, e.tags, ws.1)];
    var c := ws.0 + rel;
    forall i | 0 <= i < |c|
      ensures RefsOk(c, i)
    {
      if i < |ws.0| {
        assert c[i] == ws.0[i] && RefsOk(ws.0, i);
        forall r | c[i].Way? && r in c[i].nds
          ensures Earlier(c, i, r, true)
        {
          EarlierAppend(ws.0, rel, i, i, r, true);
        }
        forall r | c[i].Relation? && r in c[i].members
          ensures Earlier(c, i, r, false)
        {
          EarlierAppend(ws.0, rel, i, i, r, false);
        }
      } else {
        assert c[i] == rel[0];
        forall r | r in ws.1
          ensures Earlier(c, i, r, false)
        {
          EarlierAppend(ws.0, rel, |ws.0|, i, r, false);
        }
      }
    }
  }

  /** In the written document every `nd` names a node and every `member` a
      way that comes before it, so a reader meets each element before any
      reference to it. */
  lemma {:induction false} TreeRefs(group: seq<GroupEntry>, n: int)
    ensures RefsBack(Tree(group, n))
  {
    if |group| > 0 {
      var k := |group| - 1;
      TreeRefs(group[..k], n);
      EntryPartRefs(group[k], n + GroupIds(group[..k]));
      RefsAppend(Tree(group[..k], n), EntryPart(group[k], n + GroupIds(group[..k])));
    }
  }

  // ---------------------------------------------------------------------
  // Relations: one per group entry, in order, a member per drawn line

  /** The relation elements, in document order. */
  function Relations(els: seq<Element>): seq<Element> {
    if |els| == 0 then []
    else Relations(els[..|els| - 1]) + (if els[|els| - 1].Relation? then [els[|els| - 1]] else [])
  }

  lemma {:induction false} RelationsAppend(a: seq<Element>, b: seq<Element>)
    ensures Relations(a + b) == Relations(a) + Relations(b)
  {
    if |b| > 0 {
      var k := |b| - 1;
      RelationsAppend(a, b[..k]);
      var last := if b[k].Relation? then [b[k]] else [];
      assert (a + b)[..|a + b| - 1] == a + b[..k];
      assert (a + b)[|a + b| - 1] == b[k];
      assert Relations(a + b) == Relations(a + b[..k]) + last;
      assert Relations(b) == Relations(b[..k]) + last;
    } else {
      assert a + b == a;
    }
  }

  /** The drawn lines among those paired with tags. */
  function DrawnCount(lines: seq<Option<seq<Coord>>>): nat {
    if |lines| == 0 then 0
    else DrawnCount(lines[..|lines| - 1]) + (if Drawn(lines[|lines| - 1]) then 1 else 0)
  }

  /** The lines write no relation and one member per drawn line. */
  lemma {:induction false} WaysPartShape(wayTags: seq<Tags>, lines: seq<Option<seq<Coord>>>, n: int)
    requires |wayTags| == |lines|
    ensures Relations(WaysPart(wayTags, lines, n).0) == []
    ensures |WaysPart(wayTags, lines, n).1| == DrawnCount(lines)
  {
    if |lines| > 0 {
      var k := |lines| - 1;
      WaysPartShape(wayTags[..k], lines[..k], n);
      if Drawn(lines[k]) {
        var prev := WaysPart(wayTags[..k], lines[..k], n).0;
        var part := WayPart(wayTags[k], lines[k].value, n + LinesIds(lines[..k]));
        RelationsAppend(prev, part);
        NoRelations(part);
      }
    }
  }

  lemma {:induction false} NoRelations(els: seq<Element>)
    requires forall i :: 0 <= i < |els| ==> !els[i].Relation?
    ensures Relations(els) == []
  {
    if |els| > 0 {
      NoRelations(els[..|els| - 1]);
    }
  }

  /** The relation written for entry `e`: its tags, and one member per line
      that is neither None nor empty. */
  predicate RelationFor(r: Element, e: GroupEntry) {
    r.Relation? && r.tags == e.tags && |r.members| == DrawnCount(e.wayLines[..Pairs(e)])
  }

  /** One entry writes exactly one relation. */
  lemma EntryRelations(e: GroupEntry, m: int)
    ensures var rels := Relations(EntryPart(e, m));
            |rels| == 1 && RelationFor(rels[0], e)
  {
    var p := Pairs(e);
    var ws := WaysPart(e.wayTags[..p], e.wayLines[..p], m + 1);
    WaysPartShape(e.wayTags[..p], e.wayLines[..p], m + 1);
    var rel := Relation(m, e.tags, ws.1);
    RelationsAppend(ws.0, [rel]);
    assert Relations([rel]) == Relations([]) + [rel];
  }

  /** `rels` are the relations written for `group`, one per entry, in order. */
  predicate RelationsFor(rels: seq<Element>, group: seq<GroupEntry>) {
    |rels| == |group| && forall k :: 0 <= k < |group| ==> RelationFor(rels[k], group[k])
  }

  /** Appending an entry's part to a tree appends the entry's relation. */
  lemma RelationsForSnoc(prev: seq<Element>, part: seq<Element>, init: seq<GroupEntry>, e: GroupEntry, group: seq<GroupEntry>)
    requires RelationsFor(Relations(prev), init)
    requires |Relations(part)| == 1 && RelationFor(Relations(part)[0], e)
    requires group == init + [e]
    ensures RelationsFor(Relations(prev + part), group)
  {
    RelationsAppend(prev, part);
  }

  /** `make_group_tree` writes one relation per entry of the group, in the
      group's order, with the entry's tags and one member per line that is
      neither None nor empty. */
  lemma {:induction false} TreeRelations(group: seq<GroupEntry>, n: int)
    ensures RelationsFor(Relations(Tree(group, n)), group)
  {
    if |group| > 0 {
      var k := |group| - 1;
      var init := group[..k];
      TreeRelations(init, n);
      var m := n + GroupIds(init);
      EntryRelations(group[k], m);
      assert init + [group[k]] == group;
      RelationsForSnoc(Tree(init, n), EntryPart(group[k], m), init, group[k], group);
    }
  }

  /** The nodes of one line, each appended to `osm` and named by an `nd` of
      the way, with ids from `next` on. */
  method AppendNodes(osm: seq<Element>, coords: seq<Coord>, next: int) returns (osm': seq<Element>, nds: seq<int>, next': int)
    ensures osm' == osm + NodesFrom(coords, next) && nds == IdsFrom(next, |coords|)
    ensures next' == next + |coords|
  {
    osm', nds, next' := osm, [], next;
    for t := 0 to |coords|
      invariant osm' == osm + NodesFrom(coords[..t], next) && nds == IdsFrom(next, t) && next' == next + t
    {
      var node := Node(next', coords[t].1, coords[t].0);
      assert NodesFrom(coords[..t + 1], next) == NodesFrom(coords[..t], next) + [node];
      osm' := osm' + [node];
      nds := nds + [node.num];
      next' := next' + 1;
    }
    assert coords[..|coords|] == coords;
  }

  /** The inner loop over `zip(way_tags, way_lines)`, the first way taking
      counter value `n`: it returns the members of the relation. */
  method AppendWays(osm: seq<Element>, wayTags: seq<Tags>, wayLines: seq<Option<seq<Coord>>>, n: int)
    returns (osm': seq<Element>, members: seq<int>, next': int)
    requires |wayTags| == |wayLines|
    ensures osm' == osm + WaysPart(wayTags, wayLines, n).0 && members == WaysPart(wayTags, wayLines, n).1
    ensures next' == n + LinesIds(wayLines)
  {
    osm', members, next' := osm, [], n;
    for j := 0 to |wayLines|
      invariant osm' == osm + WaysPart(wayTags[..j], wayLines[..j], n).0
      invariant members == WaysPart(wayTags[..j], wayLines[..j], n).1
      invariant next' == n + LinesIds(wayLines[..j])
    {
      WaysPartSnoc(wayTags, wayLines, j, n);
      var line := wayLines[j];
      if Drawn(line) {
        var wayNum := next';
        var nds;
        ghost var prev := WaysPart(wayTags[..j], wayLines[..j], n).0;
        osm', nds, next' := AppendNodes(osm', line.value, next' + 1);
        members := members + [wayNum];
        Regroup(osm, prev, NodesFrom(line.value, wayNum + 1), [Way(wayNum, wayTags[j], nds)]);
        osm' := osm' + [Way(wayNum, wayTags[j], nds)];
      }
    }
    assert wayTags[..|wayLines|] == wayTags && wayLines[..|wayLines|] == wayLines;
  }

  /** The body of the outer loop for one relation, whose id is taken first:
      its drawn lines, then the relation with a member per way. */
  method AppendEntry(osm: seq<Element>, e: GroupEntry, next: int) returns (osm': seq<Element>, next': int)
    ensures osm' == osm + EntryPart(e, next) && next' == next + EntryIds(e)
  {
    var relNum := next;
    var p := Pairs(e);
    var members;
    osm', members, next' := AppendWays(osm, e.wayTags[..p], e.wayLines[..p], next + 1);
    osm' := osm' + [Relation(relNum, e.tags, members)];
  }

  /** `make_group_tree`: the children of the `osm` root, ids drawn from one
      counter starting at 1. */
  method MakeGroupTree(group: seq<GroupEntry>) returns (osm: seq<Element>)
    ensures osm == Tree(group, 1)
  {
    osm := [];
    var next := 1;
    for k := 0 to |group|
      invariant osm == Tree(group[..k], 1) && next == 1 + GroupIds(group[..k])
    {
      osm, next := AppendEntry(osm, group[k], next);
      TreeSnoc(group, k, 1);
    }
    assert group[..|group|] == group;
  }
}
