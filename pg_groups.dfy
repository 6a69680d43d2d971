/** skeletron-pgdump-route-rels.py, lines 97-194: way tags and way lines read
    from the dump, the divide-and-conquer union, and the cutting of the sorted
    relations into groups of bounded size. */
module PgGroups {
  import opened Wrappers
  import opened Strings
  import opened Sorting
  import opened OsmKeys
  import opened PgDump

  // ---------------------------------------------------------------------
  // get_way_tags and get_way_linestring

  /** `k` occurs as a key of the flat tag array: at an even index, with a value after it. */
  predicate KeyAt(a: seq<string>, k: string) {
    exists i :: 0 <= i < |a| - 1 && i % 2 == 0 && a[i] == k
  }

  lemma TagsFromArrayKeys(a: seq<string>)
    ensures forall k :: k in TagsFromArray(a) <==> KeyAt(a, k)
  {
    var pairs := PairUp(a);
    forall k
      ensures k in TagsFromArray(a) <==> KeyAt(a, k)
    {
      DictOfPairs(pairs, k);
      if k in TagsFromArray(a) {
        var p :| 0 <= p < |pairs| && pairs[p].0 == k;
        assert a[2 * p] == k && (2 * p) % 2 == 0;
      }
      if KeyAt(a, k) {
        var i :| 0 <= i < |a| - 1 && i % 2 == 0 && a[i] == k;
        assert i == 2 * (i / 2);
        assert pairs[i / 2].0 == k;
      }
    }
  }

  /** `get_way_tags`: a missing way has no tags; otherwise its tag array read
      as a dict. */
  function WayTags(db: Db, w: int): (r: Tags)
    ensures w !in db.wayTags ==> r == map[]
    ensures w in db.wayTags ==> forall k :: k in r <==> KeyAt(db.wayTags[w], k)
  {
    if w in db.wayTags then
      TagsFromArrayKeys(db.wayTags[w]);
      TagsFromArray(db.wayTags[w])
    else map[]
  }

  /** The rows of the node join for way `w`; a missing way joins nothing. */
  function Coords(db: Db, w: int): seq<Coord> {
    if w in db.wayCoords then db.wayCoords[w] else []
  }

  /** `get_way_linestring`: the way's coordinates as a line, or None when
      fewer than two nodes are found. */
  function WayLinestring(db: Db, w: int): (r: Option<seq<Coord>>)
    ensures r.None? <==> |Coords(db, w)| < 2
    ensures r.Some? ==> r.value == Coords(db, w) && |r.value| >= 2
  {
    var coords := Coords(db, w);
    if |coords| < 2 then None else Some(coords)
  }

  // ---------------------------------------------------------------------
  // relation_key and the order of the relations

  type RelKey = (string, string, string)

  /** `relation_key`: network, ref and modifier, each defaulting to `''`. */
  function RelationKey(tags: Tags): (r: RelKey)
    ensures r.0 == Get(tags, "network").GetOr("")
    ensures r.1 == Get(tags, "ref").GetOr("")
    ensures r.2 == Get(tags, "modifier").GetOr("")
  {
    (Get(tags, "network").GetOr(""), Get(tags, "ref").GetOr(""), Get(tags, "modifier").GetOr(""))
  }

  /** A relation with a route key is ordered by that key's fields. */
  lemma RelationKeyOfRouteKey(tags: Tags)
    requires NetworkRefModifierKey(tags).Some?
    ensures var k := NetworkRefModifierKey(tags).value;
            RelationKey(tags) == (k.network, k.ref, k.modifier)
  {
  }

  predicate StrLt(a: string, b: string) {
    StrLe(a, b) && a != b
  }

  /** Python's `<` on tuples of three strings. */
  predicate KeyLt(a: RelKey, b: RelKey) {
    || StrLt(a.0, b.0)
    || (a.0 == b.0 && StrLt(a.1, b.1))
    || (a.0 == b.0 && a.1 == b.1 && StrLt(a.2, b.2))
  }

  /** `(key, (id, tags)) <= (key', (id', tags'))`, decided by key and id. */
  predicate EntryLe(x: (RelKey, (int, Tags)), y: (RelKey, (int, Tags))) {
    KeyLt(x.0, y.0) || (x.0 == y.0 && x.1.0 <= y.1.0)
  }

  lemma StrLtTransitive(a: string, b: string, c: string)
    requires StrLt(a, b) && StrLt(b, c)
    ensures StrLt(a, c)
  {
    StrLeTransitive(a, b, c);
    if a == c {
      StrLeAntisymmetric(a, b);
    }
  }

  lemma StrTrichotomy(a: string, b: string)
    ensures a == b || StrLt(a, b) || StrLt(b, a)
  {
    StrLeTotal(a, b);
  }

  lemma KeyLtTransitive(a: RelKey, b: RelKey, c: RelKey)
    requires KeyLt(a, b) && KeyLt(b, c)
    ensures KeyLt(a, c)
  {
    if StrLt(a.0, b.0) && StrLt(b.0, c.0) {
      StrLtTransitive(a.0, b.0, c.0);
    } else if a.0 == b.0 && b.0 == c.0 {
      if StrLt(a.1, b.1) && StrLt(b.1, c.1) {
        StrLtTransitive(a.1, b.1, c.1);
      } else if a.1 == b.1 && b.1 == c.1 && StrLt(a.2, b.2) && StrLt(b.2, c.2) {
        StrLtTransitive(a.2, b.2, c.2);
      }
    }
  }

  lemma KeyTrichotomy(a: RelKey, b: RelKey)
    ensures a == b || KeyLt(a, b) || KeyLt(b, a)
  {
    StrTrichotomy(a.0, b.0);
    StrTrichotomy(a.1, b.1);
    StrTrichotomy(a.2, b.2);
  }

  /** The order is total and transitive, so `Sort` under it is `sorted`. */
  lemma EntryLeTotalPreorder()
    ensures TotalPreorder(EntryLe)
  {
    forall x, y
      ensures EntryLe(x, y) || EntryLe(y, x)
    {
      KeyTrichotomy(x.0, y.0);
    }
    forall x, y, z | EntryLe(x, y) && EntryLe(y, z)
      ensures EntryLe(x, z)
    {
      if KeyLt(x.0, y.0) && KeyLt(y.0, z.0) {
        KeyLtTransitive(x.0, y.0, z.0);
      }
    }
  }

  // ---------------------------------------------------------------------
  // cascaded_union

  /** Python truth of an optional shape: None is false, a shape is as the
      `truthy` oracle says (an empty geometry is false). */
  predicate Truthy<S>(s: Option<S>, truthy: S -> bool) {
    s.Some? && truthy(s.value)
  }

  /** `cascaded_union` of a list of shapes, some of which may be None; the
      shapes' truth and their union are oracles. */
  function CascadedUnion<S>(shapes: seq<Option<S>>, truthy: S -> bool, union: (S, S) -> S): Option<S>
    decreases |shapes|
  {
    if |shapes| == 0 then None
    else if |shapes| == 1 then shapes[0]
    else if |shapes| == 2 then
      if Truthy(shapes[0], truthy) && Truthy(shapes[1], truthy) then Some(union(shapes[0].value, shapes[1].value))
      else if shapes[0].None? then shapes[1]
      else if shapes[1].None? then shapes[0]
      else None
    else
      var cut := |shapes| / 2;
      var shapes1 := CascadedUnion(shapes[..cut], truthy, union);
      var shapes2 := CascadedUnion(shapes[cut..], truthy, union);
      CascadedUnion([shapes1, shapes2], truthy, union)
  }

  /** The list of what one optional shape holds. */
  function Opt<S>(x: Option<S>): seq<S> {
    if x.Some? then [x.value] else []
  }

  /** The shapes that are not None, in order. */
  function Present<S>(shapes: seq<Option<S>>): (r: seq<S>)
    ensures |r| <= |shapes|
  {
    if |shapes| == 0 then []
    else Opt(shapes[0]) + Present(shapes[1..])
  }

  /** The left-to-right union of a non-empty list. */
  function Fold<S>(xs: seq<S>, union: (S, S) -> S): S
    requires |xs| > 0
  {
    if |xs| == 1 then xs[0] else union(Fold(xs[..|xs| - 1], union), xs[|xs| - 1])
  }

  ghost predicate Associative<S(!new)>(union: (S, S) -> S) {
    forall x, y, z :: union(union(x, y), z) == union(x, union(y, z))
  }

  ghost predicate TruthClosed<S(!new)>(truthy: S -> bool, union: (S, S) -> S) {
    forall x, y :: truthy(x) && truthy(y) ==> truthy(union(x, y))
  }

  /** Every shape that is there is truthy. */
  predicate NoEmptyShape<S>(shapes: seq<Option<S>>, truthy: S -> bool) {
    forall i :: 0 <= i < |shapes| && shapes[i].Some? ==> truthy(shapes[i].value)
  }

  lemma {:induction false} PresentAppend<S>(a: seq<Option<S>>, b: seq<Option<S>>)
    ensures Present(a + b) == Present(a) + Present(b)
  {
    if |a| == 0 {
      assert a + b == b;
    } else {
      assert (a + b)[1..] == a[1..] + b;
      PresentAppend(a[1..], b);
      assert Present(a + b) == Opt(a[0]) + (Present(a[1..]) + Present(b));
    }
  }

  lemma FoldPair<S>(x: S, y: S, union: (S, S) -> S)
    ensures Fold([x, y], union) == union(x, y)
  {
    assert [x, y][..1] == [x];
  }

  lemma {:induction false} FoldAppend<S(!new)>(p: seq<S>, q: seq<S>, union: (S, S) -> S)
    requires |p| > 0 && |q| > 0 && Associative(union)
    ensures Fold(p + q, union) == union(Fold(p, union), Fold(q, union))
    decreases |q|
  {
    var pq := p + q;
    if |q| == 1 {
      assert pq[..|pq| - 1] == p;
    } else {
      var q' := q[..|q| - 1];
      assert pq[..|pq| - 1] == p + q';
      FoldAppend(p, q', union);
    }
  }

  lemma {:induction false} FoldTruthy<S(!new)>(xs: seq<S>, truthy: S -> bool, union: (S, S) -> S)
    requires |xs| > 0 && TruthClosed(truthy, union)
    requires forall i :: 0 <= i < |xs| ==> truthy(xs[i])
    ensures truthy(Fold(xs, union))
    decreases |xs|
  {
    if |xs| > 1 {
      FoldTruthy(xs[..|xs| - 1], truthy, union);
    }
  }

  lemma PresentTruthy<S>(shapes: seq<Option<S>>, truthy: S -> bool)
    requires NoEmptyShape(shapes, truthy)
    ensures forall i :: 0 <= i < |Present(shapes)| ==> truthy(Present(shapes)[i])
    decreases |shapes|
  {
    if |shapes| > 0 {
      PresentTruthy(shapes[1..], truthy);
      assert NoEmptyShape(shapes[1..], truthy) by {
        forall i | 0 <= i < |shapes[1..]| && shapes[1..][i].Some?
          ensures truthy(shapes[1..][i].value)
        {
          assert shapes[1..][i] == shapes[i + 1];
        }
      }
    }
  }

  /** The value a list of shapes evidently stands for: the union of the
      shapes that are there, or None when there are none. */
  function UnionOf<S>(shapes: seq<Option<S>>, union: (S, S) -> S): Option<S> {
    var p := Present(shapes);
    if |p| == 0 then None else Some(Fold(p, union))
  }

  lemma PresentPair<S>(x: Option<S>, y: Option<S>)
    ensures Present([x, y]) == Opt(x) + Opt(y)
  {
    assert [x, y][1..] == [y] && [y][1..] == [];
  }

  /** The two-shape case of `cascaded_union` on shapes that are not empty. */
  lemma PairUnion<S(!new)>(x: Option<S>, y: Option<S>, truthy: S -> bool, union: (S, S) -> S)
    requires TruthClosed(truthy, union)
    requires (x.Some? ==> truthy(x.value)) && (y.Some? ==> truthy(y.value))
    ensures CascadedUnion([x, y], truthy, union) == UnionOf([x, y], union)
    ensures CascadedUnion([x, y], truthy, union).Some? ==> truthy(CascadedUnion([x, y], truthy, union).value)
  {
    PresentPair(x, y);
    if x.Some? && y.Some? {
      assert Present([x, y]) == [x.value, y.value];
      FoldPair(x.value, y.value, union);
    }
  }

  /** Unioning two halves separately and then together is unioning the whole. */
  lemma UnionOfAppend<S(!new)>(a: seq<Option<S>>, b: seq<Option<S>>, union: (S, S) -> S)
    requires Associative(union)
    ensures UnionOf(a + b, union) == UnionOf([UnionOf(a, union), UnionOf(b, union)], union)
  {
    PresentAppend(a, b);
    var pa, pb := Present(a), Present(b);
    var ua, ub := UnionOf(a, union), UnionOf(b, union);
    PresentPair(ua, ub);
    if |pa| > 0 && |pb| > 0 {
      FoldAppend(pa, pb, union);
      assert Present([ua, ub]) == [Fold(pa, union), Fold(pb, union)];
      FoldPair(Fold(pa, union), Fold(pb, union), union);
    } else if |pa| > 0 {
      assert Present(a + b) == pa && Present([ua, ub]) == [Fold(pa, union)];
    } else if |pb| > 0 {
      assert Present(a + b) == pb && Present([ua, ub]) == [Fold(pb, union)];
    }
  }

  /** With no empty geometry among the shapes, and an associative union that
      keeps shapes non-empty, `cascaded_union` is the union of the shapes that
      are there, None exactly when all are None, whatever the split. */
  lemma {:induction false} CascadedUnionIsFold<S(!new)>(shapes: seq<Option<S>>, truthy: S -> bool, union: (S, S) -> S)
    requires Associative(union) && TruthClosed(truthy, union)
    requires NoEmptyShape(shapes, truthy)
    ensures CascadedUnion(shapes, truthy, union) == UnionOf(shapes, union)
    ensures CascadedUnion(shapes, truthy, union).Some? ==> truthy(CascadedUnion(shapes, truthy, union).value)
    decreases |shapes|
  {
    if |shapes| == 1 {
      assert Present(shapes[1..]) == [];
    } else if |shapes| == 2 {
      assert shapes == [shapes[0], shapes[1]];
      PairUnion(shapes[0], shapes[1], truthy, union);
    } else if |shapes| > 2 {
      var cut := |shapes| / 2;
      var a, b := shapes[..cut], shapes[cut..];
      NoEmptySlices(shapes, truthy, cut);
      CascadedUnionIsFold(a, truthy, union);
      CascadedUnionIsFold(b, truthy, union);
      CascadedHalves(shapes, truthy, union);
    }
  }

  lemma NoEmptySlices<S>(shapes: seq<Option<S>>, truthy: S -> bool, cut: nat)
    requires NoEmptyShape(shapes, truthy) && cut <= |shapes|
    ensures NoEmptyShape(shapes[..cut], truthy) && NoEmptyShape(shapes[cut..], truthy)
  {
    var a, b := shapes[..cut], shapes[cut..];
    forall i | 0 <= i < |a| && a[i].Some? ensures truthy(a[i].value) {
      assert a[i] == shapes[i];
    }
    forall i | 0 <= i < |b| && b[i].Some? ensures truthy(b[i].value) {
      assert b[i] == shapes[cut + i];
    }
  }

  /** The step of the cascade: once both halves are folds, so is the whole. */
  lemma CascadedHalves<S(!new)>(shapes: seq<Option<S>>, truthy: S -> bool, union: (S, S) -> S)
    requires Associative(union) && TruthClosed(truthy, union) && |shapes| > 2
    requires var cut := |shapes| / 2;
      && CascadedUnion(shapes[..cut], truthy, union) == UnionOf(shapes[..cut], union)
      && (CascadedUnion(shapes[..cut], truthy, union).Some? ==> truthy(CascadedUnion(shapes[..cut], truthy, union).value))
      && CascadedUnion(shapes[cut..], truthy, union) == UnionOf(shapes[cut..], union)
      && (CascadedUnion(shapes[cut..], truthy, union).Some? ==> truthy(CascadedUnion(shapes[cut..], truthy, union).value))
    ensures CascadedUnion(shapes, truthy, union) == UnionOf(shapes, union)
    ensures CascadedUnion(shapes, truthy, union).Some? ==> truthy(CascadedUnion(shapes, truthy, union).value)
  {
    var cut := |shapes| / 2;
    var a, b := shapes[..cut], shapes[cut..];
    PairUnion(CascadedUnion(a, truthy, union), CascadedUnion(b, truthy, union), truthy, union);
    assert shapes == a + b;
    UnionOfAppend(a, b, union);
  }

  /** A list of Nones unions to None, whatever the oracles. */
  lemma {:induction false} CascadedUnionOfNones<S>(shapes: seq<Option<S>>, truthy: S -> bool, union: (S, S) -> S)
    requires forall i :: 0 <= i < |shapes| ==> shapes[i].None?
    ensures CascadedUnion(shapes, truthy, union).None?
    decreases |shapes|
  {
    if |shapes| > 2 {
      var cut := |shapes| / 2;
      CascadedUnionOfNones(shapes[..cut], truthy, union);
      CascadedUnionOfNones(shapes[cut..], truthy, union);
    }
  }

  /** An empty geometry next to a non-empty one: neither is None and not both
      are truthy, so the pair unions to None and the non-empty shape is lost. */
  lemma EmptyShapeLosesPartner<S>(e: S, s: S, truthy: S -> bool, union: (S, S) -> S)
    requires !truthy(e) && truthy(s)
    ensures CascadedUnion([Some(e), Some(s)], truthy, union) == None
    ensures UnionOf([Some(e), Some(s)], union) == Some(union(e, s))
  {
    PresentPair(Some(e), Some(s));
    assert Present([Some(e), Some(s)]) == [e, s];
    FoldPair(e, s, union);
  }

  // ---------------------------------------------------------------------
  // gen_relation_groups

  /** What the generator collects for one relation: its id and tags, and the
      tags and line of each of its ways, in the order the way set is read. */
  datatype GroupEntry = GroupEntry(id: int, tags: Tags, wayTags: seq<Tags>, wayLines: seq<Option<seq<Coord>>>)

  /** A group is cut once it holds more than this many coordinates. */
  const MaxCoords: nat := 100000

  /** `sum([len(line.coords) for line in way_lines if line])`. */
  function LineCoords(lines: seq<Option<seq<Coord>>>): nat {
    if |lines| == 0 then 0
    else LineCoords(lines[..|lines| - 1]) + (if lines[|lines| - 1].Some? then |lines[|lines| - 1].value| else 0)
  }

  /** All coordinates of the given lines, one line after the other. */
  function Joined(lines: seq<seq<Coord>>): seq<Coord> {
    if |lines| == 0 then [] else lines[0] + Joined(lines[1..])
  }

  /** Counting splits over a split of the way lines. */
  lemma {:induction false} LineCoordsAppend(a: seq<Option<seq<Coord>>>, b: seq<Option<seq<Coord>>>)
    ensures LineCoords(a + b) == LineCoords(a) + LineCoords(b)
    decreases |b|
  {
    if |b| == 0 {
      assert a + b == a;
    } else {
      assert (a + b)[..|a + b| - 1] == a + b[..|b| - 1];
      LineCoordsAppend(a, b[..|b| - 1]);
    }
  }

  /** The count is the number of coordinates of the drawn lines put together:
      a missing line adds nothing, a drawn one all of its coordinates. */
  lemma {:induction false} LineCoordsJoined(lines: seq<Option<seq<Coord>>>)
    ensures LineCoords(lines) == |Joined(Present(lines))|
    decreases |lines|
  {
    if |lines| > 0 {
      assert lines == [lines[0]] + lines[1..];
      LineCoordsAppend([lines[0]], lines[1..]);
      var one := [lines[0]];
      assert LineCoords(one) == (if lines[0].Some? then |lines[0].value| else 0) by {
        assert one[..|one| - 1] == [];
      }
      LineCoordsJoined(lines[1..]);
      JoinedAppend(Opt(lines[0]), Present(lines[1..]));
      if lines[0].Some? {
        assert Joined([lines[0].value]) == lines[0].value by {
          assert Joined([lines[0].value][1..]) == [];
        }
      }
    }
  }

  lemma {:induction false} JoinedAppend(a: seq<seq<Coord>>, b: seq<seq<Coord>>)
    ensures Joined(a + b) == Joined(a) + Joined(b)
    decreases |a|
  {
    if |a| == 0 {
      assert a + b == b;
    } else {
      assert (a + b)[1..] == a[1..] + b;
      JoinedAppend(a[1..], b);
    }
  }

  /** The coordinates one relation adds to the running count: every
      coordinate of every way line it has. */
  function EntryCoords(e: GroupEntry): (r: nat)
    ensures r == |Joined(Present(e.wayLines))|
  {
    LineCoordsJoined(e.wayLines);
    LineCoords(e.wayLines)
  }

  function EntryKey(e: GroupEntry): RelKey {
    RelationKey(e.tags)
  }

  // The cutting rule depends on an entry only through its size and its key,
  // so it is stated for any element type with those two views.

  /** The running `coords` of a group. */
  function GroupSize<T>(group: seq<T>, size: T -> nat): (r: nat)
    ensures |group| == 0 ==> r == 0
  {
    if |group| == 0 then 0 else GroupSize(group[..|group| - 1], size) + size(group[|group| - 1])
  }

  /** `coords > 100000 and key != last_key`, for the open group and the next
      entry; an empty group holds no coordinates. */
  predicate CutBefore<T, K(==)>(open: seq<T>, e: T, size: T -> nat, key: T -> K) {
    GroupSize(open, size) > MaxCoords && key(open[|open| - 1]) != key(e)
  }

  /** One iteration of the generator: the open group (the last one) is yielded
      and a new one started when the rule cuts; the entry joins the open group. */
  function AddEntry<T, K(==)>(groups: seq<seq<T>>, e: T, size: T -> nat, key: T -> K): (r: seq<seq<T>>)
    requires |groups| > 0
    ensures |r| > 0
  {
    var open := groups[|groups| - 1];
    if CutBefore(open, e, size, key) then groups + [[e]]
    else groups[..|groups| - 1] + [open + [e]]
  }

  /** The groups the generator yields for entries in this order; the last
      group is yielded even when it is empty. */
  function Groups<T, K(==)>(entries: seq<T>, size: T -> nat, key: T -> K): (r: seq<seq<T>>)
    ensures |r| > 0
  {
    if |entries| == 0 then [[]]
    else AddEntry(Groups(entries[..|entries| - 1], size, key), entries[|entries| - 1], size, key)
  }

  function Flatten<T>(groups: seq<seq<T>>): seq<T> {
    if |groups| == 0 then [] else Flatten(groups[..|groups| - 1]) + groups[|groups| - 1]
  }

  lemma FlattenSnoc<T>(groups: seq<seq<T>>, g: seq<T>)
    ensures Flatten(groups + [g]) == Flatten(groups) + g
  {
    assert (groups + [g])[..|groups|] == groups;
  }

  lemma FlattenAddEntry<T, K>(gs: seq<seq<T>>, e: T, size: T -> nat, key: T -> K)
    requires |gs| > 0
    ensures Flatten(AddEntry(gs, e, size, key)) == Flatten(gs) + [e]
  {
    var init, open := gs[..|gs| - 1], gs[|gs| - 1];
    assert Flatten(gs) == Flatten(init) + open;
    if CutBefore(open, e, size, key) {
      FlattenSnoc(gs, [e]);
    } else {
      FlattenSnoc(init, open + [e]);
      var f := Flatten(init);
      assert f + (open + [e]) == (f + open) + [e];
    }
  }

  /** Grouping loses, duplicates and reorders nothing. */
  lemma {:induction false} GroupsFlatten<T, K>(entries: seq<T>, size: T -> nat, key: T -> K)
    ensures Flatten(Groups(entries, size, key)) == entries
  {
    if |entries| > 0 {
      var init, e := entries[..|entries| - 1], entries[|entries| - 1];
      GroupsFlatten(init, size, key);
      FlattenAddEntry(Groups(init, size, key), e, size, key);
      assert entries == init + [e];
    }
  }

  /** Where one group ends and the next begins: the first holds more than
      `MaxCoords` coordinates, and the two relations on either side of the cut
      have different keys, so relations sharing a key are never split. */
  ghost predicate CutAt<T, K>(groups: seq<seq<T>>, g: int, size: T -> nat, key: T -> K)
    requires 0 <= g < |groups| - 1
  {
    |groups[g + 1]| > 0 && CutBefore(groups[g], groups[g + 1][0], size, key)
  }

  /** No earlier cut was possible inside a group. */
  ghost predicate Uncut<T, K>(group: seq<T>, size: T -> nat, key: T -> K) {
    forall j :: 0 < j < |group| ==> !CutBefore(group[..j], group[j], size, key)
  }

  lemma UncutSnoc<T, K>(group: seq<T>, e: T, size: T -> nat, key: T -> K)
    requires Uncut(group, size, key) && !CutBefore(group, e, size, key)
    ensures Uncut(group + [e], size, key)
  {
    var g' := group + [e];
    forall j | 0 < j < |g'|
      ensures !CutBefore(g'[..j], g'[j], size, key)
    {
      assert g'[..j] == group[..j];
      if j < |group| {
        assert g'[j] == group[j];
      } else {
        assert group[..j] == group && g'[j] == e;
      }
    }
  }

  /** Every cut between groups is one the rule makes, and every group runs
      until the rule cuts it: this pins the grouping down completely. */
  lemma {:induction false} GroupsCut<T, K>(entries: seq<T>, size: T -> nat, key: T -> K)
    ensures var gs := Groups(entries, size, key);
            && (forall g :: 0 <= g < |gs| - 1 ==> CutAt(gs, g, size, key))
            && (forall g :: 0 <= g < |gs| ==> Uncut(gs[g], size, key))
            && (|entries| > 0 <==> |gs[|gs| - 1]| > 0)
  {
    if |entries| > 0 {
      var init, e := entries[..|entries| - 1], entries[|entries| - 1];
      GroupsCut(init, size, key);
      var gs := Groups(init, size, key);
      var open := gs[|gs| - 1];
      var r := Groups(entries, size, key);
      if CutBefore(open, e, size, key) {
        assert r == gs + [[e]];
        forall g | 0 <= g < |r| - 1 ensures CutAt(r, g, size, key) {
          if g < |gs| - 1 {
            assert CutAt(gs, g, size, key);
          }
        }
        forall g | 0 <= g < |r| ensures Uncut(r[g], size, key) {
          if g < |gs| {
            assert r[g] == gs[g];
          }
        }
      } else {
        assert r == gs[..|gs| - 1] + [open + [e]];
        UncutSnoc(open, e, size, key);
        forall g | 0 <= g < |r| - 1 ensures CutAt(r, g, size, key) {
          assert CutAt(gs, g, size, key);
          if g + 1 == |r| - 1 {
            assert (open + [e])[0] == open[0];
          } else {
            assert r[g + 1] == gs[g + 1];
          }
        }
        forall g | 0 <= g < |r| ensures Uncut(r[g], size, key) {
          if g < |r| - 1 {
            assert r[g] == gs[g];
          }
        }
      }
    }
  }

  // ---------------------------------------------------------------------
  // The relations in order, and what is read for each

  /** `zip(relation_keys, relations)`. */
  function Keyed(relations: seq<(int, Tags)>): (r: seq<(RelKey, (int, Tags))>)
    ensures |r| == |relations|
    ensures forall i :: 0 <= i < |r| ==> r[i] == (RelationKey(relations[i].1), relations[i])
  {
    seq(|relations|, i requires 0 <= i < |relations| => (RelationKey(relations[i].1), relations[i]))
  }

  /** `sorted(zip(relation_keys, relations))`. */
  function SortedRelations(relations: seq<(int, Tags)>): seq<(RelKey, (int, Tags))> {
    Sort(Keyed(relations), EntryLe)
  }

  /** The relations come out ordered by key and then id, each once with its own key. */
  lemma SortedRelationsFacts(relations: seq<(int, Tags)>)
    ensures SortedBy(SortedRelations(relations), EntryLe)
    ensures multiset(SortedRelations(relations)) == multiset(Keyed(relations))
    ensures forall i :: 0 <= i < |SortedRelations(relations)| ==>
              SortedRelations(relations)[i].0 == RelationKey(SortedRelations(relations)[i].1.1)
              && SortedRelations(relations)[i].1 in relations
  {
    EntryLeTotalPreorder();
    SortSorted(Keyed(relations), EntryLe);
    var sorted, keyed := SortedRelations(relations), Keyed(relations);
    forall i | 0 <= i < |sorted|
      ensures sorted[i].0 == RelationKey(sorted[i].1.1) && sorted[i].1 in relations
    {
      assert sorted[i] in multiset(keyed);
      var j :| 0 <= j < |keyed| && keyed[j] == sorted[i];
    }
  }

  /** The ways of a relation, as `gen_relation_groups` reads them:
      `stopOnSeen` is the script's traversal, which stops at a repeated
      relation, and its negation the corrected one, which skips it. */
  ghost function RelWays(db: Db, stopOnSeen: bool, id: int): Result<set<int>, string> {
    Traverse(db, [id], {}, {}, stopOnSeen, Universe(db) + {id})
  }

  /** `ws` lists the ways of the entry's relation, each once, and the entry
      holds their tags and lines in that order. */
  ghost predicate WaysRead(db: Db, stopOnSeen: bool, e: GroupEntry, ws: seq<int>) {
    && RelWays(db, stopOnSeen, e.id) == Ok(set w | w in ws)
    && Distinct(ws) && |e.wayTags| == |ws| && |e.wayLines| == |ws|
    && forall j :: 0 <= j < |ws| ==> e.wayTags[j] == WayTags(db, ws[j]) && e.wayLines[j] == WayLinestring(db, ws[j])
  }

  ghost predicate FromDb(db: Db, stopOnSeen: bool, e: GroupEntry) {
    exists ws :: WaysRead(db, stopOnSeen, e, ws)
  }

  /** `way_tags` and `way_lines`, list comprehensions over the ways in the
      order they are read. */
  function ReadWays(db: Db, id: int, tags: Tags, ws: seq<int>): (e: GroupEntry)
    ensures e.id == id && e.tags == tags && |e.wayTags| == |ws| && |e.wayLines| == |ws|
  {
    GroupEntry(id, tags, seq(|ws|, j requires 0 <= j < |ws| => WayTags(db, ws[j])),
               seq(|ws|, j requires 0 <= j < |ws| => WayLinestring(db, ws[j])))
  }

  lemma ReadWaysFromDb(db: Db, stopOnSeen: bool, id: int, tags: Tags, ws: seq<int>)
    requires RelWays(db, stopOnSeen, id) == Ok(set w | w in ws) && Distinct(ws)
    ensures FromDb(db, stopOnSeen, ReadWays(db, id, tags, ws))
  {
    assert WaysRead(db, stopOnSeen, ReadWays(db, id, tags, ws), ws);
  }

  /** The body of the generator's loop for one relation: its ways, their
      tags and their lines; a malformed member list raises. */
  method RelationEntry(db: Db, stopOnSeen: bool, id: int, tags: Tags) returns (r: Result<GroupEntry, string>)
    ensures r.Err? <==> RelWays(db, stopOnSeen, id).Err?
    ensures r.Err? ==> r.error == RelWays(db, stopOnSeen, id).error
    ensures r.Ok? ==> r.value.id == id && r.value.tags == tags && FromDb(db, stopOnSeen, r.value)
  {
    var ways := GetRelationWays(db, id, stopOnSeen);
    if ways.Err? {
      return Err(ways.error);
    }
    var ws := SetToSeq(ways.value);
    ReadWaysFromDb(db, stopOnSeen, id, tags, ws);
    return Ok(ReadWays(db, id, tags, ws));
  }

  /** One more entry: it opens a new group when the rule cuts, and joins
      the open group otherwise. */
  lemma GroupsSnoc<T, K>(done: seq<T>, e: T, size: T -> nat, key: T -> K, groups: seq<seq<T>>, group: seq<T>)
    requires Groups(done, size, key) == groups + [group]
    ensures CutBefore(group, e, size, key) ==> Groups(done + [e], size, key) == groups + [group] + [[e]]
    ensures !CutBefore(group, e, size, key) ==> Groups(done + [e], size, key) == groups + [group + [e]]
  {
    assert (done + [e])[..|done|] == done;
    var gs := groups + [group];
    assert gs[|gs| - 1] == group && gs[..|gs| - 1] == groups;
  }

  /** Everything in the groups before the open one is among the entries. */
  lemma FlattenInit<T>(gs: seq<seq<T>>, g: seq<T>, entries: seq<T>)
    requires Flatten(gs + [g]) == entries
    ensures forall e :: e in Flatten(gs) ==> e in entries
  {
    FlattenSnoc(gs, g);
  }

  /** The generator's test `coords > 100000 and key != last_key` is the
      cutting rule for the open group and the next relation. */
  lemma CutTest(group: seq<GroupEntry>, coords: nat, lastKey: Option<RelKey>, entry: GroupEntry)
    requires coords == GroupSize(group, EntryCoords)
    requires |group| > 0 ==> lastKey == Some(EntryKey(group[|group| - 1]))
    ensures (coords > MaxCoords && Some(EntryKey(entry)) != lastKey) <==> CutBefore(group, entry, EntryCoords, EntryKey)
  {
  }

  /** What the generator has done after `i` relations: `done` are their
      entries, in sorted order and read from the database, and the groups
      yielded so far with the open one are the grouping of `done`. */
  ghost predicate Progress(db: Db, stopOnSeen: bool, sorted: seq<(RelKey, (int, Tags))>, i: int, done: seq<GroupEntry>,
                           groups: seq<seq<GroupEntry>>, group: seq<GroupEntry>, coords: nat, lastKey: Option<RelKey>)
  {
    && 0 <= i <= |sorted| && |done| == i
    && Groups(done, EntryCoords, EntryKey) == groups + [group]
    && coords == GroupSize(group, EntryCoords)
    && (|group| > 0 ==> lastKey == Some(EntryKey(group[|group| - 1])))
    && (forall k :: 0 <= k < i ==> (done[k].id, done[k].tags) == sorted[k].1)
    && (forall e :: e in done ==> FromDb(db, stopOnSeen, e))
  }

  /** The entries read so far, one more. */
  lemma DoneSnoc(db: Db, stopOnSeen: bool, sorted: seq<(RelKey, (int, Tags))>, i: int, done: seq<GroupEntry>, entry: GroupEntry)
    requires 0 <= i < |sorted| && |done| == i
    requires forall k :: 0 <= k < i ==> (done[k].id, done[k].tags) == sorted[k].1
    requires forall e :: e in done ==> FromDb(db, stopOnSeen, e)
    requires (entry.id, entry.tags) == sorted[i].1 && FromDb(db, stopOnSeen, entry)
    ensures forall k :: 0 <= k < i + 1 ==> ((done + [entry])[k].id, (done + [entry])[k].tags) == sorted[k].1
    ensures forall e :: e in done + [entry] ==> FromDb(db, stopOnSeen, e)
  {
    var done' := done + [entry];
    assert forall k :: 0 <= k < i ==> done'[k] == done[k];
  }

  /** An iteration in which the relation joins the open group. */
  lemma ProgressJoin(db: Db, stopOnSeen: bool, sorted: seq<(RelKey, (int, Tags))>, i: int, done: seq<GroupEntry>,
                     groups: seq<seq<GroupEntry>>, group: seq<GroupEntry>, coords: nat, lastKey: Option<RelKey>,
                     entry: GroupEntry)
    requires Progress(db, stopOnSeen, sorted, i, done, groups, group, coords, lastKey) && i < |sorted|
    requires (entry.id, entry.tags) == sorted[i].1 && sorted[i].0 == EntryKey(entry) && FromDb(db, stopOnSeen, entry)
    requires !CutBefore(group, entry, EntryCoords, EntryKey)
    ensures Progress(db, stopOnSeen, sorted, i + 1, done + [entry], groups, group + [entry], coords + EntryCoords(entry), Some(sorted[i].0))
  {
    GroupsSnoc(done, entry, EntryCoords, EntryKey, groups, group);
    assert (group + [entry])[..|group|] == group;
    DoneSnoc(db, stopOnSeen, sorted, i, done, entry);
  }

  /** An iteration in which the open group is yielded and the relation
      starts a new one. */
  lemma ProgressCut(db: Db, stopOnSeen: bool, sorted: seq<(RelKey, (int, Tags))>, i: int, done: seq<GroupEntry>,
                    groups: seq<seq<GroupEntry>>, group: seq<GroupEntry>, coords: nat, lastKey: Option<RelKey>,
                    entry: GroupEntry)
    requires Progress(db, stopOnSeen, sorted, i, done, groups, group, coords, lastKey) && i < |sorted|
    requires (entry.id, entry.tags) == sorted[i].1 && sorted[i].0 == EntryKey(entry) && FromDb(db, stopOnSeen, entry)
    requires CutBefore(group, entry, EntryCoords, EntryKey)
    ensures Progress(db, stopOnSeen, sorted, i + 1, done + [entry], groups + [group], [entry], EntryCoords(entry), Some(sorted[i].0))
  {
    GroupsSnoc(done, entry, EntryCoords, EntryKey, groups, group);
    assert [entry][..0] == [];
    DoneSnoc(db, stopOnSeen, sorted, i, done, entry);
  }

  /** One iteration of the generator's loop keeps `Progress`. */
  lemma ProgressStep(db: Db, stopOnSeen: bool, sorted: seq<(RelKey, (int, Tags))>, i: int, done: seq<GroupEntry>,
                     groups: seq<seq<GroupEntry>>, group: seq<GroupEntry>, coords: nat, lastKey: Option<RelKey>,
                     entry: GroupEntry)
    requires Progress(db, stopOnSeen, sorted, i, done, groups, group, coords, lastKey) && i < |sorted|
    requires (entry.id, entry.tags) == sorted[i].1 && sorted[i].0 == EntryKey(entry) && FromDb(db, stopOnSeen, entry)
    ensures var cut := coords > MaxCoords && Some(sorted[i].0) != lastKey;
            Progress(db, stopOnSeen, sorted, i + 1, done + [entry],
                     if cut then groups + [group] else groups,
                     (if cut then [] else group) + [entry],
                     (if cut then 0 else coords) + EntryCoords(entry),
                     Some(sorted[i].0))
  {
    CutTest(group, coords, lastKey, entry);
    if coords > MaxCoords && Some(sorted[i].0) != lastKey {
      ProgressCut(db, stopOnSeen, sorted, i, done, groups, group, coords, lastKey, entry);
      assert [] + [entry] == [entry];
    } else {
      ProgressJoin(db, stopOnSeen, sorted, i, done, groups, group, coords, lastKey, entry);
    }
  }

  /** The groups yielded before the generator stops hold only entries read
      from the database, whether or not the open group was just cut. */
  lemma StoppedEntries(db: Db, stopOnSeen: bool, done: seq<GroupEntry>, groups: seq<seq<GroupEntry>>, group: seq<GroupEntry>, cut: bool)
    requires Groups(done, EntryCoords, EntryKey) == groups + [group]
    requires forall e :: e in done ==> FromDb(db, stopOnSeen, e)
    ensures forall e :: e in Flatten(if cut then groups + [group] else groups) ==> FromDb(db, stopOnSeen, e)
  {
    GroupsFlatten(done, EntryCoords, EntryKey);
    FlattenInit(groups, group, done);
  }

  /** One relation of `gen_relation_groups`'s loop: the open group is cut
      when the rule says so, then the relation's entry joins it; a relation
      whose ways cannot be read ends the generator, with the groups so far
      holding only entries read before it. */
  method GroupStep(db: Db, stopOnSeen: bool, sorted: seq<(RelKey, (int, Tags))>, i: int, ghost done0: seq<GroupEntry>,
                   groups0: seq<seq<GroupEntry>>, group0: seq<GroupEntry>, coords0: nat, lastKey0: Option<RelKey>)
    returns (groups: seq<seq<GroupEntry>>, group: seq<GroupEntry>, coords: nat, lastKey: Option<RelKey>,
             ghost done: seq<GroupEntry>, failure: Option<string>)
    requires Progress(db, stopOnSeen, sorted, i, done0, groups0, group0, coords0, lastKey0) && i < |sorted|
    requires sorted[i].0 == RelationKey(sorted[i].1.1)
    ensures failure.None? ==> Progress(db, stopOnSeen, sorted, i + 1, done, groups, group, coords, lastKey)
    ensures failure.Some? ==> RelWays(db, stopOnSeen, sorted[i].1.0) == Err(failure.value)
    ensures failure.Some? ==> forall e :: e in Flatten(groups) ==> FromDb(db, stopOnSeen, e)
  {
    var key, id, tags := sorted[i].0, sorted[i].1.0, sorted[i].1.1;
    var cut := coords0 > MaxCoords && Some(key) != lastKey0;
    groups := if cut then groups0 + [group0] else groups0;
    var r := RelationEntry(db, stopOnSeen, id, tags);
    if r.Err? {
      StoppedEntries(db, stopOnSeen, done0, groups0, group0, cut);
      return groups, group0, coords0, lastKey0, done0, Some(r.error);
    }
    var entry := r.value;
    ProgressStep(db, stopOnSeen, sorted, i, done0, groups0, group0, coords0, lastKey0, entry);
    group := (if cut then [] else group0) + [entry];
    coords := (if cut then 0 else coords0) + EntryCoords(entry);
    lastKey := Some(key);
    done := done0 + [entry];
    failure := None;
  }

  /** `gen_relation_groups`: the relations in sorted order, cut into the
      groups the rule makes; `failure` is the error that ends the generator
      early, after the groups yielded so far. With `stopOnSeen` the ways are
      read by the script's traversal, without it by the corrected one. */
  method GenRelationGroups(db: Db, stopOnSeen: bool, relations: seq<(int, Tags)>) returns (groups: seq<seq<GroupEntry>>, failure: Option<string>)
    ensures forall e :: e in Flatten(groups) ==> FromDb(db, stopOnSeen, e)
    ensures failure.None? ==> groups == Groups(Flatten(groups), EntryCoords, EntryKey)
    ensures failure.None? ==> |Flatten(groups)| == |relations|
    ensures failure.None? ==> forall k :: 0 <= k < |relations| ==>
              (Flatten(groups)[k].id, Flatten(groups)[k].tags) == SortedRelations(relations)[k].1
    ensures failure.Some? ==> exists rel :: rel in relations && RelWays(db, stopOnSeen, rel.0) == Err(failure.value)
  {
    var sorted := SortedRelations(relations);
    SortedRelationsFacts(relations);
    groups := [];
    var group: seq<GroupEntry> := [];
    var coords: nat := 0;
    var lastKey: Option<RelKey> := None;
    ghost var done: seq<GroupEntry> := [];
    for i := 0 to |sorted|
      invariant Progress(db, stopOnSeen, sorted, i, done, groups, group, coords, lastKey)
    {
      groups, group, coords, lastKey, done, failure := GroupStep(db, stopOnSeen, sorted, i, done, groups, group, coords, lastKey);
      if failure.Some? {
        assert sorted[i].1 in relations;
        return;
      }
    }
    groups := groups + [group];
    failure := None;
    GroupsFlatten(done, EntryCoords, EntryKey);
  }
}
