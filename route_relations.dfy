/** Skeletron/input.py, lines 70-174: `parse_route_relation_waynodes`, which
    collapses sub-relations into their parents until only way members are
    left, then gives each member way its route relation's key. */
module RouteRelations {
  import opened Wrappers
  import opened Strings
  import opened OsmKeys
  import opened OsmParser

  type Rels = map<string, RelRec>

  /** `order` is the iteration order of `rels.values()`: every key once. */
  ghost predicate Lists(order: seq<string>, rels: Rels) {
    && (forall k :: k in rels <==> k in order)
    && Distinct(order)
  }

  predicate Distinct(order: seq<string>) {
    forall i, j :: 0 <= i < j < |order| ==> order[i] != order[j]
  }

  /** Python 2 iterates a dict in an order of its own choosing. */
  method DictOrder(rels: Rels) returns (order: seq<string>)
    ensures Lists(order, rels)
  {
    order := [];
    var left := rels.Keys;
    while left != {}
      invariant left <= rels.Keys
      invariant forall k :: k in rels <==> k in order || k in left
      invariant forall k :: k in order ==> k !in left
      invariant forall i, j :: 0 <= i < j < |order| ==> order[i] != order[j]
      decreases left
    {
      var k :| k in left;
      order := order + [k];
      left := left - {k};
    }
  }

  /** The same relation dict with another parts list. */
  function WithParts(r: RelRec, parts: seq<string>): (r': RelRec)
    ensures r'.parts == parts
    ensures r'.OpenRel? == r.OpenRel?
    ensures r'.OpenRel? ==> r'.tags == r.tags
    ensures r'.KeptRel? ==> r'.key == r.key
  {
    match r
    case OpenRel(_, tags) => OpenRel(parts, tags)
    case KeptRel(_, key) => KeptRel(parts, key)
  }

  /** `order` without `x`, the rest in the same order. */
  function Without(order: seq<string>, x: string): (r: seq<string>)
    ensures forall k :: k in r <==> k in order && k != x
  {
    if |order| == 0 then []
    else if order[0] == x then Without(order[1..], x)
    else [order[0]] + Without(order[1..], x)
  }

  lemma {:induction false} WithoutDistinct(order: seq<string>, x: string)
    requires Distinct(order)
    ensures Distinct(Without(order, x))
  {
    if |order| > 0 {
      assert Distinct(order[1..]) by {
        forall i, j | 0 <= i < j < |order| - 1 ensures order[1..][i] != order[1..][j] {
          assert order[1..][i] == order[i + 1] && order[1..][j] == order[j + 1];
        }
      }
      WithoutDistinct(order[1..], x);
      if order[0] != x {
        var rest := Without(order[1..], x);
        forall i, j | 0 <= i < j < |rest| + 1 ensures ([order[0]] + rest)[i] != ([order[0]] + rest)[j] {
          if i == 0 {
            assert ([order[0]] + rest)[j] == rest[j - 1];
            assert rest[j - 1] in order[1..];
          }
        }
      }
    }
  }

  /** Every part of every relation, the measure of the flattening rounds that
      delete nothing. */
  function PartCount(rels: Rels, order: seq<string>): nat {
    if |order| == 0 then 0
    else PartCount(rels, order[..|order| - 1]) +
         (if order[|order| - 1] in rels then |rels[order[|order| - 1]].parts| else 0)
  }

  /** Shortening one relation's parts shrinks the count. */
  lemma {:induction false} PartCountShrinks(rels: Rels, order: seq<string>, id: string, parts: seq<string>)
    requires id in rels && id in order && |parts| < |rels[id].parts|
    requires Distinct(order)
    ensures PartCount(rels[id := WithParts(rels[id], parts)], order) < PartCount(rels, order)
  {
    var rels' := rels[id := WithParts(rels[id], parts)];
    var init := order[..|order| - 1];
    var last := order[|order| - 1];
    if last == id {
      assert id !in init;
      PartCountSame(rels, rels', init);
    } else {
      assert id in init;
      PartCountShrinks(rels, init, id, parts);
    }
  }

  lemma {:induction false} PartCountSame(rels: Rels, rels': Rels, order: seq<string>)
    requires forall k :: k in order ==> (k in rels <==> k in rels') && (k in rels ==> |rels[k].parts| == |rels'[k].parts|)
    ensures PartCount(rels', order) == PartCount(rels, order)
  {
    if |order| > 0 {
      PartCountSame(rels, rels', order[..|order| - 1]);
    }
  }

  /** Every part string anywhere in `rels`. */
  ghost function AllParts(rels: Rels): set<string> {
    set id, p | id in rels && p in rels[id].parts :: p
  }

  ghost predicate PartsWithin(rels: Rels, pool: set<string>) {
    forall id, p :: id in rels && p in rels[id].parts ==> p in pool
  }

  /** Every part of every relation is a way member. */
  ghost predicate Flat(rels: Rels) {
    forall id, p :: id in rels && p in rels[id].parts ==> StartsWith(p, "way:")
  }

  /** `rels` is `rels0` with some relations deleted and the others' parts
      rewritten: each keeps its kind, its key or tags. */
  ghost predicate Shrunk(rels: Rels, rels0: Rels) {
    && rels.Keys <= rels0.Keys
    && (forall id :: id in rels ==> rels[id] == WithParts(rels0[id], rels[id].parts))
  }

  /** What holds while relation `id`'s parts are walked: deleted relations
      are gone from `rels` and `order` and nothing else changed there, every
      part came from the parsed relations, and until something changes the
      parts before `index` are all ways. */
  ghost predicate Walk(rels0: Rels, order0: seq<string>, id: string,
                       rels: Rels, order: seq<string>, parts: seq<string>, changing: bool, index: int)
  {
    && 0 <= index
    && Lists(order, rels) && rels.Keys <= rels0.Keys
    && (forall k :: k in rels ==> rels[k] == rels0[k])
    && (forall p :: p in parts ==> p in AllParts(rels0))
    && (forall k :: k in rels0 && k !in rels ==> "rel:" + k in AllParts(rels0))
    && (!changing ==> rels == rels0 && order == order0 && id in rels0 && parts == rels0[id].parts)
    && (!changing ==> forall j :: 0 <= j < index && j < |parts| ==> StartsWith(parts[j], "way:"))
    && (changing ==> |rels.Keys| < |rels0.Keys| || (rels == rels0 && order == order0 && id in rels0 && |parts| < |rels0[id].parts|))
  }

  lemma WalkInit(rels0: Rels, order0: seq<string>, id: string)
    requires Lists(order0, rels0) && id in rels0
    ensures Walk(rels0, order0, id, rels0, order0, rels0[id].parts, false, 0)
  {
    forall p | p in rels0[id].parts ensures p in AllParts(rels0) {
      assert id in rels0 && p in rels0[id].parts;
    }
  }

  /** `parts[index:index+1] = rels[rel_id]['parts']; del rels[rel_id]`. */
  lemma SpliceStep(rels0: Rels, order0: seq<string>, id: string,
                   rels: Rels, order: seq<string>, parts: seq<string>, changing: bool, index: int, relId: string)
    requires Walk(rels0, order0, id, rels, order, parts, changing, index) && index < |parts|
    requires StartsWith(parts[index], "rel:") && relId == parts[index][4..] && relId in rels
    ensures var sub := if relId == id then parts else rels[relId].parts;
      Walk(rels0, order0, id, rels - {relId}, Without(order, relId),
           parts[..index] + sub + parts[index + 1..], true, index + 1)
    ensures |(rels - {relId}).Keys| < |rels.Keys|
  {
    var sub := if relId == id then parts else rels[relId].parts;
    var rels' := rels - {relId};
    assert rels'.Keys == rels.Keys - {relId};
    assert |rels'.Keys| < |rels.Keys|;
    assert Lists(Without(order, relId), rels') by {
      WithoutDistinct(order, relId);
    }
    assert forall p :: p in parts[..index] + sub + parts[index + 1..] ==> p in AllParts(rels0) by {
      SplicedFromPool(rels0, rels, parts, index, sub);
    }
    assert "rel:" + relId in AllParts(rels0) by {
      assert parts[index] == parts[index][..4] + relId;
      assert parts[index] in parts;
    }
  }

  lemma SplicedFromPool(rels0: Rels, rels: Rels, parts: seq<string>, index: int, sub: seq<string>)
    requires 0 <= index < |parts|
    requires forall k :: k in rels ==> k in rels0 && rels[k] == rels0[k]
    requires forall p :: p in parts ==> p in AllParts(rels0)
    requires sub == parts || exists k :: k in rels && sub == rels[k].parts
    ensures forall p :: p in parts[..index] + sub + parts[index + 1..] ==> p in AllParts(rels0)
  {
    forall p | p in parts[..index] + sub + parts[index + 1..] ensures p in AllParts(rels0) {
      if p in sub && sub != parts {
        var k :| k in rels && sub == rels[k].parts;
        assert k in rels0 && p in rels0[k].parts;
      } else if p !in sub {
        assert p in parts[..index] || p in parts[index + 1..];
      }
    }
  }

  /** A `way:` part stays and the walk moves on. */
  lemma KeepStep(rels0: Rels, order0: seq<string>, id: string,
                 rels: Rels, order: seq<string>, parts: seq<string>, changing: bool, index: int)
    requires Walk(rels0, order0, id, rels, order, parts, changing, index) && index < |parts|
    requires StartsWith(parts[index], "way:")
    ensures Walk(rels0, order0, id, rels, order, parts, changing, index + 1)
  {
  }

  /** `parts[index:index+1] = []`. */
  lemma DropStep(rels0: Rels, order0: seq<string>, id: string,
                 rels: Rels, order: seq<string>, parts: seq<string>, changing: bool, index: int)
    requires Walk(rels0, order0, id, rels, order, parts, changing, index) && index < |parts|
    ensures Walk(rels0, order0, id, rels, order, parts[..index] + parts[index + 1..], true, index + 1)
  {
    var parts' := parts[..index] + parts[index + 1..];
    forall p | p in parts' ensures p in parts {
      assert p in parts[..index] || p in parts[index + 1..];
    }
    assert |parts'| == |parts| - 1;
  }

  /** The walk of `for (index, part) in enumerate(parts)` over the live list
      of relation `id`, from `index` on: a `rel:` part whose relation exists
      is replaced by that relation's parts (its own list when it names
      itself) and that relation is deleted; a `rel:` part naming no relation
      and a part of any other kind are removed; `way:` parts stay. After a
      splice or a removal the walk goes on at the next index, so the part
      that moved into the current position is not looked at in this pass. */
  function Inline(rels: Rels, order: seq<string>, id: string, parts: seq<string>, index: nat, changing: bool)
    : (Rels, seq<string>, seq<string>, bool)
    decreases |rels.Keys|, |parts| - index
  {
    if index >= |parts| then (rels, order, parts, changing)
    else
      var r := Step(rels, order, id, parts, index, changing);
      Inline(r.0, r.1, id, r.2, index + 1, r.3)
  }

  /** The walk's handling of the part at `index`. */
  function Step(rels: Rels, order: seq<string>, id: string, parts: seq<string>, index: nat, changing: bool)
    : (r: (Rels, seq<string>, seq<string>, bool))
    requires index < |parts|
    ensures |r.0.Keys| < |rels.Keys| || (r.0 == rels && |r.2| <= |parts|)
  {
    if StartsWith(parts[index], "rel:") then
      var relId := parts[index][4..];
      if relId in rels then
        var sub := if relId == id then parts else rels[relId].parts;
        assert (rels - {relId}).Keys == rels.Keys - {relId};
        (rels - {relId}, Without(order, relId), parts[..index] + sub + parts[index + 1..], true)
      else
        (rels, order, parts[..index] + parts[index + 1..], true)
    else if StartsWith(parts[index], "way:") then
      (rels, order, parts, changing)
    else
      (rels, order, parts[..index] + parts[index + 1..], true)
  }

  /** One step keeps the walk invariant. */
  lemma StepWalk(rels0: Rels, order0: seq<string>, id: string,
                 rels: Rels, order: seq<string>, parts: seq<string>, changing: bool, index: nat)
    requires Walk(rels0, order0, id, rels, order, parts, changing, index) && index < |parts|
    ensures var r := Step(rels, order, id, parts, index, changing);
      Walk(rels0, order0, id, r.0, r.1, r.2, r.3, index + 1)
  {
    if StartsWith(parts[index], "rel:") {
      var relId := parts[index][4..];
      if relId in rels {
        SpliceStep(rels0, order0, id, rels, order, parts, changing, index, relId);
      } else {
        DropStep(rels0, order0, id, rels, order, parts, changing, index);
      }
    } else if StartsWith(parts[index], "way:") {
      KeepStep(rels0, order0, id, rels, order, parts, changing, index);
    } else {
      DropStep(rels0, order0, id, rels, order, parts, changing, index);
    }
  }

  /** A walk keeps the walk invariant to its end. */
  lemma {:induction false} InlineWalk(rels0: Rels, order0: seq<string>, id: string,
                                      rels: Rels, order: seq<string>, parts: seq<string>, changing: bool, index: nat)
    requires Walk(rels0, order0, id, rels, order, parts, changing, index)
    ensures var r := Inline(rels, order, id, parts, index, changing);
      Walk(rels0, order0, id, r.0, r.1, r.2, r.3, |r.2|)
    decreases |rels.Keys|, |parts| - index
  {
    if index < |parts| {
      var r := Step(rels, order, id, parts, index, changing);
      StepWalk(rels0, order0, id, rels, order, parts, changing, index);
      InlineWalk(rels0, order0, id, r.0, r.1, r.2, r.3, index + 1);
    }
  }

  /** The walk over relation `id`, in place: the result is `Inline` of the
      relation's parts. */
  method InlineParts(rels0: Rels, order0: seq<string>, id: string)
    returns (rels: Rels, order: seq<string>, parts: seq<string>, changing: bool)
    requires Lists(order0, rels0) && id in rels0
    ensures (rels, order, parts, changing) == Inline(rels0, order0, id, rels0[id].parts, 0, false)
    ensures Walk(rels0, order0, id, rels, order, parts, changing, |parts|)
  {
    rels, order, parts, changing := rels0, order0, rels0[id].parts, false;
    WalkInit(rels0, order0, id);
    InlineWalk(rels0, order0, id, rels0, order0, rels0[id].parts, false, 0);
    var index := 0;
    while index < |parts|
      invariant Inline(rels, order, id, parts, index, changing) == Inline(rels0, order0, id, rels0[id].parts, 0, false)
      decreases |rels.Keys|, |parts| - index
    {
      ghost var next := Step(rels, order, id, parts, index, changing);
      assert Inline(rels, order, id, parts, index, changing) == Inline(next.0, next.1, id, next.2, index + 1, next.3);
      var part := parts[index];
      if StartsWith(part, "rel:") {
        var relId := part[4..];
        if relId in rels {
          var sub := if relId == id then parts else rels[relId].parts;
          assert (rels - {relId}).Keys == rels.Keys - {relId};
          parts := parts[..index] + sub + parts[index + 1..];
          rels := rels - {relId};
          order := Without(order, relId);
        } else {
          parts := parts[..index] + parts[index + 1..];
        }
        changing := true;
      } else if !StartsWith(part, "way:") {
        parts := parts[..index] + parts[index + 1..];
        changing := true;
      }
      assert (rels, order, parts, changing) == next;
      index := index + 1;
    }
  }

  /** One round of `while changing`, from position `j` of the dict order on:
      the first relation whose walk changes anything is rewritten (unless it
      deleted itself), and the round stops there. */
  function RoundFrom(rels: Rels, order: seq<string>, j: nat): (Rels, seq<string>, bool)
    requires Lists(order, rels)
    decreases |order| - j
  {
    if j >= |order| then (rels, order, false)
    else
      var id := order[j];
      var w := Inline(rels, order, id, rels[id].parts, 0, false);
      if w.3 then (if id in w.0 then w.0[id := WithParts(w.0[id], w.2)] else w.0, w.1, true)
      else RoundFrom(rels, order, j + 1)
  }

  /** What a round promises about its result `r`: the relations still list
      in `r.1`, each kept one is a parsed one with its parts drawn from the
      parsed parts, a relation is gone only when a `rel:` part named it, a
      round without change has found every part a way, and one with change
      has deleted a relation or removed a part. */
  ghost predicate RoundFacts(rels: Rels, order: seq<string>, r: (Rels, seq<string>, bool)) {
    && Lists(r.1, r.0) && Shrunk(r.0, rels) && PartsWithin(r.0, AllParts(rels))
    && (forall k :: k in rels && k !in r.0 ==> "rel:" + k in AllParts(rels))
    && (!r.2 ==> r.0 == rels && r.1 == order && Flat(rels))
    && (r.2 ==> |r.0.Keys| < |rels.Keys| ||
                (|r.0.Keys| == |rels.Keys| && PartCount(r.0, r.1) < PartCount(rels, order)))
  }

  /** What a round from position `j` gives, when every relation before `j`
      walked without change. */
  lemma {:induction false} RoundFromFacts(rels: Rels, order: seq<string>, j: nat)
    requires Lists(order, rels) && j <= |order|
    requires forall i, p :: 0 <= i < j && p in rels[order[i]].parts ==> StartsWith(p, "way:")
    ensures RoundFacts(rels, order, RoundFrom(rels, order, j))
    decreases |order| - j
  {
    if j == |order| {
      RoundFromEnd(rels, order);
    } else if Inline(rels, order, order[j], rels[order[j]].parts, 0, false).3 {
      RoundFromChanged(rels, order, j);
    } else {
      UnchangedWalkFlat(rels, order, j);
      assert RoundFrom(rels, order, j) == RoundFrom(rels, order, j + 1);
      RoundFromFacts(rels, order, j + 1);
    }
  }

  /** A round that walked every relation without change. */
  lemma RoundFromEnd(rels: Rels, order: seq<string>)
    requires Lists(order, rels)
    requires forall i, p :: 0 <= i < |order| && p in rels[order[i]].parts ==> StartsWith(p, "way:")
    ensures RoundFacts(rels, order, RoundFrom(rels, order, |order|))
  {
    UnchangedRound(rels, order);
  }

  /** The round stops at a walk that changed something. */
  lemma RoundFromChanged(rels: Rels, order: seq<string>, j: nat)
    requires Lists(order, rels) && j < |order|
    requires Inline(rels, order, order[j], rels[order[j]].parts, 0, false).3
    ensures RoundFacts(rels, order, RoundFrom(rels, order, j))
  {
    var id := order[j];
    WalkInit(rels, order, id);
    InlineWalk(rels, order, id, rels, order, rels[id].parts, false, 0);
    var w := Inline(rels, order, id, rels[id].parts, 0, false);
    RoundEnd(rels, order, id, w.0, w.1, w.2);
  }

  /** A walk that changed nothing found only way parts. */
  lemma UnchangedWalkFlat(rels: Rels, order: seq<string>, j: nat)
    requires Lists(order, rels) && j < |order|
    requires !Inline(rels, order, order[j], rels[order[j]].parts, 0, false).3
    requires forall i, p :: 0 <= i < j && p in rels[order[i]].parts ==> StartsWith(p, "way:")
    ensures forall i, p :: 0 <= i < j + 1 && p in rels[order[i]].parts ==> StartsWith(p, "way:")
  {
    var id := order[j];
    WalkInit(rels, order, id);
    InlineWalk(rels, order, id, rels, order, rels[id].parts, false, 0);
    var w := Inline(rels, order, id, rels[id].parts, 0, false);
    forall p | p in rels[id].parts ensures StartsWith(p, "way:") {
      var k :| 0 <= k < |w.2| && w.2[k] == p;
    }
  }

  /** One round of `while changing` over the whole dict order. A round that
      changes nothing has found every part a way; one that changes something
      deletes a relation or, deleting none, removes a part. */
  function Round(rels: Rels, order: seq<string>): (r: (Rels, seq<string>, bool))
    requires Lists(order, rels)
    ensures Lists(r.1, r.0) && Shrunk(r.0, rels) && PartsWithin(r.0, AllParts(rels))
    ensures forall k :: k in rels && k !in r.0 ==> "rel:" + k in AllParts(rels)
    ensures !r.2 ==> r.0 == rels && r.1 == order && Flat(rels)
    ensures r.2 ==> |r.0.Keys| < |rels.Keys| ||
                    (|r.0.Keys| == |rels.Keys| && PartCount(r.0, r.1) < PartCount(rels, order))
  {
    RoundFromFacts(rels, order, 0);
    RoundFrom(rels, order, 0)
  }

  /** The round as the source runs it: the walks in dict order, stopping
      after the first that changed something. */
  method FlattenRound(rels0: Rels, order0: seq<string>) returns (rels: Rels, order: seq<string>, changing: bool)
    requires Lists(order0, rels0)
    ensures (rels, order, changing) == Round(rels0, order0)
  {
    rels, order, changing := rels0, order0, false;
    for j := 0 to |order0|
      invariant rels == rels0 && order == order0 && !changing
      invariant RoundFrom(rels0, order0, j) == Round(rels0, order0)
    {
      var id := order0[j];
      var parts;
      rels, order, parts, changing := InlineParts(rels0, order0, id);
      if changing {
        if id in rels {
          rels := rels[id := WithParts(rels[id], parts)];
        }
        return;
      }
    }
  }

  /** A walk that changed something: the walked relation, unless it deleted
      itself, gets its new parts; a relation is gone or a part is. */
  lemma RoundEnd(rels0: Rels, order0: seq<string>, id: string, rels: Rels, order: seq<string>, parts: seq<string>)
    requires Lists(order0, rels0)
    requires Walk(rels0, order0, id, rels, order, parts, true, |parts|)
    ensures var rels' := if id in rels then rels[id := WithParts(rels[id], parts)] else rels;
      && Lists(order, rels') && Shrunk(rels', rels0) && PartsWithin(rels', AllParts(rels0))
      && (|rels'.Keys| < |rels0.Keys| ||
          (|rels'.Keys| == |rels0.Keys| && PartCount(rels', order) < PartCount(rels0, order0)))
  {
    var rels' := if id in rels then rels[id := WithParts(rels[id], parts)] else rels;
    if id in rels && rels == rels0 {
      PartCountShrinks(rels0, order0, id, parts);
    }
    forall k, p | k in rels' && p in rels'[k].parts ensures p in AllParts(rels0) {
      if k != id {
        assert k in rels0 && p in rels0[k].parts;
      }
    }
  }

  /** A round in which no walk changed anything leaves only way parts. */
  lemma UnchangedRound(rels0: Rels, order0: seq<string>)
    requires Lists(order0, rels0)
    requires forall i, p :: 0 <= i < |order0| && order0[i] in rels0 && p in rels0[order0[i]].parts ==> StartsWith(p, "way:")
    ensures Shrunk(rels0, rels0) && PartsWithin(rels0, AllParts(rels0)) && Flat(rels0)
  {
    forall k, p | k in rels0 && p in rels0[k].parts ensures p in AllParts(rels0) && StartsWith(p, "way:") {
      var i :| 0 <= i < |order0| && order0[i] == k;
    }
    forall id | id in rels0 ensures rels0[id] == WithParts(rels0[id], rels0[id].parts) {
      match rels0[id]
      case OpenRel(_, _) =>
      case KeptRel(_, _) =>
    }
  }

  /** A relation kept through two steps keeps its kind and key. */
  lemma ShrunkTrans(r2: Rels, r1: Rels, r0: Rels)
    requires Shrunk(r2, r1) && Shrunk(r1, r0)
    ensures Shrunk(r2, r0)
  {
    forall id | id in r2 ensures r2[id] == WithParts(r0[id], r2[id].parts) {
      match r0[id]
      case OpenRel(_, _) =>
      case KeptRel(_, _) =>
    }
  }

  lemma PartsWithinTrans(r2: Rels, r1: Rels, r0: Rels)
    requires PartsWithin(r2, AllParts(r1)) && PartsWithin(r1, AllParts(r0))
    ensures PartsWithin(r2, AllParts(r0)) && AllParts(r1) <= AllParts(r0)
  {
    forall p | p in AllParts(r1) ensures p in AllParts(r0) {
      var k :| k in r1 && p in r1[k].parts;
    }
  }

  /** The `while changing` loop as a function of the parsed relations and the
      dict order: rounds repeat until one changes nothing. Afterwards every
      remaining relation holds only `way:` parts, each kept relation is one
      of the parsed ones with its key, no part was made up, and a relation is
      gone only when some `rel:` part named it. */
  function Flatten(rels: Rels, order: seq<string>): (r: (Rels, seq<string>))
    requires Lists(order, rels)
    ensures Lists(r.1, r.0) && Shrunk(r.0, rels) && Flat(r.0) && PartsWithin(r.0, AllParts(rels))
    ensures forall k :: k in rels && k !in r.0 ==> "rel:" + k in AllParts(rels)
    decreases |rels.Keys|, PartCount(rels, order)
  {
    var step := Round(rels, order);
    if step.2 then
      var r := Flatten(step.0, step.1);
      ShrunkTrans(r.0, step.0, rels);
      PartsWithinTrans(r.0, step.0, rels);
      r
    else (step.0, step.1)
  }

  /** The `while changing` loop, round by round. */
  method FlattenRelations(rels0: Rels, order0: seq<string>) returns (rels: Rels, order: seq<string>)
    requires Lists(order0, rels0)
    ensures (rels, order) == Flatten(rels0, order0)
  {
    rels, order := rels0, order0;
    while true
      invariant Lists(order, rels)
      invariant Flatten(rels, order) == Flatten(rels0, order0)
      decreases |rels.Keys|, PartCount(rels, order)
    {
      var changing;
      rels, order, changing := FlattenRound(rels, order);
      if !changing {
        break;
      }
    }
  }

  /** The way parts of a parts list, in order. */
  function Ways(parts: seq<string>): seq<string>
  {
    if |parts| == 0 then []
    else (if StartsWith(parts[0], "way:") then [parts[0]] else []) + Ways(parts[1..])
  }

  lemma {:induction false} WaysAppend(a: seq<string>, b: seq<string>)
    ensures Ways(a + b) == Ways(a) + Ways(b)
  {
    if |a| > 0 {
      assert (a + b)[1..] == a[1..] + b;
      WaysAppend(a[1..], b);
    } else {
      assert a + b == b;
    }
  }

  lemma {:induction false} WaysOfWays(parts: seq<string>)
    requires forall p :: p in parts ==> StartsWith(p, "way:")
    ensures Ways(parts) == parts
  {
    if |parts| > 0 {
      WaysOfWays(parts[1..]);
    }
  }

  /** `a` is `b` with some elements left out. */
  predicate Subsequence(a: seq<string>, b: seq<string>)
    decreases |b|
  {
    |a| == 0 || (|b| > 0 && ((a[0] == b[0] && Subsequence(a[1..], b[1..])) || Subsequence(a, b[1..])))
  }

  lemma {:induction false} SubsequenceRefl(a: seq<string>)
    ensures Subsequence(a, a)
  {
    if |a| > 0 {
      SubsequenceRefl(a[1..]);
    }
  }

  lemma {:induction false} SubsequenceTrans(a: seq<string>, b: seq<string>, c: seq<string>)
    requires Subsequence(a, b) && Subsequence(b, c)
    ensures Subsequence(a, c)
    decreases |c|
  {
    if |a| > 0 {
      if Subsequence(b, c[1..]) {
        SubsequenceTrans(a, b, c[1..]);
      } else {
        assert b[0] == c[0] && Subsequence(b[1..], c[1..]);
        if a[0] == b[0] && Subsequence(a[1..], b[1..]) {
          SubsequenceTrans(a[1..], b[1..], c[1..]);
        } else {
          SubsequenceTrans(a, b[1..], c[1..]);
        }
      }
    }
  }

  /** Putting `b` between `a` and `c` keeps `a + c` as a subsequence. */
  lemma {:induction false} SubsequenceInsert(a: seq<string>, b: seq<string>, c: seq<string>)
    ensures Subsequence(a + c, a + b + c)
  {
    if |a| > 0 {
      assert (a + c)[1..] == a[1..] + c;
      assert (a + b + c)[1..] == a[1..] + b + c;
      SubsequenceInsert(a[1..], b, c);
    } else if |b| > 0 {
      assert (a + b + c)[1..] == a + b[1..] + c;
      SubsequenceInsert(a, b[1..], c);
    } else {
      assert a + b + c == a + c;
      SubsequenceRefl(a + c);
    }
  }

  /** A walk loses no way part of the list it walks: splices only add parts
      and removals only take parts that are not ways. */
  lemma {:induction false} InlineKeepsWays(rels: Rels, order: seq<string>, id: string,
                                           parts: seq<string>, index: nat, changing: bool)
    ensures Subsequence(Ways(parts), Ways(Inline(rels, order, id, parts, index, changing).2))
    decreases |rels.Keys|, |parts| - index
  {
    if index >= |parts| {
      SubsequenceRefl(Ways(parts));
    } else {
      var r := Step(rels, order, id, parts, index, changing);
      StepKeepsWays(rels, order, id, parts, index, changing);
      InlineKeepsWays(r.0, r.1, id, r.2, index + 1, r.3);
      SubsequenceTrans(Ways(parts), Ways(r.2), Ways(Inline(rels, order, id, parts, index, changing).2));
    }
  }

  lemma PartsAround(parts: seq<string>, index: nat)
    requires index < |parts|
    ensures parts == parts[..index] + [parts[index]] + parts[index + 1..]
  {
  }

  lemma StepKeepsWays(rels: Rels, order: seq<string>, id: string,
                      parts: seq<string>, index: nat, changing: bool)
    requires index < |parts|
    ensures Subsequence(Ways(parts), Ways(Step(rels, order, id, parts, index, changing).2))
  {
    PartsAround(parts, index);
    var before, here, after := parts[..index], parts[index], parts[index + 1..];
    var next := Step(rels, order, id, parts, index, changing).2;
    if StartsWith(here, "way:") {
      assert next == parts;
      SubsequenceRefl(Ways(parts));
    } else if StartsWith(here, "rel:") && here[4..] in rels {
      var relId := here[4..];
      var sub := if relId == id then parts else rels[relId].parts;
      assert next == before + sub + after;
      SpliceKeepsWays(before, here, after, sub);
    } else {
      assert next == before + [] + after;
      SpliceKeepsWays(before, here, after, []);
    }
  }

  /** Replacing a part that is not a way by any list keeps every way. */
  lemma SpliceKeepsWays(before: seq<string>, here: string, after: seq<string>, sub: seq<string>)
    requires !StartsWith(here, "way:")
    ensures Subsequence(Ways(before + [here] + after), Ways(before + sub + after))
  {
    DropKeepsWays(before, here, after);
    WaysAppend(before, after);
    WaysAppend(before + sub, after);
    WaysAppend(before, sub);
    SubsequenceInsert(Ways(before), Ways(sub), Ways(after));
  }

  /** A round loses no way part of a relation it keeps. */
  lemma {:induction false} RoundFromKeepsWays(rels: Rels, order: seq<string>, j: nat)
    requires Lists(order, rels)
    ensures var r := RoundFrom(rels, order, j);
      forall k :: k in rels && k in r.0 ==> Subsequence(Ways(rels[k].parts), Ways(r.0[k].parts))
    decreases |order| - j
  {
    var r := RoundFrom(rels, order, j);
    if j >= |order| {
      forall k | k in rels ensures Subsequence(Ways(rels[k].parts), Ways(rels[k].parts)) {
        SubsequenceRefl(Ways(rels[k].parts));
      }
    } else {
      var id := order[j];
      WalkInit(rels, order, id);
      InlineWalk(rels, order, id, rels, order, rels[id].parts, false, 0);
      var w := Inline(rels, order, id, rels[id].parts, 0, false);
      if w.3 {
        InlineKeepsWays(rels, order, id, rels[id].parts, 0, false);
        forall k | k in rels && k in r.0 ensures Subsequence(Ways(rels[k].parts), Ways(r.0[k].parts)) {
          if k != id {
            SubsequenceRefl(Ways(rels[k].parts));
          }
        }
      } else {
        RoundFromKeepsWays(rels, order, j + 1);
      }
    }
  }

  /** Flattening loses no way part of a relation it keeps: each surviving
      relation's own `way:` parts are still there, in their order, with the
      spliced-in parts between them. */
  lemma {:induction false} FlattenKeepsOwnWays(rels: Rels, order: seq<string>)
    requires Lists(order, rels)
    ensures var r := Flatten(rels, order);
      forall k :: k in r.0 ==> Subsequence(Ways(rels[k].parts), r.0[k].parts)
    decreases |rels.Keys|, PartCount(rels, order)
  {
    var step := Round(rels, order);
    RoundFromKeepsWays(rels, order, 0);
    var r := Flatten(rels, order);
    if step.2 {
      FlattenKeepsOwnWays(step.0, step.1);
      forall k | k in r.0 ensures Subsequence(Ways(rels[k].parts), r.0[k].parts) {
        SubsequenceTrans(Ways(rels[k].parts), Ways(step.0[k].parts), r.0[k].parts);
      }
    } else {
      forall k | k in r.0 ensures Subsequence(Ways(rels[k].parts), r.0[k].parts) {
        WaysOfWays(rels[k].parts);
        SubsequenceRefl(rels[k].parts);
      }
    }
  }

  /** A walk over way parts only changes nothing. */
  lemma {:induction false} InlineOverWays(rels: Rels, order: seq<string>, id: string, parts: seq<string>, index: nat)
    requires forall p :: p in parts ==> StartsWith(p, "way:")
    ensures Inline(rels, order, id, parts, index, false) == (rels, order, parts, false)
    decreases |parts| - index
  {
    if index < |parts| {
      var here := parts[index];
      assert StartsWith(here, "way:");
      assert here[..4][0] == 'w';
      assert Step(rels, order, id, parts, index, false) == (rels, order, parts, false);
      InlineOverWays(rels, order, id, parts, index + 1);
    }
  }

  lemma {:induction false} RoundFromOverFlat(rels: Rels, order: seq<string>, j: nat)
    requires Lists(order, rels) && Flat(rels)
    ensures RoundFrom(rels, order, j) == (rels, order, false)
    decreases |order| - j
  {
    if j < |order| {
      InlineOverWays(rels, order, order[j], rels[order[j]].parts, 0);
      RoundFromOverFlat(rels, order, j + 1);
    }
  }

  /** Relations that hold only way parts are left as they are, so flattening
      twice is flattening once. */
  lemma FlattenFlat(rels: Rels, order: seq<string>)
    requires Lists(order, rels)
    ensures Flat(rels) ==> Flatten(rels, order) == (rels, order)
    ensures var r := Flatten(rels, order); Flatten(r.0, r.1) == r
  {
    if Flat(rels) {
      RoundFromOverFlat(rels, order, 0);
    }
    var r := Flatten(rels, order);
    RoundFromOverFlat(r.0, r.1, 0);
  }

  /** No part of any relation names a relation. */
  ghost predicate NoSubrelations(rels: Rels) {
    forall id, p :: id in rels && p in rels[id].parts ==> !StartsWith(p, "rel:")
  }

  /** Removing a part that is not a way leaves the way parts as they were. */
  lemma DropKeepsWays(before: seq<string>, here: string, after: seq<string>)
    requires !StartsWith(here, "way:")
    ensures Ways(before + [here] + after) == Ways(before + after)
  {
    WaysAppend(before + [here], after);
    WaysAppend(before, [here]);
    assert Ways([here]) == [];
    WaysAppend(before, after);
  }

  /** A walk over parts that name no relation deletes nothing and only drops
      parts that are not ways. */
  lemma {:induction false} InlineWithoutSubrelations(rels: Rels, order: seq<string>, id: string,
                                                     parts: seq<string>, index: nat, changing: bool)
    requires forall p :: p in parts ==> !StartsWith(p, "rel:")
    ensures var r := Inline(rels, order, id, parts, index, changing);
      r.0 == rels && r.1 == order && Ways(r.2) == Ways(parts) && forall p :: p in r.2 ==> p in parts
    decreases |parts| - index
  {
    if index < |parts| {
      var before, here, after := parts[..index], parts[index], parts[index + 1..];
      assert parts == before + [here] + after;
      if StartsWith(here, "way:") {
        InlineWithoutSubrelations(rels, order, id, parts, index + 1, changing);
      } else {
        DropKeepsWays(before, here, after);
        InlineWithoutSubrelations(rels, order, id, before + after, index + 1, true);
      }
    }
  }

  lemma {:induction false} RoundFromWithoutSubrelations(rels: Rels, order: seq<string>, j: nat)
    requires Lists(order, rels) && NoSubrelations(rels)
    ensures var r := RoundFrom(rels, order, j);
      && r.0.Keys == rels.Keys && NoSubrelations(r.0)
      && forall k :: k in rels ==> Ways(r.0[k].parts) == Ways(rels[k].parts)
    decreases |order| - j
  {
    if j < |order| {
      if Inline(rels, order, order[j], rels[order[j]].parts, 0, false).3 {
        ChangedWithoutSubrelations(rels, order, j);
      } else {
        RoundFromWithoutSubrelations(rels, order, j + 1);
      }
    }
  }

  /** The walk that ends a round over relations without sub-relations
      rewrites only its own relation, keeping its way parts. */
  lemma ChangedWithoutSubrelations(rels: Rels, order: seq<string>, j: nat)
    requires Lists(order, rels) && NoSubrelations(rels) && j < |order|
    requires Inline(rels, order, order[j], rels[order[j]].parts, 0, false).3
    ensures var r := RoundFrom(rels, order, j);
      && r.0.Keys == rels.Keys && NoSubrelations(r.0)
      && forall k :: k in rels ==> Ways(r.0[k].parts) == Ways(rels[k].parts)
  {
    var id := order[j];
    InlineWithoutSubrelations(rels, order, id, rels[id].parts, 0, false);
  }

  /** A round over relations without sub-relations deletes nothing and
      keeps each relation's way parts. */
  lemma RoundWithoutSubrelations(rels: Rels, order: seq<string>)
    requires Lists(order, rels) && NoSubrelations(rels)
    ensures var step := Round(rels, order);
      && step.0.Keys == rels.Keys && NoSubrelations(step.0)
      && forall k :: k in rels ==> Ways(step.0[k].parts) == Ways(rels[k].parts)
  {
    RoundFromWithoutSubrelations(rels, order, 0);
  }

  /** Without sub-relations nothing is deleted and every relation ends up
      with exactly its own way parts, in their order. */
  lemma {:induction false} FlattenWithoutSubrelations(rels: Rels, order: seq<string>)
    requires Lists(order, rels) && NoSubrelations(rels)
    ensures var r := Flatten(rels, order);
      r.0.Keys == rels.Keys && forall k :: k in rels ==> r.0[k] == WithParts(rels[k], Ways(rels[k].parts))
    decreases |rels.Keys|, PartCount(rels, order)
  {
    var step := Round(rels, order);
    RoundWithoutSubrelations(rels, order);
    if step.2 {
      var r := Flatten(step.0, step.1);
      assert Flatten(rels, order) == r;
      FlattenWithoutSubrelations(step.0, step.1);
      forall k | k in rels ensures r.0[k] == WithParts(rels[k], Ways(rels[k].parts)) {
        assert r.0[k] == WithParts(step.0[k], Ways(step.0[k].parts));
        assert step.0[k] == WithParts(rels[k], step.0[k].parts);
      }
    } else {
      assert Flatten(rels, order) == (rels, order);
      forall k | k in rels ensures rels[k] == WithParts(rels[k], Ways(rels[k].parts)) {
        WaysOfWays(rels[k].parts);
      }
    }
  }
}

module RouteKeys {
  import opened Wrappers
  import opened Strings
  import opened OsmKeys
  import opened OsmParser
  import opened RouteRelations

  /** `(network, ref, modifier)` of a route relation. */
  type Triple = (string, string, string)

  /** One member way once looked up: its node ids, its relation's key and the
      way's own highway. */
  datatype Member = Member(nodes: seq<string>, route: Triple, highway: Option<string>)

  datatype RouteError =
    | ParseFailed(error: ParseError)
    | MissingWay(id: string)
    | NotUnpackable(element: string)

  /** `part[4:]`. */
  function Tail4(part: string): (r: string)
    ensures StartsWith(part, "way:") ==> "way:" + r == part
  {
    if |part| >= 4 then part[4..] else ""
  }

  function PairsOf(rr: RelRec): (r: seq<(RelRec, string)>)
    ensures |r| == |rr.parts|
    ensures forall i :: 0 <= i < |r| ==> r[i] == (rr, rr.parts[i])
  {
    seq(|rr.parts|, i requires 0 <= i < |rr.parts| => (rr, rr.parts[i]))
  }

  /** The (relation, part) pairs in the order of
      `for rel in rels.values(): for part in rel['parts']`. */
  function Members(rels: Rels, order: seq<string>): seq<(RelRec, string)> {
    if |order| == 0 then []
    else
      var id := order[|order| - 1];
      Members(rels, order[..|order| - 1]) + (if id in rels then PairsOf(rels[id]) else [])
  }

  /** `ways[way_id]`, then unpacking the way's 3-tuple key and the relation's
      3-tuple key; a way that is not in `ways` is a `KeyError`, a record whose
      key is still `None` cannot be unpacked. */
  function Resolve(ways: map<string, WayRec>, pair: (RelRec, string)): (r: Result<Member, RouteError>)
    ensures r.Err? <==> Tail4(pair.1) !in ways || !ways[Tail4(pair.1)].KeptWay?
                        || !ways[Tail4(pair.1)].key.NameHighwayRef? || !pair.0.KeptRel? || !pair.0.key.NetworkRefModifier?
    ensures r.Ok? ==> r.value.nodes == ways[Tail4(pair.1)].nodes
  {
    var wayId := Tail4(pair.1);
    if wayId !in ways then Err(MissingWay(wayId))
    else
      var way := ways[wayId];
      if !way.KeptWay? || !way.key.NameHighwayRef? then Err(NotUnpackable("way"))
      else if !pair.0.KeptRel? || !pair.0.key.NetworkRefModifier? then Err(NotUnpackable("relation"))
      else
        var k := pair.0.key;
        Ok(Member(way.nodes, (k.network, k.ref, k.modifier), way.key.wayHighway))
  }

  /** The members in order, or the first one that fails. */
  function ResolveAll(ways: map<string, WayRec>, pairs: seq<(RelRec, string)>): (r: Result<seq<Member>, RouteError>)
    ensures r.Ok? ==> |r.value| == |pairs|
  {
    if |pairs| == 0 then Ok([])
    else
      match ResolveAll(ways, pairs[..|pairs| - 1])
      case Err(e) => Err(e)
      case Ok(ms) =>
        match Resolve(ways, pairs[|pairs| - 1])
        case Err(e) => Err(e)
        case Ok(m) => Ok(ms + [m])
  }

  /** The whole list fails exactly when some member fails, and then with the
      first failure. */
  lemma {:induction false} ResolveAllFirstError(ways: map<string, WayRec>, pairs: seq<(RelRec, string)>)
    ensures ResolveAll(ways, pairs).Err? <==> exists k :: 0 <= k < |pairs| && Resolve(ways, pairs[k]).Err?
    ensures ResolveAll(ways, pairs).Err? ==>
              exists k :: 0 <= k < |pairs| && Resolve(ways, pairs[k]) == Err(ResolveAll(ways, pairs).error)
                          && forall j :: 0 <= j < k ==> Resolve(ways, pairs[j]).Ok?
  {
    if |pairs| > 0 {
      var init := pairs[..|pairs| - 1];
      ResolveAllFirstError(ways, init);
      assert forall j :: 0 <= j < |init| ==> pairs[j] == init[j];
      if ResolveAll(ways, init).Err? {
        var k :| 0 <= k < |init| && Resolve(ways, init[k]) == Err(ResolveAll(ways, init).error)
                 && forall j :: 0 <= j < k ==> Resolve(ways, init[j]).Ok?;
        assert ResolveAll(ways, pairs) == ResolveAll(ways, init);
        assert Resolve(ways, pairs[k]) == Err(ResolveAll(ways, pairs).error);
      } else {
        var last := |pairs| - 1;
        assert forall j :: 0 <= j < last ==> Resolve(ways, pairs[j]).Ok?;
        if Resolve(ways, pairs[last]).Err? {
          assert Resolve(ways, pairs[last]) == Err(ResolveAll(ways, pairs).error);
        }
      }
    }
  }

  /** A list that resolves holds each member's own lookup. */
  lemma {:induction false} ResolveAllEach(ways: map<string, WayRec>, pairs: seq<(RelRec, string)>)
    requires ResolveAll(ways, pairs).Ok?
    ensures forall k :: 0 <= k < |pairs| ==> Resolve(ways, pairs[k]) == Ok(ResolveAll(ways, pairs).value[k])
  {
    if |pairs| > 0 {
      var init := pairs[..|pairs| - 1];
      ResolveAllEach(ways, init);
      forall k | 0 <= k < |pairs| - 1 ensures pairs[k] == init[k] {
      }
    }
  }

  /** Once a prefix fails, every extension fails the same way. */
  lemma {:induction false} ResolveAllKeepsError(ways: map<string, WayRec>, pairs: seq<(RelRec, string)>, more: seq<(RelRec, string)>)
    requires ResolveAll(ways, pairs).Err?
    ensures ResolveAll(ways, pairs + more) == ResolveAll(ways, pairs)
    decreases |more|
  {
    if |more| > 0 {
      var init := more[..|more| - 1];
      ResolveAllKeepsError(ways, pairs, init);
      assert (pairs + more)[..|pairs + more| - 1] == pairs + init;
    } else {
      assert pairs + more == pairs;
    }
  }

  // ---------------------------------------------------------------------
  // The largest highway of each route (merge_highways == 'largest')

  /** `highways.get(way_hwy, 0)`. */
  function Rank(highway: Option<string>): (r: int)
    ensures 0 <= r <= 9
    ensures highway == Some("motorway") ==> r == 9
    ensures highway == Some("tertiary") ==> r == 5
    ensures highway.None? ==> r == 0
  {
    match highway
    case Some("motorway") => 9
    case Some("trunk") => 8
    case Some("primary") => 7
    case Some("secondary") => 6
    case Some("tertiary") => 5
    case _ => 0
  }

  /** A Python tuple used as a `net_refs` key. */
  type TupleKey = seq<string>

  function RouteKey(t: Triple): TupleKey {
    [t.0, t.1, t.2]
  }

  /** `net_refs.get(key, None)`. */
  function Lookup(netRefs: map<TupleKey, Option<string>>, key: TupleKey): Option<string> {
    if key in netRefs then netRefs[key] else None
  }

  /** Lines 145-153 as written: the largest highway so far is looked up under
      `(rel_net, rel_ref)` but stored under `(rel_net, rel_ref, rel_mod)`. */
  function NoteHighwayAsWritten(netRefs: map<TupleKey, Option<string>>, t: Triple, highway: Option<string>)
    : map<TupleKey, Option<string>>
  {
    var big := Lookup(netRefs, [t.0, t.1]);
    if big.None? || Rank(highway) > Rank(big) then netRefs[RouteKey(t) := highway] else netRefs
  }

  /** The same update with the lookup under the key it is stored under. */
  function NoteHighway(netRefs: map<TupleKey, Option<string>>, t: Triple, highway: Option<string>)
    : (r: map<TupleKey, Option<string>>)
    ensures r.Keys == netRefs.Keys + {RouteKey(t)}
    ensures forall k :: k in netRefs && k != RouteKey(t) ==> r[k] == netRefs[k]
  {
    var big := Lookup(netRefs, RouteKey(t));
    if big.None? || Rank(highway) > Rank(big) then netRefs[RouteKey(t) := highway] else netRefs
  }

  /** `net_refs` after the first pass over `members`, as written. */
  function NetRefsAsWritten(members: seq<Member>): map<TupleKey, Option<string>> {
    if |members| == 0 then map[]
    else
      var m := members[|members| - 1];
      NoteHighwayAsWritten(NetRefsAsWritten(members[..|members| - 1]), m.route, m.highway)
  }

  /** `net_refs` after the first pass over `members`, corrected. */
  function NetRefs(members: seq<Member>): map<TupleKey, Option<string>> {
    if |members| == 0 then map[]
    else
      var m := members[|members| - 1];
      NoteHighway(NetRefs(members[..|members| - 1]), m.route, m.highway)
  }

  /** `net_refs` after the first pass: as the script writes it when `fixed`
      is false, with the lookup under the stored key when it is true. */
  function NetRefsFor(fixed: bool, members: seq<Member>): map<TupleKey, Option<string>> {
    if fixed then NetRefs(members) else NetRefsAsWritten(members)
  }

  /** One way's note in `net_refs`, as written or corrected. */
  function NoteFor(fixed: bool, netRefs: map<TupleKey, Option<string>>, t: Triple, highway: Option<string>)
    : map<TupleKey, Option<string>>
  {
    if fixed then NoteHighway(netRefs, t, highway) else NoteHighwayAsWritten(netRefs, t, highway)
  }

  /** Either way, every route that has a member has an entry, so the second
      pass's `net_refs[(network, ref, modifier)]` never raises KeyError. */
  lemma NetRefsForKeys(fixed: bool, members: seq<Member>, k: int)
    requires 0 <= k < |members|
    ensures RouteKey(members[k].route) in NetRefsFor(fixed, members)
  {
    if fixed {
      NetRefsLargest(members, members[k].route);
    } else {
      NetRefsAsWrittenLast(members, members[k].route);
    }
  }

  /** The highway of the last member on route `t`. */
  function LastHighway(members: seq<Member>, t: Triple): Option<string> {
    if |members| == 0 then None
    else if members[|members| - 1].route == t then members[|members| - 1].highway
    else LastHighway(members[..|members| - 1], t)
  }

  /** As written the 2-tuple lookup never finds anything, so every way
      overwrites its route's entry and the last way on a route wins. */
  lemma {:induction false} NetRefsAsWrittenLast(members: seq<Member>, t: Triple)
    ensures forall k :: k in NetRefsAsWritten(members) ==> |k| == 3
    ensures (exists m :: m in members && m.route == t) ==>
              RouteKey(t) in NetRefsAsWritten(members) && NetRefsAsWritten(members)[RouteKey(t)] == LastHighway(members, t)
  {
    if |members| > 0 {
      var init := members[..|members| - 1];
      var m := members[|members| - 1];
      NetRefsAsWrittenLast(init, t);
      assert [m.route.0, m.route.1] !in NetRefsAsWritten(init);
      if m.route != t && exists m' :: m' in members && m'.route == t {
        var m' :| m' in members && m'.route == t;
        assert m' in init;
        assert RouteKey(m.route) != RouteKey(t);
      }
    }
  }

  /** Corrected, each route's entry is a highway of one of its ways, and none
      of the route's ways has a larger one. */
  lemma {:induction false} NetRefsLargest(members: seq<Member>, t: Triple)
    requires exists m :: m in members && m.route == t
    ensures RouteKey(t) in NetRefs(members)
    ensures exists m :: m in members && m.route == t && m.highway == NetRefs(members)[RouteKey(t)]
    ensures forall m :: m in members && m.route == t ==> Rank(m.highway) <= Rank(NetRefs(members)[RouteKey(t)])
  {
    var init := members[..|members| - 1];
    var m := members[|members| - 1];
    assert members == init + [m];
    if m.route == t {
      if exists m' :: m' in init && m'.route == t {
        NetRefsLargest(init, t);
      } else {
        assert RouteKey(t) !in NetRefs(init) by {
          NetRefsKeys(init, t);
        }
      }
    } else {
      var m' :| m' in members && m'.route == t;
      assert m' in init;
      NetRefsLargest(init, t);
      assert RouteKey(m.route) != RouteKey(t);
    }
  }

  lemma {:induction false} NetRefsKeys(members: seq<Member>, t: Triple)
    requires forall m :: m in members ==> m.route != t
    ensures RouteKey(t) !in NetRefs(members)
  {
    if |members| > 0 {
      var init := members[..|members| - 1];
      forall m | m in init ensures m.route != t {
        assert m in members;
      }
      NetRefsKeys(init, t);
      assert RouteKey(members[|members| - 1].route) != RouteKey(t);
    }
  }

  /** A motorway then a primary on one route: as written both ways end up
      keyed `primary`; corrected, `motorway`. */
  lemma LargestExample()
    ensures var t := ("US:I", "5", "");
      var ms := [Member(["1"], t, Some("motorway")), Member(["2"], t, Some("primary"))];
      && RouteKey(t) in NetRefsAsWritten(ms) && NetRefsAsWritten(ms)[RouteKey(t)] == Some("primary")
      && RouteKey(t) in NetRefs(ms) && NetRefs(ms)[RouteKey(t)] == Some("motorway")
  {
    var t := ("US:I", "5", "");
    var ms := [Member(["1"], t, Some("motorway")), Member(["2"], t, Some("primary"))];
    assert ms[..1] == [ms[0]] && ms[..1][..0] == [];
    assert NetRefsAsWritten(ms[..1]) == map[RouteKey(t) := Some("motorway")];
    assert NetRefs(ms[..1]) == map[RouteKey(t) := Some("motorway")];
    assert ["US:I", "5"] != RouteKey(t);
    assert Rank(Some("primary")) == 7;
  }

  // ---------------------------------------------------------------------
  // Applying relation keys to ways

  /** The key a member way gets in each `merge_highways` mode: `'yes'` keeps
      the relation's 3-tuple, `'largest'` adds the route's largest highway,
      any other mode adds the way's own highway. */
  function KeyFor(mode: string, m: Member, largest: Option<string>): (r: Key)
    ensures mode == "yes" <==> r.NetworkRefModifier?
    ensures (r.NetworkRefModifier? || r.RouteHighway?) && r.network == m.route.0 && r.ref == m.route.1 && r.modifier == m.route.2
    ensures mode != "yes" ==> r.wayHighway == (if mode == "largest" then largest else m.highway)
  {
    if mode == "yes" then NetworkRefModifier(m.route.0, m.route.1, m.route.2)
    else if mode == "largest" then RouteHighway(m.route.0, m.route.1, m.route.2, largest)
    else RouteHighway(m.route.0, m.route.1, m.route.2, m.highway)
  }

  /** What each of `rel_ways` holds when the first pass reaches it. */
  predicate FirstPassWay(mode: string, w: WayRec, m: Member) {
    w == KeptWay(m.nodes, if mode == "largest" then NetworkRefModifier(m.route.0, m.route.1, m.route.2)
                          else KeyFor(mode, m, None))
  }

  lemma MembersStep(rels: Rels, order: seq<string>, j: nat)
    requires j < |order|
    ensures Members(rels, order[..j + 1]) ==
              Members(rels, order[..j]) + (if order[j] in rels then PairsOf(rels[order[j]]) else [])
  {
    assert order[..j + 1][..j] == order[..j];
  }

  /** The first pass has handled `pairs`: `members` are their lookups, each
      has its entry in `rel_ways`, and in `'largest'` mode `net_refs` is
      up to date. */
  ghost predicate FirstPass(mode: string, fixed: bool, ways: map<string, WayRec>, pairs: seq<(RelRec, string)>,
                            members: seq<Member>, relWays: seq<WayRec>, netRefs: map<TupleKey, Option<string>>)
  {
    && ResolveAll(ways, pairs) == Ok(members)
    && |relWays| == |members|
    && (forall k :: 0 <= k < |members| ==> FirstPassWay(mode, relWays[k], members[k]))
    && (mode == "largest" ==> netRefs == NetRefsFor(fixed, members))
  }

  lemma FirstPassStep(mode: string, fixed: bool, ways: map<string, WayRec>, pairs: seq<(RelRec, string)>,
                      members: seq<Member>, relWays: seq<WayRec>, netRefs: map<TupleKey, Option<string>>,
                      pair: (RelRec, string), w: Member, entry: WayRec)
    requires FirstPass(mode, fixed, ways, pairs, members, relWays, netRefs)
    requires Resolve(ways, pair) == Ok(w) && FirstPassWay(mode, entry, w)
    ensures FirstPass(mode, fixed, ways, pairs + [pair], members + [w], relWays + [entry],
                      if mode == "largest" then NoteFor(fixed, netRefs, w.route, w.highway) else netRefs)
  {
    assert ResolveAll(ways, pairs + [pair]) == Ok(members + [w]) by {
      assert (pairs + [pair])[..|pairs|] == pairs;
    }
    assert mode == "largest" ==> NoteFor(fixed, netRefs, w.route, w.highway) == NetRefsFor(fixed, members + [w]) by {
      assert (members + [w])[..|members|] == members;
    }
    assert forall k :: 0 <= k < |members| + 1 ==> FirstPassWay(mode, (relWays + [entry])[k], (members + [w])[k]) by {
      forall k | 0 <= k < |members| + 1 ensures FirstPassWay(mode, (relWays + [entry])[k], (members + [w])[k]) {
        if k < |members| {
          assert (relWays + [entry])[k] == relWays[k] && (members + [w])[k] == members[k];
        }
      }
    }
  }

  lemma ResolveLastFails(ways: map<string, WayRec>, pairs: seq<(RelRec, string)>, pair: (RelRec, string))
    requires ResolveAll(ways, pairs).Ok? && Resolve(ways, pair).Err?
    ensures ResolveAll(ways, pairs + [pair]) == Err(Resolve(ways, pair).error)
  {
    assert (pairs + [pair])[..|pairs|] == pairs;
  }

  lemma PairsSplit(rr: RelRec, i: nat)
    requires i < |rr.parts|
    ensures PairsOf(rr)[..i + 1] == PairsOf(rr)[..i] + [(rr, rr.parts[i])]
    ensures PairsOf(rr)[..i + 1] + PairsOf(rr)[i + 1..] == PairsOf(rr)
  {
  }

  /** A failing lookup after a prefix that resolves is the failure of every
      list that continues from there. */
  lemma ErrorAfterPrefix(ways: map<string, WayRec>, prefix: seq<(RelRec, string)>, pair: (RelRec, string),
                         rest: seq<(RelRec, string)>)
    requires ResolveAll(ways, prefix).Ok? && Resolve(ways, pair).Err?
    ensures ResolveAll(ways, prefix + [pair] + rest) == Err(Resolve(ways, pair).error)
  {
    ResolveLastFails(ways, prefix, pair);
    ResolveAllKeepsError(ways, prefix + [pair], rest);
  }

  lemma MembersAround(rels: Rels, order: seq<string>, j: nat, i: nat)
    requires j < |order| && order[j] in rels && i < |rels[order[j]].parts|
    ensures |Members(rels, order[..j + 1])| <= |Members(rels, order)|
    ensures var rr := rels[order[j]];
      var front := Members(rels, order[..j + 1]);
      Members(rels, order) ==
        Members(rels, order[..j]) + PairsOf(rr)[..i] + [(rr, rr.parts[i])] + (PairsOf(rr)[i + 1..] + Members(rels, order)[|front|..])
  {
    var rr := rels[order[j]];
    var done := Members(rels, order[..j]);
    var front := Members(rels, order[..j + 1]);
    MembersPrefix(rels, order, j + 1);
    var rest := Members(rels, order)[|front|..];
    assert Members(rels, order) == front + rest;
    MembersStep(rels, order, j);
    assert front == done + PairsOf(rr);
    PairsSplit(rr, i);
    SplitAround(done, PairsOf(rr), i, rest);
  }

  lemma SplitAround<T>(done: seq<T>, ps: seq<T>, i: nat, rest: seq<T>)
    requires i < |ps|
    ensures done + ps + rest == done + ps[..i] + [ps[i]] + (ps[i + 1..] + rest)
  {
    assert ps == ps[..i] + [ps[i]] + ps[i + 1..];
  }

  /** A lookup that fails at pair `i` of relation `order[j]` is the failure of
      the whole member list. */
  lemma FirstPassFails(ways: map<string, WayRec>, rels: Rels, order: seq<string>, j: nat, i: nat)
    requires j < |order| && order[j] in rels && i < |rels[order[j]].parts|
    requires ResolveAll(ways, Members(rels, order[..j]) + PairsOf(rels[order[j]])[..i]).Ok?
    requires Resolve(ways, (rels[order[j]], rels[order[j]].parts[i])).Err?
    ensures ResolveAll(ways, Members(rels, order)) == Err(Resolve(ways, (rels[order[j]], rels[order[j]].parts[i])).error)
  {
    var rr := rels[order[j]];
    MembersAround(rels, order, j, i);
    ErrorAfterPrefix(ways, Members(rels, order[..j]) + PairsOf(rr)[..i], (rr, rr.parts[i]),
                     PairsOf(rr)[i + 1..] + Members(rels, order)[|Members(rels, order[..j + 1])|..]);
  }

  /** The inner loop `for part in rel['parts']` over relation `order[j]`. */
  method AssignRelation(rels: Rels, order: seq<string>, j: nat, ways: map<string, WayRec>, mode: string, fixed: bool,
                        relWays0: seq<WayRec>, netRefs0: map<TupleKey, Option<string>>, ghost members0: seq<Member>)
    returns (err: Option<RouteError>, relWays: seq<WayRec>, netRefs: map<TupleKey, Option<string>>, ghost members: seq<Member>)
    requires j < |order| && Lists(order, rels)
    requires FirstPass(mode, fixed, ways, Members(rels, order[..j]), members0, relWays0, netRefs0)
    ensures err.Some? ==> ResolveAll(ways, Members(rels, order)) == Err(err.value)
    ensures err.None? ==> FirstPass(mode, fixed, ways, Members(rels, order[..j + 1]), members, relWays, netRefs)
  {
    relWays, netRefs, members := relWays0, netRefs0, members0;
    MembersStep(rels, order, j);
    var rr := rels[order[j]];
    ghost var done := Members(rels, order[..j]);
    assert done + PairsOf(rr)[..0] == done;
    for i := 0 to |rr.parts|
      invariant FirstPass(mode, fixed, ways, done + PairsOf(rr)[..i], members, relWays, netRefs)
    {
      var part := rr.parts[i];
      var m := Resolve(ways, (rr, part));
      if m.Err? {
        FirstPassFails(ways, rels, order, j, i);
        return Some(m.error), relWays, netRefs, members;
      }
      var w := m.value;
      var entry;
      if mode == "yes" {
        entry := KeptWay(w.nodes, NetworkRefModifier(w.route.0, w.route.1, w.route.2));
      } else if mode == "largest" {
        entry := KeptWay(w.nodes, NetworkRefModifier(w.route.0, w.route.1, w.route.2));
      } else {
        entry := KeptWay(w.nodes, RouteHighway(w.route.0, w.route.1, w.route.2, w.highway));
      }
      assert FirstPass(mode, fixed, ways, done + PairsOf(rr)[..i + 1], members + [w], relWays + [entry],
                       if mode == "largest" then NoteFor(fixed, netRefs, w.route, w.highway) else netRefs) by {
        FirstPassStep(mode, fixed, ways, done + PairsOf(rr)[..i], members, relWays, netRefs, (rr, part), w, entry);
        PairsSplit(rr, i);
        assert done + PairsOf(rr)[..i + 1] == done + PairsOf(rr)[..i] + [(rr, part)];
      }
      if mode == "largest" {
        netRefs := NoteFor(fixed, netRefs, w.route, w.highway);
      }
      relWays := relWays + [entry];
      members := members + [w];
    }
    assert PairsOf(rr)[..|rr.parts|] == PairsOf(rr);
    err := None;
  }

  /** `w` is member `m`'s way keyed with the largest highway on its route. */
  predicate LargestKeyed(netRefs: map<TupleKey, Option<string>>, m: Member, w: WayRec) {
    && RouteKey(m.route) in netRefs
    && w == KeptWay(m.nodes, KeyFor("largest", m, netRefs[RouteKey(m.route)]))
  }

  /** Re-keying one way of the first pass. */
  lemma LargestStep(netRefs: map<TupleKey, Option<string>>, m: Member, w: WayRec)
    requires FirstPassWay("largest", w, m) && RouteKey(m.route) in netRefs
    ensures LargestKeyed(netRefs, m, KeptWay(w.nodes, RouteHighway(w.key.network, w.key.ref, w.key.modifier,
                                                                netRefs[[w.key.network, w.key.ref, w.key.modifier]])))
  {
  }

  /** Lines 162-170: in `'largest'` mode each way's 3-tuple key gets its
      route's highway from `net_refs`. */
  method ApplyLargest(relWays0: seq<WayRec>, netRefs: map<TupleKey, Option<string>>, ghost members: seq<Member>)
    returns (relWays: seq<WayRec>)
    requires |relWays0| == |members|
    requires forall k :: 0 <= k < |members| ==> FirstPassWay("largest", relWays0[k], members[k])
    requires forall k :: 0 <= k < |members| ==> RouteKey(members[k].route) in netRefs
    ensures |relWays| == |members|
    ensures forall k :: 0 <= k < |members| ==> LargestKeyed(netRefs, members[k], relWays[k])
  {
    relWays := relWays0;
    for k := 0 to |relWays|
      invariant |relWays| == |members|
      invariant forall k' :: 0 <= k' < k ==> LargestKeyed(netRefs, members[k'], relWays[k'])
      invariant forall k' :: k <= k' < |members| ==> relWays[k'] == relWays0[k']
    {
      LargestStep(netRefs, members[k], relWays[k]);
      var key := relWays[k].key;
      relWays := relWays[k := KeptWay(relWays[k].nodes,
                                      RouteHighway(key.network, key.ref, key.modifier, netRefs[[key.network, key.ref, key.modifier]]))];
    }
  }

  /** `rel_ways` after both passes: one copy per member way, in order, keyed
      for `mode`, in `'largest'` mode from the `net_refs` the first pass built. */
  predicate KeyedAll(mode: string, fixed: bool, members: seq<Member>, relWays: seq<WayRec>) {
    && |relWays| == |members|
    && forall k :: 0 <= k < |members| ==>
         && RouteKey(members[k].route) in NetRefsFor(fixed, members)
         && relWays[k] == KeptWay(members[k].nodes,
                                  KeyFor(mode, members[k], NetRefsFor(fixed, members)[RouteKey(members[k].route)]))
  }

  /** In `'largest'` mode, as written every way carries the highway of the
      last way on its route; corrected, a highway of its route that no way
      on the route outranks. */
  lemma KeyedLargest(fixed: bool, members: seq<Member>, relWays: seq<WayRec>, k: int)
    requires KeyedAll("largest", fixed, members, relWays) && 0 <= k < |members|
    ensures relWays[k].KeptWay? && relWays[k].key.RouteHighway?
    ensures !fixed ==> relWays[k].key.wayHighway == LastHighway(members, members[k].route)
    ensures fixed ==> exists m :: m in members && m.route == members[k].route && m.highway == relWays[k].key.wayHighway
    ensures fixed ==> forall m :: m in members && m.route == members[k].route ==>
                        Rank(m.highway) <= Rank(relWays[k].key.wayHighway)
  {
    if fixed {
      NetRefsLargest(members, members[k].route);
    } else {
      NetRefsAsWrittenLast(members, members[k].route);
    }
  }

  /** Lines 125-170: every way member of every relation, in order, becomes
      `rel_ways[len(rel_ways)]`, a copy of the way keyed for `mode`; the first
      missing or unkeyed way or relation raises. `fixed` chooses the
      `net_refs` lookup: false as the script writes it, true corrected. */
  method AssignKeys(rels: Rels, order: seq<string>, ways: map<string, WayRec>, mode: string, fixed: bool)
    returns (r: Result<seq<WayRec>, RouteError>)
    requires Lists(order, rels)
    ensures var res := ResolveAll(ways, Members(rels, order));
      && (r.Err? <==> res.Err?)
      && (r.Err? ==> r.error == res.error)
      && (r.Ok? ==> KeyedAll(mode, fixed, res.value, r.value))
  {
    var relWays: seq<WayRec> := [];
    var netRefs: map<TupleKey, Option<string>> := map[];
    ghost var members: seq<Member> := [];
    for j := 0 to |order|
      invariant FirstPass(mode, fixed, ways, Members(rels, order[..j]), members, relWays, netRefs)
    {
      var err;
      err, relWays, netRefs, members := AssignRelation(rels, order, j, ways, mode, fixed, relWays, netRefs, members);
      if err.Some? {
        return Err(err.value);
      }
    }
    assert order[..|order|] == order;
    forall k | 0 <= k < |members| ensures RouteKey(members[k].route) in NetRefsFor(fixed, members) {
      NetRefsForKeys(fixed, members, k);
    }
    if mode == "largest" {
      relWays := ApplyLargest(relWays, netRefs, members);
    }
    return Ok(relWays);
  }

  /** `parse_route_relation_waynodes`: parse with `name_highway_ref_key` for
      ways and `network_ref_modifier_key` for relations, collapse
      sub-relations (`rels`, listed in `order`, is the collapsed dict), then
      key every member way for `mode`. The result is the keyed member ways of
      the collapsed relations, in order, or the parse error or the first
      failing member lookup; every node id a returned way lists is among the
      returned nodes. */
  method RouteRelationWaynodes(events: seq<Event>, parseFloat: string -> Option<real>, mode: string, fixed: bool)
    returns (r: Result<(seq<WayRec>, map<string, Coord>), RouteError>,
             ghost rels: Rels, ghost order: seq<string>, ghost order0: seq<string>)
    ensures var run := Run(Initial, events, parseFloat, tags => Some(NameHighwayRefKey(tags)), NetworkRefModifierKey);
      && (run.Err? ==> r == Err(ParseFailed(run.error)))
      && (run.Ok? ==>
            && Lists(order0, run.value.rels) && (rels, order) == Flatten(run.value.rels, order0)
            && Lists(order, rels) && Shrunk(rels, run.value.rels) && Flat(rels)
            && PartsWithin(rels, AllParts(run.value.rels))
            && (forall k :: k in run.value.rels && k !in rels ==> "rel:" + k in AllParts(run.value.rels))
            && (forall k :: k in rels ==> Subsequence(Ways(run.value.rels[k].parts), rels[k].parts))
            && var res := ResolveAll(run.value.ways, Members(rels, order));
               && (r.Err? <==> res.Err?)
               && (r.Err? ==> r.error == res.error)
               && (r.Ok? ==> r.value.1 == run.value.nodes && KeyedAll(mode, fixed, res.value, r.value.0)))
    ensures r.Ok? ==> forall k :: 0 <= k < |r.value.0| ==>
              r.value.0[k].KeptWay? && (mode == "yes" <==> r.value.0[k].key.NetworkRefModifier?)
    ensures r.Ok? ==> forall k, n :: 0 <= k < |r.value.0| && n in r.value.0[k].nodes ==> n in r.value.1
  {
    rels, order, order0 := map[], [], [];
    var parser := new ParserOSM(tags => Some(NameHighwayRefKey(tags)), NetworkRefModifierKey);
    var parsed := parser.Parse(events, parseFloat);
    if parsed.Err? {
      return Err(ParseFailed(parsed.error)), rels, order, order0;
    }
    var (rels0, ways, nodes) := parsed.value;
    RunValid(Initial, events, parseFloat, tags => Some(NameHighwayRefKey(tags)), NetworkRefModifierKey);
    var dictOrder := DictOrder(rels0);
    var flat, flatOrder := FlattenRelations(rels0, dictOrder);
    rels, order, order0 := flat, flatOrder, dictOrder;
    FlattenKeepsOwnWays(rels0, dictOrder);
    var keyed := AssignKeys(flat, flatOrder, ways, mode, fixed);
    if keyed.Err? {
      return Err(keyed.error), rels, order, order0;
    }
    ghost var res := ResolveAll(ways, Members(rels, order));
    ResolveAllEach(ways, Members(rels, order));
    forall k, n | 0 <= k < |keyed.value| && n in keyed.value[k].nodes ensures n in nodes {
      var pair := Members(rels, order)[k];
      assert Resolve(ways, pair) == Ok(res.value[k]);
      assert Tail4(pair.1) in ways && n in ways[Tail4(pair.1)].nodes;
    }
    return Ok((keyed.value, nodes)), rels, order, order0;
  }

  lemma MembersPrefix(rels: Rels, order: seq<string>, j: nat)
    requires j <= |order|
    ensures |Members(rels, order[..j])| <= |Members(rels, order)|
    ensures Members(rels, order) == Members(rels, order[..j]) + Members(rels, order)[|Members(rels, order[..j])|..]
    decreases |order| - j
  {
    if j < |order| {
      MembersPrefix(rels, order, j + 1);
      MembersStep(rels, order, j);
    } else {
      assert order[..j] == order;
    }
  }
}
