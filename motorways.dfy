/** skeletron-osm-motorways.py: motorway and trunk ways keyed by their `ref`,
    one multiline per individual ref (a way tagged `A1;A2` counts for both),
    and one GeoJSON feature per ref whose centerline is not empty. The
    geometry (building the multiline of a network, the union of two
    multilines, the centerline) is foreign and enters as parameters. */
module Motorways {
  import opened Wrappers
  import opened Strings
  import opened Sorting
  import opened OsmKeys

  /** `highway_key`: the raw `ref` of a motorway or trunk way; None when ref or
      highway is missing or empty, or the highway is of another kind. */
  function HighwayKey(tags: Tags): (r: Option<Key>)
    ensures r.Some? <==> HasValue(tags, "ref") && HasValue(tags, "highway")
                         && (tags["highway"] == "motorway" || tags["highway"] == "trunk")
    ensures r.Some? ==> r.value == Ref(tags["ref"]) && r.value.ref != ""
  {
    if "ref" !in tags then None
    else if "highway" !in tags then None
    else if tags["ref"] == "" || tags["highway"] == "" then None
    else if tags["highway"] !in ["motorway", "trunk"] then None
    else Some(Ref(tags["ref"]))
  }

  lemma HighwayKeyExamples()
    ensures HighwayKey(map["ref" := "A1;A2", "highway" := "motorway"]) == Some(Ref("A1;A2"))
    ensures HighwayKey(map["ref" := "A1", "highway" := "motorway_link"]) == None
    ensures HighwayKey(map["highway" := "trunk"]) == None
  {
  }

  // ---------------------------------------------------------------------
  // for ref in refs.split(';'): ref = ref.strip()

  /** The individual refs of a key: the pieces between semicolons, stripped. */
  function RefPieces(refs: string): (r: seq<string>)
    ensures |r| == |Split(refs, ';')| >= 1
    ensures forall i :: 0 <= i < |r| ==> ';' !in r[i]
    ensures forall i :: 0 <= i < |r| && |r[i]| > 0 ==> !IsSpace(r[i][0]) && !IsSpace(r[i][|r[i]| - 1])
  {
    var pieces := Split(refs, ';');
    SplitPiecesFree(refs, ';');
    seq(|pieces|, i requires 0 <= i < |pieces| => StripSlice(pieces[i]); Strip(pieces[i]))
  }

  /** Stripping keeps only characters of the input. */
  lemma StripSlice(s: string)
    ensures forall c :: c in Strip(s) ==> c in s
  {
    var l := TrimLeft(s);
    var r := Strip(s);
    var off := |s| - |l|;
    assert r == s[off..off + |r|];
    forall c | c in r
      ensures c in s
    {
      var i :| 0 <= i < |r| && r[i] == c;
      assert c == s[off + i];
    }
  }

  /** A single ref without spaces is its own only piece. */
  lemma RefPiecesSingle(refs: string)
    requires ';' !in refs && forall i :: 0 <= i < |refs| ==> !IsSpace(refs[i])
    ensures RefPieces(refs) == [refs]
  {
    SplitWithoutSep(refs, ';');
  }

  // ---------------------------------------------------------------------
  // The multilines dictionary

  /** `multilines[ref]` as an Option. */
  function Lookup<M>(m: map<string, M>, ref: string): (r: Option<M>)
    ensures r.Some? <==> ref in m
  {
    if ref in m then Some(m[ref]) else None
  }

  /** One piece: union into the existing entry, or a new entry. */
  function AddRef<M>(m: map<string, M>, ref: string, multiline: M, union: (M, M) -> M): map<string, M> {
    if ref in m then m[ref := union(m[ref], multiline)] else m[ref := multiline]
  }

  /** The inner loop: every piece of one key, in order. */
  function AddRefs<M>(m: map<string, M>, pieces: seq<string>, multiline: M, union: (M, M) -> M): map<string, M>
    decreases |pieces|
  {
    if |pieces| == 0 then m
    else AddRef(AddRefs(m, pieces[..|pieces| - 1], multiline, union), pieces[|pieces| - 1], multiline, union)
  }

  /** The outer loop over the parsed networks, each with its multiline. */
  function Collected<M>(items: seq<(string, M)>, union: (M, M) -> M): map<string, M>
    decreases |items|
  {
    if |items| == 0 then map[]
    else
      var last := items[|items| - 1];
      AddRefs(Collected(items[..|items| - 1], union), RefPieces(last.0), last.1, union)
  }

  /** Builds `multilines` from the networks in iteration order. */
  method RefMultilines<M>(items: seq<(string, M)>, union: (M, M) -> M) returns (multilines: map<string, M>)
    ensures multilines == Collected(items, union)
  {
    multilines := map[];
    for i := 0 to |items|
      invariant multilines == Collected(items[..i], union)
    {
      var (refs, multiline) := items[i];
      ghost var before := multilines;
      var pieces := RefPieces(refs);
      for j := 0 to |pieces|
        invariant multilines == AddRefs(before, pieces[..j], multiline, union)
      {
        var ref := pieces[j];
        assert pieces[..j + 1][..j] == pieces[..j];
        if ref in multilines {
          multilines := multilines[ref := union(multilines[ref], multiline)];
        } else {
          multilines := multilines[ref := multiline];
        }
      }
      assert pieces[..|pieces|] == pieces;
      assert items[..i + 1][..i] == items[..i];
    }
    assert items[..|items|] == items;
  }

  // ---------------------------------------------------------------------
  // The same dictionary described ref by ref

  /** The multiline of a key, once for every piece of the key that is `ref`. */
  function Occurrences<M>(pieces: seq<string>, ref: string, multiline: M): seq<M>
    decreases |pieces|
  {
    if |pieces| == 0 then []
    else
      Occurrences(pieces[..|pieces| - 1], ref, multiline)
      + (if pieces[|pieces| - 1] == ref then [multiline] else [])
  }

  /** Every multiline that contributes to `ref`, in the order they are met. */
  function Contributions<M>(items: seq<(string, M)>, ref: string): seq<M>
    decreases |items|
  {
    if |items| == 0 then []
    else
      var last := items[|items| - 1];
      Contributions(items[..|items| - 1], ref) + Occurrences(RefPieces(last.0), ref, last.1)
  }

  /** The union of a list of multilines folded from the left, starting from an
      optional first one. */
  function UnionAll<M>(start: Option<M>, ms: seq<M>, union: (M, M) -> M): (r: Option<M>)
    ensures r.None? <==> start.None? && |ms| == 0
    decreases |ms|
  {
    if |ms| == 0 then start
    else
      var acc := UnionAll(start, ms[..|ms| - 1], union);
      var m := ms[|ms| - 1];
      if acc.Some? then Some(union(acc.value, m)) else Some(m)
  }

  lemma {:induction false} UnionAllAppend<M>(start: Option<M>, a: seq<M>, b: seq<M>, union: (M, M) -> M)
    ensures UnionAll(start, a + b, union) == UnionAll(UnionAll(start, a, union), b, union)
    decreases |b|
  {
    if |b| == 0 {
      assert a + b == a;
    } else {
      var n := |b| - 1;
      UnionAllAppend(start, a, b[..n], union);
      assert (a + b)[..|a + b| - 1] == a + b[..n];
    }
  }

  lemma {:induction false} AddRefsLookup<M>(m: map<string, M>, pieces: seq<string>, multiline: M,
                                            union: (M, M) -> M, ref: string)
    ensures Lookup(AddRefs(m, pieces, multiline, union), ref)
            == UnionAll(Lookup(m, ref), Occurrences(pieces, ref, multiline), union)
    decreases |pieces|
  {
    if |pieces| > 0 {
      var n := |pieces| - 1;
      AddRefsLookup(m, pieces[..n], multiline, union, ref);
      var tail := if pieces[n] == ref then [multiline] else [];
      UnionAllAppend(Lookup(m, ref), Occurrences(pieces[..n], ref, multiline), tail, union);
    }
  }

  /** The dictionary the loops build has an entry for exactly the refs some
      key mentions, and that entry is the union, in order, of every multiline
      whose key mentions the ref (once per mention). */
  lemma {:induction false} CollectedLookup<M>(items: seq<(string, M)>, union: (M, M) -> M, ref: string)
    ensures Lookup(Collected(items, union), ref) == UnionAll(None, Contributions(items, ref), union)
    decreases |items|
  {
    if |items| > 0 {
      var n := |items| - 1;
      var last := items[n];
      CollectedLookup(items[..n], union, ref);
      AddRefsLookup(Collected(items[..n], union), RefPieces(last.0), last.1, union, ref);
      UnionAllAppend(None, Contributions(items[..n], ref), Occurrences(RefPieces(last.0), ref, last.1), union);
    }
  }

  lemma {:induction false} OccurrencesNonEmpty<M>(pieces: seq<string>, ref: string, multiline: M)
    ensures |Occurrences(pieces, ref, multiline)| > 0 <==> ref in pieces
    decreases |pieces|
  {
    if |pieces| > 0 {
      var n := |pieces| - 1;
      OccurrencesNonEmpty(pieces[..n], ref, multiline);
      assert pieces == pieces[..n] + [pieces[n]];
    }
  }

  /** Some key among the first networks has `ref` among its pieces. */
  predicate Mentioned<M>(items: seq<(string, M)>, ref: string) {
    exists i :: 0 <= i < |items| && ref in RefPieces(items[i].0)
  }

  /** Some element of a non-empty sequence satisfies `p` exactly when one
      before the last does or the last one does. */
  lemma ExistsSnoc<T>(xs: seq<T>, p: T -> bool)
    requires |xs| > 0
    ensures var n := |xs| - 1;
            (exists i :: 0 <= i < |xs| && p(xs[i])) <==> (exists i :: 0 <= i < n && p(xs[..n][i])) || p(xs[n])
  {
    var n := |xs| - 1;
    if exists i :: 0 <= i < n && p(xs[..n][i]) {
      var i :| 0 <= i < n && p(xs[..n][i]);
      assert xs[..n][i] == xs[i];
    }
    if exists i :: 0 <= i < |xs| && p(xs[i]) {
      var i :| 0 <= i < |xs| && p(xs[i]);
      if i < n {
        assert xs[..n][i] == xs[i];
      }
    }
  }

  lemma MentionedSnoc<M>(items: seq<(string, M)>, ref: string)
    requires |items| > 0
    ensures var n := |items| - 1;
            Mentioned(items, ref) <==> Mentioned(items[..n], ref) || ref in RefPieces(items[n].0)
  {
    ExistsSnoc(items, (item: (string, M)) => ref in RefPieces(item.0));
  }

  lemma {:induction false} ContributionsNonEmpty<M>(items: seq<(string, M)>, ref: string)
    ensures |Contributions(items, ref)| > 0 <==> Mentioned(items, ref)
    decreases |items|
  {
    if |items| > 0 {
      var n := |items| - 1;
      ContributionsNonEmpty(items[..n], ref);
      OccurrencesNonEmpty(RefPieces(items[n].0), ref, items[n].1);
      MentionedSnoc(items, ref);
    }
  }

  /** A ref has an entry exactly when some key's pieces include it. */
  lemma CollectedKeys<M>(items: seq<(string, M)>, union: (M, M) -> M, ref: string)
    ensures ref in Collected(items, union) <==> Mentioned(items, ref)
  {
    CollectedLookup(items, union, ref);
    ContributionsNonEmpty(items, ref);
  }

  // ---------------------------------------------------------------------
  // The output features

  /** A GeoJSON feature whose properties hold only the ref. */
  datatype Feature<C> = Feature(geometry: C, ref: string)

  function Properties<C>(f: Feature<C>): map<string, string> {
    map["ref" := f.ref]
  }

  /** `for (ref, multiline) in multilines.items()`: one feature per ref whose
      centerline is truthy, in an order the model leaves open. */
  method EmitFeatures<M, C>(multilines: map<string, M>, centerline: M -> C, truthy: C -> bool)
    returns (features: seq<Feature<C>>)
    ensures forall f :: f in features ==>
              f.ref in multilines && f.geometry == centerline(multilines[f.ref]) && truthy(f.geometry)
    ensures forall ref :: ref in multilines && truthy(centerline(multilines[ref])) ==>
              exists f :: f in features && f.ref == ref
    ensures forall i, j :: 0 <= i < j < |features| ==> features[i].ref != features[j].ref
  {
    var order := SetToSeq(multilines.Keys);
    features := [];
    for k := 0 to |order|
      invariant forall f :: f in features ==>
                  f.ref in multilines && f.geometry == centerline(multilines[f.ref]) && truthy(f.geometry)
      invariant forall i :: 0 <= i < k && truthy(centerline(multilines[order[i]])) ==>
                  exists f :: f in features && f.ref == order[i]
      invariant forall f :: f in features ==> f.ref in order[..k]
      invariant forall i, j :: 0 <= i < j < |features| ==> features[i].ref != features[j].ref
    {
      var ref := order[k];
      var c := centerline(multilines[ref]);
      if truthy(c) {
        assert ref !in order[..k];
        features := features + [Feature(c, ref)];
      }
    }
    forall ref | ref in multilines && truthy(centerline(multilines[ref]))
      ensures exists f :: f in features && f.ref == ref
    {
      assert ref in set w | w in order;
      var i :| 0 <= i < |order| && order[i] == ref;
    }
  }
}
