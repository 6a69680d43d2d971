// skeletron-osm-keys-list.py: the distinct combinations of tag values over
// all ways, one CSV row per combination, with semicolon lists expanded.

module KeysList {
  import opened Wrappers
  import opened Strings
  import opened Sorting
  import opened OsmKeys

  /** The `--tags` default. */
  const DefaultTags: string := "ref,highway"

  /** `options.tags.split(',')`. */
  function TagNames(tags: string): seq<string> {
    Split(tags, ',')
  }

  lemma DefaultTagNames()
    ensures TagNames(DefaultTags) == ["ref", "highway"]
  {
    assert DefaultTags == "ref" + [','] + "highway";
    SplitTwo("ref", "highway", ',');
  }

  /** The header row: `'input ' + tag` for each tag name, in order; stripping
      the prefix gives the names back. */
  function Header(tagNames: seq<string>): (r: seq<string>)
    ensures |r| == |tagNames|
    ensures forall i :: 0 <= i < |r| ==> StartsWith(r[i], "input ") && r[i][6..] == tagNames[i]
  {
    seq(|tagNames|, i requires 0 <= i < |tagNames| => "input " + tagNames[i])
  }

  /** `key_func`: one value per requested tag, None where the way lacks it. */
  function KeyFunc(tagNames: seq<string>, wayTags: Tags): (r: seq<Option<string>>)
    ensures |r| == |tagNames|
    ensures forall i :: 0 <= i < |r| ==> (r[i].Some? <==> tagNames[i] in wayTags)
    ensures forall i :: 0 <= i < |r| && r[i].Some? ==> r[i].value == wayTags[tagNames[i]]
  {
    seq(|tagNames|, i requires 0 <= i < |tagNames| => Get(wayTags, tagNames[i]))
  }

  /** `cell and cell.split(';') or [None]`: a missing or empty value stays a
      single None; otherwise the pieces between semicolons. */
  function Cells(cell: Option<string>): (r: seq<Option<string>>)
    ensures |r| >= 1
  {
    if cell.Some? && cell.value != "" then
      var pieces := Split(cell.value, ';');
      seq(|pieces|, i requires 0 <= i < |pieces| => Some(pieces[i]))
    else [None]
  }

  /** The strings of a row of cells that are all present. */
  function Values(cells: seq<Option<string>>): (r: seq<string>)
    requires forall i :: 0 <= i < |cells| ==> cells[i].Some?
    ensures |r| == |cells|
  {
    seq(|cells|, i requires 0 <= i < |cells| => cells[i].value)
  }

  /** A value splits into present pieces free of semicolons that join back to
      it; a missing or empty value gives the single None. */
  lemma CellsJoin(cell: Option<string>)
    ensures cell.None? || cell.value == "" ==> Cells(cell) == [None]
    ensures cell.Some? && cell.value != "" ==>
              && (forall i :: 0 <= i < |Cells(cell)| ==> Cells(cell)[i].Some? && ';' !in Cells(cell)[i].value)
              && Join(Values(Cells(cell)), ';') == cell.value
  {
    if cell.Some? && cell.value != "" {
      var pieces := Split(cell.value, ';');
      SplitPiecesFree(cell.value, ';');
      JoinSplit(cell.value, ';');
      assert Values(Cells(cell)) == pieces;
    }
  }

  /** `product(*row)`: every way of choosing one entry from each list. */
  function Product<T(==)>(rows: seq<seq<T>>): set<seq<T>> {
    if |rows| == 0 then {[]}
    else
      var k := |rows| - 1;
      set p, x | p in Product(rows[..k]) && x in rows[k] :: p + [x]
  }

  /** A combination is in the product exactly when it has one entry per list,
      each from its list. */
  lemma {:induction false} ProductMembers<T>(rows: seq<seq<T>>, r: seq<T>)
    ensures r in Product(rows) <==> |r| == |rows| && forall i :: 0 <= i < |r| ==> r[i] in rows[i]
  {
    if |rows| > 0 {
      var k := |rows| - 1;
      if r in Product(rows) {
        var p, x :| p in Product(rows[..k]) && x in rows[k] && r == p + [x];
        ProductMembers(rows[..k], p);
        forall i | 0 <= i < |r|
          ensures r[i] in rows[i]
        {
          if i < k {
            assert r[i] == p[i];
          }
        }
      }
      if |r| == |rows| && forall i :: 0 <= i < |r| ==> r[i] in rows[i] {
        var p := r[..k];
        ProductMembers(rows[..k], p);
        assert p + [r[k]] == r;
      }
    } else {
      if r in Product(rows) {
        assert r == [];
      }
    }
  }

  /** The cell lists of one way's key. */
  function RowCells(key: seq<Option<string>>): (r: seq<seq<Option<string>>>)
    ensures |r| == |key|
  {
    seq(|key|, i requires 0 <= i < |key| => Cells(key[i]))
  }

  /** Every combination drawn from all the ways' keys. */
  function AllRows(keys: seq<seq<Option<string>>>): set<seq<Option<string>>> {
    if |keys| == 0 then {}
    else AllRows(keys[..|keys| - 1]) + Product(RowCells(keys[|keys| - 1]))
  }

  /** The loop over the ways: each way's combinations are added to `rows`. */
  method CollectRows(keys: seq<seq<Option<string>>>) returns (rows: set<seq<Option<string>>>)
    ensures rows == AllRows(keys)
  {
    rows := {};
    for k := 0 to |keys|
      invariant rows == AllRows(keys[..k])
    {
      assert keys[..k + 1][..k] == keys[..k];
      rows := rows + Product(RowCells(keys[k]));
    }
    assert keys[..|keys|] == keys;
  }

  /** `r` picks one entry from the cells of each value of `key`. */
  predicate Yields(key: seq<Option<string>>, r: seq<Option<string>>) {
    |r| == |key| && forall i :: 0 <= i < |r| ==> r[i] in Cells(key[i])
  }

  lemma ProductYields(key: seq<Option<string>>, r: seq<Option<string>>)
    ensures r in Product(RowCells(key)) <==> Yields(key, r)
  {
    ProductMembers(RowCells(key), r);
  }

  lemma {:induction false} AllRowsSound(keys: seq<seq<Option<string>>>, r: seq<Option<string>>)
    requires r in AllRows(keys)
    ensures exists k :: 0 <= k < |keys| && Yields(keys[k], r)
  {
    var n := |keys| - 1;
    if r in AllRows(keys[..n]) {
      AllRowsSound(keys[..n], r);
      var k :| 0 <= k < n && Yields(keys[..n][k], r);
      assert keys[..n][k] == keys[k];
    } else {
      ProductYields(keys[n], r);
    }
  }

  lemma {:induction false} AllRowsComplete(keys: seq<seq<Option<string>>>, k: int, r: seq<Option<string>>)
    requires 0 <= k < |keys| && Yields(keys[k], r)
    ensures r in AllRows(keys)
  {
    var n := |keys| - 1;
    if k < n {
      assert keys[..n][k] == keys[k];
      AllRowsComplete(keys[..n], k, r);
    } else {
      ProductYields(keys[n], r);
    }
  }

  /** A row is written exactly when some way's key yields it: one piece of
      each value (or None), so every row has one entry per tag name. */
  lemma AllRowsMembers(keys: seq<seq<Option<string>>>, r: seq<Option<string>>)
    ensures r in AllRows(keys) <==> exists k :: 0 <= k < |keys| && Yields(keys[k], r)
  {
    if r in AllRows(keys) {
      AllRowsSound(keys, r);
    }
    if exists k :: 0 <= k < |keys| && Yields(keys[k], r) {
      var k :| 0 <= k < |keys| && Yields(keys[k], r);
      AllRowsComplete(keys, k, r);
    }
  }

  // ---------------------------------------------------------------------
  // sorted(rows): Python 2 orders tuples element by element, None first

  predicate CellLe(a: Option<string>, b: Option<string>) {
    a.None? || (b.Some? && StrLe(a.value, b.value))
  }

  predicate RowLe(a: seq<Option<string>>, b: seq<Option<string>>)
    decreases |a|
  {
    |a| == 0 || (|b| > 0 && ((CellLe(a[0], b[0]) && a[0] != b[0]) || (a[0] == b[0] && RowLe(a[1..], b[1..]))))
  }

  lemma CellLeAntisymmetric(a: Option<string>, b: Option<string>)
    requires CellLe(a, b) && CellLe(b, a)
    ensures a == b
  {
    if a.Some? {
      StrLeAntisymmetric(a.value, b.value);
    }
  }

  lemma {:induction false} RowLeTotal(a: seq<Option<string>>, b: seq<Option<string>>)
    ensures RowLe(a, b) || RowLe(b, a)
    decreases |a|
  {
    if |a| > 0 && |b| > 0 {
      if a[0] == b[0] {
        RowLeTotal(a[1..], b[1..]);
      } else if a[0].Some? && b[0].Some? {
        StrLeTotal(a[0].value, b[0].value);
      }
    }
  }

  lemma CellLeReflexive(a: Option<string>)
    ensures CellLe(a, a)
  {
    if a.Some? {
      StrLeTotal(a.value, a.value);
    }
  }

  lemma CellLeTransitive(a: Option<string>, b: Option<string>, c: Option<string>)
    requires CellLe(a, b) && CellLe(b, c)
    ensures CellLe(a, c)
  {
    if a.Some? {
      StrLeTransitive(a.value, b.value, c.value);
    }
  }

  lemma {:induction false} RowLeTransitive(a: seq<Option<string>>, b: seq<Option<string>>, c: seq<Option<string>>)
    requires RowLe(a, b) && RowLe(b, c)
    ensures RowLe(a, c)
    decreases |a|
  {
    if |a| > 0 {
      var a0, b0, c0 := a[0], b[0], c[0];
      if a0 == b0 && b0 == c0 {
        RowLeTransitive(a[1..], b[1..], c[1..]);
      } else {
        CellLeReflexive(a0);
        CellLeReflexive(b0);
        CellLeTransitive(a0, b0, c0);
        if a0 == c0 {
          CellLeAntisymmetric(a0, b0);
        }
      }
    }
  }

  lemma RowLeTotalPreorder()
    ensures TotalPreorder(RowLe)
  {
    forall a, b
      ensures RowLe(a, b) || RowLe(b, a)
    {
      RowLeTotal(a, b);
    }
    forall a, b, c | RowLe(a, b) && RowLe(b, c)
      ensures RowLe(a, c)
    {
      RowLeTransitive(a, b, c);
    }
  }

  /** `for row in sorted(rows)`: every row once, in ascending order. */
  method SortedRows(rows: set<seq<Option<string>>>) returns (out: seq<seq<Option<string>>>)
    ensures SortedBy(out, RowLe)
    ensures |out| == |rows| && forall r :: r in out <==> r in rows
  {
    var listed := SetToSeq(rows);
    out := Sort(listed, RowLe);
    RowLeTotalPreorder();
    SortSorted(listed, RowLe);
    assert forall r :: r in out <==> r in multiset(listed);
  }

  /** The body of the script after parsing: the header, then the sorted
      distinct combinations of the ways' keys. */
  method KeysRows(tagNames: seq<string>, keys: seq<seq<Option<string>>>) returns (header: seq<string>, out: seq<seq<Option<string>>>)
    ensures header == Header(tagNames)
    ensures SortedBy(out, RowLe) && |out| == |AllRows(keys)|
    ensures forall r :: r in out <==> r in AllRows(keys)
  {
    header := Header(tagNames);
    var rows := CollectRows(keys);
    out := SortedRows(rows);
  }
}
