/** Python's `sorted(xs)` and `sorted(xs, reverse=True)` as a stable insertion
    sort under a caller-supplied comparison, and iteration over a set. */
module Sorting {

  ghost predicate TotalPreorder<T(!new)>(le: (T, T) -> bool) {
    && (forall x, y :: le(x, y) || le(y, x))
    && (forall x, y, z :: le(x, y) && le(y, z) ==> le(x, z))
  }

  predicate SortedBy<T>(s: seq<T>, le: (T, T) -> bool) {
    forall i, j :: 0 <= i < j < |s| ==> le(s[i], s[j])
  }

  /** Places `x` before the first element it does not exceed. */
  function Insert<T>(x: T, s: seq<T>, le: (T, T) -> bool): (r: seq<T>)
    ensures |r| == |s| + 1
    ensures multiset(r) == multiset(s) + multiset{x}
  {
    if |s| == 0 then [x]
    else if le(x, s[0]) then [x] + s
    else
      assert s == [s[0]] + s[1..];
      [s[0]] + Insert(x, s[1..], le)
  }

  /** The ascending stable sort: earlier of two equal elements stays earlier. */
  function Sort<T>(s: seq<T>, le: (T, T) -> bool): (r: seq<T>)
    ensures |r| == |s|
    ensures multiset(r) == multiset(s)
  {
    if |s| == 0 then []
    else
      assert s == [s[0]] + s[1..];
      Insert(s[0], Sort(s[1..], le), le)
  }

  /** `sorted(s, reverse=True)`: stable sort under the flipped comparison. */
  function SortDescending<T>(s: seq<T>, le: (T, T) -> bool): (r: seq<T>)
    ensures |r| == |s|
    ensures multiset(r) == multiset(s)
  {
    Sort(s, (x, y) => le(y, x))
  }

  lemma {:induction false} InsertSorted<T(!new)>(x: T, s: seq<T>, le: (T, T) -> bool)
    requires TotalPreorder(le)
    requires SortedBy(s, le)
    ensures SortedBy(Insert(x, s, le), le)
  {
    if |s| > 0 && !le(x, s[0]) {
      InsertSorted(x, s[1..], le);
      var r := Insert(x, s, le);
      var t := Insert(x, s[1..], le);
      assert r == [s[0]] + t;
      assert le(s[0], x);
      forall k | 0 <= k < |t| ensures le(s[0], t[k]) {
        assert t[k] in multiset(t);
        assert t[k] == x || t[k] in multiset(s[1..]);
        if t[k] != x {
          var m :| 0 <= m < |s[1..]| && s[1..][m] == t[k];
          assert s[m + 1] == t[k];
        }
      }
    }
  }

  /** The result of Sort is ordered by the comparison (and, by its contract, a permutation). */
  lemma {:induction false} SortSorted<T(!new)>(s: seq<T>, le: (T, T) -> bool)
    requires TotalPreorder(le)
    ensures SortedBy(Sort(s, le), le)
  {
    if |s| > 0 {
      SortSorted(s[1..], le);
      InsertSorted(s[0], Sort(s[1..], le), le);
    }
  }

  lemma FlippedTotalPreorder<T(!new)>(le: (T, T) -> bool)
    requires TotalPreorder(le)
    ensures TotalPreorder((x, y) => le(y, x))
  {
  }

  /** The result of SortDescending runs from the largest element down. */
  lemma SortDescendingSorted<T(!new)>(s: seq<T>, le: (T, T) -> bool)
    requires TotalPreorder(le)
    ensures forall i, j :: 0 <= i < j < |SortDescending(s, le)| ==>
              le(SortDescending(s, le)[j], SortDescending(s, le)[i])
  {
    FlippedTotalPreorder(le);
    SortSorted(s, (x, y) => le(y, x));
  }

  /** The first element of a descending sort is a largest element. */
  lemma SortDescendingFirst<T(!new)>(s: seq<T>, le: (T, T) -> bool)
    requires TotalPreorder(le) && |s| > 0
    ensures SortDescending(s, le)[0] in s
    ensures forall x :: x in s ==> le(x, SortDescending(s, le)[0])
  {
    var r := SortDescending(s, le);
    SortDescendingSorted(s, le);
    assert r[0] in multiset(s);
    forall x | x in s ensures le(x, r[0]) {
      assert x in multiset(r);
      var k :| 0 <= k < |r| && r[k] == x;
      if k > 0 {
        assert le(r[k], r[0]);
      }
    }
  }

  // ---------------------------------------------------------------------
  // Iterating over a set

  /** No element occurs twice. */
  predicate Distinct<T(==)>(ws: seq<T>) {
    forall i, j :: 0 <= i < j < |ws| ==> ws[i] != ws[j]
  }

  /** `for x in s` over a Python set: every element once, in an order the
      model leaves open. */
  method SetToSeq<T(==)>(s: set<T>) returns (ws: seq<T>)
    ensures |ws| == |s| && Distinct(ws)
    ensures s == set w | w in ws
  {
    ws := [];
    var rest := s;
    while rest != {}
      invariant rest <= s && |ws| + |rest| == |s| && Distinct(ws)
      invariant forall x :: x in ws <==> x in s - rest
      decreases |rest|
    {
      assert exists x :: x in rest by {
        if forall x :: x !in rest { assert false; }
      }
      var x: T :| x in rest;
      assert x !in ws;
      ws := ws + [x];
      rest := rest - {x};
    }
    forall x
      ensures x in s <==> x in set w | w in ws
    {
    }
  }
}
