/** String helpers with Python 2 `str` semantics: split on one character,
    strip whitespace, `int()` parsing and `str()` of integers, and the
    lexicographic order used by `sorted`. */
module Strings {
  import opened Wrappers

  predicate StartsWith(s: string, prefix: string) {
    |prefix| <= |s| && s[..|prefix|] == prefix
  }

  predicate EndsWith(s: string, suffix: string) {
    |suffix| <= |s| && s[|s| - |suffix|..] == suffix
  }

  // ---------------------------------------------------------------------
  // str.split(sep) with an explicit separator, on any sequence

  /** `s.split(sep)`: every occurrence of `sep` cuts, so the result is never empty. */
  function Split<T(==)>(s: seq<T>, sep: T): (r: seq<seq<T>>)
    ensures |r| >= 1
    decreases |s|
  {
    if |s| == 0 then [[]]
    else if s[0] == sep then [[]] + Split(s[1..], sep)
    else
      var rest := Split(s[1..], sep);
      [[s[0]] + rest[0]] + rest[1..]
  }

  /** `sep.join(parts)`, the inverse of Split. */
  function Join<T>(parts: seq<seq<T>>, sep: T): seq<T>
    requires |parts| >= 1
    decreases |parts|
  {
    if |parts| == 1 then parts[0] else parts[0] + [sep] + Join(parts[1..], sep)
  }

  /** Splitting loses nothing: joining the pieces back gives the input. */
  lemma {:induction false} JoinSplit<T>(s: seq<T>, sep: T)
    ensures Join(Split(s, sep), sep) == s
    decreases |s|
  {
    if |s| == 0 {
    } else if s[0] == sep {
      JoinSplit(s[1..], sep);
      assert Split(s, sep) == [[]] + Split(s[1..], sep);
      assert s == [sep] + s[1..];
    } else {
      JoinSplit(s[1..], sep);
      var rest := Split(s[1..], sep);
      if |rest| == 1 {
        assert s == [s[0]] + rest[0];
      } else {
        assert Split(s, sep)[1..] == rest[1..];
        assert s == [s[0]] + (rest[0] + [sep] + Join(rest[1..], sep));
      }
    }
  }

  /** No piece of a split contains the separator. */
  lemma {:induction false} SplitPiecesFree<T>(s: seq<T>, sep: T)
    ensures forall i :: 0 <= i < |Split(s, sep)| ==> sep !in Split(s, sep)[i]
    decreases |s|
  {
    if |s| > 0 {
      SplitPiecesFree(s[1..], sep);
    }
  }

  /** A sequence without the separator splits into itself alone. */
  lemma {:induction false} SplitWithoutSep<T>(s: seq<T>, sep: T)
    requires sep !in s
    ensures Split(s, sep) == [s]
    decreases |s|
  {
    if |s| > 0 {
      SplitWithoutSep(s[1..], sep);
      assert [s[0]] + s[1..] == s;
    }
  }

  /** Splitting around one separator splits each side on its own. */
  lemma {:induction false} SplitConcat<T>(a: seq<T>, b: seq<T>, sep: T)
    ensures Split(a + [sep] + b, sep) == Split(a, sep) + Split(b, sep)
    decreases |a|
  {
    var s := a + [sep] + b;
    if |a| == 0 {
      assert s[1..] == b;
    } else {
      assert s[0] == a[0] && s[1..] == a[1..] + [sep] + b;
      SplitConcat(a[1..], b, sep);
      if a[0] != sep {
        var rest := Split(a[1..], sep);
        assert (rest + Split(b, sep))[1..] == rest[1..] + Split(b, sep);
      }
    }
  }

  /** Two separator-free pieces joined by the separator split back apart. */
  lemma SplitTwo<T>(a: seq<T>, b: seq<T>, sep: T)
    requires sep !in a && sep !in b
    ensures Split(a + [sep] + b, sep) == [a, b]
  {
    SplitConcat(a, b, sep);
    SplitWithoutSep(a, sep);
    SplitWithoutSep(b, sep);
  }

  /** Text without the separator extends the last piece. */
  lemma {:induction false} SplitExtend<T>(s: seq<T>, t: seq<T>, sep: T)
    requires sep !in t
    ensures var r := Split(s, sep);
            Split(s + t, sep) == r[..|r| - 1] + [r[|r| - 1] + t]
    decreases |s|
  {
    if |s| == 0 {
      SplitWithoutSep(t, sep);
      assert s + t == t;
    } else {
      assert (s + t)[1..] == s[1..] + t;
      SplitExtend(s[1..], t, sep);
      var rest := Split(s[1..], sep);
      if s[0] != sep && |rest| == 1 {
        assert [s[0]] + (rest[0] + t) == [s[0]] + rest[0] + t;
      }
    }
  }

  /** Splitting one more element: a separator opens an empty piece, anything
      else extends the last piece. */
  lemma SplitSnoc<T>(s: seq<T>, x: T, sep: T)
    ensures var r := Split(s, sep);
            Split(s + [x], sep) == if x == sep then r + [[]] else r[..|r| - 1] + [r[|r| - 1] + [x]]
  {
    if x == sep {
      SplitConcat(s, [], sep);
      assert s + [x] + [] == s + [x];
    } else {
      SplitExtend(s, [x], sep);
    }
  }

  // ---------------------------------------------------------------------
  // str.strip()

  /** The whitespace of Python 2 byte strings: space, \t, \n, \v, \f, \r. */
  predicate IsSpace(c: char) {
    c == ' ' || (9 as char <= c <= 13 as char)
  }

  function TrimLeft(s: string): (r: string)
    ensures |r| <= |s| && r == s[|s| - |r|..]
    ensures |r| > 0 ==> !IsSpace(r[0])
    ensures forall i :: 0 <= i < |s| - |r| ==> IsSpace(s[i])
  {
    if |s| > 0 && IsSpace(s[0]) then TrimLeft(s[1..]) else s
  }

  function TrimRight(s: string): (r: string)
    ensures |r| <= |s| && r == s[..|r|]
    ensures |r| > 0 ==> !IsSpace(r[|r| - 1])
    ensures forall i :: |r| <= i < |s| ==> IsSpace(s[i])
  {
    if |s| > 0 && IsSpace(s[|s| - 1]) then TrimRight(s[..|s| - 1]) else s
  }

  /** `s.strip()`: a middle slice of `s` that neither starts nor ends with whitespace. */
  function Strip(s: string): (r: string)
    ensures |r| <= |s|
    ensures |r| > 0 ==> !IsSpace(r[0]) && !IsSpace(r[|r| - 1])
    ensures (forall i :: 0 <= i < |s| ==> !IsSpace(s[i])) ==> r == s
  {
    TrimRight(TrimLeft(s))
  }

  // ---------------------------------------------------------------------
  // int(s) and str(i)

  predicate IsDigit(c: char) { '0' <= c <= '9' }

  function DigitValue(c: char): nat
    requires IsDigit(c)
  {
    (c as int) - ('0' as int)
  }

  function DigitChar(d: nat): (c: char)
    requires d < 10
    ensures IsDigit(c) && DigitValue(c) == d
  {
    (('0' as int) + d) as char
  }

  predicate AllDigits(s: string) {
    forall i :: 0 <= i < |s| ==> IsDigit(s[i])
  }

  /** The value of a run of decimal digits, most significant first. */
  function DigitsValue(s: string): nat
    requires AllDigits(s)
    decreases |s|
  {
    if |s| == 0 then 0 else DigitsValue(s[..|s| - 1]) * 10 + DigitValue(s[|s| - 1])
  }

  /** Python 2 `int(s)` on a byte string: surrounding whitespace, an optional
      sign, then at least one decimal digit; anything else raises ValueError. */
  function ParseInt(s: string): Option<int>
  {
    ParseStripped(Strip(s))
  }

  /** `int` of a string without surrounding whitespace. */
  function ParseStripped(t: string): Option<int>
  {
    var body := if |t| > 0 && (t[0] == '-' || t[0] == '+') then t[1..] else t;
    if |body| == 0 || !AllDigits(body) then None
    else
      var v: int := DigitsValue(body);
      Some(if |t| > 0 && t[0] == '-' then -v else v)
  }

  /** `str(n)` for a natural number: its shortest decimal digits. */
  function NatToString(n: nat): (s: string)
    ensures |s| >= 1 && AllDigits(s)
  {
    if n < 10 then [DigitChar(n)] else NatToString(n / 10) + [DigitChar(n % 10)]
  }

  /** `str(i)`. */
  function IntToString(i: int): (s: string)
    ensures |s| >= 1
  {
    if i < 0 then "-" + NatToString(-i) else NatToString(i)
  }

  lemma {:induction false} DigitsOfNat(n: nat)
    ensures DigitsValue(NatToString(n)) == n
  {
    var s := NatToString(n);
    if n >= 10 {
      DigitsOfNat(n / 10);
      assert s[..|s| - 1] == NatToString(n / 10);
    }
  }

  /** A string without whitespace is its own `strip()`. */
  lemma StripNoSpace(s: string)
    requires forall k :: 0 <= k < |s| ==> s[k] == '-' || IsDigit(s[k])
    ensures Strip(s) == s
  {
  }

  /** A run of digits parses to its value. */
  lemma ParseDigits(d: string)
    requires |d| >= 1 && AllDigits(d)
    ensures ParseInt(d) == Some(DigitsValue(d) as int)
  {
    StripNoSpace(d);
    assert d[0] != '-' && d[0] != '+';
  }

  /** Without whitespace there is nothing for `strip()` to remove. */
  lemma ParseNoSpace(t: string)
    requires forall k :: 0 <= k < |t| ==> !IsSpace(t[k])
    ensures ParseInt(t) == ParseStripped(t)
  {
  }

  /** A minus sign followed by digits parses to the negated digits. */
  lemma ParseSignedDigits(t: string, d: string)
    requires |d| >= 1 && AllDigits(d) && t == "-" + d
    ensures ParseInt(t) == Some(-(DigitsValue(d) as int))
  {
    assert t[0] == '-' && t[1..] == d;
    forall k | 0 <= k < |t|
      ensures !IsSpace(t[k])
    {
      if k > 0 {
        assert t[k] == d[k - 1];
      }
    }
    ParseNoSpace(t);
  }

  /** `int(str(i)) == i`: the decimal rendering of an integer parses back to it. */
  lemma ParseIntToString(i: int)
    ensures ParseInt(IntToString(i)) == Some(i)
  {
    var t := IntToString(i);
    if i < 0 {
      ParseNegString(-i, t);
    } else {
      ParseNatString(i, t);
    }
  }

  lemma ParseNatString(n: nat, t: string)
    requires t == NatToString(n)
    ensures ParseInt(t) == Some(n as int)
  {
    DigitsOfNat(n);
    ParseDigits(t);
  }

  lemma ParseNegString(n: nat, t: string)
    requires t == "-" + NatToString(n)
    ensures ParseInt(t) == Some(-(n as int))
  {
    DigitsOfNat(n);
    ParseSignedDigits(t, NatToString(n));
  }

  /** `str` is injective on integers, so distinct ids render differently. */
  lemma IntToStringInjective(i: int, j: int)
    requires IntToString(i) == IntToString(j)
    ensures i == j
  {
    ParseIntToString(i);
    ParseIntToString(j);
  }

  // ---------------------------------------------------------------------
  // The order of Python 2 string comparison

  /** `a <= b` on strings: character by character, a proper prefix first. */
  predicate StrLe(a: string, b: string)
    decreases |a|
  {
    |a| == 0 || (|b| > 0 && (a[0] < b[0] || (a[0] == b[0] && StrLe(a[1..], b[1..]))))
  }

  lemma {:induction false} StrLeTotal(a: string, b: string)
    ensures StrLe(a, b) || StrLe(b, a)
    decreases |a|
  {
    if |a| > 0 && |b| > 0 && a[0] == b[0] {
      StrLeTotal(a[1..], b[1..]);
    }
  }

  lemma {:induction false} StrLeTransitive(a: string, b: string, c: string)
    requires StrLe(a, b) && StrLe(b, c)
    ensures StrLe(a, c)
    decreases |a|
  {
    if |a| > 0 && a[0] == b[0] && b[0] == c[0] {
      StrLeTransitive(a[1..], b[1..], c[1..]);
    }
  }

  lemma {:induction false} StrLeAntisymmetric(a: string, b: string)
    requires StrLe(a, b) && StrLe(b, a)
    ensures a == b
    decreases |a|
  {
    if |a| > 0 {
      StrLeAntisymmetric(a[1..], b[1..]);
      assert a == [a[0]] + a[1..] && b == [b[0]] + b[1..];
    }
  }
}
