/** The reading side shared by the two dump-skeleton programs: the lines a
    `while (!getline(std::cin, line).eof())` loop processes, and `is >> x`
    into a `double` from a line's string stream. */
module LineInput {
  import opened Wrappers
  import opened Strings

  // ---------------------------------------------------------------------
  // getline until eof

  /** The lines the loop body sees: every piece of the input that a newline
      ends. The piece after the last newline reaches end of input, sets eof,
      and is dropped with the loop's exit. */
  function Lines(input: string): (r: seq<string>)
    ensures forall i :: 0 <= i < |r| ==> '\n' !in r[i]
  {
    var pieces := Split(input, '\n');
    SplitPiecesFree(input, '\n');
    pieces[..|pieces| - 1]
  }

  /** Each line followed by its newline. */
  function Unlines(ls: seq<string>): string
    decreases |ls|
  {
    if |ls| == 0 then "" else ls[0] + "\n" + Unlines(ls[1..])
  }

  lemma {:induction false} SplitUnlines(ls: seq<string>, tail: string)
    requires forall i :: 0 <= i < |ls| ==> '\n' !in ls[i]
    requires '\n' !in tail
    ensures Split(Unlines(ls) + tail, '\n') == ls + [tail]
    decreases |ls|
  {
    if |ls| == 0 {
      assert Unlines(ls) + tail == tail;
      SplitWithoutSep(tail, '\n');
    } else {
      SplitUnlines(ls[1..], tail);
      assert Unlines(ls) + tail == ls[0] + ['\n'] + (Unlines(ls[1..]) + tail);
      SplitConcat(ls[0], Unlines(ls[1..]) + tail, '\n');
      SplitWithoutSep(ls[0], '\n');
      assert [ls[0]] + (ls[1..] + [tail]) == ls + [tail];
    }
  }

  /** Newline-terminated lines are read back exactly, and a last line
      without its newline is never read. */
  lemma LinesUnlines(ls: seq<string>, tail: string)
    requires forall i :: 0 <= i < |ls| ==> '\n' !in ls[i]
    requires '\n' !in tail
    ensures Lines(Unlines(ls) + tail) == ls
  {
    SplitUnlines(ls, tail);
    assert (ls + [tail])[..|ls|] == ls;
  }

  lemma {:induction false} JoinUnlines(ps: seq<string>)
    requires |ps| >= 1
    ensures Join(ps, '\n') == Unlines(ps[..|ps| - 1]) + ps[|ps| - 1]
    decreases |ps|
  {
    if |ps| > 1 {
      JoinUnlines(ps[1..]);
      assert ps[1..][..|ps| - 2] == ps[..|ps| - 1][1..];
    }
  }

  /** Every input is its processed lines, each with its newline, followed by
      an unterminated remainder. */
  lemma LinesCover(input: string)
    ensures var ps := Split(input, '\n');
            input == Unlines(Lines(input)) + ps[|ps| - 1] && '\n' !in ps[|ps| - 1]
  {
    JoinSplit(input, '\n');
    JoinUnlines(Split(input, '\n'));
    SplitPiecesFree(input, '\n');
  }

  // ---------------------------------------------------------------------
  // is >> x for a double

  /** The number of digits `s` starts with. */
  function DigitRun(s: string): (n: nat)
    ensures n <= |s| && AllDigits(s[..n]) && (n < |s| ==> !IsDigit(s[n]))
    decreases |s|
  {
    if |s| > 0 && IsDigit(s[0]) then
      var m := DigitRun(s[1..]);
      assert s[..1 + m] == [s[0]] + s[1..][..m];
      1 + m
    else 0
  }

  function Pow10(e: nat): (r: real)
    ensures r >= 1.0
  {
    if e == 0 then 1.0 else 10.0 * Pow10(e - 1)
  }

  /** `10` raised to a possibly negative exponent. */
  function Scale10(e: int): (r: real)
    ensures r > 0.0
  {
    if e >= 0 then Pow10(e) else 1.0 / Pow10(-e)
  }

  /** A read number and the unread remainder of the line. */
  datatype Scan = Scan(value: real, rest: string)

  /** An optional exponent after the digits: `e` or `E`, an optional sign
      and at least one digit. An `e` without digits fails the read. */
  function ReadExponent(s: string): (r: Option<(int, string)>)
    ensures r.Some? ==> |r.value.1| <= |s|
  {
    if |s| > 0 && (s[0] == 'e' || s[0] == 'E') then
      var t := s[1..];
      var u := if |t| > 0 && (t[0] == '-' || t[0] == '+') then t[1..] else t;
      var n := DigitRun(u);
      if n == 0 then None
      else
        var v: int := DigitsValue(u[..n]);
        Some((if |t| > 0 && t[0] == '-' then -v else v, u[n..]))
    else Some((0, s))
  }

  /** The value of digits `whole` before a decimal point and `frac` after it. */
  function Mantissa(whole: string, frac: string): real
    requires AllDigits(whole) && AllDigits(frac)
  {
    DigitsValue(whole) as real + DigitsValue(frac) as real / Pow10(|frac|)
  }

  /** The end of a number: at least one digit before or after the point,
      then an optional exponent. */
  function ReadEnd(whole: string, frac: string, s: string): (r: Option<Scan>)
    requires AllDigits(whole) && AllDigits(frac)
    ensures r.Some? ==> |r.value.rest| <= |s|
  {
    if |whole| + |frac| == 0 then None
    else
      match ReadExponent(s)
      case None => None
      case Some((e, rest)) => Some(Scan(Mantissa(whole, frac) * Scale10(e), rest))
  }

  /** After the integer digits: an optional point and fractional digits. */
  function ReadFraction(whole: string, s: string): (r: Option<Scan>)
    requires AllDigits(whole)
    ensures r.Some? ==> |r.value.rest| <= |s| && (|whole| == 0 ==> |r.value.rest| < |s|)
  {
    if |s| > 0 && s[0] == '.' then
      var m := DigitRun(s[1..]);
      ReadEnd(whole, s[1..][..m], s[1..][m..])
    else ReadEnd(whole, "", s)
  }

  /** The unsigned part of a number: decimal digits with an optional
      fractional part (at least one digit in all), then an optional exponent. */
  function ReadUnsigned(u: string): (r: Option<Scan>)
    ensures r.Some? ==> |r.value.rest| < |u|
  {
    var n := DigitRun(u);
    ReadFraction(u[..n], u[n..])
  }

  /** A number after the whitespace is skipped: an optional sign, then the
      unsigned part. */
  function ReadSigned(t: string): (r: Option<Scan>)
    ensures r.Some? ==> |r.value.rest| < |t|
  {
    var signed := |t| > 0 && (t[0] == '-' || t[0] == '+');
    match ReadUnsigned(if signed then t[1..] else t)
    case None => None
    case Some(sc) => Some(if signed && t[0] == '-' then Scan(-sc.value, sc.rest) else sc)
  }

  /** `is >> x`: leading whitespace is skipped, then a signed number is read
      exactly; what follows stays in the stream for the next read. */
  function ReadNumber(s: string): (r: Option<Scan>)
    ensures r.Some? ==> |r.value.rest| < |s|
  {
    ReadSigned(TrimLeft(s))
  }

  /** `is >> x` skips the whitespace, reads at least one character after
      it, and leaves the tail of the line for the next read. */
  lemma ReadNumberLeavesTail(s: string)
    ensures var r := ReadNumber(s);
      r.Some? ==> |r.value.rest| < |TrimLeft(s)| && r.value.rest == s[|s| - |r.value.rest|..]
  {
    ReadSignedLeavesSuffix(TrimLeft(s));
    var r := ReadNumber(s);
    if r.Some? {
      SuffixTrans(r.value.rest, TrimLeft(s), s);
    }
  }

  /** A suffix of a suffix is a suffix. */
  lemma SuffixTrans(a: string, b: string, c: string)
    requires |a| <= |b| <= |c| && a == b[|b| - |a|..] && b == c[|c| - |b|..]
    ensures a == c[|c| - |a|..]
  {
  }

  lemma ReadExponentLeavesSuffix(s: string)
    ensures ReadExponent(s).Some? ==> ReadExponent(s).value.1 == s[|s| - |ReadExponent(s).value.1|..]
  {
    if |s| > 0 && (s[0] == 'e' || s[0] == 'E') && ReadExponent(s).Some? {
      var t := s[1..];
      var u := if |t| > 0 && (t[0] == '-' || t[0] == '+') then t[1..] else t;
      var n := DigitRun(u);
      assert u == s[|s| - |u|..];
      SuffixTrans(u[n..], u, s);
    }
  }

  lemma ReadFractionLeavesSuffix(whole: string, s: string)
    requires AllDigits(whole)
    ensures var r := ReadFraction(whole, s); r.Some? ==> r.value.rest == s[|s| - |r.value.rest|..]
  {
    var e := s;
    if |s| > 0 && s[0] == '.' {
      var m := DigitRun(s[1..]);
      e := s[1..][m..];
      assert e == s[|s| - |e|..];
    }
    ReadExponentLeavesSuffix(e);
    var r := ReadFraction(whole, s);
    if r.Some? {
      assert r.value.rest == ReadExponent(e).value.1;
      SuffixTrans(r.value.rest, e, s);
    }
  }

  lemma ReadUnsignedLeavesSuffix(u: string)
    ensures var r := ReadUnsigned(u); r.Some? ==> r.value.rest == u[|u| - |r.value.rest|..]
  {
    var n := DigitRun(u);
    var s := u[n..];
    assert s == u[|u| - |s|..];
    ReadFractionLeavesSuffix(u[..n], s);
    var r := ReadUnsigned(u);
    if r.Some? {
      SuffixTrans(r.value.rest, s, u);
    }
  }

  /** What follows a number is the tail of the text it was read from. */
  lemma ReadSignedLeavesSuffix(t: string)
    ensures ReadSigned(t).Some? ==> ReadSigned(t).value.rest == t[|t| - |ReadSigned(t).value.rest|..]
  {
    var signed := |t| > 0 && (t[0] == '-' || t[0] == '+');
    var u := if signed then t[1..] else t;
    assert u == t[|t| - |u|..];
    ReadUnsignedLeavesSuffix(u);
    var r := ReadSigned(t);
    if r.Some? {
      SuffixTrans(r.value.rest, u, t);
    }
  }

  /** `is >> x >> y`: two numbers in a row; the rest of the line is ignored. */
  function ReadPair(line: string): (r: Option<(real, real)>)
  {
    match ReadNumber(line)
    case None => None
    case Some(first) =>
      match ReadNumber(first.rest)
      case None => None
      case Some(second) => Some((first.value, second.value))
  }

  /** A line of whitespace only holds no number. */
  lemma BlankHasNoNumber(s: string)
    requires forall i :: 0 <= i < |s| ==> IsSpace(s[i])
    ensures ReadNumber(s) == None
    ensures ReadPair(s) == None
  {
    assert |TrimLeft(s)| == 0;
  }

  lemma {:induction false} DigitRunOf(d: string, rest: string)
    requires AllDigits(d)
    requires |rest| == 0 || !IsDigit(rest[0])
    ensures DigitRun(d + rest) == |d|
    decreases |d|
  {
    if |d| > 0 {
      assert (d + rest)[1..] == d[1..] + rest;
      DigitRunOf(d[1..], rest);
    } else {
      assert d + rest == rest;
    }
  }

  lemma UnsignedDigits(d: string, rest: string)
    requires AllDigits(d)
    requires |rest| == 0 || !IsDigit(rest[0])
    ensures ReadUnsigned(d + rest) == ReadFraction(d, rest)
  {
    var u := d + rest;
    DigitRunOf(d, rest);
    assert u[..|d|] == d && u[|d|..] == rest;
  }

  lemma EndWithoutFraction(d: string, rest: string)
    requires |d| >= 1 && AllDigits(d)
    requires |rest| == 0 || rest[0] == ' '
    ensures ReadFraction(d, rest) == Some(Scan(DigitsValue(d) as real, rest))
  {
    assert ReadExponent(rest) == Some((0, rest));
    assert Mantissa(d, "") == DigitsValue(d) as real;
  }

  /** Digits followed by a space or nothing read as their value. */
  lemma ReadDigits(d: string, rest: string)
    requires |d| >= 1 && AllDigits(d)
    requires |rest| == 0 || rest[0] == ' '
    ensures ReadUnsigned(d + rest) == Some(Scan(DigitsValue(d) as real, rest))
  {
    UnsignedDigits(d, rest);
    EndWithoutFraction(d, rest);
  }

  lemma ReadNatString(n: nat, rest: string)
    requires |rest| == 0 || rest[0] == ' '
    ensures ReadSigned(NatToString(n) + rest) == Some(Scan(n as real, rest))
  {
    var d := NatToString(n);
    DigitsOfNat(n);
    ReadDigits(d, rest);
    assert (d + rest)[0] == d[0];
  }

  lemma ReadNegString(n: nat, rest: string)
    requires |rest| == 0 || rest[0] == ' '
    ensures ReadSigned("-" + NatToString(n) + rest) == Some(Scan(-(n as real), rest))
  {
    var d := NatToString(n);
    DigitsOfNat(n);
    ReadDigits(d, rest);
    assert ("-" + d + rest)[1..] == d + rest;
  }

  /** Nothing to skip before a character that is not whitespace. */
  lemma ReadNumberNoSpace(s: string)
    requires |s| > 0 && !IsSpace(s[0])
    ensures ReadNumber(s) == ReadSigned(s)
  {
  }

  /** An integer written in decimal reads back as itself, leaving the text
      after it when that starts with a space or is empty. */
  lemma ReadIntToString(i: int, rest: string, s: string)
    requires |rest| == 0 || rest[0] == ' '
    requires s == IntToString(i) + rest
    ensures ReadNumber(s) == Some(Scan(i as real, rest))
  {
    ReadNumberNoSpace(s);
    var n: nat := if i < 0 then -i else i;
    var v: real := if i < 0 then -(n as real) else n as real;
    assert v == i as real;
    if i < 0 {
      ReadNegString(n, rest);
      assert s == "-" + NatToString(n) + rest;
    } else {
      ReadNatString(n, rest);
      assert s == NatToString(n) + rest;
    }
  }

  /** A space before a number changes nothing. */
  lemma ReadAfterSpace(s: string)
    ensures ReadNumber(" " + s) == ReadNumber(s)
  {
    assert (" " + s)[1..] == s;
    assert TrimLeft(" " + s) == TrimLeft(s);
  }

  lemma ReadSecondInt(y: int, t: string)
    requires t == " " + IntToString(y)
    ensures ReadNumber(t) == Some(Scan(y as real, ""))
  {
    var x := IntToString(y);
    ReadAfterSpace(x);
    assert x + "" == x;
    ReadIntToString(y, "", x);
    assert ReadNumber(t) == ReadNumber(x);
  }

  /** Two integers separated by a space read back as the pair. */
  lemma ReadPairInts(x: int, y: int, line: string)
    requires line == IntToString(x) + " " + IntToString(y)
    ensures ReadPair(line) == Some((x as real, y as real))
  {
    var t := " " + IntToString(y);
    assert line == IntToString(x) + t;
    ReadIntToString(x, t, line);
    ReadSecondInt(y, t);
  }

  // ---------------------------------------------------------------------
  // The points of a run of lines

  type Point = (real, real)

  /** How a line is read into a point, or not at all; the programs read with
      `iss >> x >> y`, which is `ReadPair`. The loops over the lines are
      stated for any reader. */
  type Reader = string -> Option<Point>

  /** The point of one line, if it reads as one. */
  function LinePoints(line: string, read: Reader): (r: seq<Point>)
    ensures |r| <= 1
    ensures |r| == 1 <==> read(line).Some?
  {
    match read(line)
    case None => []
    case Some(p) => [p]
  }

  /** The points of the lines that read as points, in order. */
  function Points(lines: seq<string>, read: Reader): (r: seq<Point>)
    ensures |r| <= |lines|
  {
    if |lines| == 0 then []
    else LinePoints(lines[0], read) + Points(lines[1..], read)
  }

  /** The points of two runs of lines are those of each, one after the other. */
  lemma {:induction false} PointsAppend(a: seq<string>, b: seq<string>, read: Reader)
    ensures Points(a + b, read) == Points(a, read) + Points(b, read)
  {
    if |a| == 0 {
      assert a + b == b;
    } else {
      assert (a + b)[1..] == a[1..] + b;
      PointsAppend(a[1..], b, read);
    }
  }

  /** One more line adds its point, if any, at the end. */
  lemma PointsSnoc(lines: seq<string>, line: string, read: Reader)
    ensures Points(lines + [line], read) == Points(lines, read) + LinePoints(line, read)
  {
    PointsAppend(lines, [line], read);
    assert [line][1..] == [];
  }
}

/** `CGAL::Polygon_2` as the dump programs use it: a ring of points that
    grows at the back. */
module CgalPolygon {
  import opened LineInput

  class Polygon {
    var points: seq<Point>

    constructor()
      ensures points == []
    {
      points := [];
    }

    /** `push_back`: one more point at the end, the others unchanged. */
    method PushBack(p: Point)
      modifies this
      ensures points == old(points) + [p]
    {
      points := points + [p];
    }
  }
}
