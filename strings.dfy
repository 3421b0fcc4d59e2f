/** The Python string primitives the registry's codec and configuration
    parsing are built from: `str.split` with an explicit separator, the
    separator `join` that `"%s/%s/%s"` formatting amounts to, `str.strip`
    and `int(str)`. */
module Strings {
  import opened Wrappers

  /** Number of occurrences of `c` in `s`. */
  function Count(s: string, c: char): nat
  {
    if s == [] then 0 else (if s[0] == c then 1 else 0) + Count(s[1..], c)
  }

  /** Python's `s.split(sep)` for a one-character separator: the pieces
      between consecutive separators, empty pieces included, so there is
      always one piece more than there are separators. */
  function Split(s: string, sep: char): (parts: seq<string>)
    ensures |parts| == Count(s, sep) + 1
    ensures forall i :: 0 <= i < |parts| ==> sep !in parts[i]
    decreases |s|
  {
    if s == [] then [""]
    else
      var rest := Split(s[1..], sep);
      if s[0] == sep then [""] + rest
      else [[s[0]] + rest[0]] + rest[1..]
  }

  /** `sep.join(parts)`: the pieces with one separator between neighbours. */
  function Join(parts: seq<string>, sep: char): string
  {
    if parts == [] then ""
    else if |parts| == 1 then parts[0]
    else parts[0] + [sep] + Join(parts[1..], sep)
  }

  /** Splitting and re-joining gives the original string back. */
  lemma {:induction false} JoinSplit(s: string, sep: char)
    ensures Join(Split(s, sep), sep) == s
    decreases |s|
  {
    if s != [] {
      var rest := Split(s[1..], sep);
      JoinSplit(s[1..], sep);
      if s[0] == sep {
        assert Split(s, sep) == [""] + rest;
        assert ([""] + rest)[1..] == rest;
      } else if |rest| == 1 {
        assert Split(s, sep) == [[s[0]] + rest[0]];
      } else {
        assert Split(s, sep) == [[s[0]] + rest[0]] + rest[1..];
        assert ([[s[0]] + rest[0]] + rest[1..])[1..] == rest[1..];
        assert Join(rest, sep) == rest[0] + [sep] + Join(rest[1..], sep);
        assert s == [s[0]] + s[1..];
      }
    }
  }

  /** A string without the separator is a single piece. */
  lemma {:induction false} SplitNoSep(x: string, sep: char)
    requires sep !in x
    ensures Split(x, sep) == [x]
    decreases |x|
  {
    if x != [] {
      SplitNoSep(x[1..], sep);
      assert x == [x[0]] + x[1..];
    }
  }

  /** A separator-free first piece followed by the separator splits off
      as the first piece. */
  lemma {:induction false} SplitCons(x: string, rest: string, sep: char)
    requires sep !in x
    ensures Split(x + [sep] + rest, sep) == [x] + Split(rest, sep)
    decreases |x|
  {
    var s := x + [sep] + rest;
    if x == [] {
      assert s == [sep] + rest;
      assert s[1..] == rest;
    } else {
      assert s[0] == x[0];
      assert s[1..] == x[1..] + [sep] + rest;
      SplitCons(x[1..], rest, sep);
      assert [x[0]] + x[1..] == x;
    }
  }

  /** Joining separator-free pieces and splitting again gives the pieces back. */
  lemma {:induction false} SplitJoin(parts: seq<string>, sep: char)
    requires |parts| >= 1
    requires forall i :: 0 <= i < |parts| ==> sep !in parts[i]
    ensures Split(Join(parts, sep), sep) == parts
    decreases |parts|
  {
    if |parts| == 1 {
      SplitNoSep(parts[0], sep);
    } else {
      SplitJoin(parts[1..], sep);
      SplitCons(parts[0], Join(parts[1..], sep), sep);
      assert [parts[0]] + parts[1..] == parts;
    }
  }

  /** Joining three pieces, spelled out. */
  lemma JoinThree(parts: seq<string>, sep: char)
    requires |parts| == 3
    ensures Join(parts, sep) == parts[0] + [sep] + parts[1] + [sep] + parts[2]
  {
    var a, b, c := parts[0], parts[1], parts[2];
    assert parts[1..] == [b, c] && [b, c][1..] == [c];
    assert Join([b, c], sep) == b + [sep] + c;
    assert Join(parts, sep) == a + [sep] + (b + [sep] + c);
    assert a + [sep] + (b + [sep] + c) == a + [sep] + b + [sep] + c;
  }

  /** The three-piece case used by the service codec. */
  lemma SplitThree(a: string, b: string, c: string, sep: char)
    requires sep !in a && sep !in b && sep !in c
    ensures Split(a + [sep] + b + [sep] + c, sep) == [a, b, c]
  {
    JoinThree([a, b, c], sep);
    SplitJoin([a, b, c], sep);
  }

  /** The ASCII characters for which Python's `str.isspace()` holds, and
      which `str.strip()` therefore removes: tab, line feed, vertical tab,
      form feed, carriage return, the four separators U+001C to U+001F, and
      space. */
  predicate IsSpace(c: char)
  {
    ('\t' <= c <= '\r') || ('\U{001C}' <= c <= '\U{001F}') || c == ' '
  }

  /** The ASCII characters `int()` skips around a number: tab to carriage
      return, and space, but not U+001C to U+001F. */
  predicate IsIntSpace(c: char)
  {
    ('\t' <= c <= '\r') || c == ' '
  }

  /** Every character is whitespace in the sense of `ws`. */
  predicate AllSpace(s: string, ws: char -> bool)
  {
    forall i :: 0 <= i < |s| ==> ws(s[i])
  }

  /** The suffix of `s` left after dropping leading `ws` characters. */
  function TrimLeft(s: string, ws: char -> bool): (r: string)
    ensures |r| <= |s| && r == s[|s| - |r|..]
    ensures forall i :: 0 <= i < |s| - |r| ==> ws(s[i])
    ensures r != [] ==> !ws(r[0])
  {
    if s != [] && ws(s[0]) then TrimLeft(s[1..], ws) else s
  }

  /** The prefix of `s` left after dropping trailing `ws` characters. */
  function TrimRight(s: string, ws: char -> bool): (r: string)
    ensures |r| <= |s| && r == s[..|r|]
    ensures forall i :: |r| <= i < |s| ==> ws(s[i])
    ensures r != [] ==> !ws(r[|r| - 1])
  {
    if s != [] && ws(s[|s| - 1]) then TrimRight(s[..|s| - 1], ws) else s
  }

  /** The number of `ws` characters `s` starts with. */
  function LeadingSpaces(s: string, ws: char -> bool): nat
  {
    |s| - |TrimLeft(s, ws)|
  }

  /** The middle of `s` left after dropping `ws` characters at both ends;
      it neither starts nor ends with one. With `IsSpace` this is
      `s.strip()`; with `IsIntSpace` it is what `int(s)` reads. */
  function Trim(s: string, ws: char -> bool): (r: string)
    ensures LeadingSpaces(s, ws) + |r| <= |s| && r == s[LeadingSpaces(s, ws)..LeadingSpaces(s, ws) + |r|]
    ensures AllSpace(s[..LeadingSpaces(s, ws)], ws) && AllSpace(s[LeadingSpaces(s, ws) + |r|..], ws)
    ensures r != [] ==> !ws(r[0]) && !ws(r[|r| - 1])
  {
    var l := TrimLeft(s, ws);
    var r := TrimRight(l, ws);
    LeadIsSpace(s, ws);
    TrailIsSpace(l, ws);
    assert s[LeadingSpaces(s, ws)..] == l;
    assert s[LeadingSpaces(s, ws) + |r|..] == l[|r|..];
    r
  }

  lemma LeadIsSpace(s: string, ws: char -> bool)
    ensures AllSpace(s[..LeadingSpaces(s, ws)], ws)
  {
    var head := s[..LeadingSpaces(s, ws)];
    forall i | 0 <= i < |head| ensures ws(head[i]) {
      assert head[i] == s[i];
    }
  }

  lemma TrailIsSpace(s: string, ws: char -> bool)
    ensures AllSpace(s[|TrimRight(s, ws)|..], ws)
  {
    var tail := s[|TrimRight(s, ws)|..];
    forall i | 0 <= i < |tail| ensures ws(tail[i]) {
      assert tail[i] == s[|TrimRight(s, ws)| + i];
    }
  }

  /** `s.strip()`: the middle of `s` left after dropping `str.isspace()`
      characters at both ends. */
  function Strip(s: string): (r: string)
    ensures LeadingSpaces(s, IsSpace) + |r| <= |s|
    ensures r == s[LeadingSpaces(s, IsSpace)..LeadingSpaces(s, IsSpace) + |r|]
    ensures AllSpace(s[..LeadingSpaces(s, IsSpace)], IsSpace) && AllSpace(s[LeadingSpaces(s, IsSpace) + |r|..], IsSpace)
    ensures r != [] ==> !IsSpace(r[0]) && !IsSpace(r[|r| - 1])
  {
    Trim(s, IsSpace)
  }

  /** A string that neither starts nor ends with a `ws` character is its
      own trim. */
  lemma StripUnpadded(s: string, ws: char -> bool)
    requires s != [] ==> !ws(s[0]) && !ws(s[|s| - 1])
    ensures Trim(s, ws) == s
  {
    var l := TrimLeft(s, ws);
    if |l| < |s| {
      assert ws(s[0]);
    }
    assert l == s;
  }

  predicate IsDigit(c: char)
  {
    '0' <= c <= '9'
  }

  predicate AllDigits(s: string)
  {
    forall i :: 0 <= i < |s| ==> IsDigit(s[i])
  }

  /** The value of a string of decimal digits, most significant first. */
  function DigitsValue(d: string): nat
    requires AllDigits(d)
  {
    if d == [] then 0
    else DigitsValue(d[..|d| - 1]) * 10 + (d[|d| - 1] as int - '0' as int)
  }

  /** The number `int()` reads once the surrounding whitespace is gone: an
      optional sign followed by at least one digit; anything else raises
      `ValueError`, modelled as `None`. */
  function ParseSigned(t: string): (r: Option<int>)
    ensures r.Some? <==>
      (t != [] && AllDigits(t)) || (|t| > 1 && (t[0] == '+' || t[0] == '-') && AllDigits(t[1..]))
    ensures r.Some? && t[0] != '-' ==> r.value >= 0
    ensures r.Some? && t[0] == '-' ==> r.value <= 0
  {
    if t != [] && (t[0] == '+' || t[0] == '-') then
      var d := t[1..];
      if d != [] && AllDigits(d) then
        var v: int := DigitsValue(d);
        Some(if t[0] == '-' then -v else v)
      else None
    else if t != [] && AllDigits(t) then Some(DigitsValue(t))
    else None
  }

  /** Python's `int(s)` in base 10: surrounding `IsIntSpace` characters are
      ignored, then an optional sign is followed by at least one digit. */
  function ParseInt(s: string): (r: Option<int>)
    ensures r.Some? <==> var t := Trim(s, IsIntSpace);
      (t != [] && AllDigits(t)) || (|t| > 1 && (t[0] == '+' || t[0] == '-') && AllDigits(t[1..]))
    ensures r.Some? && Trim(s, IsIntSpace)[0] != '-' ==> r.value >= 0
    ensures r.Some? && Trim(s, IsIntSpace)[0] == '-' ==> r.value <= 0
  {
    ParseSigned(Trim(s, IsIntSpace))
  }

  /** `strip()` removes the separator U+001C, but `int()` does not skip
      it: a number preceded by one does not parse. */
  lemma IntKeepsSeparators()
    ensures Strip("\U{001C}5") == "5"
    ensures ParseInt("\U{001C}5").None?
  {
    assert TrimLeft("\U{001C}5", IsSpace) == "5" by {
      assert "\U{001C}5"[1..] == "5";
    }
    assert TrimLeft("\U{001C}5", IsIntSpace) == "\U{001C}5";
  }

  /** Dropping leading whitespace from `w + x` leaves `x` when `x` does not
      start with whitespace. */
  lemma {:induction false} TrimLeftPadded(w: string, x: string, ws: char -> bool)
    requires AllSpace(w, ws) && x != [] && !ws(x[0])
    ensures TrimLeft(w + x, ws) == x
    decreases |w|
  {
    if w != [] {
      var s := w + x;
      assert s[0] == w[0] && ws(s[0]);
      assert s[1..] == w[1..] + x;
      assert AllSpace(w[1..], ws) by {
        forall i | 0 <= i < |w[1..]| ensures ws(w[1..][i]) {
          assert w[1..][i] == w[i + 1];
        }
      }
      TrimLeftPadded(w[1..], x, ws);
      assert TrimLeft(s, ws) == TrimLeft(s[1..], ws);
    } else {
      assert w + x == x;
    }
  }

  /** Dropping trailing whitespace from `x + w` leaves `x` when `x` does not
      end with whitespace. */
  lemma {:induction false} TrimRightPadded(x: string, w: string, ws: char -> bool)
    requires AllSpace(w, ws) && x != [] && !ws(x[|x| - 1])
    ensures TrimRight(x + w, ws) == x
    decreases |w|
  {
    if w != [] {
      var s := x + w;
      assert s[|s| - 1] == w[|w| - 1] && ws(s[|s| - 1]);
      assert s[..|s| - 1] == x + w[..|w| - 1];
      var init := w[..|w| - 1];
      assert AllSpace(init, ws) by {
        forall i | 0 <= i < |init| ensures ws(init[i]) {
          assert init[i] == w[i];
        }
      }
      TrimRightPadded(x, w[..|w| - 1], ws);
      assert TrimRight(s, ws) == TrimRight(s[..|s| - 1], ws);
    } else {
      assert x + w == x;
    }
  }

  /** Leading zeros do not change the value of a digit string. */
  lemma {:induction false} LeadingZerosValue(zeros: string, d: string)
    requires forall i :: 0 <= i < |zeros| ==> zeros[i] == '0'
    requires AllDigits(d)
    ensures AllDigits(zeros + d) && DigitsValue(zeros + d) == DigitsValue(d)
    decreases |zeros| + |d|
  {
    if d != [] {
      assert (zeros + d)[..|zeros + d| - 1] == zeros + d[..|d| - 1];
      LeadingZerosValue(zeros, d[..|d| - 1]);
    } else if zeros != [] {
      assert zeros + d == zeros;
      assert zeros[..|zeros| - 1] + [] == zeros[..|zeros| - 1];
      LeadingZerosValue(zeros[..|zeros| - 1], d);
    }
  }

  /** Trimming `w1 + t + w2` leaves `t` when `w1` and `w2` are whitespace
      and `t` neither starts nor ends with it. */
  lemma TrimPadded(w1: string, t: string, w2: string, ws: char -> bool)
    requires AllSpace(w1, ws) && AllSpace(w2, ws)
    requires t != [] && !ws(t[0]) && !ws(t[|t| - 1])
    ensures Trim(w1 + t + w2, ws) == t
  {
    assert w1 + t + w2 == w1 + (t + w2);
    TrimLeftPadded(w1, t + w2, ws);
    TrimRightPadded(t, w2, ws);
  }

  /** An optional sign followed by digits reads as the digits' value with
      that sign. */
  lemma ParseSignedDigits(sign: string, d: string, n: nat)
    requires sign == "" || sign == "+" || sign == "-"
    requires d != [] && AllDigits(d) && DigitsValue(d) == n
    ensures ParseSigned(sign + d) == Some(if sign == "-" then -(n as int) else n as int)
  {
    var t := sign + d;
    if sign != "" {
      assert t[0] == sign[0];
      assert t[1..] == d;
    } else {
      assert t == d;
      assert t[0] != '+' && t[0] != '-' by { assert IsDigit(d[0]); }
    }
  }

  /** `int()` reads what is left once its whitespace is trimmed. */
  lemma ParseIntOfTrim(s: string, t: string)
    requires Trim(s, IsIntSpace) == t
    ensures ParseInt(s) == ParseSigned(t)
  {
  }

  /** A decimal numeral with leading zeros: digits, of the numeral's value. */
  lemma ZeroPaddedDecimal(zeros: string, n: nat)
    requires forall i :: 0 <= i < |zeros| ==> zeros[i] == '0'
    ensures zeros + DecimalOf(n) != [] && AllDigits(zeros + DecimalOf(n))
    ensures DigitsValue(zeros + DecimalOf(n)) == n
  {
    DigitsOfDecimal(n);
    LeadingZerosValue(zeros, DecimalOf(n));
  }

  /** An optionally signed digit string, padded with `int()`'s whitespace,
      trims back to itself. */
  lemma TrimSignedPadded(w1: string, sign: string, d: string, w2: string)
    requires AllSpace(w1, IsIntSpace) && AllSpace(w2, IsIntSpace)
    requires sign == "" || sign == "+" || sign == "-"
    requires d != [] && AllDigits(d)
    ensures Trim(w1 + sign + d + w2, IsIntSpace) == sign + d
  {
    var t := sign + d;
    assert t[|t| - 1] == d[|d| - 1];
    assert !IsIntSpace(t[0]) by {
      if sign == "" { assert t[0] == d[0] && IsDigit(d[0]); }
    }
    assert w1 + sign + d + w2 == w1 + t + w2;
    TrimPadded(w1, t, w2, IsIntSpace);
  }

  /** `int()` reads the value of a number written with surrounding
      whitespace, an optional sign and leading zeros: `int(" -080 ")` is
      `-80`. */
  lemma ParseIntPadded(w1: string, sign: string, zeros: string, n: nat, w2: string)
    requires AllSpace(w1, IsIntSpace) && AllSpace(w2, IsIntSpace)
    requires sign == "" || sign == "+" || sign == "-"
    requires forall i :: 0 <= i < |zeros| ==> zeros[i] == '0'
    ensures ParseInt(w1 + sign + (zeros + DecimalOf(n)) + w2) == Some(if sign == "-" then -(n as int) else n as int)
  {
    var d := zeros + DecimalOf(n);
    assert Trim(w1 + sign + d + w2, IsIntSpace) == sign + d by {
      ZeroPaddedDecimal(zeros, n);
      TrimSignedPadded(w1, sign, d, w2);
    }
    ZeroPaddedDecimal(zeros, n);
    ParseSignedDigits(sign, d, n);
    ParseIntOfTrim(w1 + sign + d + w2, sign + d);
  }

  /** `str(n)` for a natural number: its decimal digits. */
  function DecimalOf(n: nat): (d: string)
    ensures d != [] && AllDigits(d)
  {
    if n < 10 then [('0' as int + n) as char]
    else DecimalOf(n / 10) + [('0' as int + n % 10) as char]
  }

  /** `int(str(n)) == n` for every natural number. */
  lemma {:induction false} ParseIntDecimal(n: nat)
    ensures ParseInt(DecimalOf(n)) == Some(n)
  {
    var d := DecimalOf(n);
    DigitsOfDecimal(n);
    StripUnpadded(d, IsIntSpace);
  }

  lemma {:induction false} DigitsOfDecimal(n: nat)
    ensures DigitsValue(DecimalOf(n)) == n
  {
    if n >= 10 {
      var d := DecimalOf(n);
      DigitsOfDecimal(n / 10);
      assert d[..|d| - 1] == DecimalOf(n / 10);
    }
  }
}
