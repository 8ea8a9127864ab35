/** The Python string operations the evaluation's list parser uses: `str.split` on one
    separator character, `str.strip()` and `int()` on a decimal literal, with the decimal
    rendering `str(n)` as the partner of `int()`. */
module PyText {
  import opened Common
  import opened TextNormalizer

  /** Number of occurrences of `c` in `s`. */
  function CountChar(s: string, c: char): nat
  {
    if s == [] then 0 else (if s[0] == c then 1 else 0) + CountChar(s[1..], c)
  }

  /** Joins pieces with a separator: `sep.join(parts)`. */
  function Join(parts: seq<string>, sep: char): string
    requires parts != []
  {
    if |parts| == 1 then parts[0] else parts[0] + [sep] + Join(parts[1..], sep)
  }

  /** `s.split(sep)`: the pieces between separators, one more than there are separators;
      joining them back gives `s`. */
  function Split(s: string, sep: char): (parts: seq<string>)
    ensures |parts| == CountChar(s, sep) + 1
    ensures forall i :: 0 <= i < |parts| ==> sep !in parts[i]
    ensures Join(parts, sep) == s
  {
    if s == [] then [""]
    else
      var rest := Split(s[1..], sep);
      if s[0] == sep then
        assert Join([""] + rest, sep) == [] + [sep] + Join(rest, sep);
        [""] + rest
      else
        var parts := [[s[0]] + rest[0]] + rest[1..];
        assert |rest| == 1 ==> Join(parts, sep) == [s[0]] + rest[0];
        assert |rest| > 1 ==> Join(parts, sep) == [s[0]] + (rest[0] + [sep] + Join(rest[1..], sep));
        assert s == [s[0]] + s[1..];
        parts
  }

  /** Splitting a joined sequence of separator-free pieces gives the pieces back. */
  lemma {:induction false} SplitJoin(parts: seq<string>, sep: char)
    requires parts != []
    requires forall i :: 0 <= i < |parts| ==> sep !in parts[i]
    ensures Split(Join(parts, sep), sep) == parts
  {
    if |parts| == 1 {
      SplitWithoutSeparator(parts[0], sep);
    } else {
      SplitJoin(parts[1..], sep);
      SplitAfterPiece(parts[0], Join(parts[1..], sep), sep);
    }
  }

  lemma {:induction false} SplitWithoutSeparator(s: string, sep: char)
    requires sep !in s
    ensures Split(s, sep) == [s]
  {
    if s != [] {
      SplitWithoutSeparator(s[1..], sep);
      assert [s[0]] + s[1..] == s;
    }
  }

  lemma {:induction false} SplitAfterPiece(p: string, t: string, sep: char)
    requires sep !in p
    ensures Split(p + [sep] + t, sep) == [p] + Split(t, sep)
  {
    if p == [] {
      assert p + [sep] + t == [sep] + t;
      assert ([sep] + t)[1..] == t;
    } else {
      SplitAfterPiece(p[1..], t, sep);
      assert (p + [sep] + t)[1..] == p[1..] + [sep] + t;
      assert [p[0]] + p[1..] == p;
    }
  }

  /** The number of whitespace characters `s.lstrip()` removes. */
  function LeadingSpaces(s: string): (n: nat)
    ensures n <= |s|
    ensures forall k :: 0 <= k < n ==> IsSpace(s[k])
    ensures n < |s| ==> !IsSpace(s[n])
  {
    if s != [] && IsSpace(s[0]) then
      assert forall k :: 1 <= k < |s| ==> s[k] == s[1..][k - 1];
      1 + LeadingSpaces(s[1..])
    else 0
  }

  /** The number of whitespace characters `s.rstrip()` removes. */
  function TrailingSpaces(s: string): (n: nat)
    ensures n <= |s|
    ensures forall k :: |s| - n <= k < |s| ==> IsSpace(s[k])
    ensures n < |s| ==> !IsSpace(s[|s| - n - 1])
  {
    if s != [] && IsSpace(s[|s| - 1]) then
      var init := s[..|s| - 1];
      assert forall k :: 0 <= k < |init| ==> s[k] == init[k];
      1 + TrailingSpaces(init)
    else 0
  }

  /** `s.strip()`: the part of `s` between its leading and its trailing whitespace; the
      part kept neither starts nor ends with whitespace. */
  function Strip(s: string): (r: string)
    ensures LeadingSpaces(s) + |r| <= |s|
    ensures r == s[LeadingSpaces(s)..LeadingSpaces(s) + |r|]
    ensures forall k :: LeadingSpaces(s) + |r| <= k < |s| ==> IsSpace(s[k])
    ensures r != [] ==> !IsSpace(r[0]) && !IsSpace(r[|r| - 1])
  {
    var n := LeadingSpaces(s);
    var l := s[n..];
    var r := l[..|l| - TrailingSpaces(l)];
    assert r == s[n..n + |r|];
    assert forall k :: n + |r| <= k < |s| ==> s[k] == l[k - n];
    r
  }

  /** Stripping a space in front of a string that neither starts nor ends with
      whitespace gives the string back. */
  lemma StripSpaceInFront(t: string)
    requires t != [] && !IsSpace(t[0]) && !IsSpace(t[|t| - 1])
    ensures Strip([' '] + t) == t
  {
    var s := [' '] + t;
    assert s[1..] == t;
    assert LeadingSpaces(s) == 1 + LeadingSpaces(t);
    assert LeadingSpaces(t) == 0;
    assert TrailingSpaces(t) == 0;
  }

  predicate IsDigit(c: char)
  {
    '0' <= c <= '9'
  }

  predicate AllDigits(s: string)
  {
    forall i :: 0 <= i < |s| ==> IsDigit(s[i])
  }

  /** The value of a string of decimal digits, read left to right. */
  function DigitsValue(s: string): nat
    requires AllDigits(s)
  {
    if s == [] then 0 else DigitsValue(s[..|s| - 1]) * 10 + (s[|s| - 1] as int - '0' as int)
  }

  /** What `int()` accepts once the string is stripped: at least one ASCII digit, with an
      optional sign in front. */
  predicate IsIntLiteral(s: string)
  {
    || (s != [] && AllDigits(s))
    || (|s| >= 2 && (s[0] == '-' || s[0] == '+') && AllDigits(s[1..]))
  }

  /** `int(s)` on an already stripped string: an optional sign and at least one ASCII
      digit, read in base 10; anything else (the empty string included) raises ValueError,
      here `None`. */
  function ParseInt(s: string): (r: Option<int>)
    ensures s == [] ==> r.None?
    ensures r.Some? <==> IsIntLiteral(s)
    ensures r.Some? ==> forall i :: 0 <= i < |s| ==> IsDigit(s[i]) || (i == 0 && (s[0] == '-' || s[0] == '+'))
    ensures r.Some? ==>
      r.value == (if s[0] == '-' then -(DigitsValue(s[1..]) as int)
                  else if s[0] == '+' then DigitsValue(s[1..]) as int
                  else DigitsValue(s) as int)
  {
    if s == [] then None
    else if s[0] == '-' || s[0] == '+' then
      var body := s[1..];
      if body != [] && AllDigits(body) then
        assert forall i :: 1 <= i < |s| ==> s[i] == body[i - 1];
        var v: int := DigitsValue(body);
        Some(if s[0] == '-' then -v else v)
      else None
    else if AllDigits(s) then Some(DigitsValue(s))
    else None
  }

  /** A leading zero does not change the value of a digit string. */
  lemma {:induction false} DigitsValueLeadingZero(s: string)
    requires AllDigits(s)
    ensures AllDigits("0" + s) && DigitsValue("0" + s) == DigitsValue(s)
  {
    if s != [] {
      var z := "0" + s;
      assert z[..|z| - 1] == "0" + s[..|s| - 1];
      DigitsValueLeadingZero(s[..|s| - 1]);
    }
  }

  /** `int("007") == int("7")`: leading zeros are ignored. */
  lemma ParseIntLeadingZero(s: string)
    requires s != [] && AllDigits(s)
    ensures ParseInt("0" + s) == ParseInt(s)
  {
    DigitsValueLeadingZero(s);
  }

  /** `int("+5") == int("5")` and `int("-5") == -int("5")`. */
  lemma ParseIntSign(s: string)
    requires s != [] && AllDigits(s)
    ensures ParseInt("+" + s) == ParseInt(s)
    ensures ParseInt("-" + s).Some? && ParseInt("-" + s).value == -ParseInt(s).value
  {
    assert ("+" + s)[1..] == s;
    assert ("-" + s)[1..] == s;
  }

  function DigitChar(d: nat): char
    requires d < 10
  {
    ('0' as int + d) as char
  }

  /** `str(n)` for a natural number: its decimal digits, without leading zeros. */
  function ShowNat(n: nat): (s: string)
    ensures s != [] && AllDigits(s)
  {
    if n < 10 then [DigitChar(n)] else ShowNat(n / 10) + [DigitChar(n % 10)]
  }

  /** `str(n)`. */
  function Show(n: int): (s: string)
    ensures s != []
    ensures forall i :: 0 <= i < |s| ==> IsDigit(s[i]) || (i == 0 && s[0] == '-')
  {
    if n < 0 then "-" + ShowNat(-n) else ShowNat(n)
  }

  lemma {:induction false} DigitsValueShowNat(n: nat)
    ensures DigitsValue(ShowNat(n)) == n
  {
    if n >= 10 {
      DigitsValueShowNat(n / 10);
      var s := ShowNat(n);
      assert s[..|s| - 1] == ShowNat(n / 10);
    }
  }

  /** `int(str(n)) == n`. */
  lemma ParseShow(n: int)
    ensures ParseInt(Show(n)) == Some(n)
  {
    var s := Show(n);
    if n < 0 {
      DigitsValueShowNat(-n);
      assert s[1..] == ShowNat(-n);
    } else {
      DigitsValueShowNat(n);
      assert IsDigit(s[0]);
    }
  }
}
