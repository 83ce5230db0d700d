/** Python's `int()` applied to a string cell, and the decimal text an integer
    is written back as. */
module Integers {
  import opened Wrappers
  import opened Strings

  predicate IsDigit(c: char) {
    '0' <= c <= '9'
  }

  function DigitValue(c: char): nat
    requires IsDigit(c)
  {
    c as int - '0' as int
  }

  function DigitChar(d: nat): (c: char)
    requires d < 10
    ensures IsDigit(c) && DigitValue(c) == d
  {
    ('0' as int + d) as char
  }

  /** ASCII digits in which a single underscore may separate two digits, the
      digit syntax `int()` accepts. */
  predicate DigitGroups(s: string) {
    && |s| > 0
    && IsDigit(s[0])
    && IsDigit(s[|s| - 1])
    && forall i :: 0 < i < |s| - 1 ==> GroupChar(s, i)
  }

  /** Inside a digit string: a digit, or an underscore between two digits. */
  predicate GroupChar(s: string, i: int)
    requires 0 < i < |s| - 1
  {
    IsDigit(s[i]) || (s[i] == '_' && IsDigit(s[i - 1]) && IsDigit(s[i + 1]))
  }

  /** The number a digit string denotes, underscores ignored. */
  function DigitsValue(s: string): nat {
    if |s| == 0 then 0
    else if IsDigit(s[|s| - 1]) then DigitsValue(s[..|s| - 1]) * 10 + DigitValue(s[|s| - 1])
    else DigitsValue(s[..|s| - 1])
  }

  predicate IsSign(c: char) {
    c == '+' || c == '-'
  }

  /** `sign` followed by digit groups. */
  predicate SignedWith(t: string, sign: char) {
    |t| > 0 && t[0] == sign && DigitGroups(t[1..])
  }

  /** The integer syntax of `int()` once surrounding whitespace is gone: digit
      groups, optionally preceded by one sign. */
  predicate Signed(t: string) {
    DigitGroups(t) || SignedWith(t, '+') || SignedWith(t, '-')
  }

  /** One of the ASCII information separators U+001C to U+001F. */
  predicate IsSeparator(c: char) {
    '\U{1c}' <= c <= '\U{1f}'
  }

  predicate NoSeparators(s: string) {
    forall i :: 0 <= i < |s| ==> !IsSeparator(s[i])
  }

  /** The whitespace `int()` skips around the digits. CPython turns every
      non-ASCII `isspace()` character into a space first, then skips only ASCII
      space, tab, line feed, vertical tab, form feed and carriage return, so the
      ASCII separators U+001C to U+001F are not skipped. */
  predicate IsIntSpace(c: char) {
    IsSpace(c) && !IsSeparator(c)
  }

  /** Neither end of `t` is whitespace `int()` would skip. */
  predicate IntTrimmed(t: string) {
    t == [] || (!IsIntSpace(t[0]) && !IsIntSpace(t[|t| - 1]))
  }

  /** Number of leading characters `int()` skips. */
  function IntLead(s: string): (n: nat)
    ensures n <= |s|
    ensures forall i :: 0 <= i < n ==> IsIntSpace(s[i])
    ensures n < |s| ==> !IsIntSpace(s[n])
  {
    if |s| > 0 && IsIntSpace(s[0]) then 1 + IntLead(s[1..]) else 0
  }

  /** Number of trailing characters `int()` skips. */
  function IntTrail(s: string): (n: nat)
    ensures n <= |s|
    ensures forall i :: |s| - n <= i < |s| ==> IsIntSpace(s[i])
    ensures n < |s| ==> !IsIntSpace(s[|s| - n - 1])
  {
    if |s| > 0 && IsIntSpace(s[|s| - 1]) then 1 + IntTrail(s[..|s| - 1]) else 0
  }

  /** The text `int()` parses: `s` without the whitespace it skips at either end. */
  function StripInt(s: string): (r: string)
    ensures IntLead(s) + |r| <= |s|
    ensures r == s[IntLead(s)..IntLead(s) + |r|]
    ensures forall i :: IntLead(s) + |r| <= i < |s| ==> IsIntSpace(s[i])
    ensures IntTrimmed(r)
  {
    var t := s[IntLead(s)..];
    t[..|t| - IntTrail(t)]
  }

  /** Text without skippable whitespace at its ends is parsed as it is. */
  lemma StripIntTrimmed(s: string)
    requires IntTrimmed(s)
    ensures StripInt(s) == s
  {
    assert IntLead(s) == 0;
    assert s[IntLead(s)..] == s;
    assert IntTrail(s) == 0;
  }

  /** `int(s)` for a string `s`: `None` where Python raises `ValueError`.
      Skippable whitespace around the text is ignored, one sign may precede the
      digits. */
  function ParseInt(s: string): (r: Option<int>)
    ensures r.Some? <==> Signed(StripInt(s))
    ensures DigitGroups(StripInt(s)) ==> r == Some(DigitsValue(StripInt(s)))
    ensures SignedWith(StripInt(s), '+') ==> r == Some(DigitsValue(StripInt(s)[1..]))
    ensures SignedWith(StripInt(s), '-') ==> r == Some(0 - DigitsValue(StripInt(s)[1..]))
    ensures r.Some? ==> IntegerText(StripInt(s))
  {
    ParseTrimmed(StripInt(s))
  }

  /** `int()` once surrounding whitespace is gone. */
  function ParseTrimmed(t: string): (r: Option<int>)
    ensures r.Some? <==> Signed(t)
    ensures DigitGroups(t) ==> r == Some(DigitsValue(t))
    ensures SignedWith(t, '+') ==> r == Some(DigitsValue(t[1..]))
    ensures SignedWith(t, '-') ==> r == Some(0 - DigitsValue(t[1..]))
    ensures r.Some? ==> IntegerText(t)
  {
    if |t| > 0 && IsSign(t[0]) then
      if DigitGroups(t[1..]) then
        DigitGroupsChars(t[1..]);
        assert forall i :: 1 <= i < |t| ==> t[i] == t[1..][i - 1];
        Some(if t[0] == '-' then 0 - DigitsValue(t[1..]) else DigitsValue(t[1..]))
      else None
    else if DigitGroups(t) then DigitGroupsChars(t); Some(DigitsValue(t))
    else None
  }

  lemma DigitGroupsChars(u: string)
    requires DigitGroups(u)
    ensures forall j :: 0 <= j < |u| ==> IsDigit(u[j]) || u[j] == '_'
  {
    forall j | 0 <= j < |u|
      ensures IsDigit(u[j]) || u[j] == '_'
    {
      if 0 < j < |u| - 1 {
        assert GroupChar(u, j);
      }
    }
  }

  /** What any text `int()` accepts looks like once stripped: a digit at the end,
      and nothing but digits and underscores after an optional leading sign. */
  predicate IntegerText(t: string) {
    && |t| > 0
    && IsDigit(t[|t| - 1])
    && forall i :: 0 <= i < |t| ==> IsDigit(t[i]) || t[i] == '_' || (i == 0 && IsSign(t[i]))
  }

  /** The decimal digits of a natural number, most significant first. */
  function Digits(n: nat): (s: string)
    ensures |s| > 0
    decreases n
  {
    if n < 10 then [DigitChar(n)] else Digits(n / 10) + [DigitChar(n % 10)]
  }

  /** `str(n)` for an integer `n`. */
  function Decimal(n: int): string {
    if n < 0 then "-" + Digits(-n) else Digits(n)
  }

  lemma {:induction false} DigitsWellFormed(n: nat)
    ensures DigitGroups(Digits(n))
    ensures forall i :: 0 <= i < |Digits(n)| ==> IsDigit(Digits(n)[i])
    ensures DigitsValue(Digits(n)) == n
    decreases n
  {
    if n >= 10 {
      DigitsWellFormed(n / 10);
      var d := Digits(n / 10);
      assert Digits(n) == d + [DigitChar(n % 10)];
      assert Digits(n)[..|Digits(n)| - 1] == d;
    }
  }

  /** `int()` reads a plain digit string as its value. */
  lemma ParseUnsigned(d: string)
    requires DigitGroups(d)
    ensures ParseInt(d) == Some(DigitsValue(d))
  {
    assert IntTrimmed(d);
    StripIntTrimmed(d);
  }

  /** `int()` reads a minus sign followed by a digit string as its negation. */
  lemma ParseNegative(d: string)
    requires DigitGroups(d)
    ensures ParseInt("-" + d) == Some(0 - DigitsValue(d))
  {
    NegativeText(d);
    ParseMinus("-" + d, d);
  }

  /** Stripped text made of a minus sign and digit groups `d` reads as minus the
      value of `d`. */
  lemma ParseMinus(t: string, d: string)
    requires IntTrimmed(t) && |t| > 0 && t[0] == '-' && t[1..] == d && DigitGroups(d)
    ensures ParseInt(t) == Some(0 - DigitsValue(d))
  {
    StripIntTrimmed(t);
    assert SignedWith(t, '-');
  }

  /** A minus sign followed by digit groups is trimmed text. */
  lemma NegativeText(d: string)
    requires DigitGroups(d)
    ensures IntTrimmed("-" + d) && |"-" + d| > 0 && ("-" + d)[0] == '-' && ("-" + d)[1..] == d
  {
    var t := "-" + d;
    assert t[0] == '-' && t[1..] == d;
    assert t[|t| - 1] == d[|d| - 1];
  }

  /** Padding and a sign around the digits are accepted. */
  lemma ParseIntSigned()
    ensures ParseInt(" +7 ") == Some(7)
    ensures ParseInt("-07") == Some(-7)
  {
    var p := " +7 ";
    assert IntLead(p) == 1 && p[1..] == "+7 ";
    assert StripInt(p) == "+7";
    assert "+7"[1..] == "7" && DigitsValue("7") == 7;
    var m := "-07";
    assert IntTrimmed(m);
    StripIntTrimmed(m);
    assert m[1..] == "07" && "07"[..1] == "0" && DigitsValue("07") == 7;
  }

  /** A single underscore between digits is accepted and ignored. */
  lemma ParseIntUnderscore()
    ensures ParseInt("1_000") == Some(1000)
  {
    var k := "1_000";
    assert IntTrimmed(k);
    StripIntTrimmed(k);
    assert DigitGroups(k) by {
      assert GroupChar(k, 1) && GroupChar(k, 2) && GroupChar(k, 3);
    }
    assert k[..4] == "1_00" && "1_00"[..3] == "1_0" && "1_0"[..2] == "1_" && "1_"[..1] == "1";
    assert DigitsValue("1") == 1;
    assert DigitsValue("1_") == 1;
    assert DigitsValue("1_0") == 10;
    assert DigitsValue("1_00") == 100;
  }

  /** `int()` of a text without surrounding whitespace is decided on the text itself. */
  lemma ParseOfTrimmed(t: string)
    requires IntTrimmed(t)
    ensures ParseInt(t) == ParseTrimmed(t)
  {
    StripIntTrimmed(t);
  }

  /** An underscore at either end of the digits is rejected. */
  lemma ParseIntRejectsOuterUnderscore()
    ensures ParseInt("_1") == None && ParseInt("1_") == None
  {
    ParseOfTrimmed("_1");
    ParseOfTrimmed("1_");
  }

  /** Two underscores in a row are rejected. */
  lemma ParseIntRejectsDoubleUnderscore()
    ensures ParseInt("1__0") == None
  {
    ParseOfTrimmed("1__0");
    assert !GroupChar("1__0", 1);
  }

  /** Nothing, or a sign with no digits after it, is not an integer. */
  lemma ParseIntRejectsEmpty()
    ensures ParseInt("") == None && ParseInt("+") == None
  {
    ParseOfTrimmed("+");
    ParseOfTrimmed("");
    assert "+"[1..] == "";
  }

  /** The ASCII separators U+001C to U+001F are not skipped: `int()` rejects them
      around the digits, although `strip()` would remove them. */
  lemma ParseIntSeparators()
    ensures ParseInt("\U{1c}7") == None && ParseInt("7\U{1f}") == None
  {
    var a := "\U{1c}7";
    assert IntTrimmed(a);
    ParseOfTrimmed(a);
    assert !IsDigit(a[0]) && !IsSign(a[0]);
    var b := "7\U{1f}";
    assert IntTrimmed(b);
    ParseOfTrimmed(b);
    assert !IsDigit(b[1]);
  }

  /** Non-ASCII whitespace around the digits is skipped. */
  lemma ParseIntUnicodeSpace()
    ensures ParseInt("\U{a0}7\U{3000}") == Some(7)
  {
    var p := "\U{a0}7\U{3000}";
    assert IntLead(p) == 1 && p[1..] == "7\U{3000}";
    assert IntTrail("7\U{3000}") == 1 && "7\U{3000}"[..1] == "7";
    assert StripInt(p) == "7";
    assert DigitsValue("7") == 7;
  }

  /** On text free of the four ASCII separators, `int()` skips exactly what
      `strip()` removes. */
  lemma {:induction false} StripIntIsStrip(s: string)
    requires NoSeparators(s)
    ensures StripInt(s) == Strip(s)
  {
    LeadAgrees(s);
    var t := s[LeadCount(s)..];
    assert NoSeparators(t) by {
      forall i | 0 <= i < |t|
        ensures !IsSeparator(t[i])
      {
        assert t[i] == s[LeadCount(s) + i];
      }
    }
    TrailAgrees(t);
    assert StripInt(s) == t[..|t| - IntTrail(t)];
  }

  lemma {:induction false} LeadAgrees(s: string)
    requires NoSeparators(s)
    ensures IntLead(s) == LeadCount(s)
    decreases |s|
  {
    if |s| > 0 {
      assert NoSeparators(s[1..]) by {
        assert forall i :: 0 <= i < |s[1..]| ==> s[1..][i] == s[i + 1];
      }
      LeadAgrees(s[1..]);
    }
  }

  lemma {:induction false} TrailAgrees(s: string)
    requires NoSeparators(s)
    ensures IntTrail(s) == TrailCount(s)
    decreases |s|
  {
    if |s| > 0 {
      assert NoSeparators(s[..|s| - 1]) by {
        assert forall i :: 0 <= i < |s[..|s| - 1]| ==> s[..|s| - 1][i] == s[i];
      }
      TrailAgrees(s[..|s| - 1]);
    }
  }

  /** Reading back the decimal text of any integer gives that integer. */
  lemma ParseDecimal(n: int)
    ensures ParseInt(Decimal(n)) == Some(n)
  {
    var m: nat := if n < 0 then -n else n;
    DigitsWellFormed(m);
    if n < 0 {
      ParseNegative(Digits(m));
    } else {
      ParseUnsigned(Digits(m));
    }
  }
}
