/** The handful of Python string operations the rule compiler relies on:
    `str.strip()`, `str.lower()` / `str.capitalize()`, `sub in s`,
    `s.split(sep)[-1]` and `sep.join(parts)`. */
module Strings {

  /** Python's `str.isspace()` for one character: what `strip()` discards. `int()`
      skips all of these except the four ASCII separators U+001C to U+001F. */
  predicate IsSpace(c: char) {
    || ('\t' <= c <= '\r')
    || ('\U{1c}' <= c <= ' ')
    || c == '\U{85}' || c == '\U{a0}' || c == '\U{1680}'
    || ('\U{2000}' <= c <= '\U{200a}')
    || c == '\U{2028}' || c == '\U{2029}' || c == '\U{202f}' || c == '\U{205f}' || c == '\U{3000}'
  }

  /** Neither the first nor the last character is whitespace. */
  predicate Trimmed(s: string) {
    s == [] || (!IsSpace(s[0]) && !IsSpace(s[|s| - 1]))
  }

  /** Number of leading whitespace characters. */
  function LeadCount(s: string): (n: nat)
    ensures n <= |s|
    ensures forall i :: 0 <= i < n ==> IsSpace(s[i])
    ensures n < |s| ==> !IsSpace(s[n])
  {
    if |s| > 0 && IsSpace(s[0]) then 1 + LeadCount(s[1..]) else 0
  }

  /** Number of trailing whitespace characters. */
  function TrailCount(s: string): (n: nat)
    ensures n <= |s|
    ensures forall i :: |s| - n <= i < |s| ==> IsSpace(s[i])
    ensures n < |s| ==> !IsSpace(s[|s| - n - 1])
  {
    if |s| > 0 && IsSpace(s[|s| - 1]) then 1 + TrailCount(s[..|s| - 1]) else 0
  }

  /** Python's `str.strip()`: the longest slice of `s` that neither starts nor ends
      with whitespace, once only whitespace has been cut from both ends. */
  function Strip(s: string): (r: string)
    ensures LeadCount(s) + |r| <= |s|
    ensures r == s[LeadCount(s)..LeadCount(s) + |r|]
    ensures forall i :: LeadCount(s) + |r| <= i < |s| ==> IsSpace(s[i])
    ensures Trimmed(r)
  {
    var t := s[LeadCount(s)..];
    t[..|t| - TrailCount(t)]
  }

  /** A string with no whitespace at either end is left alone by `strip()`. */
  lemma StripTrimmed(s: string)
    requires Trimmed(s)
    ensures Strip(s) == s
  {
    assert LeadCount(s) == 0;
    assert s[LeadCount(s)..] == s;
    assert TrailCount(s) == 0;
  }

  /** The leading whitespace ends at the first non-whitespace character. */
  lemma LeadCountAt(s: string, k: nat)
    requires k < |s| && !IsSpace(s[k])
    requires forall i :: 0 <= i < k ==> IsSpace(s[i])
    ensures LeadCount(s) == k
  {
  }

  /** The trailing whitespace starts after the last non-whitespace character. */
  lemma TrailCountAt(s: string, k: nat)
    requires k < |s| && !IsSpace(s[|s| - k - 1])
    requires forall i :: |s| - k <= i < |s| ==> IsSpace(s[i])
    ensures TrailCount(s) == k
  {
  }

  /** `strip()` removes exactly the whitespace padding around a non-empty
      trimmed text. */
  lemma StripPadded(left: string, core: string, right: string)
    requires forall i :: 0 <= i < |left| ==> IsSpace(left[i])
    requires forall i :: 0 <= i < |right| ==> IsSpace(right[i])
    requires core != [] && Trimmed(core)
    ensures Strip(left + core + right) == core
  {
    var s := left + core + right;
    assert s[|left|] == core[0];
    assert forall i :: 0 <= i < |left| ==> s[i] == left[i];
    LeadCountAt(s, |left|);
    var t := s[|left|..];
    assert t == core + right;
    assert t[|t| - |right| - 1] == core[|core| - 1];
    assert forall i :: |core| <= i < |t| ==> t[i] == right[i - |core|];
    TrailCountAt(t, |right|);
    assert t[..|t| - |right|] == core;
  }

  /** `strip()` is idempotent. */
  lemma StripIdempotent(s: string)
    ensures Strip(Strip(s)) == Strip(s)
  {
    StripTrimmed(Strip(s));
  }

  function LowerChar(c: char): char {
    if 'A' <= c <= 'Z' then (c as int + 32) as char else c
  }

  function UpperChar(c: char): char {
    if 'a' <= c <= 'z' then (c as int - 32) as char else c
  }

  /** Python's `str.lower()` on ASCII letters; other characters are kept. */
  function Lower(s: string): string {
    seq(|s|, i requires 0 <= i < |s| => LowerChar(s[i]))
  }

  /** Python's `str.capitalize()` on ASCII letters: the first character upper-cased,
      every other one lower-cased. */
  function Capitalize(s: string): string {
    if |s| == 0 then "" else [UpperChar(s[0])] + Lower(s[1..])
  }

  predicate EqualsIgnoreCase(a: string, b: string) {
    Lower(a) == Lower(b)
  }

  /** `s.capitalize() == "Yes"` (or `"No"`) holds exactly when `s` spells that word
      in any mix of upper and lower case. */
  lemma CapitalizeMatchesIgnoringCase(s: string, word: string)
    requires word == "Yes" || word == "No"
    ensures Capitalize(s) == word <==> EqualsIgnoreCase(s, word)
  {
    var lw := Lower(word);
    assert word == "Yes" ==> lw == "yes";
    assert word == "No" ==> lw == "no";
    if Capitalize(s) == word {
      assert |s| == |word|;
      forall i | 0 <= i < |s|
        ensures LowerChar(s[i]) == lw[i]
      {
        if i == 0 {
          assert UpperChar(s[0]) == word[0];
        } else {
          assert Capitalize(s)[i] == LowerChar(s[i]);
        }
      }
      assert Lower(s) == lw;
    }
    if EqualsIgnoreCase(s, word) {
      assert |s| == |word|;
      var c := Capitalize(s);
      forall i | 0 <= i < |s|
        ensures c[i] == word[i]
      {
        assert LowerChar(s[i]) == lw[i];
        if i > 0 {
          assert c[i] == LowerChar(s[i]);
        }
      }
      assert c == word;
    }
  }

  /** `sub` occurs in `s` starting at index `i`. */
  predicate OccursAt(s: string, sub: string, i: int) {
    0 <= i && i + |sub| <= |s| && s[i..i + |sub|] == sub
  }

  /** Python's `sub in s` on strings. */
  predicate Contains(s: string, sub: string)
    decreases |s|
  {
    |sub| <= |s| && (s[..|sub|] == sub || Contains(s[1..], sub))
  }

  /** The left-to-right scan of `Contains` finds `sub` exactly when it occurs somewhere. */
  lemma {:induction false} ContainsIffOccurs(s: string, sub: string)
    ensures Contains(s, sub) <==> exists i :: OccursAt(s, sub, i)
    decreases |s|
  {
    if |sub| > |s| {
      assert forall i :: !OccursAt(s, sub, i);
    } else if s[..|sub|] == sub {
      assert OccursAt(s, sub, 0);
    } else {
      ContainsIffOccurs(s[1..], sub);
      if Contains(s[1..], sub) {
        var j :| OccursAt(s[1..], sub, j);
        assert s[1..][j..j + |sub|] == s[j + 1..j + 1 + |sub|];
        assert OccursAt(s, sub, j + 1);
      }
      if exists i :: OccursAt(s, sub, i) {
        var i :| OccursAt(s, sub, i);
        assert i != 0;
        assert s[1..][i - 1..i - 1 + |sub|] == s[i..i + |sub|];
        assert OccursAt(s[1..], sub, i - 1);
      }
    }
  }

  /** The last element of Python's `s.split(sep)`: the longest suffix of `s`
      free of `sep`, which is all of `s` when `sep` does not occur. */
  function AfterLast(s: string, sep: char): (r: string)
    ensures |r| <= |s| && r == s[|s| - |r|..]
    ensures sep !in r
    ensures |r| < |s| ==> s[|s| - |r| - 1] == sep
  {
    if |s| == 0 || s[|s| - 1] == sep then ""
    else AfterLast(s[..|s| - 1], sep) + [s[|s| - 1]]
  }

  /** A suffix of a string without `c` has no `c` either. */
  lemma SuffixAvoids(s: string, r: string, c: char)
    requires |r| <= |s| && r == s[|s| - |r|..] && c !in s
    ensures c !in r
  {
    assert forall i :: 0 <= i < |r| ==> r[i] == s[|s| - |r| + i];
  }

  /** Without a separator, splitting leaves the whole string. */
  lemma AfterLastWithoutSeparator(s: string, sep: char)
    requires sep !in s
    ensures AfterLast(s, sep) == s
  {
  }

  function TotalLength(parts: seq<string>): nat {
    if |parts| == 0 then 0 else TotalLength(parts[..|parts| - 1]) + |parts[|parts| - 1]|
  }

  /** Python's `sep.join(parts)`. */
  function Join(parts: seq<string>, sep: string): (r: string)
    ensures |parts| == 0 ==> r == ""
    ensures |parts| > 0 ==> |r| == TotalLength(parts) + (|parts| - 1) * |sep|
    ensures |parts| > 0 ==> |parts[0]| <= |r| && r[..|parts[0]|] == parts[0]
    ensures |parts| == 1 ==> r == parts[0]
  {
    if |parts| == 0 then ""
    else if |parts| == 1 then parts[0]
    else
      var init := parts[..|parts| - 1];
      var r := Join(init, sep) + sep + parts[|parts| - 1];
      assert init[0] == parts[0];
      assert (|parts| - 2) * |sep| + |sep| == (|parts| - 1) * |sep|;
      r
  }

  /** Joining one more part appends the separator and that part. */
  lemma JoinSnoc(parts: seq<string>, last: string, sep: string)
    requires |parts| > 0
    ensures Join(parts + [last], sep) == Join(parts, sep) + sep + last
  {
    assert (parts + [last])[..|parts|] == parts;
  }

  /** Where part `k` starts in `Join(parts, sep)`: after the parts before it and
      one separator each. */
  function PartOffset(parts: seq<string>, sep: string, k: nat): nat
    requires k <= |parts|
  {
    TotalLength(parts[..k]) + k * |sep|
  }

  lemma TotalLengthSnoc(parts: seq<string>, k: nat)
    requires k < |parts|
    ensures TotalLength(parts[..k + 1]) == TotalLength(parts[..k]) + |parts[k]|
  {
    assert parts[..k + 1][..k] == parts[..k];
  }

  /** Part `k` of a join sits at its offset. */
  lemma {:induction false} JoinPartAt(parts: seq<string>, sep: string, k: nat)
    requires k < |parts|
    ensures PartOffset(parts, sep, k) + |parts[k]| <= |Join(parts, sep)|
    ensures Join(parts, sep)[PartOffset(parts, sep, k)..PartOffset(parts, sep, k) + |parts[k]|] == parts[k]
    decreases |parts|
  {
    if |parts| > 1 {
      var init := parts[..|parts| - 1];
      var j := Join(init, sep);
      assert Join(parts, sep) == j + sep + parts[|parts| - 1];
      if k == |parts| - 1 {
        assert parts[..k] == init;
        assert PartOffset(parts, sep, k) == |j| + |sep| by {
          assert (|parts| - 2) * |sep| + |sep| == k * |sep|;
        }
      } else {
        JoinPartAt(init, sep, k);
        assert init[..k] == parts[..k];
        assert PartOffset(init, sep, k) == PartOffset(parts, sep, k);
        assert init[k] == parts[k];
      }
    }
  }

  /** Between part `k` and part `k + 1` of a join stands exactly one separator. */
  lemma {:induction false} JoinSeparatorAt(parts: seq<string>, sep: string, k: nat)
    requires k + 1 < |parts|
    ensures PartOffset(parts, sep, k) + |parts[k]| + |sep| == PartOffset(parts, sep, k + 1)
    ensures PartOffset(parts, sep, k + 1) <= |Join(parts, sep)|
    ensures Join(parts, sep)[PartOffset(parts, sep, k) + |parts[k]|..PartOffset(parts, sep, k + 1)] == sep
    decreases |parts|
  {
    TotalLengthSnoc(parts, k);
    var init := parts[..|parts| - 1];
    var j := Join(init, sep);
    assert Join(parts, sep) == j + sep + parts[|parts| - 1];
    if k + 1 == |parts| - 1 {
      assert parts[..k + 1] == init;
      if k > 0 {
        assert (|parts| - 2) * |sep| == k * |sep|;
      }
    } else {
      JoinSeparatorAt(init, sep, k);
      assert init[..k] == parts[..k] && init[..k + 1] == parts[..k + 1];
      assert PartOffset(init, sep, k + 1) == PartOffset(parts, sep, k + 1);
      assert init[k] == parts[k];
    }
  }
}
