/** The string primitives the backend leans on: Python's `str.strip()`,
    `str.lower()`, `sep.join(parts)` and `str(n)` for a non-negative integer.
    Whitespace and case are modelled on ASCII only. */
module Text {

  /** `str.isspace()` on an ASCII character: tab, line feed, vertical tab,
      form feed, carriage return, the separators 0x1C..0x1F, and space. */
  predicate IsSpace(c: char) {
    ('\t' <= c <= '\r') || ('\U{1C}' <= c <= '\U{1F}') || c == ' '
  }

  predicate AllSpace(s: string) {
    forall i :: 0 <= i < |s| ==> IsSpace(s[i])
  }

  /** A concatenation is blank exactly when both halves are. */
  lemma AllSpaceConcat(a: string, b: string)
    ensures AllSpace(a + b) <==> AllSpace(a) && AllSpace(b)
  {
    if AllSpace(a) && AllSpace(b) {
      forall k | 0 <= k < |a + b|
        ensures IsSpace((a + b)[k])
      {
        if k >= |a| { assert (a + b)[k] == b[k - |a|]; }
      }
    }
    if AllSpace(a + b) {
      forall k | 0 <= k < |a|
        ensures IsSpace(a[k])
      {
        assert (a + b)[k] == a[k];
      }
      forall k | 0 <= k < |b|
        ensures IsSpace(b[k])
      {
        assert (a + b)[|a| + k] == b[k];
      }
    }
  }

  /** True when `s` neither starts nor ends with whitespace. */
  predicate Tight(s: string) {
    |s| == 0 || (!IsSpace(s[0]) && !IsSpace(s[|s| - 1]))
  }

  /** Drops leading whitespace. */
  function TrimStart(s: string): string {
    if |s| > 0 && IsSpace(s[0]) then TrimStart(s[1..]) else s
  }

  /** Drops trailing whitespace. */
  function TrimEnd(s: string): string {
    if |s| > 0 && IsSpace(s[|s| - 1]) then TrimEnd(s[..|s| - 1]) else s
  }

  /** `TrimStart(s)` is a suffix of `s` that does not start with whitespace,
      and what it dropped is whitespace. */
  lemma {:induction false} TrimStartShape(s: string)
    ensures |TrimStart(s)| <= |s|
    ensures TrimStart(s) == s[|s| - |TrimStart(s)|..]
    ensures AllSpace(s[..|s| - |TrimStart(s)|])
    ensures |TrimStart(s)| == 0 || !IsSpace(TrimStart(s)[0])
    decreases |s|
  {
    if |s| > 0 && IsSpace(s[0]) {
      TrimStartShape(s[1..]);
      var k := |s| - |TrimStart(s)|;
      assert s[1..][..k - 1] == s[1..k];
      assert s[1..][k - 1..] == s[k..];
    }
  }

  /** `TrimEnd(s)` is a prefix of `s` that does not end with whitespace,
      and what it dropped is whitespace. */
  lemma {:induction false} TrimEndShape(s: string)
    ensures |TrimEnd(s)| <= |s|
    ensures TrimEnd(s) == s[..|TrimEnd(s)|]
    ensures AllSpace(s[|TrimEnd(s)|..])
    ensures |TrimEnd(s)| == 0 || !IsSpace(TrimEnd(s)[|TrimEnd(s)| - 1])
    decreases |s|
  {
    if |s| > 0 && IsSpace(s[|s| - 1]) {
      var u := s[..|s| - 1];
      TrimEndShape(u);
      var k := |TrimEnd(s)|;
      assert u[..k] == s[..k];
      assert s[k..] == u[k..] + [s[|s| - 1]];
    }
  }

  /** Python's `s.strip()`: what is left of `s` after removing whitespace
      from both ends. */
  function Strip(s: string): (r: string)
    ensures Tight(r)
  {
    var t := TrimStart(s);
    TrimStartShape(s);
    TrimEndShape(t);
    assert |TrimEnd(t)| > 0 ==> TrimEnd(t)[0] == t[0];
    TrimEnd(t)
  }

  /** The number of leading whitespace characters of `s`. */
  function StripOffset(s: string): nat {
    TrimStartShape(s);
    |s| - |TrimStart(s)|
  }

  /** `Strip(s)` is the infix of `s` starting at `StripOffset(s)`, and
      everything around it is whitespace. */
  lemma StripShape(s: string)
    ensures StripOffset(s) + |Strip(s)| <= |s|
    ensures Strip(s) == s[StripOffset(s)..StripOffset(s) + |Strip(s)|]
    ensures AllSpace(s[..StripOffset(s)]) && AllSpace(s[StripOffset(s) + |Strip(s)|..])
  {
    var t := TrimStart(s);
    TrimStartShape(s);
    TrimEndShape(t);
    var r := Strip(s);
    var i := StripOffset(s);
    assert t == s[i..];
    assert s[i + |r|..] == t[|r|..];
  }

  /** Removing leading whitespace stops exactly at the first non-space. */
  lemma {:induction false} TrimStartAt(s: string, i: nat)
    requires i < |s| && AllSpace(s[..i]) && !IsSpace(s[i])
    ensures TrimStart(s) == s[i..]
    decreases i
  {
    if i > 0 {
      assert IsSpace(s[..i][0]);
      assert s[1..][..i - 1] == s[1..i];
      TrimStartAt(s[1..], i - 1);
      assert s[1..][i - 1..] == s[i..];
    }
  }

  /** Removing trailing whitespace stops exactly after the last non-space. */
  lemma {:induction false} TrimEndAt(s: string, j: nat)
    requires 0 < j <= |s| && AllSpace(s[j..]) && !IsSpace(s[j - 1])
    ensures TrimEnd(s) == s[..j]
    decreases |s| - j
  {
    if j < |s| {
      assert IsSpace(s[j..][|s| - 1 - j]);
      var u := s[..|s| - 1];
      assert u[j..] == s[j..|s| - 1];
      TrimEndAt(u, j);
      assert u[..j] == s[..j];
    }
  }

  /** A whitespace-only string strips to the empty string. */
  lemma {:induction false} TrimStartAllSpace(s: string)
    requires AllSpace(s)
    ensures TrimStart(s) == []
    decreases |s|
  {
    if |s| > 0 {
      assert IsSpace(s[0]);
      TrimStartAllSpace(s[1..]);
    }
  }

  /** The strip of `s` is determined by any split of `s` into whitespace,
      a tight middle and whitespace: that middle is `Strip(s)`. */
  lemma StripUnique(s: string, i: nat, j: nat)
    requires i <= j <= |s|
    requires AllSpace(s[..i]) && AllSpace(s[j..]) && Tight(s[i..j])
    ensures Strip(s) == s[i..j]
  {
    if i == j {
      StripBlank(s, i);
    } else {
      StripAround(s, i, j);
    }
  }

  lemma StripBlank(s: string, i: nat)
    requires i <= |s| && AllSpace(s[..i]) && AllSpace(s[i..])
    ensures Strip(s) == []
  {
    assert AllSpace(s) by {
      assert s == s[..i] + s[i..];
    }
    TrimStartAllSpace(s);
  }

  lemma StripAround(s: string, i: nat, j: nat)
    requires i < j <= |s|
    requires AllSpace(s[..i]) && AllSpace(s[j..]) && Tight(s[i..j])
    ensures Strip(s) == s[i..j]
  {
    assert s[i] == s[i..j][0];
    assert s[j - 1] == s[i..j][j - i - 1];
    TrimStartAt(s, i);
    var t := s[i..];
    assert t[j - i..] == s[j..];
    TrimEndAt(t, j - i);
    assert t[..j - i] == s[i..j];
  }

  /** Stripping twice is stripping once. */
  lemma StripIdempotent(s: string)
    ensures Strip(Strip(s)) == Strip(s)
  {
    var r := Strip(s);
    assert r[..0] == [] && r[|r|..] == [] && r[0..|r|] == r;
    StripUnique(r, 0, |r|);
  }

  /** `str.lower()` on one character: ASCII upper case to lower case. */
  function LowerChar(c: char): char {
    if 'A' <= c <= 'Z' then (c as int - 'A' as int + 'a' as int) as char else c
  }

  /** Python's `s.lower()`, character by character. */
  function Lower(s: string): string {
    seq(|s|, k requires 0 <= k < |s| => LowerChar(s[k]))
  }

  /** Lower-casing never turns whitespace into non-whitespace or back. */
  lemma LowerKeepsSpace(c: char)
    ensures IsSpace(LowerChar(c)) <==> IsSpace(c)
  {
  }

  /** Lower-casing commutes with slicing. */
  lemma LowerSlice(s: string, a: nat, b: nat)
    requires a <= b <= |s|
    ensures Lower(s)[a..b] == Lower(s[a..b])
  {
    var r := Lower(s);
    var t := s[a..b];
    forall k | 0 <= k < b - a
      ensures r[a..b][k] == Lower(t)[k]
    {
      assert r[a..b][k] == r[a + k] && t[k] == s[a + k];
    }
  }

  /** Lower-casing keeps a blank string blank and a tight string tight. */
  lemma LowerKeepsShape(s: string)
    ensures AllSpace(s) ==> AllSpace(Lower(s))
    ensures Tight(s) ==> Tight(Lower(s))
  {
    var r := Lower(s);
    forall k | 0 <= k < |s|
      ensures IsSpace(r[k]) <==> IsSpace(s[k])
    {
      LowerKeepsSpace(s[k]);
    }
  }

  lemma LowerPrefixBlank(s: string, o: nat)
    requires o <= |s| && AllSpace(s[..o])
    ensures AllSpace(Lower(s)[..o])
  {
    forall k | 0 <= k < o
      ensures IsSpace(Lower(s)[..o][k])
    {
      assert s[..o][k] == s[k];
      LowerKeepsSpace(s[k]);
    }
  }

  lemma LowerSuffixBlank(s: string, j: nat)
    requires j <= |s| && AllSpace(s[j..])
    ensures AllSpace(Lower(s)[j..])
  {
    forall k | 0 <= k < |s| - j
      ensures IsSpace(Lower(s)[j..][k])
    {
      assert s[j..][k] == s[j + k];
      LowerKeepsSpace(s[j + k]);
    }
  }

  /** The pieces of `left + text + right` around a slice of `text`. */
  lemma PaddedSlices(text: string, left: string, right: string, a: nat, b: nat)
    requires a <= b <= |text|
    ensures (left + text + right)[|left| + a..|left| + b] == text[a..b]
    ensures (left + text + right)[..|left| + a] == left + text[..a]
    ensures (left + text + right)[|left| + b..] == text[b..] + right
  {
    var s := left + text + right;
    forall k | 0 <= k < b - a
      ensures s[|left| + a..|left| + b][k] == text[a..b][k]
    {
      assert s[|left| + a + k] == text[a + k];
    }
    forall k | 0 <= k < |left| + a
      ensures s[..|left| + a][k] == (left + text[..a])[k]
    {
      if k >= |left| { assert s[k] == text[k - |left|]; }
    }
    forall k | 0 <= k < |s| - (|left| + b)
      ensures s[|left| + b..][k] == (text[b..] + right)[k]
    {
      if k < |text| - b { assert s[|left| + b + k] == text[b + k]; }
      else { assert s[|left| + b + k] == right[k - (|text| - b)]; }
    }
  }

  /** Whitespace around a string does not change what it strips to. */
  lemma StripPadded(text: string, left: string, right: string)
    requires AllSpace(left) && AllSpace(right)
    ensures Strip(left + text + right) == Strip(text)
  {
    StripShape(text);
    var o := StripOffset(text);
    var j := o + |Strip(text)|;
    PaddedSlices(text, left, right, o, j);
    AllSpaceConcat(left, text[..o]);
    AllSpaceConcat(text[j..], right);
    StripUnique(left + text + right, |left| + o, |left| + j);
  }

  /** Stripping and lower-casing commute. */
  lemma StripLower(s: string)
    ensures Strip(Lower(s)) == Lower(Strip(s))
  {
    StripShape(s);
    var o := StripOffset(s);
    var j := o + |Strip(s)|;
    LowerPrefixBlank(s, o);
    LowerSuffixBlank(s, j);
    LowerSlice(s, o, j);
    LowerKeepsShape(s[o..j]);
    StripUnique(Lower(s), o, j);
  }

  /** Lower-casing is idempotent. */
  lemma LowerIdempotent(s: string)
    ensures Lower(Lower(s)) == Lower(s)
  {
  }

  /** The concatenation of a list of strings, in order (`"".join(parts)`). */
  function Concat(parts: seq<string>): string {
    if |parts| == 0 then "" else Concat(parts[..|parts| - 1]) + parts[|parts| - 1]
  }

  /** Python's `sep.join(parts)`: the parts with `sep` between neighbours. */
  function Join(sep: string, parts: seq<string>): string {
    if |parts| == 0 then ""
    else if |parts| == 1 then parts[0]
    else Join(sep, parts[..|parts| - 1]) + sep + parts[|parts| - 1]
  }

  /** The decimal digit character for `d`. */
  function DigitChar(d: nat): (c: char)
    requires d < 10
    ensures '0' <= c <= '9'
  {
    ('0' as int + d) as char
  }

  predicate IsDigit(c: char) {
    '0' <= c <= '9'
  }

  predicate AllDigits(s: string) {
    forall k :: 0 <= k < |s| ==> IsDigit(s[k])
  }

  /** `str(n)` for a non-negative integer: its decimal rendering, no sign,
      no leading zero. */
  function Decimal(n: nat): (r: string)
    ensures |r| > 0 && AllDigits(r)
  {
    if n < 10 then [DigitChar(n)] else Decimal(n / 10) + [DigitChar(n % 10)]
  }

  /** The number a string of decimal digits denotes (`int(s)`). */
  function DecimalValue(s: string): nat
    requires AllDigits(s)
  {
    if |s| == 0 then 0
    else DecimalValue(s[..|s| - 1]) * 10 + (s[|s| - 1] as int - '0' as int)
  }

  /** Reading back the rendering of `n` gives `n`. */
  lemma {:induction false} DecimalRoundTrip(n: nat)
    ensures DecimalValue(Decimal(n)) == n
    decreases n
  {
    if n >= 10 {
      var r := Decimal(n);
      assert r[..|r| - 1] == Decimal(n / 10);
      DecimalRoundTrip(n / 10);
    }
  }

  function Pow10(k: nat): (p: nat)
    ensures p >= 1
  {
    if k == 0 then 1 else 10 * Pow10(k - 1)
  }

  /** A number with `k + 1` significant digits renders to `k + 1` characters
      and its first character is not `'0'`. */
  lemma {:induction false} DecimalLength(n: nat, k: nat)
    requires Pow10(k) <= n < Pow10(k + 1)
    ensures |Decimal(n)| == k + 1
    ensures Decimal(n)[0] != '0'
    decreases k
  {
    if k > 0 {
      DecimalLength(n / 10, k - 1);
    }
  }
}
