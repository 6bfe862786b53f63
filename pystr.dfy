/** The Python string builtins the core relies on, over `seq<char>`:
    `str.isspace`, `str.strip`, `str.startswith`, `sub in s`,
    `str.replace(pat, "")`, `str.split(sep)[0]` and `str.split(sep)[1]`. */
module PyStr {

  import opened Wrappers

  /** Python's whitespace for `str.strip()` and `str.isspace()`, by code point. */
  predicate IsSpace(c: char) {
    var n := c as int;
    || 0x09 <= n <= 0x0D
    || 0x1C <= n <= 0x20
    || n == 0x85 || n == 0xA0 || n == 0x1680
    || 0x2000 <= n <= 0x200A
    || n == 0x2028 || n == 0x2029 || n == 0x202F || n == 0x205F || n == 0x3000
  }

  /** `s.startswith(prefix)` */
  predicate StartsWith(s: string, prefix: string) {
    |prefix| <= |s| && s[..|prefix|] == prefix
  }

  /** `sub in s`: some position of `s` starts an occurrence of `sub`. */
  predicate Contains(s: string, sub: string)
    decreases |s|
  {
    StartsWith(s, sub) || (|s| > 0 && Contains(s[1..], sub))
  }

  /** Neither end of `s` is whitespace: what `strip()` guarantees. */
  predicate IsStripped(s: string) {
    |s| > 0 ==> !IsSpace(s[0]) && !IsSpace(s[|s| - 1])
  }

  /** `s.replace(pat, "")`: occurrences are found left to right and do not overlap. */
  function RemoveAll(s: string, pat: string): (r: string)
    requires |pat| > 0
    ensures |r| <= |s|
    ensures r == s <==> !Contains(s, pat)
    decreases |s|
  {
    if StartsWith(s, pat) then RemoveAll(s[|pat|..], pat)
    else if |s| == 0 then []
    else [s[0]] + RemoveAll(s[1..], pat)
  }

  /** The number of whitespace characters `s` starts with. */
  function LeadingSpace(s: string): (n: nat)
    ensures n <= |s|
    ensures forall k | 0 <= k < n :: IsSpace(s[k])
    ensures n < |s| ==> !IsSpace(s[n])
    decreases |s|
  {
    if |s| > 0 && IsSpace(s[0]) then 1 + LeadingSpace(s[1..]) else 0
  }

  /** The number of whitespace characters `s` ends with. */
  function TrailingSpace(s: string): (n: nat)
    ensures n <= |s|
    ensures forall k | |s| - n <= k < |s| :: IsSpace(s[k])
    ensures n < |s| ==> !IsSpace(s[|s| - 1 - n])
    decreases |s|
  {
    if |s| > 0 && IsSpace(s[|s| - 1]) then 1 + TrailingSpace(s[..|s| - 1]) else 0
  }

  /** `r` is `s` with the whitespace before position `i` and after `r` cut off. */
  predicate TrimmedAt(s: string, i: int, r: string) {
    && 0 <= i <= |s| - |r|
    && s[i..i + |r|] == r
    && (forall k | 0 <= k < i :: IsSpace(s[k]))
    && (forall k | i + |r| <= k < |s| :: IsSpace(s[k]))
  }

  /** `s.strip()` */
  function Strip(s: string): (r: string)
    ensures IsStripped(r)
    ensures exists i :: TrimmedAt(s, i, r)
  {
    var i := LeadingSpace(s);
    if i == |s| then
      assert TrimmedAt(s, i, []);
      []
    else
      var j := |s| - TrailingSpace(s);
      assert TrimmedAt(s, i, s[i..j]);
      s[i..j]
  }

  /** `s.split(sep)[0]`: the text before the first `sep`, or all of `s`. */
  function SplitHead(s: string, sep: char): (r: string)
    ensures sep !in r
    ensures StartsWith(s, r)
    ensures |r| < |s| ==> s[|r|] == sep
    decreases |s|
  {
    if |s| == 0 || s[0] == sep then [] else [s[0]] + SplitHead(s[1..], sep)
  }

  /** `s.split(sep)[1]`: the text between the first and the second `sep`,
      or a failure (an IndexError) when `sep` does not occur. */
  function SplitSecond(s: string, sep: char): (r: Option<string>)
    ensures r.None? <==> sep !in s
    ensures r.Some? ==> sep !in r.value
    ensures r.Some? ==>
      var h := |SplitHead(s, sep)|;
      && h < |s| && s[h] == sep
      && StartsWith(s[h + 1..], r.value)
      && (h + 1 + |r.value| < |s| ==> s[h + 1 + |r.value|] == sep)
  {
    var head := SplitHead(s, sep);
    if |head| == |s| then
      assert head == s;
      None
    else
      Some(SplitHead(s[|head| + 1..], sep))
  }

  lemma {:induction false} SplitHeadAt(a: string, sep: char, b: string)
    requires sep !in a
    ensures SplitHead(a + [sep] + b, sep) == a
    ensures SplitHead(a, sep) == a
  {
    if |a| > 0 {
      assert (a + [sep] + b)[1..] == a[1..] + [sep] + b;
      SplitHeadAt(a[1..], sep, b);
    }
  }

  /** Cutting letters off the end of a string cannot create an occurrence. */
  lemma {:induction false} ContainsInPrefix(s: string, j: nat, sub: string)
    requires j <= |s| && Contains(s[..j], sub)
    ensures Contains(s, sub)
    decreases |s|
  {
    if !StartsWith(s[..j], sub) {
      assert s[..j][1..] == s[1..][..j - 1];
      ContainsInPrefix(s[1..], j - 1, sub);
    }
  }

  /** Cutting letters off the front of a string cannot create an occurrence. */
  lemma {:induction false} ContainsInSuffix(s: string, i: nat, sub: string)
    requires i <= |s| && Contains(s[i..], sub)
    ensures Contains(s, sub)
    decreases i
  {
    if i > 0 {
      assert s[1..][i - 1..] == s[i..];
      ContainsInSuffix(s[1..], i - 1, sub);
    }
  }

  /** Stripping only shortens a string, so it adds no occurrence. */
  lemma StripContains(s: string, sub: string)
    requires Contains(Strip(s), sub)
    ensures Contains(s, sub)
  {
    var r := Strip(s);
    var i :| TrimmedAt(s, i, r);
    assert s[i..][..|r|] == r;
    ContainsInPrefix(s[i..], |r|, sub);
    ContainsInSuffix(s, i, sub);
  }

  /** `strip()` is the identity on a string that is already stripped. */
  lemma StripStripped(s: string)
    requires IsStripped(s)
    ensures Strip(s) == s
  {
  }

  /** A string shorter than `sub` cannot contain it. */
  lemma {:induction false} ShorterNotContains(s: string, sub: string)
    requires |s| < |sub|
    ensures !Contains(s, sub)
    decreases |s|
  {
    if |s| > 0 {
      ShorterNotContains(s[1..], sub);
    }
  }

  /** A stretch of letters none of which can start `pat` passes through
      `replace(pat, "")` unchanged. */
  lemma {:induction false} RemoveAllSkips(a: string, b: string, pat: string)
    requires |pat| > 0
    requires forall i | 0 <= i < |a| :: a[i] != pat[0]
    ensures RemoveAll(a + b, pat) == a + RemoveAll(b, pat)
    decreases |a|
  {
    if |a| == 0 {
      assert a + b == b;
    } else {
      var ab := a + b;
      assert ab[0] == a[0] != pat[0];
      assert !StartsWith(ab, pat);
      assert ab[1..] == a[1..] + b;
      RemoveAllSkips(a[1..], b, pat);
      calc {
        RemoveAll(ab, pat);
        [a[0]] + RemoveAll(a[1..] + b, pat);
        [a[0]] + (a[1..] + RemoveAll(b, pat));
        { assert [a[0]] + a[1..] == a; }
        a + RemoveAll(b, pat);
      }
    }
  }
}
