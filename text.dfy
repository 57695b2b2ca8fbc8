/**
 * The few Python `str` operations the launcher relies on, over `string`
 * (a sequence of Unicode scalar values, as a Python 3 `str` is).
 */
module Text {
  import opened Wrappers

  /**
   * The characters `str.isspace()` accepts, as inclusive ranges of code
   * points; also the `\s` class of `re` on `str` patterns.
   */
  const BlankRanges: seq<(char, char)> := [
    (' ', ' '), ('\t', '\r'), ('\U{1c}', '\U{1f}'), ('\U{85}', '\U{85}'), ('\U{a0}', '\U{a0}'),
    ('\U{1680}', '\U{1680}'), ('\U{2000}', '\U{200a}'), ('\U{2028}', '\U{2029}'),
    ('\U{202f}', '\U{202f}'), ('\U{205f}', '\U{205f}'), ('\U{3000}', '\U{3000}')
  ]

  /** `c` lies in one of the ranges of `t`. */
  predicate InRanges(c: char, t: seq<(char, char)>) {
    t != [] && (t[0].0 <= c <= t[0].1 || InRanges(c, t[1..]))
  }

  /** `str.isspace()` on one character. */
  predicate IsSpace(c: char) {
    InRanges(c, BlankRanges)
  }

  /** A character outside every range of `t` is not in `t`'s ranges. */
  lemma {:induction false} OutsideRanges(c: char, t: seq<(char, char)>)
    requires forall i | 0 <= i < |t| :: c < t[i].0 || t[i].1 < c
    ensures !InRanges(c, t)
  {
    if t != [] {
      OutsideRanges(c, t[1..]);
    }
  }

  /** Identifier characters are not blanks. */
  lemma WordCharNotSpace(c: char)
    ensures IsWordChar(c) ==> !IsSpace(c)
  {
    if IsWordChar(c) {
      OutsideRanges(c, BlankRanges);
    }
  }

  predicate IsAsciiLetter(c: char) {
    ('A' <= c <= 'Z') || ('a' <= c <= 'z')
  }

  predicate IsDigit(c: char) {
    '0' <= c <= '9'
  }

  /** `[A-Za-z0-9_]`: the identifier characters, also taken as the word characters of `\b`. */
  predicate IsWordChar(c: char) {
    IsAsciiLetter(c) || IsDigit(c) || c == '_'
  }

  /** `[A-Za-z_]`: the characters an identifier may start with. */
  predicate IsIdentStart(c: char) {
    IsAsciiLetter(c) || c == '_'
  }

  /** Number of leading characters of `t` that satisfy `p`. */
  function Span(t: string, p: char -> bool): (n: nat)
    ensures n <= |t|
    ensures forall k | 0 <= k < n :: p(t[k])
    ensures n < |t| ==> !p(t[n])
  {
    if t == [] || !p(t[0]) then 0 else 1 + Span(t[1..], p)
  }

  /** The span is the index of the first character failing `p`. */
  lemma SpanIsFirstFailure(t: string, p: char -> bool, n: nat)
    requires n <= |t| && (forall k | 0 <= k < n :: p(t[k])) && (n < |t| ==> !p(t[n]))
    ensures Span(t, p) == n
  {
  }

  /** A span that stops inside `a` is not affected by what follows `a`. */
  lemma {:induction false} SpanStopsInside(a: string, b: string, p: char -> bool)
    requires Span(a, p) < |a|
    ensures Span(a + b, p) == Span(a, p)
  {
    if a != [] && p(a[0]) {
      assert (a + b)[1..] == a[1..] + b;
      SpanStopsInside(a[1..], b, p);
    }
  }

  /** A span that covers all of `a` continues into `b`. */
  lemma {:induction false} SpanCrosses(a: string, b: string, p: char -> bool)
    requires forall k | 0 <= k < |a| :: p(a[k])
    ensures Span(a + b, p) == |a| + Span(b, p)
  {
    if a != [] {
      assert p((a + b)[0]);
      assert (a + b)[1..] == a[1..] + b;
      assert Span(a + b, p) == 1 + Span(a[1..] + b, p);
      forall k | 0 <= k < |a| - 1 ensures p(a[1..][k]) {
        assert a[1..][k] == a[k + 1];
      }
      SpanCrosses(a[1..], b, p);
    } else {
      assert a + b == b;
    }
  }

  function LStrip(s: string): (r: string)
    ensures |r| <= |s| && r == s[|s| - |r|..]
    ensures forall k | 0 <= k < |s| - |r| :: IsSpace(s[k])
    ensures r != [] ==> !IsSpace(r[0])
  {
    if s != [] && IsSpace(s[0]) then
      var r := LStrip(s[1..]);
      assert r == s[1..][|s| - 1 - |r|..] == s[|s| - |r|..];
      forall k | 1 <= k < |s| - |r| ensures IsSpace(s[k]) {
        assert s[k] == s[1..][k - 1];
      }
      r
    else s
  }

  function RStrip(s: string): (r: string)
    ensures |r| <= |s| && r == s[..|r|]
    ensures forall k | |r| <= k < |s| :: IsSpace(s[k])
    ensures r != [] ==> !IsSpace(r[|r| - 1])
  {
    if s != [] && IsSpace(s[|s| - 1]) then
      var r := RStrip(s[..|s| - 1]);
      assert r == s[..|s| - 1][..|r|] == s[..|r|];
      forall k | |r| <= k < |s| - 1 ensures IsSpace(s[k]) {
        assert s[k] == s[..|s| - 1][k];
      }
      r
    else s
  }

  /**
   * `r` is what is left of `s` once its leading and trailing whitespace is
   * removed: the slice of `s` at `i`, with only whitespace around it and no
   * whitespace at either of its ends.
   */
  ghost predicate Stripped(s: string, i: nat, r: string) {
    && i + |r| <= |s| && r == s[i..i + |r|]
    && (forall k | 0 <= k < i :: IsSpace(s[k]))
    && (forall k | i + |r| <= k < |s| :: IsSpace(s[k]))
    && (r != [] ==> !IsSpace(r[0]) && !IsSpace(r[|r| - 1]))
  }

  /** `str.strip()` with no argument. */
  function Strip(s: string): (r: string)
    ensures |r| <= |s|
  {
    RStrip(LStrip(s))
  }

  /** `Strip` removes exactly the whitespace at both ends. */
  lemma StripSound(s: string)
    ensures Stripped(s, |s| - |LStrip(s)|, Strip(s))
  {
    var l := LStrip(s);
    StripParts(s, |s| - |l|, l, RStrip(l));
  }

  /** Whitespace removed from the left of `s`, giving `l`, then from the right of `l`, giving `r`. */
  lemma StripParts(s: string, i: nat, l: string, r: string)
    requires i + |l| == |s| && l == s[i..] && (forall k | 0 <= k < i :: IsSpace(s[k]))
    requires l != [] ==> !IsSpace(l[0])
    requires |r| <= |l| && r == l[..|r|] && (forall k | |r| <= k < |l| :: IsSpace(l[k]))
    requires r != [] ==> !IsSpace(r[|r| - 1])
    ensures Stripped(s, i, r)
  {
    assert r == s[i..i + |r|];
    forall k | i + |r| <= k < |s| ensures IsSpace(s[k]) {
      assert s[k] == l[k - i];
    }
    if r != [] {
      assert r[0] == l[0];
    }
  }

  /** The stripped slice is unique, so `Strip` is the only function with that property. */
  lemma StripUnique(s: string, i: nat, r: string, j: nat, q: string)
    requires Stripped(s, i, r) && Stripped(s, j, q)
    ensures r == q
  {
    if r != [] && q != [] {
      assert s[i] == r[0] && s[j] == q[0];
      assert s[i + |r| - 1] == r[|r| - 1] && s[j + |q| - 1] == q[|q| - 1];
    } else if r != [] || q != [] {
      assert false;
    }
  }

  /** Any slice with the stripped property is what `Strip` returns. */
  lemma StrippedIsStrip(s: string, i: nat, r: string)
    requires Stripped(s, i, r)
    ensures r == Strip(s)
  {
    StripSound(s);
    StripUnique(s, i, r, |s| - |LStrip(s)|, Strip(s));
  }

  /** Python's `pat in s`. */
  predicate Contains(s: string, pat: string) {
    pat <= s || (s != [] && Contains(s[1..], pat))
  }

  lemma {:induction false} ContainsMiddle(x: string, pat: string, y: string)
    ensures Contains(x + pat + y, pat)
  {
    if x != [] {
      assert (x + pat + y)[1..] == x[1..] + pat + y;
      ContainsMiddle(x[1..], pat, y);
    }
  }

  lemma {:induction false} ContainsExtend(a: string, b: string, pat: string)
    requires Contains(a, pat)
    ensures Contains(a + b, pat)
  {
    if pat <= a {
      assert (a + b)[..|pat|] == a[..|pat|];
    } else {
      assert (a + b)[1..] == a[1..] + b;
      ContainsExtend(a[1..], b, pat);
    }
  }

  /** Every character of `pat` but the first differs from the first. */
  predicate FirstCharUnique(pat: string) {
    pat != [] && pat[0] !in pat[1..]
  }

  /**
   * For a pattern whose first character occurs only once, an occurrence that
   * straddles the end of `x` and the start of another copy of `pat` is
   * impossible: the first occurrence in `x + pat` is the appended one.
   */
  lemma {:induction false} NoStraddle(x: string, pat: string)
    requires FirstCharUnique(pat) && !Contains(x, pat)
    ensures !Contains(x + pat[..|pat| - 1], pat)
  {
    var q := pat[..|pat| - 1];
    if x == [] {
      assert x + q == q;
      ShortNoContains(q, pat);
    } else {
      if |x| >= |pat| {
        assert (x + q)[..|pat|] == x[..|pat|];
        assert !(pat <= x);
      } else {
        assert (x + q)[|x|] == q[0] == pat[0];
        assert pat[|x|] != pat[0] by { assert pat[|x|] == pat[1..][|x| - 1]; }
      }
      assert (x + q)[1..] == x[1..] + q;
      NoStraddle(x[1..], pat);
    }
  }

  lemma {:induction false} ShortNoContains(s: string, pat: string)
    requires |s| < |pat|
    ensures !Contains(s, pat)
  {
    if s != [] {
      ShortNoContains(s[1..], pat);
    }
  }

  predicate EndsWith(s: string, suffix: string) {
    |suffix| <= |s| && s[|s| - |suffix|..] == suffix
  }

  /**
   * `s.replace(pat, rep)`: every non-overlapping occurrence of `pat`, scanning
   * from the left, is replaced by `rep`.
   */
  function ReplaceAll(s: string, pat: string, rep: string): string
    requires pat != []
  {
    if |s| < |pat| then s
    else if pat <= s then rep + ReplaceAll(s[|pat|..], pat, rep)
    else [s[0]] + ReplaceAll(s[1..], pat, rep)
  }

  /** Text holding no occurrence of the pattern is returned unchanged. */
  lemma {:induction false} ReplaceAllAbsent(s: string, pat: string, rep: string)
    requires pat != [] && !Contains(s, pat)
    ensures ReplaceAll(s, pat, rep) == s
  {
    if |s| >= |pat| {
      ReplaceAllAbsent(s[1..], pat, rep);
    }
  }

  /**
   * When the first occurrence of `pat` in `x + pat + y` is the one after `x`,
   * `x` is kept, that occurrence becomes `rep`, and the scan resumes on `y`.
   */
  lemma {:induction false} ReplaceAllAtFirst(x: string, pat: string, rep: string, y: string)
    requires pat != [] && !Contains(x + pat[..|pat| - 1], pat)
    ensures ReplaceAll(x + pat + y, pat, rep) == x + rep + ReplaceAll(y, pat, rep)
  {
    if x == [] {
      assert x + pat + y == pat + y && (pat + y)[|pat|..] == y;
    } else {
      ReplaceAllSkip(x, pat, rep, y);
      ReplaceAllAtFirst(x[1..], pat, rep, y);
      assert x + rep + ReplaceAll(y, pat, rep) == [x[0]] + (x[1..] + rep + ReplaceAll(y, pat, rep));
    }
  }

  /** The first character of `x` is kept, and the scan moves on to the rest of `x`. */
  lemma ReplaceAllSkip(x: string, pat: string, rep: string, y: string)
    requires pat != [] && x != [] && !Contains(x + pat[..|pat| - 1], pat)
    ensures !Contains(x[1..] + pat[..|pat| - 1], pat)
    ensures ReplaceAll(x + pat + y, pat, rep) == [x[0]] + ReplaceAll(x[1..] + pat + y, pat, rep)
  {
    NotPrefixBeyond(x, pat, y);
    assert (x + pat + y)[1..] == x[1..] + pat + y;
    assert (x + pat[..|pat| - 1])[1..] == x[1..] + pat[..|pat| - 1];
  }

  lemma NotPrefixBeyond(x: string, pat: string, y: string)
    requires pat != [] && x != [] && !Contains(x + pat[..|pat| - 1], pat)
    ensures |x + pat + y| >= |pat| && !(pat <= x + pat + y)
  {
    var q := pat[..|pat| - 1];
    var s := x + pat + y;
    assert s == (x + q) + ([pat[|pat| - 1]] + y);
    assert !(pat <= x + q);
    PrefixOfLonger(pat, x + q, [pat[|pat| - 1]] + y);
  }

  /** Up to the length of `a`, being a prefix of `a + b` is being a prefix of `a`. */
  lemma PrefixOfLonger(p: string, a: string, b: string)
    requires |p| <= |a|
    ensures p <= a + b <==> p <= a
  {
    assert (a + b)[..|p|] == a[..|p|];
  }

  /** Replacing one character by another maps every position independently. */
  lemma {:induction false} ReplaceCharPointwise(s: string, a: char, b: char)
    ensures |ReplaceAll(s, [a], [b])| == |s|
    ensures forall k | 0 <= k < |s| :: ReplaceAll(s, [a], [b])[k] == if s[k] == a then b else s[k]
  {
    if s != [] {
      ReplaceCharPointwise(s[1..], a, b);
    }
  }

  /** `s.replace("\\", "/")`: backslashes become forward slashes. */
  function ForwardSlashes(s: string): (r: string)
    ensures |r| == |s|
    ensures forall k | 0 <= k < |s| :: r[k] == if s[k] == '\\' then '/' else s[k]
    ensures '\\' !in r
  {
    ReplaceCharPointwise(s, '\\', '/');
    var r := ReplaceAll(s, "\\", "/");
    assert forall c | c in r :: c != '\\' by {
      forall c | c in r ensures c != '\\' {
        var k :| 0 <= k < |r| && r[k] == c;
      }
    }
    r
  }

  /** `sep.join(parts)`. */
  function JoinWith(parts: seq<string>, sep: string): string {
    if parts == [] then ""
    else if |parts| == 1 then parts[0]
    else parts[0] + sep + JoinWith(parts[1..], sep)
  }

  /** `pat` occurs at `i` of `s`, and nowhere before. */
  ghost predicate FirstAt(s: string, pat: string, i: nat)
    requires pat != []
  {
    i + |pat| <= |s| && pat <= s[i..] && !Contains(s[..i + |pat| - 1], pat)
  }

  /** Index of the first occurrence of `pat` in `s`, as `str.find` (None for -1). */
  function Find(s: string, pat: string): (r: Option<nat>)
    requires pat != []
    ensures r.Some? ==> FirstAt(s, pat, r.value)
    ensures r.None? <==> !Contains(s, pat)
  {
    if pat <= s then
      FindHere(s, pat);
      Some(0)
    else if s == [] then None
    else
      var r := Find(s[1..], pat);
      if r.None? then None
      else
        FindShift(s, pat, r.value);
        Some(r.value + 1)
  }

  lemma FindHere(s: string, pat: string)
    requires pat != [] && pat <= s
    ensures FirstAt(s, pat, 0) && Contains(s, pat)
  {
    ShortNoContains(s[..|pat| - 1], pat);
  }

  lemma FindShift(s: string, pat: string, i: nat)
    requires pat != [] && s != [] && !(pat <= s)
    requires FirstAt(s[1..], pat, i) && Contains(s[1..], pat)
    ensures FirstAt(s, pat, i + 1) && Contains(s, pat)
  {
    assert s[1..][i..] == s[i + 1..];
    var u := s[..i + |pat|];
    assert u[1..] == s[1..][..i + |pat| - 1];
    TakeDrop(s, i + |pat|);
    PrefixOfLonger(pat, u, s[i + |pat|..]);
  }

  /** The text around the first occurrence of `pat`, and no earlier occurrence. */
  lemma FirstAtSplit(s: string, pat: string, i: nat)
    requires pat != [] && FirstAt(s, pat, i)
    ensures s == s[..i] + pat + s[i + |pat|..]
    ensures !Contains(s[..i] + pat[..|pat| - 1], pat)
  {
    SplitAround(s, pat, i);
  }

  lemma SplitAround(s: string, pat: string, i: nat)
    requires pat != [] && i + |pat| <= |s| && pat <= s[i..]
    ensures s == s[..i] + pat + s[i + |pat|..]
    ensures s[..i + |pat| - 1] == s[..i] + pat[..|pat| - 1]
  {
    var k := |pat|;
    assert s[i..i + k] == pat;
    assert s == s[..i] + s[i..i + k] + s[i + k..];
  }

  /** The first occurrence of `pat` in `x + pat + y` is the one after `x`, when none starts in `x`. */
  lemma FindAt(x: string, pat: string, y: string)
    requires pat != [] && !Contains(x + pat[..|pat| - 1], pat)
    ensures Find(x + pat + y, pat) == Some(|x|)
  {
    var s := x + pat + y;
    ContainsMiddle(x, pat, y);
    var i := Find(s, pat).value;
    NotBefore(x, pat, y, i);
    NotAfter(x, pat, y, i);
  }
  lemma NotBefore(x: string, pat: string, y: string, i: nat)
    requires pat != [] && !Contains(x + pat[..|pat| - 1], pat)
    requires FirstAt(x + pat + y, pat, i)
    ensures i >= |x|
  {
    var s := x + pat + y;
    if i < |x| {
      assert s[..|x| + |pat| - 1] == x + pat[..|pat| - 1];
      EarlierContains(s, pat, i, |x|);
    }
  }
  lemma NotAfter(x: string, pat: string, y: string, i: nat)
    requires pat != []
    requires FirstAt(x + pat + y, pat, i)
    ensures i <= |x|
  {
    var s := x + pat + y;
    if i > |x| {
      assert s[|x|..] == pat + y;
      EarlierContains(s, pat, |x|, i);
    }
  }
  /** An occurrence of `pat` at `i` lies within the text up to any later occurrence at `j`, but its last character. */
  lemma EarlierContains(s: string, pat: string, i: nat, j: nat)
    requires pat != [] && i < j && j + |pat| <= |s| && pat <= s[i..]
    ensures Contains(s[..j + |pat| - 1], pat)
  {
    var t := s[..j + |pat| - 1];
    assert t == t[..i] + pat + t[i + |pat|..];
    ContainsMiddle(t[..i], pat, t[i + |pat|..]);
  }

  lemma TakeDrop<T>(s: seq<T>, j: nat)
    requires j <= |s|
    ensures s[..j] + s[j..] == s
  {
  }
}
