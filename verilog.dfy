/**
 * The Verilog helpers of launcher/views.py: renaming the first module
 * declaration of a source text and wrapping it in DECLFILENAME lint pragmas
 * (`fix_verilog_module_name`), and substituting the model class name into
 * the simulation harness (`patch_sim_main`). Both are modelled here on the
 * file contents; reading and writing the files is in module Launch.
 */
module Verilog {
  import opened Wrappers
  import opened Text

  const Keyword := "module"
  const LintMarker := "verilator lint_off DECLFILENAME"
  const LintOff := "/* " + LintMarker + " */\n"
  const LintOn := "\n/* verilator lint_on DECLFILENAME */\n"
  const Placeholder := "VMODULE_NAME"

  /** A complete simple identifier, `[A-Za-z_][A-Za-z0-9_]*`. */
  predicate IsIdentifier(n: string) {
    n != [] && IsIdentStart(n[0]) && forall k | 0 <= k < |n| :: IsWordChar(n[k])
  }

  /**
   * A name that the replacement template `\1<name>` inserts verbatim: it holds
   * no backslash escape, and no leading digit that would lengthen the group
   * number.
   */
  predicate InsertsVerbatim(n: string) {
    '\\' !in n && (n == [] || !IsDigit(n[0]))
  }

  /** One match of the declaration pattern: where it starts and where its identifier lies. */
  datatype Match = Match(start: nat, nameStart: nat, nameEnd: nat)

  /**
   * The pattern `(\bmodule\s+)([A-Za-z_][A-Za-z0-9_]*)` tried at the start of
   * `t`, where `boundary` says whether `\b` holds there. The result gives the
   * identifier's bounds relative to `t`. The greedy `\s+` never has to give
   * characters back, since no whitespace character can start an identifier.
   */
  function MatchHere(boundary: bool, t: string): Option<(nat, nat)> {
    if boundary && Keyword <= t then
      var k := 6 + Span(t[6..], IsSpace);
      if k > 6 && k < |t| && IsIdentStart(t[k]) then
        Some((k, k + Span(t[k..], IsWordChar)))
      else
        None
    else None
  }

  /**
   * A match consists of `\b`, the keyword, at least one blank, and a
   * complete identifier that is not followed by a word character.
   */
  lemma MatchHereSound(boundary: bool, t: string)
    ensures var r := MatchHere(boundary, t);
      r.Some? ==> boundary && MatchShape(t, r.value.0, r.value.1)
  {
    if boundary && Keyword <= t {
      var k := 6 + Span(t[6..], IsSpace);
      SpanInSlice(t, 6, IsSpace);
      if k > 6 && k < |t| && IsIdentStart(t[k]) {
        IdentifierSpan(t, k);
      }
    }
  }

  /**
   * Conversely, at a word boundary every keyword, run of blanks and complete
   * identifier is matched, with the blanks and the identifier taken whole.
   */
  lemma MatchHereComplete(t: string, x: nat, y: nat)
    requires MatchShape(t, x, y)
    ensures MatchHere(true, t) == Some((x, y))
  {
    assert t[x] == t[x..y][0];
    WordCharNotSpace(t[x]);
    SpanTo(t, 6, x, IsSpace);
    forall k | x <= k < y ensures IsWordChar(t[k]) {
      assert t[k] == t[x..y][k - x];
    }
    SpanTo(t, x, y, IsWordChar);
  }

  /** A span from `i` reaches `j` when `p` holds up to `j` and fails at `j`. */
  lemma SpanTo(t: string, i: nat, j: nat, p: char -> bool)
    requires i <= j <= |t| && (forall k | i <= k < j :: p(t[k])) && (j < |t| ==> !p(t[j]))
    ensures i + Span(t[i..], p) == j
  {
    var r := t[i..];
    forall k | 0 <= k < j - i ensures p(r[k]) {
      assert r[k] == t[i + k];
    }
    assert j < |t| ==> r[j - i] == t[j];
    SpanIsFirstFailure(r, p, j - i);
  }

  /**
   * `t` starts with the keyword and blanks up to `x`, then a complete
   * identifier on `[x, y)` that no word character follows.
   */
  ghost predicate MatchShape(t: string, x: int, y: int) {
    && Keyword <= t
    && 6 < x < y <= |t|
    && (forall k | 6 <= k < x :: IsSpace(t[k]))
    && IsIdentifier(t[x..y])
    && (y < |t| ==> !IsWordChar(t[y]))
  }

  /** The characters a span of `t[i..]` covers, as positions of `t`. */
  lemma SpanInSlice(t: string, i: nat, p: char -> bool)
    requires i <= |t|
    ensures i + Span(t[i..], p) <= |t|
    ensures forall j | i <= j < i + Span(t[i..], p) :: p(t[j])
    ensures i + Span(t[i..], p) < |t| ==> !p(t[i + Span(t[i..], p)])
  {
    var n := Span(t[i..], p);
    forall j | i <= j < i + n ensures p(t[j]) { assert t[j] == t[i..][j - i]; }
    assert i + n < |t| ==> t[i + n] == t[i..][n];
  }

  /** An identifier start at `k` begins a complete identifier, the longest run of word characters. */
  lemma IdentifierSpan(t: string, k: nat)
    requires k < |t| && IsIdentStart(t[k])
    ensures var e := k + Span(t[k..], IsWordChar);
      k < e <= |t| && IsIdentifier(t[k..e]) && (e < |t| ==> !IsWordChar(t[e]))
  {
    var n := Span(t[k..], IsWordChar);
    assert n > 0 by { assert t[k..][0] == t[k]; }
    SpanInSlice(t, k, IsWordChar);
    var id := t[k..k + n];
    forall j | 0 <= j < |id| ensures IsWordChar(id[j]) { assert id[j] == t[k + j]; }
  }

  /** The pattern tried at position `i` of `s`; `\b` holds before a word character at the start or after a non-word character. */
  function MatchAt(s: string, i: nat): Option<Match>
    requires i <= |s|
  {
    match MatchHere(i == 0 || !IsWordChar(s[i - 1]), s[i..])
    case None => None
    case Some((a, b)) => Some(Match(i, i + a, i + b))
  }

  /** `m` is the match `re.search` finds: the pattern matches at `m.start` and nowhere before. */
  ghost predicate IsLeftmostMatch(s: string, m: Match) {
    && m.start <= |s|
    && MatchAt(s, m.start) == Some(m)
    && forall j | 0 <= j < m.start :: MatchAt(s, j).None?
  }

  lemma LeftmostUnique(s: string, m1: Match, m2: Match)
    requires IsLeftmostMatch(s, m1) && IsLeftmostMatch(s, m2)
    ensures m1 == m2
  {
  }

  function FirstMatchFrom(s: string, i: nat): (r: Option<Match>)
    requires i <= |s|
    ensures r.Some? ==>
      && i <= r.value.start <= |s| && MatchAt(s, r.value.start) == r
      && forall j | i <= j < r.value.start :: MatchAt(s, j).None?
    ensures r.None? ==> forall j | i <= j <= |s| :: MatchAt(s, j).None?
    decreases |s| - i
  {
    if MatchAt(s, i).Some? then MatchAt(s, i)
    else if i == |s| then None
    else
      var r := FirstMatchFrom(s, i + 1);
      NoMatchBefore(s, i, if r.Some? then r.value.start else |s| + 1);
      r
  }

  /** A position that does not match, followed by positions that do not match. */
  lemma NoMatchBefore(s: string, i: nat, e: nat)
    requires i < e <= |s| + 1 && MatchAt(s, i).None?
    requires forall j | i + 1 <= j < e :: MatchAt(s, j).None?
    ensures forall j | i <= j < e :: MatchAt(s, j).None?
  {
  }

  /** `module_pattern.search(text)`: the leftmost match, if any. */
  function FirstMatch(s: string): (r: Option<Match>)
    ensures r.Some? ==> IsLeftmostMatch(s, r.value)
    ensures r.None? ==> forall j | 0 <= j <= |s| :: MatchAt(s, j).None?
  {
    FirstMatchFrom(s, 0)
  }

  /**
   * The pragma and newline rules applied after the rename: the text is wrapped
   * in the lint_off/lint_on pair unless it already names the lint_off marker,
   * and a final newline is added when missing.
   */
  function Finish(t: string): string {
    Newlined(Wrapped(t))
  }

  /** The pragma rule: wrap in lint_off/lint_on unless the lint_off marker is already there. */
  function Wrapped(t: string): string {
    if !Contains(t, LintMarker) then LintOff + t + LintOn else t
  }

  /** The newline rule: add a final newline when missing. */
  function Newlined(t: string): string {
    if EndsWith(t, "\n") then t else t + "\n"
  }

  /** What `Finish` returns ends with a newline and names the lint_off marker. */
  lemma FinishMarked(t: string)
    ensures EndsWith(Finish(t), "\n") && Contains(Finish(t), LintMarker)
  {
    var w := Wrapped(t);
    if !Contains(t, LintMarker) {
      WrappedHasMarker(t);
    }
    assert Contains(w, LintMarker);
    if !EndsWith(w, "\n") {
      ContainsExtend(w, "\n", LintMarker);
      assert (w + "\n")[|w|..] == "\n";
    }
  }

  /**
   * The pragmas are added, around the whole text, exactly when the marker is
   * absent; otherwise the text is kept, with at most a newline added.
   */
  lemma FinishCases(t: string)
    ensures !Contains(t, LintMarker) ==> Finish(t) == LintOff + t + LintOn
    ensures Contains(t, LintMarker) ==> Finish(t) == if EndsWith(t, "\n") then t else t + "\n"
  {
    if !Contains(t, LintMarker) {
      WrappedHasMarker(t);
    }
  }

  lemma WrappedHasMarker(t: string)
    ensures EndsWith(LintOff + t + LintOn, "\n") && Contains(LintOff + t + LintOn, LintMarker)
  {
    var w := LintOff + t + LintOn;
    assert w[|w| - 1] == LintOn[|LintOn| - 1] == '\n';
    assert w == "/* " + LintMarker + (" */\n" + t + LintOn);
    ContainsMiddle("/* ", LintMarker, " */\n" + t + LintOn);
  }

  /**
   * `fix_verilog_module_name` on the file's text: None when no module
   * declaration matches (the function returns False and leaves the file alone);
   * otherwise the identifier of the first declaration becomes `n`, everything
   * before and after it is kept, and the pragma and newline rules are applied.
   */
  function FixedText(s: string, n: string): (r: Option<string>)
    requires InsertsVerbatim(n)
    ensures r.None? <==> forall j | 0 <= j <= |s| :: MatchAt(s, j).None?
    ensures r.Some? ==> exists m :: IsLeftmostMatch(s, m) && r.value == Finish(s[..m.nameStart] + n + s[m.nameEnd..])
    ensures r.Some? ==> EndsWith(r.value, "\n")
  {
    match FirstMatch(s)
    case None => None
    case Some(m) =>
      FinishMarked(s[..m.nameStart] + n + s[m.nameEnd..]);
      Some(Finish(s[..m.nameStart] + n + s[m.nameEnd..]))
  }

  /** `patch_sim_main` on the harness text: `txt.replace("VMODULE_NAME", "V" + module_name)`. */
  function PatchedSimMain(txt: string, moduleName: string): string {
    ReplaceAll(txt, Placeholder, "V" + moduleName)
  }

  // ---------------------------------------------------------------------
  // Rescanning a rewritten text: where the declaration is found again
  // ---------------------------------------------------------------------

  /** "module" cannot start inside a nonempty text shorter than itself followed by another "module". */
  lemma KeywordNotStraddling(u: string, z: string)
    requires 0 < |u| < 6 && z != [] && z[0] == 'm'
    ensures !(Keyword <= u + z)
  {
    assert (u + z)[|u|] == 'm';
    assert Keyword[|u|] != 'm';
  }

  /**
   * What the pattern finds at the start of `u + z` when `u` ends in a
   * non-word character and `z` starts with "module" and a blank: this depends
   * on `u` alone.
   */
  ghost function MatchBeforeDecl(b: bool, u: string): Option<(nat, nat)> {
    if |u| < 6 || !b || !(Keyword <= u) then None
    else
      var w := Span(u[6..], IsSpace);
      if w == |u| - 6 then
        if w > 0 then Some((|u|, |u| + 6)) else None
      else if w > 0 && IsIdentStart(u[6 + w]) then
        Some((6 + w, 6 + w + Span(u[6 + w..], IsWordChar)))
      else None
  }

  /** The scan at `u` stops before the non-word character that ends `u`. */
  lemma {:induction false} MatchBeforeDeclInside(b: bool, u: string, z: string)
    requires |u| >= 6 && !IsWordChar(u[|u| - 1]) && b && Keyword <= u
    requires Span(u[6..], IsSpace) < |u| - 6
    ensures MatchHere(b, u + z) == MatchBeforeDecl(b, u)
  {
    var w := Span(u[6..], IsSpace);
    var k := 6 + w;
    PrefixOfLonger(Keyword, u, z);
    SpanOfSliceInside(u, z, 6, IsSpace);
    MatchHereStops(b, u + z, k);
    BeforeDeclStops(b, u);
    if w > 0 && IsIdentStart(u[k]) {
      WordRunInside(u, z, k);
    } else {
      assert (u + z)[k] == u[k];
    }
  }

  /** The scan after the keyword stops at `k`, inside `t`. */
  lemma MatchHereStops(b: bool, t: string, k: nat)
    requires b && Keyword <= t && k == 6 + Span(t[6..], IsSpace) && k < |t|
    ensures MatchHere(b, t) == if k > 6 && IsIdentStart(t[k]) then Some((k, k + Span(t[k..], IsWordChar))) else None
  {
  }

  /** The scan after the keyword stops inside `u`. */
  lemma BeforeDeclStops(b: bool, u: string)
    requires |u| >= 6 && b && Keyword <= u && Span(u[6..], IsSpace) < |u| - 6
    ensures var k := 6 + Span(u[6..], IsSpace);
      MatchBeforeDecl(b, u) == if k > 6 && IsIdentStart(u[k]) then Some((k, k + Span(u[k..], IsWordChar))) else None
  {
  }

  /** A run of word characters from inside `u` stops before the non-word character that ends `u`. */
  lemma WordRunInside(u: string, z: string, k: nat)
    requires k < |u| && !IsWordChar(u[|u| - 1])
    ensures (u + z)[k] == u[k] && Span((u + z)[k..], IsWordChar) == Span(u[k..], IsWordChar)
  {
    assert !IsWordChar(u[k..][|u| - k - 1]);
    SpanOfSliceInside(u, z, k, IsWordChar);
  }

  /** A span from position `i` of `u` that stops inside `u` does not see what follows `u`. */
  lemma SpanOfSliceInside(u: string, z: string, i: nat, p: char -> bool)
    requires i <= |u| && Span(u[i..], p) < |u| - i
    ensures Span((u + z)[i..], p) == Span(u[i..], p)
  {
    assert (u + z)[i..] == u[i..] + z;
    SpanStopsInside(u[i..], z, p);
  }

  /** The scan at `u` runs through blanks to the "module" that starts `z`. */
  lemma {:induction false} MatchBeforeDeclCrossing(b: bool, u: string, z: string)
    requires |u| >= 6 && b && Keyword <= u
    requires Span(u[6..], IsSpace) == |u| - 6
    requires |z| > 6 && Keyword <= z && IsSpace(z[6])
    ensures MatchHere(b, u + z) == MatchBeforeDecl(b, u)
  {
    var t := u + z;
    PrefixOfLonger(Keyword, u, z);
    var v := u[6..];
    assert t[6..] == v + z;
    WordCharNotSpace(z[6]);
    DeclarationStart(z);
    SpanCrosses(v, z, IsSpace);
    assert t[|u|..] == z;
  }

  /** A text starting with "module" and a non-word character: no leading blanks, and a six-character identifier. */
  lemma DeclarationStart(z: string)
    requires |z| > 6 && Keyword <= z && !IsWordChar(z[6])
    ensures IsIdentStart(z[0]) && Span(z, IsSpace) == 0 && Span(z, IsWordChar) == 6
  {
    assert z[0] == 'm';
    WordCharNotSpace(z[0]);
    SpanIsFirstFailure(z, IsSpace, 0);
    KeywordIsWord(z);
    SpanIsFirstFailure(z, IsWordChar, 6);
  }

  /** The six characters of "module" are word characters. */
  lemma KeywordIsWord(z: string)
    requires Keyword <= z
    ensures forall k | 0 <= k < 6 :: IsWordChar(z[k])
  {
    forall k | 0 <= k < 6 ensures IsWordChar(z[k]) { assert z[k] == Keyword[k]; }
  }

  /**
   * Whether the pattern matches at a position before a declaration does not
   * depend on what follows that declaration's "module" and first blank: the
   * scan from there stops before the non-word character that precedes the
   * declaration, or exactly at the "module" that starts it.
   */
  lemma {:induction false} MatchBeforeDeclIndependent(b: bool, u: string, z: string)
    requires u != [] && !IsWordChar(u[|u| - 1])
    requires |z| > 6 && Keyword <= z && IsSpace(z[6])
    ensures MatchHere(b, u + z) == MatchBeforeDecl(b, u)
  {
    if |u| < 6 {
      KeywordNotStraddling(u, z);
    } else {
      PrefixOfLonger(Keyword, u, z);
      if b && Keyword <= u {
        if Span(u[6..], IsSpace) < |u| - 6 {
          MatchBeforeDeclInside(b, u, z);
        } else {
          MatchBeforeDeclCrossing(b, u, z);
        }
      }
    }
  }

  /**
   * A declaration keyword and blanks followed by a name starting with an
   * identifier character match there, and the identifier found is the
   * longest run of identifier characters at the start of the name.
   */
  lemma {:induction false} MatchHereOnRename(u: string, n: string, rest: string)
    requires |u| > 6 && Keyword <= u && forall k | 6 <= k < |u| :: IsSpace(u[k])
    requires n != [] && IsIdentStart(n[0])
    requires rest == [] || !IsWordChar(rest[0])
    ensures MatchHere(true, u + n + rest) == Some((|u|, |u| + Span(n, IsWordChar)))
  {
    var t := u + n + rest;
    RenamedScan(u, n, rest, t);
    MatchHereFrom(t, |u|, |u| + Span(n, IsWordChar));
  }

  /** The pattern matches at the start of `t` when the scans of its pieces stop where they should. */
  lemma MatchHereFrom(t: string, k: nat, e: nat)
    requires Keyword <= t && 6 < k < |t| && Span(t[6..], IsSpace) == k - 6
    requires IsIdentStart(t[k]) && Span(t[k..], IsWordChar) == e - k
    ensures MatchHere(true, t) == Some((k, e))
  {
  }

  /** The scans of `MatchHere` over a renamed declaration `u + n + rest`. */
  lemma {:induction false} RenamedScan(u: string, n: string, rest: string, t: string)
    requires |u| > 6 && Keyword <= u && forall k | 6 <= k < |u| :: IsSpace(u[k])
    requires n != [] && IsIdentStart(n[0])
    requires rest == [] || !IsWordChar(rest[0])
    requires t == u + n + rest
    ensures Keyword <= t && |u| < |t| && Span(t[6..], IsSpace) == |u| - 6
    ensures IsIdentStart(t[|u|]) && Span(t[|u|..], IsWordChar) == Span(n, IsWordChar)
  {
    PrefixOfLonger(Keyword, u, n + rest);
    assert t == u + (n + rest);
    var v := u[6..];
    assert t[6..] == v + (n + rest);
    NameThenRest(n, rest);
    SpanCrosses(v, n + rest, IsSpace);
    assert t[|u|..] == n + rest;
  }

  /** A name starting with an identifier character, then a non-word character: no leading blanks, and the name's identifier prefix. */
  lemma {:induction false} NameThenRest(n: string, rest: string)
    requires n != [] && IsIdentStart(n[0])
    requires rest == [] || !IsWordChar(rest[0])
    ensures IsIdentStart((n + rest)[0]) && Span(n + rest, IsSpace) == 0
    ensures Span(n + rest, IsWordChar) == Span(n, IsWordChar)
  {
    assert (n + rest)[0] == n[0];
    WordCharNotSpace(n[0]);
    SpanIsFirstFailure(n + rest, IsSpace, 0);
    if Span(n, IsWordChar) < |n| {
      SpanStopsInside(n, rest, IsWordChar);
    } else {
      SpanCrosses(n, rest, IsWordChar);
      SpanIsFirstFailure(rest, IsWordChar, 0);
    }
  }

  lemma NoKeywordStartInLintOff()
    ensures forall j | 0 <= j < |LintOff| :: LintOff[j] != 'm'
  {
  }

  /**
   * A declaration starts at `i` of `s`: the keyword and a blank, after a
   * non-word character or at the start of the text.
   */
  ghost predicate DeclAt(s: string, i: nat) {
    i + 6 < |s| && Keyword <= s[i..] && IsSpace(s[i + 6]) && (i > 0 ==> !IsWordChar(s[i - 1]))
  }

  /**
   * The text around a match `m` of the pattern: the keyword, blanks up to
   * the identifier, no word character right after the identifier, and a
   * word boundary before the keyword.
   */
  ghost predicate Declaration(s: string, m: Match) {
    && m.start + 6 < m.nameStart < m.nameEnd <= |s|
    && Keyword <= s[m.start..m.nameStart]
    && (forall j | m.start + 6 <= j < m.nameStart :: IsSpace(s[j]))
    && (m.nameEnd < |s| ==> !IsWordChar(s[m.nameEnd]))
    && DeclAt(s, m.start)
  }

  /** What a match of the pattern at `m.start` says about the text around it. */
  lemma {:induction false} DeclarationFacts(s: string, m: Match)
    requires m.start <= |s| && MatchAt(s, m.start) == Some(m)
    ensures Declaration(s, m)
  {
    var b := m.start == 0 || !IsWordChar(s[m.start - 1]);
    assert MatchHere(b, s[m.start..]) == Some((m.nameStart - m.start, m.nameEnd - m.start));
    MatchHereSound(b, s[m.start..]);
    DeclarationInText(s, m);
  }

  /**
   * Every declaration shape in `s` at a word boundary is a match: the
   * keyword at `i` followed by blanks up to `i + x` and a complete
   * identifier up to `i + y`.
   */
  lemma MatchAtComplete(s: string, i: nat, x: nat, y: nat)
    requires i <= |s| && (i == 0 || !IsWordChar(s[i - 1]))
    requires MatchShape(s[i..], x, y)
    ensures MatchAt(s, i) == Some(Match(i, i + x, i + y))
  {
    MatchHereComplete(s[i..], x, y);
  }

  /** The shape of a match at `m.start`, as positions of `s`. */
  lemma DeclarationInText(s: string, m: Match)
    requires m.start <= |s| && (m.start == 0 || !IsWordChar(s[m.start - 1]))
    requires MatchShape(s[m.start..], m.nameStart - m.start, m.nameEnd - m.start)
    ensures Declaration(s, m)
  {
    var i, a := m.start, m.nameStart;
    forall j | i + 6 <= j < a ensures IsSpace(s[j]) {
      assert s[j] == s[i..][j - i];
    }
    assert Keyword == s[i..][..6] == s[i..a][..6];
    assert s[i + 6] == s[i..][6];
  }

  /**
   * Two texts that agree on `[j1, i1)` and `[j2, i2)`, with the same word
   * boundary before, and a declaration starting at `i1` and at `i2`: the
   * pattern matches at `j1` exactly when it matches at `j2`.
   */
  lemma {:induction false} NoMatchBeforeDecl(s1: string, j1: nat, i1: nat, s2: string, j2: nat, i2: nat)
    requires j1 < i1 && i1 + 6 < |s1| && j2 < i2 && i2 + 6 < |s2|
    requires s1[j1..i1] == s2[j2..i2] && !IsWordChar(s1[i1 - 1])
    requires (j1 == 0 || !IsWordChar(s1[j1 - 1])) == (j2 == 0 || !IsWordChar(s2[j2 - 1]))
    requires Keyword <= s1[i1..] && IsSpace(s1[i1 + 6])
    requires Keyword <= s2[i2..] && IsSpace(s2[i2 + 6])
    ensures MatchAt(s1, j1).None? <==> MatchAt(s2, j2).None?
  {
    var x := s1[j1..i1];
    var b := j1 == 0 || !IsWordChar(s1[j1 - 1]);
    assert s1[j1..] == x + s1[i1..];
    assert s2[j2..] == x + s2[i2..];
    assert x[|x| - 1] == s1[i1 - 1];
    assert s1[i1..][6] == s1[i1 + 6] && s2[i2..][6] == s2[i2 + 6];
    MatchBeforeDeclIndependent(b, x, s1[i1..]);
    MatchBeforeDeclIndependent(b, x, s2[i2..]);
  }

  /**
   * The renamed declaration `u + n` at `M.start`, after a non-word character
   * or at the start of the text, matches there.
   */
  lemma {:induction false} RenamedMatchAt(out: string, u: string, n: string, rest: string, M: Match)
    requires M.start <= |out| && out[M.start..] == u + n + rest
    requires M.start > 0 ==> !IsWordChar(out[M.start - 1])
    requires M.nameStart == M.start + |u| && M.nameEnd == M.nameStart + Span(n, IsWordChar)
    requires |u| > 6 && Keyword <= u && forall k | 6 <= k < |u| :: IsSpace(u[k])
    requires n != [] && IsIdentStart(n[0])
    requires rest == [] || !IsWordChar(rest[0])
    ensures MatchAt(out, M.start) == Some(M)
  {
    MatchHereOnRename(u, n, rest);
  }

  /**
   * `out` starts with `P` (nothing or the lint_off pragma) and the text of `s`
   * before `i`, and a declaration keyword and blank follow there too.
   */
  ghost predicate PrefixedBy(s: string, i: nat, P: string, out: string) {
    && i <= |s|
    && (P == [] || P == LintOff)
    && |P| + i + 6 < |out| && out[..|P| + i] == P + s[..i]
    && Keyword <= out[|P| + i..] && IsSpace(out[|P| + i + 6])
  }

  /**
   * Prefixing a text whose first match is at `i` by `P` (nothing or the
   * lint_off pragma) and changing what follows the declaration's "module"
   * and first blank creates no match before the declaration.
   */
  lemma NothingBeforeRenamed(s: string, i: nat, P: string, out: string, pos: nat)
    requires DeclAt(s, i) && PrefixedBy(s, i, P, out) && pos == |P| + i
    requires forall j | 0 <= j < i :: MatchAt(s, j).None?
    ensures forall j | 0 <= j < pos :: MatchAt(out, j).None?
  {
    forall j | 0 <= j < pos ensures MatchAt(out, j).None? {
      if j < |P| {
        NoMatchInLintOff(s, i, P, out, j);
      } else {
        NoMatchMovedBefore(s, i, P, out, j);
      }
    }
  }

  /** No match starts inside the lint_off pragma: none of its characters is an 'm'. */
  lemma NoMatchInLintOff(s: string, i: nat, P: string, out: string, j: nat)
    requires PrefixedBy(s, i, P, out) && P == LintOff && j < |P|
    ensures MatchAt(out, j).None?
  {
    NoKeywordStartInLintOff();
    assert out[j..][0] == out[j] == out[..|P| + i][j] == LintOff[j];
  }

  /** A position of the original text before its first match does not match once shifted by `P`. */
  lemma {:induction false} NoMatchMovedBefore(s: string, i: nat, P: string, out: string, j: nat)
    requires DeclAt(s, i) && PrefixedBy(s, i, P, out)
    requires |P| <= j < |P| + i && MatchAt(s, j - |P|).None?
    ensures MatchAt(out, j).None?
  {
    ShiftedPrefix(s, i, P, out, j);
    NoMatchBeforeDecl(s, j - |P|, i, out, j, |P| + i);
  }

  /** Position `j` of the prefixed text sees what position `j - |P|` of the original sees, up to `i`. */
  lemma ShiftedPrefix(s: string, i: nat, P: string, out: string, j: nat)
    requires i <= |s| && |P| <= j < |P| + i
    requires P == [] || P == LintOff
    requires |P| + i <= |out| && out[..|P| + i] == P + s[..i]
    ensures s[j - |P|..i] == out[j..|P| + i]
    ensures (j - |P| == 0 || !IsWordChar(s[j - |P| - 1])) == (j == 0 || !IsWordChar(out[j - 1]))
  {
    var j' := j - |P|;
    assert out[j..|P| + i] == out[..|P| + i][j..];
    if j' > 0 {
      assert out[j - 1] == out[..|P| + i][j - 1] == s[j' - 1];
    } else if j > 0 {
      assert out[j - 1] == out[..|P| + i][j - 1] == LintOff[|LintOff| - 1];
    }
  }

  /**
   * Where the pieces of the renamed and wrapped text lie: the prefix `P` and
   * the text before the declaration, then the declaration's keyword and
   * blanks, the new name, and the rest.
   */
  lemma RenamedLayout(s: string, i: nat, k: nat, e: nat, n: string, P: string, Q: string, out: string)
    requires DeclAt(s, i) && i + 6 < k <= e <= |s|
    requires P == [] || P == LintOff
    requires out == P + (s[..k] + n + s[e..]) + Q
    ensures PrefixedBy(s, i, P, out)
    ensures out[|P| + i..] == s[i..k] + n + (s[e..] + Q)
  {
    RenamedPieces(s, i, k, e, n, P, Q, out);
    KeywordCarried(s, i, k, n + (s[e..] + Q), out[|P| + i..]);
    assert s[i..k] + (n + (s[e..] + Q)) == s[i..k] + n + (s[e..] + Q);
  }

  /** The renamed and wrapped text, cut at the declaration. */
  lemma RenamedPieces(s: string, i: nat, k: nat, e: nat, n: string, P: string, Q: string, out: string)
    requires i <= k <= e <= |s| && out == P + (s[..k] + n + s[e..]) + Q
    ensures |P| + i <= |out| && out[..|P| + i] == P + s[..i]
    ensures out[|P| + i..] == s[i..k] + (n + (s[e..] + Q))
  {
    assert s[..k] == s[..i] + s[i..k];
    assert out == (P + s[..i]) + (s[i..k] + (n + (s[e..] + Q)));
  }

  /** Text starting with the keyword-and-blank part of a declaration starts with the keyword and a blank. */
  lemma KeywordCarried(s: string, i: nat, k: nat, rest: string, o: string)
    requires i + 6 < k <= |s| && Keyword <= s[i..] && IsSpace(s[i + 6])
    requires o == s[i..k] + rest
    ensures |o| > 6 && Keyword <= o && IsSpace(o[6])
  {
    assert s[i..k][..6] == s[i..][..6];
    assert o[6] == s[i..k][6] == s[i + 6];
  }

  /** The new name sits at `M.nameStart` of the renamed and wrapped text. */
  lemma RenamedName(s: string, k: nat, e: nat, n: string, P: string, Q: string, M: Match)
    requires k <= e <= |s| && M.nameStart == |P| + k && M.nameEnd == M.nameStart + |n|
    ensures var out := P + (s[..k] + n + s[e..]) + Q;
      M.nameEnd <= |out| && out[M.nameStart..M.nameEnd] == n
  {
    var out := P + (s[..k] + n + s[e..]) + Q;
    assert out == (P + s[..k]) + n + (s[e..] + Q);
  }

  /**
   * The renamed and wrapped declaration still matches, at the shifted
   * position `M.start`, in a text `out` laid out as `RenamedLayout` describes.
   */
  lemma {:induction false} RenamedDeclarationMatches(s: string, m: Match, n: string, P: string, Q: string, out: string, M: Match)
    requires Declaration(s, m) && PrefixedBy(s, m.start, P, out)
    requires n != [] && IsIdentStart(n[0])
    requires Q == [] || Q[0] == '\n'
    requires M.start == |P| + m.start && M.nameStart == |P| + m.nameStart
    requires M.nameEnd == M.nameStart + Span(n, IsWordChar)
    requires out[M.start..] == s[m.start..m.nameStart] + n + (s[m.nameEnd..] + Q)
    ensures MatchAt(out, M.start) == Some(M)
  {
    DeclarationPieces(s, m.start, m.nameStart, m.nameEnd, Q);
    BoundaryAfterPrefix(s, m.start, P, out, M.start);
    RenamedMatchAt(out, s[m.start..m.nameStart], n, s[m.nameEnd..] + Q, M);
  }

  /** The keyword-and-blanks part of a declaration, and what follows its identifier. */
  lemma DeclarationPieces(s: string, i: nat, k: nat, e: nat, Q: string)
    requires i + 6 < k <= e <= |s| && Keyword <= s[i..k]
    requires forall j | i + 6 <= j < k :: IsSpace(s[j])
    requires e < |s| ==> !IsWordChar(s[e])
    requires Q == [] || Q[0] == '\n'
    ensures var u, rest := s[i..k], s[e..] + Q;
      && |u| > 6 && Keyword <= u && (forall j | 6 <= j < |u| :: IsSpace(u[j]))
      && (rest == [] || !IsWordChar(rest[0]))
  {
    var u, rest := s[i..k], s[e..] + Q;
    forall j | 6 <= j < |u| ensures IsSpace(u[j]) { assert u[j] == s[i + j]; }
    if e < |s| { assert rest[0] == s[e]; }
  }

  /** After `P` and the text before the declaration, the character before `pos` is not a word character. */
  lemma BoundaryAfterPrefix(s: string, i: nat, P: string, out: string, pos: nat)
    requires DeclAt(s, i) && PrefixedBy(s, i, P, out) && pos == |P| + i
    ensures pos > 0 ==> !IsWordChar(out[pos - 1])
  {
    if i > 0 {
      assert out[pos - 1] == out[..pos][pos - 1] == s[i - 1];
    } else if P != [] {
      assert out[pos - 1] == out[..pos][pos - 1] == LintOff[|LintOff| - 1] == '\n';
    }
  }

  /**
   * After the first declaration's identifier is replaced by `n` and the text is
   * given a prefix `P` (nothing, or the lint_off pragma) and a suffix starting
   * with a newline, the first match is the same declaration, shifted by `P`,
   * and its identifier is the identifier-character prefix of `n`.
   */
  lemma {:induction false} RescanAfterRename(s: string, m: Match, n: string, P: string, Q: string, out: string, M: Match)
    requires IsLeftmostMatch(s, m) && n != [] && IsIdentStart(n[0])
    requires P == [] || P == LintOff
    requires Q == [] || Q[0] == '\n'
    requires out == P + (s[..m.nameStart] + n + s[m.nameEnd..]) + Q
    requires M == Match(|P| + m.start, |P| + m.nameStart, |P| + m.nameStart + Span(n, IsWordChar))
    ensures IsLeftmostMatch(out, M)
  {
    DeclarationFacts(s, m);
    RenamedLayout(s, m.start, m.nameStart, m.nameEnd, n, P, Q, out);
    RenamedDeclarationMatches(s, m, n, P, Q, out, M);
    NothingBeforeRenamed(s, m.start, P, out, M.start);
  }

  /** The text `Finish` adds before `t`: the lint_off pragma, or nothing. */
  function FinishPrefix(t: string): string {
    if Contains(t, LintMarker) then [] else LintOff
  }

  /** The text `Finish` adds after `t`: the lint_on pragma, a newline, or nothing. */
  function FinishSuffix(t: string): string {
    if !Contains(t, LintMarker) then LintOn else if EndsWith(t, "\n") then [] else "\n"
  }

  /** `Finish` only adds text around its input, and what it adds cannot hide a declaration. */
  lemma FinishWraps(t: string)
    ensures Finish(t) == FinishPrefix(t) + t + FinishSuffix(t)
    ensures FinishPrefix(t) == [] || FinishPrefix(t) == LintOff
    ensures FinishSuffix(t) == [] || FinishSuffix(t)[0] == '\n'
  {
    if !Contains(t, LintMarker) {
      WrappedHasMarker(t);
    }
  }

  /** Applying the pragma and newline rules twice is the same as once. */
  lemma FinishIdempotent(t: string)
    ensures Finish(Finish(t)) == Finish(t)
  {
    FinishMarked(t);
  }

  /** When a declaration matches, `FixedText` is `Finish` of the renamed text. */
  lemma FixedTextOfMatch(s: string, n: string, m: Match)
    requires InsertsVerbatim(n) && IsLeftmostMatch(s, m)
    ensures FixedText(s, n) == Some(Finish(s[..m.nameStart] + n + s[m.nameEnd..]))
  {
    LeftmostUnique(s, FirstMatch(s).value, m);
  }

  /**
   * Renaming is idempotent when the new name is itself an identifier: the
   * second run finds the same declaration, now carrying `n`, replaces `n` by
   * `n`, finds the lint_off marker already present and the final newline
   * already there.
   */
  lemma FixedTextIdempotent(s: string, n: string)
    requires IsIdentifier(n)
    ensures InsertsVerbatim(n)
    ensures FixedText(s, n).Some? ==> FixedText(FixedText(s, n).value, n) == FixedText(s, n)
  {
    assert '\\' !in n by {
      forall j | 0 <= j < |n| ensures n[j] != '\\' { assert IsWordChar(n[j]); }
    }
    if FixedText(s, n).Some? {
      var m := FirstMatch(s).value;
      FixedTextOfMatch(s, n, m);
      RenamedTextIsFixed(s, n, m);
    }
  }

  /** The text the first run produces is left as it is by a second run. */
  lemma RenamedTextIsFixed(s: string, n: string, m: Match)
    requires IsIdentifier(n) && InsertsVerbatim(n) && IsLeftmostMatch(s, m)
    ensures var out := Finish(s[..m.nameStart] + n + s[m.nameEnd..]);
      FixedText(out, n) == Some(out)
  {
    var core := s[..m.nameStart] + n + s[m.nameEnd..];
    FinishWraps(core);
    SecondRunOnWrapped(s, n, m, FinishPrefix(core), FinishSuffix(core), Finish(core));
    FinishIdempotent(core);
  }

  /** The renamed text, wrapped in `P` and `Q`, is only re-finished by a second run. */
  lemma SecondRunOnWrapped(s: string, n: string, m: Match, P: string, Q: string, out: string)
    requires IsIdentifier(n) && InsertsVerbatim(n) && IsLeftmostMatch(s, m)
    requires P == [] || P == LintOff
    requires Q == [] || Q[0] == '\n'
    requires out == P + (s[..m.nameStart] + n + s[m.nameEnd..]) + Q
    ensures FixedText(out, n) == Some(Finish(out))
  {
    var M := Match(|P| + m.start, |P| + m.nameStart, |P| + m.nameStart + Span(n, IsWordChar));
    RescanAfterRename(s, m, n, P, Q, out, M);
    NameInWrapped(s, m, n, P, Q, out, M);
    SecondPassKeeps(out, n, M);
  }

  /** In the wrapped renamed text, the identifier the pattern finds is all of `n`. */
  lemma NameInWrapped(s: string, m: Match, n: string, P: string, Q: string, out: string, M: Match)
    requires m.start <= |s| && MatchAt(s, m.start) == Some(m) && IsIdentifier(n)
    requires out == P + (s[..m.nameStart] + n + s[m.nameEnd..]) + Q
    requires M == Match(|P| + m.start, |P| + m.nameStart, |P| + m.nameStart + Span(n, IsWordChar))
    ensures M.nameEnd <= |out| && out[M.nameStart..M.nameEnd] == n
  {
    SpanIsFirstFailure(n, IsWordChar, |n|);
    DeclarationFacts(s, m);
    RenamedName(s, m.nameStart, m.nameEnd, n, P, Q, M);
  }

  /** A second run that finds `n` already in place only applies the pragma and newline rules. */
  lemma SecondPassKeeps(out: string, n: string, M: Match)
    requires InsertsVerbatim(n) && IsLeftmostMatch(out, M)
    requires M.nameEnd <= |out| && out[M.nameStart..M.nameEnd] == n
    ensures FixedText(out, n) == Some(Finish(out))
  {
    FixedTextOfMatch(out, n, M);
    RenameInPlace(out, n, M.nameStart, M.nameEnd);
  }

  /** Replacing a slice by what it already holds changes nothing. */
  lemma RenameInPlace(t: string, n: string, a: nat, b: nat)
    requires a <= b <= |t| && t[a..b] == n
    ensures t[..a] + n + t[b..] == t
  {
    assert t == t[..a] + t[a..b] + t[b..];
  }

  /**
   * A name that starts like an identifier but holds a non-identifier
   * character (say "top_my-design") is not renamed idempotently: the second
   * run finds only the identifier prefix of the name and inserts the whole
   * name again after it, so the text grows.
   */
  lemma RenameNotIdempotent(s: string, n: string, m: Match)
    requires InsertsVerbatim(n) && IsLeftmostMatch(s, m)
    requires n != [] && IsIdentStart(n[0]) && Span(n, IsWordChar) < |n|
    ensures FixedText(s, n).Some?
    ensures FixedText(FixedText(s, n).value, n) != FixedText(s, n)
  {
    FixedTextOfMatch(s, n, m);
    var core := s[..m.nameStart] + n + s[m.nameEnd..];
    FinishWraps(core);
    SecondRunGrows(s, n, m, FinishPrefix(core), FinishSuffix(core), Finish(core));
  }

  /** On the wrapped renamed text, a second run with such a name returns a longer text. */
  lemma SecondRunGrows(s: string, n: string, m: Match, P: string, Q: string, out: string)
    requires InsertsVerbatim(n) && IsLeftmostMatch(s, m)
    requires n != [] && IsIdentStart(n[0]) && Span(n, IsWordChar) < |n|
    requires P == [] || P == LintOff
    requires Q == [] || Q[0] == '\n'
    requires out == P + (s[..m.nameStart] + n + s[m.nameEnd..]) + Q
    ensures FixedText(out, n).Some? && |FixedText(out, n).value| > |out|
  {
    var M := Match(|P| + m.start, |P| + m.nameStart, |P| + m.nameStart + Span(n, IsWordChar));
    RescanAfterRename(s, m, n, P, Q, out, M);
    FixedTextOfMatch(out, n, M);
    GrowsOnRename(out, n, M);
  }

  /** Replacing a shorter identifier by `n` and finishing gives a longer text. */
  lemma GrowsOnRename(out: string, n: string, M: Match)
    requires M.nameStart <= M.nameEnd <= |out| && M.nameEnd - M.nameStart < |n|
    ensures |Finish(out[..M.nameStart] + n + out[M.nameEnd..])| > |out|
  {
    FinishWraps(out[..M.nameStart] + n + out[M.nameEnd..]);
  }

  /** A harness without the placeholder is left as it is. */
  lemma PatchedSimMainUnchanged(txt: string, moduleName: string)
    requires !Contains(txt, Placeholder)
    ensures PatchedSimMain(txt, moduleName) == txt
  {
    ReplaceAllAbsent(txt, Placeholder, "V" + moduleName);
  }

  /**
   * The first placeholder, where `str.find` locates it, becomes "V" followed
   * by the module name; the text before it is kept and the rest is patched
   * in the same way.
   */
  lemma PatchedSimMainFirst(txt: string, moduleName: string, i: nat)
    requires Find(txt, Placeholder) == Some(i)
    ensures PatchedSimMain(txt, moduleName)
      == txt[..i] + ("V" + moduleName) + PatchedSimMain(txt[i + |Placeholder|..], moduleName)
  {
    FirstAtSplit(txt, Placeholder, i);
    ReplaceAllAtFirst(txt[..i], Placeholder, "V" + moduleName, txt[i + |Placeholder|..]);
  }
}
