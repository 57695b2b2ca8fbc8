/**
 * The path rules of launcher/views.py. The server runs on Windows, so
 * `os.path` is `ntpath`: both '/' and '\' separate components, a leading
 * "X:" is a drive, and joined or normalised paths use '\'. The WSL side is
 * reached through paths under "/mnt/c".
 */
module Paths {
  import opened Wrappers
  import opened Text

  /** The separators `ntpath` accepts. */
  predicate IsSep(c: char) {
    c == '/' || c == '\\'
  }

  predicate IsDot(c: char) {
    c == '.'
  }

  /** Index of the last character of `s` satisfying `p` (`str.rfind`, None for -1). */
  function LastIndex(s: string, p: char -> bool): (r: Option<nat>)
    ensures r.Some? ==> r.value < |s| && p(s[r.value]) && forall k | r.value < k < |s| :: !p(s[k])
    ensures r.None? ==> forall k | 0 <= k < |s| :: !p(s[k])
  {
    if s == [] then None
    else if p(s[|s| - 1]) then Some(|s| - 1)
    else LastIndex(s[..|s| - 1], p)
  }

  // ---------------------------------------------------------------------
  // Drives, joining, base names and extensions
  // ---------------------------------------------------------------------

  /** `ntpath.splitdrive(p)[0]` for drive-letter paths: "X:" when the second character is a colon. */
  function DriveOf(p: string): (d: string)
    ensures d == [] || (|p| >= 2 && d == p[..2] && p[1] == ':')
  {
    if |p| >= 2 && p[1] == ':' then p[..2] else []
  }

  /** ASCII lower case, as `str.lower` acts on drive letters. */
  function LowerChar(c: char): char {
    if 'A' <= c <= 'Z' then (c as int + 32) as char else c
  }

  function Lower(s: string): (r: string)
    ensures |r| == |s|
  {
    if s == [] then [] else [LowerChar(s[0])] + Lower(s[1..])
  }

  /**
   * `ntpath.join(a, b)`: a rooted `b` replaces the path of `a` (keeping `a`'s
   * drive unless `b` has one), a `b` on another drive replaces `a` entirely,
   * and otherwise `b` is appended after a separator that is added only when
   * `a`'s path does not already end with one.
   */
  function Join(a: string, b: string): string {
    var da, db := DriveOf(a), DriveOf(b);
    var ra, rb := a[|da|..], b[|db|..];
    if rb != [] && IsSep(rb[0]) then
      (if db != [] || da == [] then db else da) + rb
    else if db != [] && db != da && Lower(db) != Lower(da) then
      db + rb
    else
      (if db != [] then db else da) + (if ra != [] && !IsSep(ra[|ra| - 1]) then ra + "\\" else ra) + rb
  }

  /** A relative `b` without a drive is appended to `a`, with one separator between. */
  lemma JoinRelative(a: string, b: string)
    requires DriveOf(b) == [] && (b == [] || !IsSep(b[0]))
    ensures var ra := a[|DriveOf(a)|..];
      Join(a, b) == (if ra != [] && !IsSep(ra[|ra| - 1]) then a + "\\" + b else a + b)
  {
    var da := DriveOf(a);
    assert a == da + a[|da|..];
  }

  /** A rooted `b` without a drive keeps only `a`'s drive. */
  lemma JoinRooted(a: string, b: string)
    requires DriveOf(b) == [] && b != [] && IsSep(b[0])
    ensures Join(a, b) == DriveOf(a) + b
  {
  }

  /** A plain file name: not empty, no drive, no separator. */
  predicate IsPlainName(u: string) {
    u != [] && DriveOf(u) == [] && forall k | 0 <= k < |u| :: !IsSep(u[k])
  }

  /**
   * Joining a plain name to an absolute directory appends it after one
   * separator; the result is absolute and its base name is the name.
   */
  lemma JoinPlain(a: string, u: string)
    requires IsAbsolute(a) && IsPlainName(u)
    ensures Join(a, u) == if IsSep(a[|a| - 1]) then a + u else a + "\\" + u
    ensures IsAbsolute(Join(a, u)) && a <= Join(a, u)
    ensures Basename(Join(a, u)) == u
  {
    JoinRelative(a, u);
    var y := if IsSep(a[|a| - 1]) then a else a + "\\";
    var j := Join(a, u);
    assert j == y + u;
    assert j[..3] == y[..3] == a[..3];
    assert DriveOf(j) == j[..2];
    var q := j[2..];
    assert q == y[2..] + u;
    LastIndexAfter(y[2..], u, IsSep);
    assert q[|y[2..]|..] == u;
  }

  /** The last match of `p` is the end of `s` when nothing after it matches. */
  lemma {:induction false} LastIndexAfter(s: string, t: string, p: char -> bool)
    requires s != [] && p(s[|s| - 1]) && forall k | 0 <= k < |t| :: !p(t[k])
    ensures LastIndex(s + t, p) == Some(|s| - 1)
    decreases |t|
  {
    if t != [] {
      var st := s + t;
      assert st[..|st| - 1] == s + t[..|t| - 1];
      LastIndexAfter(s, t[..|t| - 1], p);
    }
  }

  /** `ntpath.basename`: what follows the drive and the last separator. */
  function Basename(p: string): (r: string)
    ensures forall k | 0 <= k < |r| :: !IsSep(r[k])
    ensures EndsWith(p, r)
  {
    var q := p[|DriveOf(p)|..];
    match LastIndex(q, IsSep)
    case None => q
    case Some(i) =>
      assert q[i + 1..] == p[|p| - (|q| - i - 1)..];
      q[i + 1..]
  }

  /** `s.rstrip("/\\")`: `s` without its trailing separators. */
  function TrimSeps(s: string): (r: string)
    ensures r <= s && (r == [] || !IsSep(r[|r| - 1]))
    ensures forall k | |r| <= k < |s| :: IsSep(s[k])
  {
    if s != [] && IsSep(s[|s| - 1]) then TrimSeps(s[..|s| - 1]) else s
  }

  /** Where the tail of `q` starts: after its last separator, or at 0. */
  function AfterLastSep(q: string): (i: nat)
    ensures i <= |q|
  {
    match LastIndex(q, IsSep) case None => 0 case Some(j) => j + 1
  }

  /** `head.rstrip("/\\") or head`. */
  function HeadOf(h: string): (r: string)
    ensures r <= h
  {
    var t := TrimSeps(h);
    if t == [] then h else t
  }

  /**
   * `ntpath.split(p)`: the tail is what follows the drive and the last
   * separator; the head is the rest, without its trailing separators unless
   * it consists of nothing else.
   */
  function SplitPath(p: string): (r: (string, string))
    ensures r.0 <= p
    ensures r.1 != [] ==> |r.0| < |p|
  {
    var d := DriveOf(p);
    var q := p[|d|..];
    var i := AfterLastSep(q);
    var head := HeadOf(q[..i]);
    PrefixAfter(d, head, q);
    (d + head, q[i..])
  }

  /** A prefix of `q` put after `d` is a prefix of `d + q`. */
  lemma PrefixAfter(d: string, h: string, q: string)
    requires h <= q
    ensures d + h <= d + q
  {
    assert (d + q)[..|d| + |h|] == d + q[..|h|];
  }

  /** The head of a path under a folder that does not end in a separator is that folder. */
  lemma SplitUnder(a: string, u: string)
    requires IsAbsolute(a) && !IsSep(a[|a| - 1]) && IsPlainName(u)
    ensures SplitPath(Join(a, u)) == (a, u)
  {
    JoinPlain(a, u);
    var j := a + "\\" + u;
    var q := j[2..];
    assert q == a[2..] + "\\" + u;
    LastIndexAfter(a[2..] + "\\", u, IsSep);
    var i := |a| - 1;
    assert AfterLastSep(q) == i;
    assert q[..i] == a[2..] + "\\";
    assert q[..i][..i - 1] == a[2..];
    assert TrimSeps(q[..i]) == a[2..];
    assert q[i..] == u;
    assert j[..2] + a[2..] == a;
  }

  /**
   * `ntpath.splitext(p)`: the extension is the text from the last dot, when
   * that dot follows the last separator and something other than dots
   * precedes it in the last component; otherwise it is empty.
   */
  function SplitExt(p: string): (string, string) {
    var start := match LastIndex(p, IsSep) case None => 0 case Some(i) => i + 1;
    match LastIndex(p, IsDot)
    case Some(d) =>
      if d >= start && exists k | start <= k < d :: p[k] != '.' then (p[..d], p[d..]) else (p, "")
    case None => (p, "")
  }

  /**
   * `splitext` cuts `p` in two: joined they give `p` back, and a non-empty
   * extension is a dot followed by neither separators nor dots.
   */
  lemma SplitExtParts(p: string)
    ensures SplitExt(p).0 + SplitExt(p).1 == p
    ensures var e := SplitExt(p).1;
      e == [] || (e[0] == '.' && forall k | 1 <= k < |e| :: !IsSep(e[k]) && e[k] != '.')
    ensures SplitExt(p).1 != [] ==> exists k | 0 <= k < |SplitExt(p).0| :: !IsSep(SplitExt(p).0[k]) && SplitExt(p).0[k] != '.'
  {
    var start := match LastIndex(p, IsSep) case None => 0 case Some(i) => i + 1;
    match LastIndex(p, IsDot)
    case Some(d) =>
      if d >= start && exists k | start <= k < d :: p[k] != '.' {
        var e := p[d..];
        forall k | 1 <= k < |e| ensures !IsSep(e[k]) && e[k] != '.' {
          assert e[k] == p[d + k];
        }
        var k :| start <= k < d && p[k] != '.';
        assert p[..d][k] == p[k];
        assert !IsSep(p[k]);
      }
    case None =>
  }

  /**
   * `d` is where an extension starts: the last dot of `p`, in `p`'s last
   * component, after a character of that component that is not a dot.
   */
  ghost predicate ExtStart(p: string, d: int) {
    && 0 <= d < |p| && p[d] == '.'
    && (forall k | d < k < |p| :: !IsSep(p[k]) && p[k] != '.')
    && exists k | 0 <= k < d :: !IsSep(p[k]) && p[k] != '.' && forall j | k < j < d :: !IsSep(p[j])
  }

  /** `splitext` cuts at the start of the extension. */
  lemma SplitExtAt(p: string, d: nat)
    requires ExtStart(p, d)
    ensures SplitExt(p) == (p[..d], p[d..])
  {
    var k :| 0 <= k < d && !IsSep(p[k]) && p[k] != '.' && forall j | k < j < d :: !IsSep(p[j]);
    assert LastIndex(p, IsDot) == Some(d);
    match LastIndex(p, IsSep)
    case None =>
    case Some(i) =>
      assert i < k;
  }

  /** Without an extension start, `splitext` cuts nothing off. */
  lemma SplitExtWhole(p: string)
    requires forall d | 0 <= d < |p| :: !ExtStart(p, d)
    ensures SplitExt(p) == (p, "")
  {
    var start := match LastIndex(p, IsSep) case None => 0 case Some(i) => i + 1;
    match LastIndex(p, IsDot)
    case Some(d) =>
      if d >= start && exists k | start <= k < d :: p[k] != '.' {
        var k :| start <= k < d && p[k] != '.';
        assert ExtStart(p, d);
      }
    case None =>
  }

  /** A design's module name drops only its last extension. */
  lemma ModuleNameOfDesign()
    ensures ModuleNameFor("alu.tb.v") == "top_alu.tb"
  {
    var a := "alu.tb.v";
    assert a[5] == 'b';
    SplitExtAt(a, 6);
    assert a[..6] == "alu.tb";
  }

  /** A name whose only dot leads it keeps that dot: it has no extension. */
  lemma ModuleNameOfDotName()
    ensures ModuleNameFor(".v") == "top_.v"
  {
    forall d | 0 <= d < 2 ensures !ExtStart(".v", d) {
      assert ".v"[1] == 'v';
    }
    SplitExtWhole(".v");
  }

  /** The module name `launch_tool` derives from the upload name: "top_" and the name without its extension. */
  function ModuleNameFor(upload: string): string {
    "top_" + SplitExt(upload).0
  }

  /** The derived module name is "top_" and the upload name up to its extension. */
  lemma ModuleNameParts(upload: string)
    ensures var n := ModuleNameFor(upload);
      "top_" <= n && n[4..] + SplitExt(upload).1 == upload
  {
    SplitExtParts(upload);
    assert ModuleNameFor(upload)[4..] == SplitExt(upload).0;
  }

  // ---------------------------------------------------------------------
  // Normalisation
  // ---------------------------------------------------------------------

  /** `p.replace("/", "\\")`: every separator becomes a backslash. */
  function BackSlashes(p: string): (r: string)
    ensures |r| == |p|
  {
    if p == [] then [] else [if p[0] == '/' then '\\' else p[0]] + BackSlashes(p[1..])
  }

  /** The components of `s` between separators, empty ones included (`re.split` on both slashes). */
  function SplitSeps(s: string): (r: seq<string>)
    ensures |r| >= 1
  {
    if s == [] then [""]
    else
      var rest := SplitSeps(s[1..]);
      if IsSep(s[0]) then [""] + rest else [[s[0]] + rest[0]] + rest[1..]
  }

  /** No component holds a separator. */
  lemma {:induction false} SplitSepsPieces(s: string)
    ensures forall i | 0 <= i < |SplitSeps(s)| :: forall k | 0 <= k < |SplitSeps(s)[i]| :: !IsSep(SplitSeps(s)[i][k])
  {
    if s != [] {
      SplitSepsPieces(s[1..]);
      var rest := SplitSeps(s[1..]);
      if !IsSep(s[0]) {
        var c := [s[0]] + rest[0];
        forall k | 0 <= k < |c| ensures !IsSep(c[k]) {
          if k > 0 { assert c[k] == rest[0][k - 1]; }
        }
      }
    }
  }

  /** A text without separators is a single component. */
  lemma {:induction false} SplitSepsSingle(t: string)
    requires forall k | 0 <= k < |t| :: !IsSep(t[k])
    ensures SplitSeps(t) == [t]
  {
    if t != [] {
      SplitSepsSingle(t[1..]);
      assert [t[0]] + t[1..] == t;
    }
  }

  /** Joining the components with backslashes gives `s` with its separators made backslashes. */
  lemma {:induction false} SplitSepsJoin(s: string)
    ensures JoinWith(SplitSeps(s), "\\") == BackSlashes(s)
  {
    if s != [] {
      SplitSepsJoin(s[1..]);
      var rest := SplitSeps(s[1..]);
      if !IsSep(s[0]) {
        JoinConsFirst(s[0], rest, "\\");
      }
    }
  }

  /** The last component is what follows the last separator. */
  lemma SplitSepsLast(s: string, t: string)
    requires forall k | 0 <= k < |t| :: !IsSep(t[k])
    ensures var r := SplitSeps(s + "\\" + t); |r| >= 2 && r[|r| - 1] == t
  {
    assert s + "\\" + t == s + ['\\'] + t;
    SplitSepsAppend(s, '\\', t);
    SplitSepsSingle(t);
  }

  /** Extending the first component extends the joined text. */
  lemma JoinConsFirst(c: char, parts: seq<string>, sep: string)
    requires |parts| >= 1
    ensures JoinWith([[c] + parts[0]] + parts[1..], sep) == [c] + JoinWith(parts, sep)
  {
    var q := [[c] + parts[0]] + parts[1..];
    assert q[1..] == parts[1..];
  }

  /**
   * One component rule of `ntpath.normpath`, with the components kept so far
   * in `kept`: an empty component and "." vanish, ".." removes the previous
   * kept component unless that is itself "..", a ".." at the root is
   * dropped, and anything else is kept.
   */
  function Step(kept: seq<string>, c: string, rooted: bool): seq<string> {
    if c == "" || c == "." then kept
    else if c == ".." then
      if kept != [] && kept[|kept| - 1] != ".." then kept[..|kept| - 1]
      else if kept == [] && rooted then kept
      else kept + [".."]
    else kept + [c]
  }

  /** The component rules applied left to right to `comps`. */
  function Resolve(kept: seq<string>, comps: seq<string>, rooted: bool): seq<string>
    decreases |comps|
  {
    if comps == [] then kept else Resolve(Step(kept, comps[0], rooted), comps[1..], rooted)
  }

  /** A component of a normalised path: not empty, not ".", and free of separators. */
  predicate IsComponent(c: string) {
    c != [] && c != "." && forall k | 0 <= k < |c| :: !IsSep(c[k])
  }

  /** A step keeps only proper components, and at the root leaves no "..". */
  lemma StepComponents(kept: seq<string>, c: string, rooted: bool)
    requires forall i | 0 <= i < |kept| :: IsComponent(kept[i])
    requires forall k | 0 <= k < |c| :: !IsSep(c[k])
    requires rooted ==> ".." !in kept
    ensures var r := Step(kept, c, rooted);
      (forall i | 0 <= i < |r| :: IsComponent(r[i])) && (rooted ==> ".." !in r)
  {
    if c != "" && c != "." && c != ".." {
      assert IsComponent(c);
    } else if c == ".." && kept != [] && kept[|kept| - 1] != ".." {
      var r := kept[..|kept| - 1];
      assert forall i | 0 <= i < |r| :: r[i] == kept[i];
    } else if c == ".." && kept != [] {
      assert kept[|kept| - 1] in kept;
    }
  }

  /** The rules keep only proper components, and a rooted path has no ".." left. */
  lemma {:induction false} ResolveComponents(kept: seq<string>, comps: seq<string>, rooted: bool)
    requires forall i | 0 <= i < |kept| :: IsComponent(kept[i])
    requires forall i | 0 <= i < |comps| :: forall k | 0 <= k < |comps[i]| :: !IsSep(comps[i][k])
    requires rooted ==> ".." !in kept
    ensures var r := Resolve(kept, comps, rooted);
      (forall i | 0 <= i < |r| :: IsComponent(r[i])) && (rooted ==> ".." !in r)
    decreases |comps|
  {
    if comps != [] {
      StepComponents(kept, comps[0], rooted);
      assert forall i | 0 <= i < |comps[1..]| :: comps[1..][i] == comps[i + 1];
      ResolveComponents(Step(kept, comps[0], rooted), comps[1..], rooted);
      var r := Resolve(kept, comps, rooted);
      assert r == Resolve(Step(kept, comps[0], rooted), comps[1..], rooted);
      assert forall i | 0 <= i < |r| :: IsComponent(r[i]);
      assert rooted ==> ".." !in r;
    } else {
      assert Resolve(kept, comps, rooted) == kept;
    }
  }

  /** A proper last component other than ".." survives the rules and stays last. */
  lemma {:induction false} ResolveKeepsLast(kept: seq<string>, comps: seq<string>, rooted: bool)
    requires comps != [] && IsComponent(comps[|comps| - 1]) && comps[|comps| - 1] != ".."
    ensures var r := Resolve(kept, comps, rooted); r != [] && r[|r| - 1] == comps[|comps| - 1]
    decreases |comps|
  {
    if |comps| > 1 {
      ResolveKeepsLast(Step(kept, comps[0], rooted), comps[1..], rooted);
    } else {
      assert Resolve(kept, comps, rooted) == Step(kept, comps[0], rooted);
    }
  }

  /** The drive and root that `normpath` keeps in front of the components. */
  function NormPrefix(p: string): string {
    PrefixOf(BackSlashes(p))
  }

  /** The drive and root of a path whose separators are all backslashes. */
  function PrefixOf(q: string): string {
    var d := DriveOf(q);
    var rest := q[|d|..];
    d + (if rest != [] && rest[0] == '\\' then "\\" else "")
  }

  /** The components `normpath` keeps. */
  function NormComps(p: string): seq<string> {
    CompsOf(BackSlashes(p))
  }

  /** The components `normpath` keeps of a path whose separators are all backslashes. */
  function CompsOf(q: string): seq<string> {
    var d := DriveOf(q);
    var rest := q[|d|..];
    var rooted := rest != [] && rest[0] == '\\';
    Resolve([], SplitSeps(if rooted then rest[1..] else rest), rooted)
  }

  /** `ntpath.normpath(p)`. */
  function Normalize(p: string): string {
    var pre, comps := NormPrefix(p), NormComps(p);
    if pre == [] && comps == [] then "." else pre + JoinWith(comps, "\\")
  }

  /** `p` has a drive and a root, like "C:\". */
  predicate IsAbsolute(p: string) {
    |p| >= 3 && p[1] == ':' && IsSep(p[2])
  }

  /**
   * The absolute path `ntpath.abspath(p)` resolves `p` to before normalising
   * it, against the working directory `cwd`: a path with a drive and a root
   * stays as it is; a rooted path takes the drive of `cwd`; a relative one
   * is joined to `cwd`; a path with a drive but no root is taken from that
   * drive's root.
   */
  function AbsTarget(cwd: string, p: string): (x: string)
    requires IsAbsolute(cwd)
    ensures IsAbsolute(x)
  {
    if IsAbsolute(p) then p
    else if DriveOf(p) != [] then p[..2] + "\\" + p[2..]
    else if p != [] && IsSep(p[0]) then DriveOf(cwd) + p
    else JoinRelative(cwd, p); Join(cwd, p)
  }

  /** `ntpath.abspath(p)` with `cwd` as the working directory. */
  function Abspath(cwd: string, p: string): string
    requires IsAbsolute(cwd)
  {
    Normalize(AbsTarget(cwd, p))
  }

  /**
   * Normalising an absolute path gives its drive and a backslash, then
   * proper components without ".." joined by backslashes.
   */
  lemma NormalizeAbsolute(x: string)
    requires IsAbsolute(x)
    ensures var pre := NormPrefix(x);
      |pre| == 3 && pre[1] == ':' && pre[2] == '\\'
    ensures Normalize(x) == NormPrefix(x) + JoinWith(NormComps(x), "\\")
    ensures forall i | 0 <= i < |NormComps(x)| :: IsComponent(NormComps(x)[i])
    ensures ".." !in NormComps(x)
  {
    var q := BackSlashes(x);
    var d := DriveOf(q);
    BackSlashesAt(x, 1);
    BackSlashesAt(x, 2);
    assert d == q[..2];
    var rest := q[2..];
    assert rest[0] == q[2] == '\\';
    assert NormPrefix(x) == d + "\\";
    SplitSepsPieces(rest[1..]);
    ResolveComponents([], SplitSeps(rest[1..]), true);
  }

  // ---------------------------------------------------------------------
  // Windows paths as seen from WSL
  // ---------------------------------------------------------------------

  const WslRoot := "/mnt/c"

  /**
   * The WSL form `launch_tool` gives the base directory: "/mnt/c", then the
   * path without its first two characters (the drive), backslashes made
   * forward slashes.
   */
  function WslDropDrive(p: string): (r: string)
    ensures WslRoot <= r && '\\' !in r
    ensures |r| == |WslRoot| + |p| - (if |p| >= 2 then 2 else |p|)
    ensures r != p
  {
    WslRoot + ForwardSlashes(p[if |p| >= 2 then 2 else |p|..])
  }

  /**
   * The WSL form `klayout_run` gives a saved upload: "/mnt/c", then the path
   * with every "C:" deleted, backslashes made forward slashes.
   */
  function WslStripDrive(p: string): (r: string)
    ensures WslRoot <= r && '\\' !in r
  {
    WslRoot + ForwardSlashes(ReplaceAll(p, "C:", ""))
  }

  /** The WSL uploads directory of `launch_tool`. */
  function WslUploadsDir(base: string): string {
    WslDropDrive(base) + "/uploads"
  }

  /** On a path of drive C: holding no other "C:", both translations agree. */
  lemma WslAgree(q: string)
    requires !Contains(q, "C:")
    ensures WslDropDrive("C:" + q) == WslStripDrive("C:" + q) == WslRoot + ForwardSlashes(q)
  {
    assert ("C:" + q)[2..] == q;
    DeleteLeadingDrive(q);
  }

  /** Deleting every "C:" from "C:" and a text without one leaves that text. */
  lemma DeleteLeadingDrive(q: string)
    requires !Contains(q, "C:")
    ensures ReplaceAll("C:" + q, "C:", "") == q
  {
    ShortNoContains("C", "C:");
    assert [] + "C:"[..1] == "C";
    ReplaceAllAtFirst([], "C:", "", q);
    assert [] + "C:" + q == "C:" + q;
    ReplaceAllAbsent(q, "C:", "");
  }

  /** "C:\\a\\b" becomes "/mnt/c/a/b" under both translations. */
  lemma WslExample()
    ensures WslDropDrive("C:\\a\\b") == "/mnt/c/a/b"
    ensures WslStripDrive("C:\\a\\b") == "/mnt/c/a/b"
  {
    var q := "\\a\\b";
    assert "C:\\a\\b" == "C:" + q;
    FirstCharAbsent(q, "C:");
    WslAgree(q);
    SlashesExample();
  }

  lemma SlashesExample()
    ensures WslRoot + ForwardSlashes("\\a\\b") == "/mnt/c/a/b"
  {
    var f := ForwardSlashes("\\a\\b");
    assert f[0] == '/' && f[1] == 'a' && f[2] == '/' && f[3] == 'b';
    assert f == "/a/b";
  }

  /** The drive is ignored: a path on drive D: is translated as if on C:. */
  lemma WslOtherDrive(q: string)
    ensures WslDropDrive("D:" + q) == WslDropDrive("C:" + q)
  {
    assert ("D:" + q)[2..] == q == ("C:" + q)[2..];
  }

  /** Text without the first character of `pat` does not contain `pat`. */
  lemma {:induction false} FirstCharAbsent(s: string, pat: string)
    requires pat != [] && forall k | 0 <= k < |s| :: s[k] != pat[0]
    ensures !Contains(s, pat)
  {
    if s != [] {
      assert !(pat <= s) by { assert s[0] != pat[0]; }
      forall k | 0 <= k < |s| - 1 ensures s[1..][k] != pat[0] {
        assert s[1..][k] == s[k + 1];
      }
      FirstCharAbsent(s[1..], pat);
    }
  }

  /** A path without "C:", such as a POSIX path, is prefixed with "/mnt/c" rather than kept. */
  lemma WslStripDriveMoves(p: string)
    requires !Contains(p, "C:")
    ensures WslStripDrive(p) == WslRoot + ForwardSlashes(p) && WslStripDrive(p) != p
  {
    ReplaceAllAbsent(p, "C:", "");
  }

  // ---------------------------------------------------------------------
  // serve_upload
  // ---------------------------------------------------------------------

  /**
   * What `serve_upload` answers: 403, 404, the file, or the server error of
   * `open(full, "rb")` raising because `full` is a folder.
   */
  datatype Served = Forbidden | NotFound | File(path: string) | FolderError

  /** The directory `serve_upload` serves from. */
  const Uploads := "uploads"

  function UploadsDir(baseDir: string): string {
    Join(baseDir, Uploads)
  }

  /** The uploads directory of an absolute base directory ends with the component "uploads". */
  lemma UploadsDirLast(baseDir: string)
    requires IsAbsolute(baseDir)
    ensures var c := NormComps(UploadsDir(baseDir)); c != [] && c[|c| - 1] == Uploads
  {
    JoinRelative(baseDir, Uploads);
    var y := if IsSep(baseDir[|baseDir| - 1]) then baseDir[..|baseDir| - 1] else baseDir;
    var x := UploadsDir(baseDir);
    assert x == y + [x[|y|]] + Uploads && IsSep(x[|y|]);
    LastComponent(y, x[|y|], Uploads);
  }

  /** A path with a drive whose last component is proper and not ".." keeps it last when normalised. */
  lemma LastComponent(y: string, c: char, t: string)
    requires |y| >= 2 && y[1] == ':' && IsSep(c) && IsComponent(t) && t != ".."
    ensures var r := NormComps(y + [c] + t); r != [] && r[|r| - 1] == t
  {
    var q := BackSlashes(y + [c] + t);
    BackSlashesLast(y, c, t);
    BackSlashesAt(y, 1);
    assert DriveOf(q) == q[..2];
    var rest := q[2..];
    var rooted := rest != [] && rest[0] == '\\';
    var tail := if rooted then rest[1..] else rest;
    TailEndsWith(BackSlashes(y), t, rooted, tail);
    ResolveKeepsLast([], SplitSeps(tail), rooted);
  }

  /** What follows the drive of `b`, a backslash and `t`, less a leading root, splits into pieces ending in `t`. */
  lemma TailEndsWith(b: string, t: string, rooted: bool, tail: string)
    requires |b| >= 2 && forall k | 0 <= k < |t| :: !IsSep(t[k])
    requires var rest := (b + "\\" + t)[2..];
      rooted == (rest != [] && rest[0] == '\\') && tail == if rooted then rest[1..] else rest
    ensures var r := SplitSeps(tail); r != [] && r[|r| - 1] == t
  {
    var rest := (b + "\\" + t)[2..];
    assert rest == b[2..] + "\\" + t;
    if |b| == 2 {
      assert tail == t;
      SplitSepsSingle(t);
    } else {
      var u := if rooted then b[3..] else b[2..];
      assert tail == u + "\\" + t;
      SplitSepsLast(u, t);
    }
  }

  /** A separator between two texts becomes a backslash between their converted forms. */
  lemma BackSlashesSplit(x: string, c: char, r: string)
    requires IsSep(c)
    ensures BackSlashes(x + [c] + r) == BackSlashes(x) + "\\" + BackSlashes(r)
  {
    BackSlashesAppend(x + [c], r);
    BackSlashesAppend(x, [c]);
    assert BackSlashes([c]) == "\\";
  }

  /** An absolute path keeps its drive and gets a backslash for its root. */
  lemma AbsoluteBackSlashes(x: string)
    requires IsAbsolute(x)
    ensures var q := BackSlashes(x); |q| == |x| && q[1] == ':' && q[2] == '\\'
  {
    BackSlashesAt(x, 1);
    BackSlashesAt(x, 2);
  }

  /** Separators become backslashes and a separator-free tail is kept. */
  lemma BackSlashesLast(y: string, c: char, t: string)
    requires IsSep(c) && forall k | 0 <= k < |t| :: !IsSep(t[k])
    ensures BackSlashes(y + [c] + t) == BackSlashes(y) + "\\" + t
  {
    BackSlashesAppend(y + [c], t);
    BackSlashesAppend(y, [c]);
    BackSlashesKeeps(t);
    assert BackSlashes([c]) == "\\";
  }

  /** Each character of `p` is kept, or made a backslash when it is '/'. */
  lemma {:induction false} BackSlashesAt(p: string, k: nat)
    requires k < |p|
    ensures BackSlashes(p)[k] == if p[k] == '/' then '\\' else p[k]
  {
    if k > 0 {
      BackSlashesAt(p[1..], k - 1);
    }
  }

  lemma {:induction false} BackSlashesAppend(a: string, b: string)
    ensures BackSlashes(a + b) == BackSlashes(a) + BackSlashes(b)
  {
    if a != [] {
      assert (a + b)[1..] == a[1..] + b;
      BackSlashesAppend(a[1..], b);
    } else {
      assert a + b == b;
    }
  }

  lemma BackSlashesKeeps(t: string)
    requires forall k | 0 <= k < |t| :: t[k] != '/'
    ensures BackSlashes(t) == t
  {
  }

  /** The absolute path `serve_upload` computes for the requested `path`. */
  function RequestedPath(cwd: string, baseDir: string, path: string): string
    requires IsAbsolute(cwd)
  {
    Abspath(cwd, Join(UploadsDir(baseDir), path))
  }

  /**
   * `serve_upload(request, path)`: 403 when the absolute joined path does not
   * start, as a string, with the absolute uploads directory; 404 when it does
   * but names no file and no folder (`os.path.exists`); the file when it
   * names one; and when it names a folder, the error `open` raises on it.
   */
  function ServeUpload(cwd: string, baseDir: string, path: string, files: set<string>, dirs: set<string>): (r: Served)
    requires IsAbsolute(cwd)
    ensures var full := RequestedPath(cwd, baseDir, path);
      && (r == Forbidden <==> !(Abspath(cwd, UploadsDir(baseDir)) <= full))
      && (r == NotFound <==> Abspath(cwd, UploadsDir(baseDir)) <= full && full !in files && full !in dirs)
      && (r == FolderError <==> Abspath(cwd, UploadsDir(baseDir)) <= full && full !in files && full in dirs)
      && (r.File? <==> Abspath(cwd, UploadsDir(baseDir)) <= full && full in files)
      && (r.File? ==> r.path == full)
  {
    var full := RequestedPath(cwd, baseDir, path);
    if !(Abspath(cwd, UploadsDir(baseDir)) <= full) then Forbidden
    else if full !in files && full !in dirs then NotFound
    else if full !in files then FolderError
    else File(full)
  }

  /** `full` lies in directory `base`: it is `base`, or `base` and a separator start it. */
  predicate Within(base: string, full: string) {
    full == base || base + "\\" <= full
  }

  /** `serve_upload` with the containment test on whole components. */
  function ServeUploadFixed(cwd: string, baseDir: string, path: string, files: set<string>, dirs: set<string>): (r: Served)
    requires IsAbsolute(cwd)
    ensures r == Forbidden <==> !Within(Abspath(cwd, UploadsDir(baseDir)), RequestedPath(cwd, baseDir, path))
    ensures r != Forbidden ==> r == ServeUpload(cwd, baseDir, path, files, dirs)
  {
    var full := RequestedPath(cwd, baseDir, path);
    if !Within(Abspath(cwd, UploadsDir(baseDir)), full) then Forbidden
    else
      assert Abspath(cwd, UploadsDir(baseDir)) <= full;
      ServeUpload(cwd, baseDir, path, files, dirs)
  }

  /** Within a directory, in terms of components: the directory's components start the path's. */
  lemma {:induction false} WithinComponents(b: seq<string>, f: seq<string>)
    requires b != [] && forall i | 0 <= i < |b| :: IsComponent(b[i])
    requires forall i | 0 <= i < |f| :: IsComponent(f[i])
    ensures Within(JoinWith(b, "\\"), JoinWith(f, "\\")) <==> b <= f
  {
    if |b| == 1 {
      if f != [] && b[0] == f[0] {
        JoinFirst(f);
      } else if f != [] {
        JoinFirst(f);
        ComponentsDiffer(b[0], f[0], JoinWith(f, "\\")[|f[0]|..]);
      }
    } else {
      JoinFirst(b);
      if f != [] {
        JoinFirst(f);
        if b[0] == f[0] && |f| > 1 {
          WithinComponents(b[1..], f[1..]);
          WithinTail(b[0], JoinWith(b[1..], "\\"), JoinWith(f[1..], "\\"));
        } else if b[0] == f[0] {
          assert |JoinWith(f, "\\")| == |b[0]|;
        } else {
          ComponentsDiffer(b[0], f[0], JoinWith(f, "\\")[|f[0]|..]);
          assert JoinWith(b, "\\") == b[0] + ("\\" + JoinWith(b[1..], "\\"));
        }
      }
    }
  }

  /** The joined components start with the first one, then a separator or nothing. */
  lemma JoinFirst(f: seq<string>)
    requires f != []
    ensures JoinWith(f, "\\") == f[0] + JoinWith(f, "\\")[|f[0]|..]
    ensures |f| > 1 ==> JoinWith(f, "\\")[|f[0]|..] == "\\" + JoinWith(f[1..], "\\")
    ensures |f| == 1 ==> JoinWith(f, "\\") == f[0]
  {
  }

  /** A shared first component and a separator: being within reduces to the rest. */
  lemma WithinTail(c: string, b: string, f: string)
    ensures Within(c + "\\" + b, c + "\\" + f) <==> Within(b, f)
  {
    var h := c + "\\";
    assert c + "\\" + b + "\\" == h + (b + "\\");
    assert c + "\\" + b == h + b;
    assert c + "\\" + f == h + f;
    PrefixCancel(h, b + "\\", f);
    if h + b == h + f {
      assert b == (h + b)[|h|..] == (h + f)[|h|..] == f;
    }
  }

  /** A common prefix does not change which text starts which. */
  lemma PrefixCancel(h: string, x: string, y: string)
    ensures h + x <= h + y <==> x <= y
  {
    if h + x <= h + y {
      assert x == (h + x)[|h|..] == (h + y)[|h|..|h| + |x|] == y[..|x|];
    }
    if x <= y {
      assert h + y == (h + x) + y[|x|..];
    }
  }

  /**
   * Two different separator-free components followed by a separator or by
   * nothing: neither is the other plus a separator and more.
   */
  lemma ComponentsDiffer(x: string, y: string, rest: string)
    requires x != y && IsComponent(x) && IsComponent(y)
    requires rest == [] || rest[0] == '\\'
    ensures !(x + "\\" <= y + rest) && x != y + rest
  {
    if |x| < |y| {
      assert (x + "\\")[|x|] != (y + rest)[|x|];
    } else if |x| == |y| {
      assert (y + rest)[..|x|] == y;
      assert (x + "\\")[..|x|] == x;
    } else {
      assert (x + "\\")[|y|] == x[|y|];
      assert x[|y|] != '\\';
    }
  }

  /** Paths with prefixes of equal length: being within needs equal prefixes and reduces to the rest. */
  lemma WithinPrefixed(p: string, q: string, b: string, f: string)
    requires |p| == |q|
    ensures Within(p + b, q + f) <==> p == q && Within(b, f)
  {
    if p == q {
      assert p + b + "\\" == p + (b + "\\");
      PrefixCancel(p, b + "\\", f);
      if p + b == p + f {
        assert b == (p + b)[|p|..] == (p + f)[|p|..] == f;
      }
    } else {
      assert (p + b)[..|p|] == p && (q + f)[..|q|] == q;
      assert (p + b + "\\")[..|p|] == p;
    }
  }

  /**
   * With the fixed test, `serve_upload` refuses exactly the requests whose
   * normalised path is not on the uploads directory's drive or does not
   * continue the uploads directory's components.
   */
  lemma ServeUploadFixedContained(cwd: string, baseDir: string, path: string, files: set<string>, dirs: set<string>)
    requires IsAbsolute(cwd) && IsAbsolute(baseDir)
    ensures var b, f := UploadsDir(baseDir), AbsTarget(cwd, Join(UploadsDir(baseDir), path));
      (ServeUploadFixed(cwd, baseDir, path, files, dirs) != Forbidden) <==>
        (NormPrefix(b) == NormPrefix(f) && NormComps(b) <= NormComps(f))
  {
    var b, f := UploadsDir(baseDir), AbsTarget(cwd, Join(UploadsDir(baseDir), path));
    JoinRelative(baseDir, "uploads");
    assert AbsTarget(cwd, b) == b;
    NormalizeAbsolute(b);
    NormalizeAbsolute(f);
    UploadsDirLast(baseDir);
    WithinPrefixed(NormPrefix(b), NormPrefix(f), JoinWith(NormComps(b), "\\"), JoinWith(NormComps(f), "\\"));
    WithinComponents(NormComps(b), NormComps(f));
  }

  /** Splitting at a separator concatenates the components of both sides. */
  lemma {:induction false} SplitSepsAppend(a: string, c: char, b: string)
    requires IsSep(c)
    ensures SplitSeps(a + [c] + b) == SplitSeps(a) + SplitSeps(b)
  {
    if a == [] {
      assert a + [c] + b == [c] + b;
      SplitSepsFirst(c, b);
    } else {
      var a' := a[1..];
      assert a + [c] + b == [a[0]] + (a' + [c] + b) && a == [a[0]] + a';
      SplitSepsAppend(a', c, b);
      SplitSepsFirst(a[0], a' + [c] + b);
      SplitSepsFirst(a[0], a');
      MergeFirst(a[0], SplitSeps(a'), SplitSeps(b));
    }
  }

  /** One character in front: a separator opens an empty component, anything else extends the first. */
  lemma SplitSepsFirst(ch: char, s: string)
    ensures SplitSeps([ch] + s) ==
      if IsSep(ch) then [""] + SplitSeps(s) else [[ch] + SplitSeps(s)[0]] + SplitSeps(s)[1..]
  {
    assert ([ch] + s)[0] == ch && ([ch] + s)[1..] == s;
  }

  lemma MergeFirst(ch: char, l: seq<string>, x: seq<string>)
    requires l != []
    ensures [[ch] + (l + x)[0]] + (l + x)[1..] == ([[ch] + l[0]] + l[1..]) + x
    ensures [""] + (l + x) == ([""] + l) + x
  {
    assert (l + x)[0] == l[0] && (l + x)[1..] == l[1..] + x;
  }

  /** The component rules fold left to right: the components of `a + b` are those of `b` resolved after `a`'s. */
  lemma {:induction false} ResolveAppend(kept: seq<string>, a: seq<string>, b: seq<string>, rooted: bool)
    ensures Resolve(kept, a + b, rooted) == Resolve(Resolve(kept, a, rooted), b, rooted)
    decreases |a|
  {
    if a == [] {
      assert a + b == b;
    } else {
      assert (a + b)[0] == a[0] && (a + b)[1..] == a[1..] + b;
      ResolveAppend(Step(kept, a[0], rooted), a[1..], b, rooted);
    }
  }

  /**
   * Normalising an absolute path followed by a separator and `r` resolves
   * the components of `r` against those of the path.
   */
  lemma NormExtend(x: string, c: char, r: string)
    requires IsAbsolute(x) && IsSep(c)
    ensures NormPrefix(x + [c] + r) == NormPrefix(x)
    ensures NormComps(x + [c] + r) == Resolve(NormComps(x), SplitSeps(BackSlashes(r)), true)
  {
    BackSlashesSplit(x, c, r);
    AbsoluteBackSlashes(x);
    ExtendRooted(BackSlashes(x), BackSlashes(r));
  }

  /** `NormExtend` on paths whose separators are all backslashes. */
  lemma ExtendRooted(q: string, b: string)
    requires |q| >= 3 && q[1] == ':' && q[2] == '\\'
    ensures PrefixOf(q + "\\" + b) == PrefixOf(q)
    ensures CompsOf(q + "\\" + b) == Resolve(CompsOf(q), SplitSeps(b), true)
  {
    assert (q + "\\" + b)[..3] == q[..3];
    assert (q + "\\" + b)[3..] == q[3..] + ['\\'] + b;
    SplitSepsAppend(q[3..], '\\', b);
    ResolveAppend([], SplitSeps(q[3..]), SplitSeps(b), true);
  }

  /** Joining two non-empty lists of components puts one separator between them. */
  lemma {:induction false} JoinAppend(a: seq<string>, b: seq<string>, sep: string)
    requires a != [] && b != []
    ensures JoinWith(a + b, sep) == JoinWith(a, sep) + sep + JoinWith(b, sep)
  {
    if |a| > 1 {
      assert (a + b)[1..] == a[1..] + b;
      JoinAppend(a[1..], b, sep);
    } else {
      assert (a + b)[1..] == b;
    }
  }

  /** The components of a request "../<sibling>/<leaf>". */
  lemma SiblingRequestComponents(sib: string, leaf: string)
    requires forall k | 0 <= k < |sib| :: !IsSep(sib[k])
    requires forall k | 0 <= k < |leaf| :: !IsSep(leaf[k])
    ensures SplitSeps(BackSlashes(".." + "/" + sib + "/" + leaf)) == ["..", sib, leaf]
  {
    var p := ".." + "/" + sib;
    assert ".." + "/" + sib + "/" + leaf == p + ['/'] + leaf;
    BackSlashesLast(p, '/', leaf);
    assert p == ".." + ['/'] + sib;
    BackSlashesLast("..", '/', sib);
    BackSlashesKeeps("..");
    SplitSepsAppend(".." + "\\" + sib, '\\', leaf);
    SplitSepsAppend("..", '\\', sib);
    SplitSepsSingle("..");
    SplitSepsSingle(sib);
    SplitSepsSingle(leaf);
  }

  /** From inside the last component of `b`, "../<sibling>/<leaf>" replaces it by the sibling. */
  lemma SiblingResolve(b: seq<string>, sib: string, leaf: string)
    requires b != [] && b[|b| - 1] != ".."
    requires IsComponent(sib) && sib != ".." && IsComponent(leaf) && leaf != ".."
    ensures Resolve(b, ["..", sib, leaf], true) == b[..|b| - 1] + [sib, leaf]
  {
    var h := b[..|b| - 1];
    ResolveThree(b, "..", sib, leaf, true);
    StepPop(b, true);
    StepPush(h, sib, true);
    StepPush(h + [sib], leaf, true);
    AppendTwo(h, sib, leaf);
  }

  lemma AppendTwo<T>(h: seq<T>, x: T, y: T)
    ensures h + [x] + [y] == h + [x, y]
  {
  }

  /** ".." removes the last kept component when that is not "..". */
  lemma StepPop(kept: seq<string>, rooted: bool)
    requires kept != [] && kept[|kept| - 1] != ".."
    ensures Step(kept, "..", rooted) == kept[..|kept| - 1]
  {
  }

  /** Resolving three components is three steps. */
  lemma ResolveThree(kept: seq<string>, x: string, y: string, z: string, rooted: bool)
    ensures Resolve(kept, [x, y, z], rooted) == Step(Step(Step(kept, x, rooted), y, rooted), z, rooted)
  {
    var s1 := Step(kept, x, rooted);
    var s2 := Step(s1, y, rooted);
    var s3 := Step(s2, z, rooted);
    assert [x, y, z][1..] == [y, z] && [y, z][1..] == [z] && [z][1..] == [];
    assert Resolve(s2, [z], rooted) == s3;
    assert Resolve(s1, [y, z], rooted) == s3;
  }

  /** A proper component other than ".." is kept. */
  lemma StepPush(kept: seq<string>, c: string, rooted: bool)
    requires IsComponent(c) && c != ".."
    ensures Step(kept, c, rooted) == kept + [c]
  {
  }

  /** The text of the sibling path is that of `b`, the suffix, a separator and the leaf. */
  lemma SiblingText(b: seq<string>, sfx: string, leaf: string, sep: string)
    requires b != []
    ensures JoinWith(b[..|b| - 1] + [b[|b| - 1] + sfx, leaf], sep) == JoinWith(b, sep) + sfx + sep + leaf
  {
    var h := b[..|b| - 1];
    var n := b[|b| - 1];
    var t := [n + sfx, leaf];
    assert t[1..] == [leaf];
    if h == [] {
      assert h + t == t;
      assert b == [n];
    } else {
      JoinAppend(h, t, sep);
      assert b == h + [n];
      JoinAppend(h, [n], sep);
    }
  }

  lemma Regroup(a: string, x: string, y: string, z: string)
    ensures a + x + y + z == a + (x + y + z)
  {
  }

  lemma Regroup2(a: string, x: string, t: string)
    ensures a + x + t == a + (x + t)
  {
  }

  /**
   * For every absolute base directory, a request "../uploads<sfx>/<leaf>"
   * names the uploads directory's path followed by `sfx`, a backslash and
   * the leaf, inside a sibling directory: the test as written lets it
   * through, the fixed test refuses it. "../uploads2/x" is one such request.
   */
  lemma SiblingEscapes(cwd: string, baseDir: string, sfx: string, leaf: string, files: set<string>, dirs: set<string>)
    requires IsAbsolute(cwd) && IsAbsolute(baseDir)
    requires sfx != [] && forall k | 0 <= k < |sfx| :: !IsSep(sfx[k])
    requires IsComponent(leaf) && leaf != ".."
    ensures var rel := ".." + "/" + (Uploads + sfx) + "/" + leaf;
      && RequestedPath(cwd, baseDir, rel) == Abspath(cwd, UploadsDir(baseDir)) + (sfx + "\\" + leaf)
      && ServeUpload(cwd, baseDir, rel, files, dirs) != Forbidden
      && ServeUploadFixed(cwd, baseDir, rel, files, dirs) == Forbidden
  {
    var rel := ".." + "/" + (Uploads + sfx) + "/" + leaf;
    SiblingRequest(cwd, baseDir, sfx, leaf);
    SiblingFixedRefuses(cwd, baseDir, sfx, leaf, files, dirs);
    ServeUploadAdmits(cwd, baseDir, rel, files, dirs, sfx + "\\" + leaf);
  }

  /** A request that leads to the uploads directory's path extended by any text passes the as-written check. */
  lemma ServeUploadAdmits(cwd: string, baseDir: string, path: string, files: set<string>, dirs: set<string>, t: string)
    requires IsAbsolute(cwd)
    requires RequestedPath(cwd, baseDir, path) == Abspath(cwd, UploadsDir(baseDir)) + t
    ensures ServeUpload(cwd, baseDir, path, files, dirs) != Forbidden
  {
    var a := Abspath(cwd, UploadsDir(baseDir));
    assert (a + t)[..|a|] == a;
  }

  /** Where the sibling request leads: the uploads directory's path, extended by the suffix and the leaf. */
  lemma SiblingRequest(cwd: string, baseDir: string, sfx: string, leaf: string)
    requires IsAbsolute(cwd) && IsAbsolute(baseDir)
    requires sfx != [] && forall k | 0 <= k < |sfx| :: !IsSep(sfx[k])
    requires IsComponent(leaf) && leaf != ".."
    ensures var rel := ".." + "/" + (Uploads + sfx) + "/" + leaf;
      RequestedPath(cwd, baseDir, rel) == Abspath(cwd, UploadsDir(baseDir)) + (sfx + "\\" + leaf)
  {
    var sib := Uploads + sfx;
    var rel := ".." + "/" + sib + "/" + leaf;
    var u := UploadsDir(baseDir);
    SiblingRequestComponents(sib, leaf);
    SiblingJoined(cwd, baseDir, rel);
    UploadsDirLast(baseDir);
    SiblingIsComponent(sfx);
    SiblingNormal(u, rel, sib, leaf);
    SiblingNormalText(u, rel, sfx, leaf);
  }

  /** The corrected check refuses the sibling request: its components leave the uploads directory. */
  lemma SiblingFixedRefuses(cwd: string, baseDir: string, sfx: string, leaf: string, files: set<string>, dirs: set<string>)
    requires IsAbsolute(cwd) && IsAbsolute(baseDir)
    requires sfx != [] && forall k | 0 <= k < |sfx| :: !IsSep(sfx[k])
    requires IsComponent(leaf) && leaf != ".."
    ensures var rel := ".." + "/" + (Uploads + sfx) + "/" + leaf;
      ServeUploadFixed(cwd, baseDir, rel, files, dirs) == Forbidden
  {
    var sib := Uploads + sfx;
    var rel := ".." + "/" + sib + "/" + leaf;
    var u := UploadsDir(baseDir);
    SiblingRequestComponents(sib, leaf);
    SiblingJoined(cwd, baseDir, rel);
    UploadsDirLast(baseDir);
    SiblingIsComponent(sfx);
    SiblingNormal(u, rel, sib, leaf);
    ServeUploadFixedContained(cwd, baseDir, rel, files, dirs);
    var b, f := NormComps(u), NormComps(u + "\\" + rel);
    assert f[|b| - 1] == sib != Uploads == b[|b| - 1];
  }

  /** The uploads directory is absolute, and the request is appended to it after a backslash. */
  lemma SiblingJoined(cwd: string, baseDir: string, rel: string)
    requires IsAbsolute(cwd) && IsAbsolute(baseDir)
    requires |rel| >= 2 && rel[0] == '.' && rel[1] == '.'
    ensures var u := UploadsDir(baseDir);
      && IsAbsolute(u) && AbsTarget(cwd, u) == u
      && AbsTarget(cwd, Join(u, rel)) == u + "\\" + rel
  {
    var u := UploadsDir(baseDir);
    JoinRelative(baseDir, Uploads);
    assert u[|u| - 1] == 's';
    JoinRelative(u, rel);
    assert IsAbsolute(u + "\\" + rel);
  }

  lemma SiblingIsComponent(sfx: string)
    requires forall k | 0 <= k < |sfx| :: !IsSep(sfx[k])
    ensures IsComponent(Uploads + sfx) && Uploads + sfx != ".."
  {
    var sib := Uploads + sfx;
    assert forall k | 0 <= k < |sib| :: sib[k] == if k < |Uploads| then Uploads[k] else sfx[k - |Uploads|];
  }

  /** Appending "../<sibling>/<leaf>" replaces the last component by the sibling and adds the leaf. */
  lemma SiblingNormal(u: string, rel: string, sib: string, leaf: string)
    requires IsAbsolute(u)
    requires NormComps(u) != [] && NormComps(u)[|NormComps(u)| - 1] != ".."
    requires IsComponent(sib) && sib != ".." && IsComponent(leaf) && leaf != ".."
    requires SplitSeps(BackSlashes(rel)) == ["..", sib, leaf]
    ensures NormPrefix(u + "\\" + rel) == NormPrefix(u)
    ensures NormComps(u + "\\" + rel) == NormComps(u)[..|NormComps(u)| - 1] + [sib, leaf]
  {
    NormExtend(u, '\\', rel);
    SiblingResolve(NormComps(u), sib, leaf);
  }

  /** The text of the normalised sibling path: the uploads directory's, `sfx`, a backslash and the leaf. */
  lemma SiblingNormalText(u: string, rel: string, sfx: string, leaf: string)
    requires IsAbsolute(u)
    requires NormComps(u) != []
    requires NormPrefix(u + "\\" + rel) == NormPrefix(u)
    requires var b := NormComps(u); NormComps(u + "\\" + rel) == b[..|b| - 1] + [b[|b| - 1] + sfx, leaf]
    ensures Normalize(u + "\\" + rel) == Normalize(u) + (sfx + "\\" + leaf)
  {
    assert IsAbsolute(u + "\\" + rel);
    NormalizeAbsolute(u);
    NormalizeAbsolute(u + "\\" + rel);
    SiblingText(NormComps(u), sfx, leaf, "\\");
    Regroup(JoinWith(NormComps(u), "\\"), sfx, "\\", leaf);
    Regroup2(NormPrefix(u), JoinWith(NormComps(u), "\\"), sfx + "\\" + leaf);
  }
}
