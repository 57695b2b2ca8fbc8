/**
 * The Windows host the views act on: its files, keyed by path, its
 * directories, and a journal of what the views start or store outside the
 * file system (WSL processes, saved run records). The methods are the few
 * file operations the views use.
 */
module Host {
  import opened Wrappers
  import Paths

  /** A record state saved to the database, or a process started. */
  datatype Event =
    | Saved(id: string, status: string, logPath: Option<string>)
    | Started(argv: seq<string>)

  /** The error `open` and `shutil.copy` raise for a missing file. */
  const FileMissing := "FileNotFoundError"

  /** The error Windows raises when a directory is opened as a file. */
  const IsDirectory := "PermissionError"

  /** What opening `path` for reading raises, if it is not a file. */
  function OpenError(files: map<string, string>, dirs: set<string>, path: string): (e: string)
    requires path !in files
    ensures path in dirs <==> e == IsDirectory
  {
    if path in dirs then IsDirectory else FileMissing
  }

  /**
   * The head and tail `os.makedirs(name)` looks at: those of `ntpath.split`,
   * or, when the tail is empty, those of the head split again.
   */
  function ParentSplit(name: string): (r: (string, string))
    ensures r.0 <= name
    ensures r.1 != [] ==> |r.0| < |name|
  {
    var ht := Paths.SplitPath(name);
    if ht.1 == [] then
      var again := Paths.SplitPath(ht.0);
      PrefixOfPrefix(again.0, ht.0, name);
      again
    else ht
  }

  lemma PrefixOfPrefix(a: string, b: string, c: string)
    requires a <= b && b <= c
    ensures a <= c
  {
    assert c[..|a|] == c[..|b|][..|a|];
  }

  /**
   * The folders `os.makedirs(name, exist_ok=True)` creates when `existing`
   * holds the paths that exist: first, when the split leaves a head and a
   * tail and the head does not exist, the folders of the head, then `name`.
   */
  function MadeDirs(existing: set<string>, name: string): (r: set<string>)
    ensures name in r
    ensures forall a | a in r :: a <= name
    decreases |name|
  {
    var ht := ParentSplit(name);
    if ht.0 != [] && ht.1 != [] && ht.0 !in existing then
      var above := MadeDirs(existing, ht.0);
      forall a | a in above ensures a <= name {
        PrefixOfPrefix(a, ht.0, name);
      }
      above + {name}
    else {name}
  }

  /** The folders after `os.makedirs(name, exist_ok=True)`. */
  function AfterMakeDirs(files: map<string, string>, dirs: set<string>, name: string): set<string> {
    dirs + MadeDirs(files.Keys + dirs, name)
  }

  /**
   * Under an absolute folder `a` that does not end in a separator, making
   * `a\u` also makes `a` and its own missing parents when `a` does not
   * exist, and nothing more when it does.
   */
  lemma MadeDirsUnder(existing: set<string>, a: string, u: string)
    requires Paths.IsAbsolute(a) && !Paths.IsSep(a[|a| - 1]) && Paths.IsPlainName(u)
    ensures MadeDirs(existing, Paths.Join(a, u))
      == (if a in existing then {} else MadeDirs(existing, a)) + {Paths.Join(a, u)}
    ensures var j := Paths.Join(a, u); Paths.IsAbsolute(j) && !Paths.IsSep(j[|j| - 1])
  {
    Paths.SplitUnder(a, u);
    Paths.JoinPlain(a, u);
    assert Paths.Join(a, u)[|Paths.Join(a, u)| - 1] == u[|u| - 1];
  }

  class Machine {
    var files: map<string, string>
    /** Every folder that exists. */
    var dirs: set<string>
    var journal: seq<Event>

    constructor (files0: map<string, string>, dirs0: set<string>)
      ensures files == files0 && dirs == dirs0 && journal == []
    {
      files := files0;
      dirs := dirs0;
      journal := [];
    }

    /** `os.makedirs(d, exist_ok=True)`. */
    method MakeDirs(d: string)
      modifies this
      ensures dirs == AfterMakeDirs(old(files), old(dirs), d)
      ensures files == old(files) && journal == old(journal)
    {
      dirs := AfterMakeDirs(files, dirs, d);
    }

    /** Opening `path` with mode "w" and writing `text`. */
    method Write(path: string, text: string)
      modifies this
      ensures files == old(files)[path := text]
      ensures dirs == old(dirs) && journal == old(journal)
    {
      files := files[path := text];
    }

    /** A further write to a file opened with mode "w". */
    method Append(path: string, text: string)
      requires path in files
      modifies this
      ensures files == old(files)[path := old(files)[path] + text]
      ensures dirs == old(dirs) && journal == old(journal)
    {
      files := files[path := files[path] + text];
    }

    /**
     * `shutil.copy(src, dst)`: into directory `dst` under `src`'s base name,
     * or onto the file path `dst`. A `src` that is not a file raises.
     */
    method Copy(src: string, dst: string) returns (r: Result<string, string>)
      modifies this
      ensures src !in old(files) ==> files == old(files) && r == Failure(OpenError(old(files), old(dirs), src))
      ensures src in old(files) ==>
        r == Success(CopyTarget(dirs, src, dst)) && files == old(files)[r.value := old(files)[src]]
      ensures dirs == old(dirs) && journal == old(journal)
    {
      if src !in files {
        return Failure(OpenError(files, dirs, src));
      }
      var target := CopyTarget(dirs, src, dst);
      files := files[target := files[src]];
      return Success(target);
    }

    /** Records an event in the journal. */
    method Record(e: Event)
      modifies this
      ensures journal == old(journal) + [e]
      ensures files == old(files) && dirs == old(dirs)
    {
      journal := journal + [e];
    }
  }

  /** Where `shutil.copy(src, dst)` writes. */
  function CopyTarget(dirs: set<string>, src: string, dst: string): (t: string)
    ensures dst !in dirs ==> t == dst
    ensures dst in dirs ==> t == Paths.Join(dst, Paths.Basename(src))
  {
    if dst in dirs then Paths.Join(dst, Paths.Basename(src)) else dst
  }
}
