/**
 * `execute_tool_run` of launcher/services.py: a run of a tool on an upload
 * gets its own folder under uploads/runs, a record that starts as
 * "running", a log of what the process printed, and a final status taken
 * from the process's exit code.
 */
module Services {
  import opened Wrappers
  import opened Text
  import opened Paths
  import opened Host

  /** `str(uuid.uuid4())`: 36 characters, hyphens at 8, 13, 18 and 23, lower-case hexadecimal elsewhere. */
  predicate IsUuidText(s: string) {
    && |s| == 36
    && forall k | 0 <= k < 36 ::
         if k in {8, 13, 18, 23} then s[k] == '-' else '0' <= s[k] <= '9' || 'a' <= s[k] <= 'f'
  }

  const Running := "running"
  const Succeeded := "success"
  const Failed := "failed"

  /** The status a finished run gets from the exit code. */
  function FinalStatus(returncode: int): (s: string)
    ensures s == Succeeded <==> returncode == 0
    ensures s == Failed <==> returncode != 0
  {
    if returncode == 0 then Succeeded else Failed
  }

  /** The folder of a run: base/uploads/runs/<run id>. */
  function RunDir(baseDir: string, runId: string): string {
    Join(Join(Join(baseDir, Uploads), "runs"), runId)
  }

  /** Where the run's log is written. */
  function LogFile(baseDir: string, runId: string): string {
    Join(RunDir(baseDir, runId), "run.log")
  }

  /** The URL of the run's log. */
  function LogUrl(runId: string): string {
    "/uploads/runs/" + runId + "/run.log"
  }

  const OutHeader := "STDOUT:\n"
  const ErrHeader := "\n\nSTDERR:\n"

  /**
   * The log: the standard output under its header, then the standard error
   * under its own. With both streams piped in text mode `communicate()`
   * returns two strings, so the source's `or ""` never changes them.
   */
  function LogText(stdout: string, stderr: string): string {
    OutHeader + stdout + ErrHeader + stderr
  }

  lemma LogTextParts(stdout: string, stderr: string)
    ensures LogText(stdout, stderr) == (OutHeader + stdout) + (ErrHeader + stderr)
  {
  }

  /** Reading a log back: the two streams, if the text has the log's shape. */
  function ParseLog(text: string): (r: Option<(string, string)>)
    ensures r.Some? ==> text == OutHeader + r.value.0 + ErrHeader + r.value.1
  {
    if !(OutHeader <= text) then None
    else
      var rest := text[|OutHeader|..];
      match Find(rest, ErrHeader)
      case None => None
      case Some(i) =>
        SplitAround(rest, ErrHeader, i);
        assert text == OutHeader + rest;
        Some((rest[..i], rest[i + |ErrHeader|..]))
  }

  /**
   * The log reads back as the two streams, provided the standard output
   * holds no copy of the standard-error header, not even one running into
   * the header itself.
   */
  lemma LogRoundTrip(stdout: string, stderr: string)
    requires !Contains(stdout + ErrHeader[..|ErrHeader| - 1], ErrHeader)
    ensures ParseLog(LogText(stdout, stderr)) == Some((stdout, stderr))
  {
    LogTextRest(stdout, stderr);
    FindAt(stdout, ErrHeader, stderr);
    Around(stdout, ErrHeader, stderr);
  }

  /** The log starts with the output header, and after it come the output, the error header and the error. */
  lemma LogTextRest(stdout: string, stderr: string)
    ensures var text := LogText(stdout, stderr);
      OutHeader <= text && text[|OutHeader|..] == stdout + ErrHeader + stderr
  {
    var text := LogText(stdout, stderr);
    assert text == OutHeader + (stdout + ErrHeader + stderr);
  }

  /** What lies before and after the middle of `x + m + y`. */
  lemma Around(x: string, m: string, y: string)
    ensures (x + m + y)[..|x|] == x && (x + m + y)[|x| + |m|..] == y
  {
  }

  /** What `execute_tool_run` returns. */
  datatype Outcome = Outcome(ok: bool, stdout: string, stderr: string, logPath: string, runId: string)

  /** A ToolRun record: created as "running", then given its final status and log path, each time saved. */
  class ToolRun {
    const id: string
    const toolId: nat
    const userId: nat
    const runDir: string
    var status: string
    var logPath: Option<string>

    /** `ToolRun.objects.create(...)`: the new record is saved at once. */
    constructor (host: Machine, id0: string, toolId0: nat, userId0: nat, runDir0: string)
      modifies host
      ensures id == id0 && toolId == toolId0 && userId == userId0 && runDir == runDir0
      ensures status == Running && logPath == None
      ensures host.journal == old(host.journal) + [Saved(id0, Running, None)]
      ensures host.files == old(host.files) && host.dirs == old(host.dirs)
    {
      id, toolId, userId, runDir := id0, toolId0, userId0, runDir0;
      status, logPath := Running, None;
      new;
      host.Record(Saved(id0, Running, None));
    }

    /** `run.save()`. */
    method Save(host: Machine)
      modifies host
      ensures host.journal == old(host.journal) + [Saved(id, status, logPath)]
      ensures host.files == old(host.files) && host.dirs == old(host.dirs)
    {
      host.Record(Saved(id, status, logPath));
    }
  }

  /** The command the run starts. */
  const Command := ["python", "--version"]

  /**
   * `execute_tool_run(tool=..., user=..., upload_filename=...)`. `runId` is
   * the fresh uuid4 as text; `pythonFound` says whether Windows finds the
   * `python` executable; `stdout`, `stderr` and `returncode` are what the
   * process yields. Copying an upload that is not a file raises before the
   * record exists; a `Popen` that raises leaves the record running and
   * writes no log.
   */
  method ExecuteToolRun(host: Machine, toolId: nat, userId: nat, uploadFilename: string, runId: string, baseDir: string,
                        pythonFound: bool, stdout: string, stderr: string, returncode: int)
    returns (result: Result<Outcome, string>, run: ToolRun?)
    modifies host
    ensures host.dirs == AfterMakeDirs(old(host.files), old(host.dirs), RunDir(baseDir, runId))
    ensures var source := Join(Join(baseDir, Uploads), uploadFilename);
      if source !in old(host.files) then
        && result == Failure(OpenError(old(host.files), host.dirs, source)) && run == null
        && host.files == old(host.files) && host.journal == old(host.journal)
      else
        var copied := old(host.files)[Join(RunDir(baseDir, runId), Basename(source)) := old(host.files)[source]];
        && run != null && fresh(run)
        && run.id == runId && run.toolId == toolId && run.userId == userId && run.runDir == RunDir(baseDir, runId)
        && (!pythonFound ==>
              && result == Failure(FileMissing)
              && run.status == Running && run.logPath == None
              && host.files == copied
              && host.journal == old(host.journal) + [Saved(runId, Running, None)])
        && (pythonFound ==>
              && result == Success(Outcome(true, stdout, stderr, LogUrl(runId), runId))
              && run.status == FinalStatus(returncode) && run.logPath == Some(LogUrl(runId))
              && host.files == copied[LogFile(baseDir, runId) := LogText(stdout, stderr)]
              && host.journal == old(host.journal)
                   + [Saved(runId, Running, None), Started(Command), Saved(runId, FinalStatus(returncode), Some(LogUrl(runId)))])
  {
    var runDir := RunDir(baseDir, runId);
    host.MakeDirs(runDir);
    var source := Join(Join(baseDir, Uploads), uploadFilename);
    var copied := host.Copy(source, runDir);
    if copied.Failure? {
      return Failure(copied.error), null;
    }
    run := RecordRun(host, runId, toolId, userId, runDir, LogFile(baseDir, runId), pythonFound, stdout, stderr, returncode);
    if !pythonFound {
      return Failure(FileMissing), run;
    }
    result := Success(Outcome(true, stdout, stderr, run.logPath.value, runId));
  }

  /**
   * The part of `execute_tool_run` after the copy: the record is created
   * as running and the process started; if it starts, its log is written in
   * two steps and the record given its final status and log path and saved
   * again.
   */
  method RecordRun(host: Machine, runId: string, toolId: nat, userId: nat, runDir: string, logFile: string,
                   pythonFound: bool, stdout: string, stderr: string, returncode: int)
    returns (run: ToolRun)
    modifies host
    ensures fresh(run)
    ensures run.id == runId && run.toolId == toolId && run.userId == userId && run.runDir == runDir
    ensures host.dirs == old(host.dirs)
    ensures !pythonFound ==>
      && run.status == Running && run.logPath == None
      && host.files == old(host.files) && host.journal == old(host.journal) + [Saved(runId, Running, None)]
    ensures pythonFound ==>
      && run.status == FinalStatus(returncode) && run.logPath == Some(LogUrl(runId))
      && host.files == old(host.files)[logFile := LogText(stdout, stderr)]
      && host.journal == old(host.journal)
           + [Saved(runId, Running, None), Started(Command), Saved(runId, FinalStatus(returncode), Some(LogUrl(runId)))]
  {
    run := new ToolRun(host, runId, toolId, userId, runDir);
    if !pythonFound {
      return;
    }
    host.Record(Started(Command));
    host.Write(logFile, OutHeader + stdout);
    host.Append(logFile, ErrHeader + stderr);
    LogTextParts(stdout, stderr);
    run.status := FinalStatus(returncode);
    run.logPath := Some(LogUrl(runId));
    run.Save(host);
  }

  /** The run folder is named after the run: its last component is the run id. */
  lemma RunDirNamed(baseDir: string, runId: string)
    requires IsAbsolute(baseDir) && IsUuidText(runId)
    ensures IsAbsolute(RunDir(baseDir, runId)) && Basename(RunDir(baseDir, runId)) == runId
  {
    assert IsPlainName(Uploads) && IsPlainName("runs");
    UuidTextPlain(runId);
    JoinPlain(baseDir, Uploads);
    JoinPlain(Join(baseDir, Uploads), "runs");
    JoinPlain(Join(Join(baseDir, Uploads), "runs"), runId);
  }

  /**
   * Under an existing base folder, making the run folder also makes
   * uploads\runs and uploads, each only when it is missing, and no other
   * folder.
   */
  lemma RunDirMade(existing: set<string>, baseDir: string, runId: string)
    requires IsAbsolute(baseDir) && !IsSep(baseDir[|baseDir| - 1]) && baseDir in existing && IsUuidText(runId)
    ensures var up := Join(baseDir, Uploads);
      var runs := Join(up, "runs");
      MadeDirs(existing, RunDir(baseDir, runId))
        == (if runs in existing then {} else (if up in existing then {} else {up}) + {runs}) + {RunDir(baseDir, runId)}
  {
    var up := Join(baseDir, Uploads);
    var runs := Join(up, "runs");
    assert IsPlainName(Uploads) && IsPlainName("runs");
    UuidTextPlain(runId);
    MadeDirsUnder(existing, baseDir, Uploads);
    assert MadeDirs(existing, up) == {up};
    MadeDirsUnder(existing, up, "runs");
    assert MadeDirs(existing, runs) == (if up in existing then {} else {up}) + {runs};
    MadeDirsUnder(existing, runs, runId);
  }

  lemma UuidTextPlain(runId: string)
    requires IsUuidText(runId)
    ensures IsPlainName(runId)
  {
    assert runId[1] != ':';
  }

  /** The log's URL names the same run as the returned id. */
  lemma LogUrlNamesRun(runId: string)
    ensures var u := LogUrl(runId);
      u[..|"/uploads/runs/"|] == "/uploads/runs/" && u[|"/uploads/runs/"|..|"/uploads/runs/"| + |runId|] == runId
  {
  }

  /**
   * The log's URL locates the file the log was written to: below
   * "/uploads/", with its slashes made backslashes, it is the log file's
   * path inside the uploads folder.
   */
  lemma LogUrlLocatesLog(baseDir: string, runId: string)
    requires IsAbsolute(baseDir) && !IsSep(baseDir[|baseDir| - 1]) && IsUuidText(runId)
    ensures LogFile(baseDir, runId) == UploadsDir(baseDir) + "\\" + BackSlashes(LogUrl(runId)[|"/uploads/"|..])
  {
    UuidTextPlain(runId);
    LogUrlTail(runId);
    LogFileBelow(baseDir, runId);
  }

  /** Below "/uploads/" the log's URL is "runs", the id and "run.log", separated by slashes. */
  lemma LogUrlTail(runId: string)
    ensures LogUrl(runId)[|"/uploads/"|..] == "runs" + "/" + runId + "/" + "run.log"
  {
    assert LogUrl(runId) == "/uploads/" + ("runs" + "/" + runId + "/" + "run.log");
  }

  /** The log file lies below the uploads folder at the URL's tail, with backslashes for slashes. */
  lemma LogFileBelow(baseDir: string, runId: string)
    requires IsAbsolute(baseDir) && !IsSep(baseDir[|baseDir| - 1]) && IsPlainName(runId)
    ensures LogFile(baseDir, runId) == UploadsDir(baseDir) + "\\" + BackSlashes("runs" + "/" + runId + "/" + "run.log")
  {
    var up := UploadsDir(baseDir);
    RunNamesPlain();
    JoinBelow(baseDir, Uploads);
    assert LogFile(baseDir, runId) == Join(Join(Join(up, "runs"), runId), "run.log");
    JoinedSlashed(up, "runs", runId, "run.log");
  }

  lemma RunNamesPlain()
    ensures IsPlainName(Uploads) && IsPlainName("runs") && IsPlainName("run.log")
  {
  }

  /** Three plain names joined in turn under a folder are the folder and their slashed path, with backslashes. */
  lemma JoinedSlashed(a: string, x: string, y: string, z: string)
    requires IsAbsolute(a) && !IsSep(a[|a| - 1]) && IsPlainName(x) && IsPlainName(y) && IsPlainName(z)
    ensures Join(Join(Join(a, x), y), z) == a + "\\" + BackSlashes(x + "/" + y + "/" + z)
  {
    JoinThreeBelow(a, x, y, z);
    SlashedThree(x, y, z);
  }

  /** A plain name joined under an absolute folder that does not end in a separator. */
  lemma JoinBelow(a: string, u: string)
    requires IsAbsolute(a) && !IsSep(a[|a| - 1]) && IsPlainName(u)
    ensures var j := Join(a, u);
      j == a + "\\" + u && IsAbsolute(j) && !IsSep(j[|j| - 1])
  {
    JoinPlain(a, u);
    assert Join(a, u)[|Join(a, u)| - 1] == u[|u| - 1];
  }

  /** Three plain names joined in turn under such a folder, separated by backslashes. */
  lemma JoinThreeBelow(a: string, x: string, y: string, z: string)
    requires IsAbsolute(a) && !IsSep(a[|a| - 1]) && IsPlainName(x) && IsPlainName(y) && IsPlainName(z)
    ensures Join(Join(Join(a, x), y), z) == a + "\\" + (x + "\\" + y + "\\" + z)
  {
    var ax := Join(a, x);
    JoinBelow(a, x);
    var axy := Join(ax, y);
    JoinBelow(ax, y);
    JoinBelow(axy, z);
    Regroup3(a, "\\", x, y, z);
  }

  lemma Regroup3(a: string, s: string, x: string, y: string, z: string)
    ensures ((a + s + x) + s + y) + s + z == a + s + (x + s + y + s + z)
  {
  }

  /** Three slash-separated plain names, with the slashes made backslashes. */
  lemma SlashedThree(x: string, y: string, z: string)
    requires IsPlainName(x) && IsPlainName(y) && IsPlainName(z)
    ensures BackSlashes(x + "/" + y + "/" + z) == x + "\\" + y + "\\" + z
  {
    SlashJoin(x + "/" + y, z);
    SlashJoin(x, y);
    BackSlashesKeeps(x);
    BackSlashesKeeps(y);
    BackSlashesKeeps(z);
  }

  /** A slash between two texts becomes a backslash. */
  lemma SlashJoin(a: string, b: string)
    ensures BackSlashes(a + "/" + b) == BackSlashes(a) + "\\" + BackSlashes(b)
  {
    BackSlashesAppend(a + "/", b);
    BackSlashesAppend(a, "/");
  }
}
