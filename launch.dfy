/**
 * The views of launcher/views.py that act on the host: the two Verilator
 * file rewrites, `launch_tool` (compile and run an uploaded design in WSL),
 * `run_tool` (the upload wrapper around it) and `klayout_run` (open an
 * uploaded GDS file in KLayout). The WSL processes are not run: their
 * outputs and the work folder's listing afterwards are parameters, and
 * starting them is a journal entry.
 */
module Launch {
  import opened Wrappers
  import opened Text
  import opened Verilog
  import opened Paths
  import opened Host
  import Dispatch

  // ---------------------------------------------------------------------
  // The file rewrites, step by step
  // ---------------------------------------------------------------------

  /** The file map after `fix_verilog_module_name(path, n)` returned. */
  function FixFiles(files: map<string, string>, path: string, n: string): (r: map<string, string>)
    requires InsertsVerbatim(n)
    ensures r.Keys == files.Keys
    ensures forall p | p in files && p != path :: r[p] == files[p]
    ensures path in files ==> r[path] == match FixedText(files[path], n) case None => files[path] case Some(t) => t
  {
    if path !in files then files
    else
      match FixedText(files[path], n)
      case None => files
      case Some(t) => files[path := t]
  }

  /**
   * `fix_verilog_module_name(file_path, new_name)`: reads the file, renames
   * the first module declaration, adds the pragmas and the final newline,
   * and writes the file back; True when a declaration was found. A file
   * that cannot be opened raises.
   */
  method FixVerilogModuleName(host: Machine, path: string, newName: string) returns (r: Result<bool, string>)
    requires InsertsVerbatim(newName)
    modifies host
    ensures path !in old(host.files) ==> r == Failure(OpenError(old(host.files), host.dirs, path))
    ensures path in old(host.files) ==> r == Success(FixedText(old(host.files)[path], newName).Some?)
    ensures host.files == FixFiles(old(host.files), path, newName)
    ensures host.dirs == old(host.dirs) && host.journal == old(host.journal)
  {
    if path !in host.files {
      return Failure(OpenError(host.files, host.dirs, path));
    }
    var text := host.files[path];
    ghost var original := text;
    var found := FirstMatch(text);
    if found.None? {
      return Success(false);
    }
    var m := found.value;
    text := text[..m.nameStart] + newName + text[m.nameEnd..];
    if !Contains(text, LintMarker) {
      text := LintOff + text + LintOn;
    }
    if !EndsWith(text, "\n") {
      text := text + "\n";
    }
    assert text == FixedText(original, newName).value;
    host.Write(path, text);
    return Success(true);
  }

  /** The file map after `patch_sim_main(path, module_name)`. */
  function PatchFiles(files: map<string, string>, path: string, moduleName: string): map<string, string>
    requires path in files
  {
    files[path := PatchedSimMain(files[path], moduleName)]
  }

  /** `patch_sim_main(path, module_name)`: the placeholder substitution, in place. */
  method PatchSimMain(host: Machine, path: string, moduleName: string) returns (raised: Option<string>)
    modifies host
    ensures path !in old(host.files) ==> raised == Some(OpenError(old(host.files), host.dirs, path)) && host.files == old(host.files)
    ensures path in old(host.files) ==> raised.None? && host.files == PatchFiles(old(host.files), path, moduleName)
    ensures host.dirs == old(host.dirs) && host.journal == old(host.journal)
  {
    if path !in host.files {
      return Some(OpenError(host.files, host.dirs, path));
    }
    var txt := host.files[path];
    txt := ReplaceAll(txt, Placeholder, "V" + moduleName);
    host.Write(path, txt);
    return None;
  }

  /** The file map after `shutil.copy(src, dst)` succeeded. */
  function CopyFiles(files: map<string, string>, dirs: set<string>, src: string, dst: string): map<string, string>
    requires src in files
  {
    files[CopyTarget(dirs, src, dst) := files[src]]
  }

  // ---------------------------------------------------------------------
  // launch_tool: names, paths and commands
  // ---------------------------------------------------------------------

  /** The work folder of one run. */
  function WorkDir(baseDir: string, folder: string): string {
    Join(UploadsDir(baseDir), folder)
  }

  /** The same folder as WSL sees it. */
  function WslWorkDir(baseDir: string, folder: string): string {
    WslUploadsDir(baseDir) + "/" + folder
  }

  /** The harness template shipped with the launcher. */
  function SimSource(baseDir: string): string {
    Join(Join(Join(baseDir, "launcher"), "verilator_assets"), "sim_main.cpp")
  }

  function SimDest(workDir: string): string {
    Join(workDir, "sim_main.cpp")
  }

  /** The Verilator model class, and binary, built for a top module. */
  function Binary(moduleName: string): string {
    "V" + moduleName
  }

  /** The prefix both commands share: change to the run's folder. */
  function Cd(wslWorkDir: string): string {
    "cd " + wslWorkDir + " && "
  }

  /** The compile command without its folder prefix and its final make target. */
  function VerilateAndMake(upload: string, moduleName: string): string {
    "verilator -Wall --Wno-EOFNEWLINE --trace --cc " + upload + " "
    + "--top-module " + moduleName + " "
    + "--exe sim_main.cpp && "
    + "make -C obj_dir -f " + Binary(moduleName) + ".mk"
  }

  /** The shell command that verilates the design and builds the simulator. */
  function CompileCommand(wslWorkDir: string, upload: string, moduleName: string): string {
    Cd(wslWorkDir) + VerilateAndMake(upload, moduleName) + (" " + Binary(moduleName))
  }

  /** The shell command that runs the simulator. */
  function RunCommand(wslWorkDir: string, moduleName: string): string {
    Cd(wslWorkDir) + "./obj_dir" + ("/" + Binary(moduleName))
  }

  /** How `run_bash` starts a command. */
  function Wsl(cmd: string): seq<string> {
    ["wsl", "bash", "-lc", cmd]
  }

  /**
   * Both commands work in the run's folder, and the simulator the second
   * starts is the target the first builds, named after the top module.
   */
  lemma CommandsAgree(wslWorkDir: string, upload: string, moduleName: string)
    ensures Cd(wslWorkDir) <= CompileCommand(wslWorkDir, upload, moduleName)
    ensures Cd(wslWorkDir) <= RunCommand(wslWorkDir, moduleName)
    ensures EndsWith(CompileCommand(wslWorkDir, upload, moduleName), " " + Binary(moduleName))
    ensures EndsWith(RunCommand(wslWorkDir, moduleName), "/" + Binary(moduleName))
  {
    Framed(Cd(wslWorkDir), VerilateAndMake(upload, moduleName), " " + Binary(moduleName));
    Framed(Cd(wslWorkDir), "./obj_dir", "/" + Binary(moduleName));
  }

  lemma Framed(a: string, m: string, z: string)
    ensures a <= a + m + z && EndsWith(a + m + z, z)
  {
    assert (a + m + z)[..|a|] == a;
    assert (a + m + z)[|a + m + z| - |z|..] == z;
  }

  /** The harness, patched for a module, names that module's model class where it had the placeholder. */
  lemma HarnessNamesBinary(txt: string, moduleName: string, i: nat)
    requires Find(txt, Placeholder) == Some(i)
    ensures var p := PatchedSimMain(txt, moduleName); i <= |p| && Binary(moduleName) <= p[i..]
  {
    PatchedSimMainFirst(txt, moduleName, i);
    InfixAt(txt[..i], Binary(moduleName), PatchedSimMain(txt[i + |Placeholder|..], moduleName));
  }

  lemma InfixAt(a: string, b: string, c: string)
    ensures |a| <= |a + b + c| && b <= (a + b + c)[|a|..]
  {
    assert (a + b + c)[|a|..] == b + c;
  }

  // ---------------------------------------------------------------------
  // launch_tool: the waveform link
  // ---------------------------------------------------------------------

  /** The link to a waveform file of the run's folder. */
  function VcdUrl(folder: string, name: string): string {
    "/uploads/" + folder + "/" + name
  }

  /** A waveform file name: `f.endswith(".vcd")`. */
  predicate IsVcd(name: string) {
    EndsWith(name, ".vcd")
  }

  /**
   * The waveform `launch_tool` reports: the link to the LAST name of the
   * listing that is a ".vcd" file, or None when there is none.
   */
  function VcdOf(folder: string, listing: seq<string>): Option<string> {
    if listing == [] then None
    else if IsVcd(listing[|listing| - 1]) then Some(VcdUrl(folder, listing[|listing| - 1]))
    else VcdOf(folder, listing[..|listing| - 1])
  }

  /**
   * `VcdOf` is None exactly when no name is a waveform, and otherwise the
   * link to a waveform name after which no name is one.
   */
  lemma {:induction false} VcdOfLast(folder: string, listing: seq<string>)
    ensures VcdOf(folder, listing).None? <==> forall k | 0 <= k < |listing| :: !IsVcd(listing[k])
    ensures VcdOf(folder, listing).Some? ==> exists j | 0 <= j < |listing| ::
      && IsVcd(listing[j]) && VcdOf(folder, listing).value == VcdUrl(folder, listing[j])
      && forall k | j < k < |listing| :: !IsVcd(listing[k])
  {
    if listing != [] && !IsVcd(listing[|listing| - 1]) {
      var init := listing[..|listing| - 1];
      VcdOfLast(folder, init);
      assert forall k | 0 <= k < |init| :: init[k] == listing[k];
    }
  }

  /** The loop of `launch_tool` over the folder's listing: each ".vcd" name replaces the one before. */
  method LastVcd(folder: string, listing: seq<string>) returns (vcd: Option<string>)
    ensures vcd == VcdOf(folder, listing)
  {
    vcd := None;
    for i := 0 to |listing|
      invariant vcd == VcdOf(folder, listing[..i])
    {
      assert listing[..i + 1][..i] == listing[..i];
      if EndsWith(listing[i], ".vcd") {
        vcd := Some(VcdUrl(folder, listing[i]));
      }
    }
    assert listing[..|listing|] == listing;
  }

  /** A ".vcd" name later in the listing hides every earlier one. */
  lemma {:induction false} VcdLastWins(folder: string, before: seq<string>, name: string, after: seq<string>)
    requires IsVcd(name)
    requires forall k | 0 <= k < |after| :: !IsVcd(after[k])
    ensures VcdOf(folder, before + [name] + after) == Some(VcdUrl(folder, name))
    decreases |after|
  {
    var l := before + [name] + after;
    if after == [] {
      assert l[|l| - 1] == name;
    } else {
      assert l[|l| - 1] == after[|after| - 1];
      assert l[..|l| - 1] == before + [name] + after[..|after| - 1];
      VcdLastWins(folder, before, name, after[..|after| - 1]);
    }
  }

  // ---------------------------------------------------------------------
  // launch_tool
  // ---------------------------------------------------------------------

  /** What a view returns to the browser, or the exception it lets escape. */
  datatype ToolReply =
    | Refused(status: nat, error: string)     // {"ok": False, "error": ...}
    | NoSuchTool                              // the 404 of `get_object_or_404`
    | Raised(exception: string)               // an uncaught exception: a server error
    | Ran(stdout: string, stderr: string, vcd: Option<string>)
    | Described                               // the 200 metadata answer `@api_view` gives OPTIONS

  /** What the two WSL commands print, decoded. */
  datatype Outputs = Outputs(compileOut: string, compileErr: string, simOut: string, simErr: string)

  /** Python's `os.path.exists`: a file or a directory. */
  predicate Exists(files: map<string, string>, dirs: set<string>, p: string) {
    p in files || p in dirs
  }

  /** The files after a stage of `launch_tool`, and the exception that ended it, if one did. */
  datatype Stage = Stage(files: map<string, string>, raised: Option<string>)

  /**
   * Copying the upload `src` into the work folder `wd` and renaming the
   * module of the copy, which `launch_tool` looks for under the upload's
   * name `u`.
   */
  function Prepared(files: map<string, string>, dirs: set<string>, src: string, wd: string, u: string, mod: string): Stage
    requires InsertsVerbatim(mod)
  {
    if src !in files then Stage(files, Some(OpenError(files, dirs, src)))
    else
      var copied := CopyFiles(files, dirs, src, wd);
      if Join(wd, u) !in copied then Stage(copied, Some(OpenError(copied, dirs, Join(wd, u))))
      else Stage(FixFiles(copied, Join(wd, u), mod), None)
  }

  /** Copying the harness template to `dst` and patching it for the module. */
  function Harnessed(files: map<string, string>, dirs: set<string>, src: string, dst: string, mod: string): Stage {
    if src !in files then Stage(files, Some(OpenError(files, dirs, src)))
    else
      var copied := CopyFiles(files, dirs, src, dst);
      if dst !in copied then Stage(copied, Some(OpenError(copied, dirs, dst)))
      else Stage(PatchFiles(copied, dst, mod), None)
  }

  /** The first stage of `launch_tool` on the host. */
  method PrepareDesign(host: Machine, src: string, wd: string, u: string, mod: string) returns (raised: Option<string>)
    requires InsertsVerbatim(mod)
    modifies host
    ensures Stage(host.files, raised) == Prepared(old(host.files), old(host.dirs), src, wd, u, mod)
    ensures host.dirs == old(host.dirs) && host.journal == old(host.journal)
  {
    var copied := host.Copy(src, wd);
    if copied.Failure? {
      return Some(copied.error);
    }
    var fixed := FixVerilogModuleName(host, Join(wd, u), mod);
    if fixed.Failure? {
      return Some(fixed.error);
    }
    return None;
  }

  /** The second stage of `launch_tool` on the host. */
  method PrepareHarness(host: Machine, src: string, dst: string, mod: string) returns (raised: Option<string>)
    modifies host
    ensures Stage(host.files, raised) == Harnessed(old(host.files), old(host.dirs), src, dst, mod)
    ensures host.dirs == old(host.dirs) && host.journal == old(host.journal)
  {
    var copied := host.Copy(src, dst);
    if copied.Failure? {
      return Some(copied.error);
    }
    raised := PatchSimMain(host, dst, mod);
  }

  /**
   * `launch_tool(request)`, for a request carrying `tool` (the record its
   * "tool_id" names, if any) and `upload` (its "upload" entry). `folder` is
   * the fresh uuid4 hex of the run; `wslFound` says whether Windows finds the
   * `wsl` executable; `outs` is what the commands print and `listing` the
   * work folder's listing after them.
   */
  method LaunchTool(host: Machine, verb: string, tool: Option<Dispatch.Tool>, upload: Option<string>,
                    baseDir: string, folder: string, wslFound: bool, outs: Outputs, listing: seq<string>)
    returns (reply: ToolReply)
    requires upload.Some? ==> '\\' !in upload.value
    modifies host
    ensures verb != "POST" ==> reply == Refused(400, Dispatch.PostRequired)
    ensures verb == "POST" && tool.None? ==> reply == NoSuchTool
    ensures verb == "POST" && tool.Some? && upload.None? ==> reply == Raised("TypeError")
    ensures verb == "POST" && tool.Some? && upload.Some?
      && !Exists(old(host.files), old(host.dirs), Join(UploadsDir(baseDir), upload.value))
      ==> reply == Refused(404, "Uploaded file missing")
    ensures verb == "POST" && tool.Some? && upload.Some?
      && Exists(old(host.files), old(host.dirs), Join(UploadsDir(baseDir), upload.value))
      ==> reply.Raised? || reply.Ran?
    ensures reply.Ran? ==> verb == "POST" && tool.Some? && upload.Some?
    ensures upload.None? || !(reply.Raised? || reply.Ran?) ==>
      host.files == old(host.files) && host.dirs == old(host.dirs) && host.journal == old(host.journal)
    ensures upload.Some? && (reply.Raised? || reply.Ran?) ==>
      && verb == "POST" && tool.Some?
      && Exists(old(host.files), old(host.dirs), Join(UploadsDir(baseDir), upload.value))
      && WentOn(old(host.files), old(host.dirs), old(host.journal), host, upload.value, baseDir, folder, wslFound, outs, listing, reply)
  {
    if verb != "POST" {
      return Refused(400, Dispatch.PostRequired);
    }
    if tool.None? {
      return NoSuchTool;
    }
    if upload.None? {
      return Raised("TypeError");
    }
    var u := upload.value;
    var winUploads := Join(baseDir, Uploads);
    var winSource := Join(winUploads, u);
    if !Exists(host.files, host.dirs, winSource) {
      return Refused(404, "Uploaded file missing");
    }
    reply := CompileAndRun(host, u, baseDir, folder, wslFound, outs, listing);
  }

  /**
   * What `launch_tool` did once the upload was found: it made the work
   * folder; then either a stage raised, leaving the files as that stage did;
   * or both stages completed and starting the compile command raised,
   * because `wsl` was not found; or both commands were started and their
   * output and the last waveform were returned.
   */
  ghost predicate WentOn(files: map<string, string>, dirs: set<string>, journal: seq<Event>, host: Machine,
                         u: string, baseDir: string, folder: string, wslFound: bool, outs: Outputs,
                         listing: seq<string>, reply: ToolReply)
    reads host
  {
    var wd := WorkDir(baseDir, folder);
    var mod := ModuleNameFor(u);
    var w := WslWorkDir(baseDir, folder);
    && (reply.Raised? || reply.Ran?)
    && host.dirs == AfterMakeDirs(files, dirs, wd)
    && InsertsVerbatim(mod)
    && (var st := Launched(files, host.dirs, baseDir, folder, u);
        && host.files == st.files
        && (st.raised.Some? ==> reply == Raised(st.raised.value) && host.journal == journal)
        && (st.raised.None? && !wslFound ==> reply == Raised(FileMissing) && host.journal == journal)
        && (st.raised.None? && wslFound ==>
              && reply == ToolReply.Ran(outs.compileOut + outs.simOut, outs.compileErr + outs.simErr, VcdOf(folder, listing))
              && host.journal == journal + [Started(Wsl(CompileCommand(w, u, mod))), Started(Wsl(RunCommand(w, mod)))]))
  }

  /** The part of `launch_tool` after the upload was found. */
  method CompileAndRun(host: Machine, u: string, baseDir: string, folder: string, wslFound: bool,
                       outs: Outputs, listing: seq<string>)
    returns (reply: ToolReply)
    requires '\\' !in u
    modifies host
    ensures WentOn(old(host.files), old(host.dirs), old(host.journal), host, u, baseDir, folder, wslFound, outs, listing, reply)
  {
    var raised := PrepareFiles(host, u, baseDir, folder);
    if raised.Some? {
      return Raised(raised.value);
    }
    raised := StartCommands(host, wslFound, WslWorkDir(baseDir, folder), u, ModuleNameFor(u));
    if raised.Some? {
      return Raised(raised.value);
    }
    var vcd := LastVcd(folder, listing);
    return ToolReply.Ran(outs.compileOut + outs.simOut, outs.compileErr + outs.simErr, vcd);
  }

  /** The work folder and the two file stages of `launch_tool`. */
  method PrepareFiles(host: Machine, u: string, baseDir: string, folder: string) returns (raised: Option<string>)
    requires '\\' !in u
    modifies host
    ensures host.dirs == AfterMakeDirs(old(host.files), old(host.dirs), WorkDir(baseDir, folder))
    ensures InsertsVerbatim(ModuleNameFor(u))
    ensures Launched(old(host.files), host.dirs, baseDir, folder, u) == Stage(host.files, raised)
    ensures host.journal == old(host.journal)
  {
    var winUploads := Join(baseDir, Uploads);
    var winSource := Join(winUploads, u);
    var winWorkDir := Join(winUploads, folder);
    host.MakeDirs(winWorkDir);
    var moduleName := ModuleNameFor(u);
    ModuleNameVerbatim(u);
    raised := PrepareDesign(host, winSource, winWorkDir, u, moduleName);
    if raised.None? {
      raised := PrepareHarness(host, SimSource(baseDir), SimDest(winWorkDir), moduleName);
    }
  }

  /**
   * The two `run_bash` calls: starting the compile command, then the
   * simulation, in the WSL work folder `w`. When Windows does not find
   * `wsl`, the first `Popen` raises and nothing starts.
   */
  method StartCommands(host: Machine, wslFound: bool, w: string, u: string, moduleName: string)
    returns (raised: Option<string>)
    modifies host
    ensures !wslFound ==> raised == Some(FileMissing) && host.journal == old(host.journal)
    ensures wslFound ==>
      && raised.None?
      && host.journal == old(host.journal) + [Started(Wsl(CompileCommand(w, u, moduleName))), Started(Wsl(RunCommand(w, moduleName)))]
    ensures host.files == old(host.files) && host.dirs == old(host.dirs)
  {
    if !wslFound {
      return Some(FileMissing);
    }
    var compileCmd := CompileCommand(w, u, moduleName);
    var runCmd := RunCommand(w, moduleName);
    host.Record(Started(Wsl(compileCmd)));
    host.Record(Started(Wsl(runCmd)));
    return None;
  }

  /**
   * The files after `launch_tool` got past its checks, with `dirs` holding
   * the work folder: the design stage, then, if it raised nothing, the
   * harness stage.
   */
  function Launched(files: map<string, string>, dirs: set<string>, baseDir: string, folder: string, u: string): Stage
    requires InsertsVerbatim(ModuleNameFor(u))
  {
    var wd := WorkDir(baseDir, folder);
    var mod := ModuleNameFor(u);
    var design := Prepared(files, dirs, Join(UploadsDir(baseDir), u), wd, u, mod);
    if design.raised.Some? then design
    else Harnessed(design.files, dirs, SimSource(baseDir), SimDest(wd), mod)
  }

  /** The uploads directory of an absolute base directory is absolute, one component deeper. */
  lemma UploadsDirAbsolute(baseDir: string)
    requires IsAbsolute(baseDir)
    ensures IsAbsolute(UploadsDir(baseDir))
  {
    LiteralNamesPlain();
    JoinPlain(baseDir, Uploads);
  }

  /**
   * For an absolute uploads directory `up` and plain upload and folder
   * names, the design stage renames the copy of the upload: the upload's
   * text is copied to the work folder under the upload's name and renamed
   * there, and no other file changes.
   */
  lemma DesignIsUpload(files: map<string, string>, dirs: set<string>, up: string, folder: string, u: string)
    requires IsAbsolute(up) && IsPlainName(folder) && IsPlainName(u)
    requires Join(up, u) in files && Join(up, folder) in dirs
    ensures InsertsVerbatim(ModuleNameFor(u))
    ensures var wd := Join(up, folder);
      Prepared(files, dirs, Join(up, u), wd, u, ModuleNameFor(u))
        == Stage(FixFiles(files[Join(wd, u) := files[Join(up, u)]], Join(wd, u), ModuleNameFor(u)), None)
  {
    ModuleNameVerbatim(u);
    JoinPlain(up, u);
  }

  /**
   * The whole of `launch_tool`'s file work for such names, when the harness
   * template exists: the upload is copied to the work folder and renamed
   * there, and the patched harness is written beside it; nothing raises.
   */
  lemma LaunchedFiles(files: map<string, string>, dirs: set<string>, baseDir: string, folder: string, u: string)
    requires IsAbsolute(baseDir) && IsPlainName(folder) && IsPlainName(u) && u != "sim_main.cpp"
    requires Join(UploadsDir(baseDir), u) in files && SimSource(baseDir) in files
    requires WorkDir(baseDir, folder) in dirs && SimDest(WorkDir(baseDir, folder)) !in dirs
    ensures InsertsVerbatim(ModuleNameFor(u))
    ensures var src := Join(UploadsDir(baseDir), u);
      var wd := WorkDir(baseDir, folder);
      var mod := ModuleNameFor(u);
      var design := FixFiles(files[Join(wd, u) := files[src]], Join(wd, u), mod);
      && Launched(files, dirs, baseDir, folder, u)
           == Stage(design[SimDest(wd) := PatchedSimMain(files[SimSource(baseDir)], mod)], None)
      && design[Join(wd, u)] == match FixedText(files[src], mod) case None => files[src] case Some(t) => t
  {
    UploadsDirAbsolute(baseDir);
    var up := UploadsDir(baseDir);
    var wd := WorkDir(baseDir, folder);
    JoinPlain(up, folder);
    SimSourceOutsideWorkDir(baseDir, folder, u);
    LiteralNamesPlain();
    SiblingsDiffer(wd, u, "sim_main.cpp");
    ModuleNameVerbatim(u);
    JoinPlain(up, u);
    StagesCompose(files, dirs, Join(up, u), wd, u, SimSource(baseDir), SimDest(wd), ModuleNameFor(u));
  }

  /** The two files `launch_tool` leaves in the work folder, read off `LaunchedFiles`. */
  lemma LaunchedPicks(files: map<string, string>, dirs: set<string>, baseDir: string, folder: string, u: string)
    requires IsAbsolute(baseDir) && IsPlainName(folder) && IsPlainName(u) && u != "sim_main.cpp"
    requires Join(UploadsDir(baseDir), u) in files && SimSource(baseDir) in files
    requires WorkDir(baseDir, folder) in dirs && SimDest(WorkDir(baseDir, folder)) !in dirs
    ensures InsertsVerbatim(ModuleNameFor(u))
    ensures var src := Join(UploadsDir(baseDir), u);
      var wd := WorkDir(baseDir, folder);
      var r := Launched(files, dirs, baseDir, folder, u);
      && r.raised.None?
      && Join(wd, u) in r.files && SimDest(wd) in r.files
      && r.files[Join(wd, u)] == (match FixedText(files[src], ModuleNameFor(u)) case None => files[src] case Some(t) => t)
      && r.files[SimDest(wd)] == PatchedSimMain(files[SimSource(baseDir)], ModuleNameFor(u))
  {
    LaunchedFiles(files, dirs, baseDir, folder, u);
    var wd := WorkDir(baseDir, folder);
    UploadsDirAbsolute(baseDir);
    JoinPlain(UploadsDir(baseDir), folder);
    LiteralNamesPlain();
    SiblingsDiffer(wd, u, "sim_main.cpp");
  }

  /** The two stages of `launch_tool` when every file they read is there and no path collides. */
  lemma StagesCompose(files: map<string, string>, dirs: set<string>, src: string, wd: string, u: string,
                      tpl: string, dst: string, mod: string)
    requires InsertsVerbatim(mod)
    requires src in files && tpl in files && dst !in dirs
    requires CopyTarget(dirs, src, wd) == Join(wd, u) && tpl != Join(wd, u) && dst != Join(wd, u)
    ensures var design := FixFiles(files[Join(wd, u) := files[src]], Join(wd, u), mod);
      var first := Prepared(files, dirs, src, wd, u, mod);
      && first == Stage(design, None)
      && Harnessed(first.files, dirs, tpl, dst, mod) == Stage(design[dst := PatchedSimMain(files[tpl], mod)], None)
      && design[Join(wd, u)] == match FixedText(files[src], mod) case None => files[src] case Some(t) => t
  {
    var design := FixFiles(files[Join(wd, u) := files[src]], Join(wd, u), mod);
    assert design[tpl] == files[tpl];
    HarnessedFresh(design, dirs, tpl, dst, mod);
  }

  /** The harness stage, when the template exists and the destination is not a directory. */
  lemma HarnessedFresh(files: map<string, string>, dirs: set<string>, src: string, dst: string, mod: string)
    requires src in files && dst !in dirs
    ensures Harnessed(files, dirs, src, dst, mod) == Stage(files[dst := PatchedSimMain(files[src], mod)], None)
  {
  }

  /** Two different plain names in the same absolute directory are different paths. */
  lemma SiblingsDiffer(d: string, u: string, v: string)
    requires IsAbsolute(d) && IsPlainName(u) && IsPlainName(v) && u != v
    ensures Join(d, u) != Join(d, v)
  {
    JoinPlain(d, u);
    JoinPlain(d, v);
    var y := if IsSep(d[|d| - 1]) then d else d + "\\";
    assert Join(d, u) == y + u && Join(d, v) == y + v;
    assert Join(d, u)[|y|..] == u;
  }

  /** The harness template does not lie in a work folder: the two paths part at "launcher" and "uploads". */
  lemma SimSourceOutsideWorkDir(baseDir: string, folder: string, u: string)
    requires IsAbsolute(baseDir) && IsPlainName(folder) && IsPlainName(u)
    ensures SimSource(baseDir) != Join(WorkDir(baseDir, folder), u)
  {
    LiteralNamesPlain();
    PartedJoins(baseDir, "launcher", "verilator_assets", "sim_main.cpp", Uploads, folder, u);
  }

  /** Paths three plain names below an absolute directory that part at their first name. */
  lemma PartedJoins(b: string, x1: string, x2: string, x3: string, y1: string, y2: string, y3: string)
    requires IsAbsolute(b)
    requires IsPlainName(x1) && IsPlainName(x2) && IsPlainName(x3)
    requires IsPlainName(y1) && IsPlainName(y2) && IsPlainName(y3)
    requires x1[0] != y1[0]
    ensures Join(Join(Join(b, x1), x2), x3) != Join(Join(Join(b, y1), y2), y3)
  {
    var y := if IsSep(b[|b| - 1]) then b else b + "\\";
    JoinPlain(b, x1);
    JoinPlain(b, y1);
    JoinUnder(Join(b, x1), x2, x3);
    JoinUnder(Join(b, y1), y2, y3);
    PrefixChar(y, x1, Join(Join(Join(b, x1), x2), x3));
    PrefixChar(y, y1, Join(Join(Join(b, y1), y2), y3));
  }

  /** A path three plain names and one two plain names below an absolute directory part at their first name. */
  lemma PartedTwo(b: string, x1: string, x2: string, x3: string, y1: string, y2: string)
    requires IsAbsolute(b)
    requires IsPlainName(x1) && IsPlainName(x2) && IsPlainName(x3)
    requires IsPlainName(y1) && IsPlainName(y2)
    requires x1[0] != y1[0]
    ensures Join(Join(Join(b, x1), x2), x3) != Join(Join(b, y1), y2)
  {
    var y := if IsSep(b[|b| - 1]) then b else b + "\\";
    JoinPlain(b, x1);
    JoinPlain(b, y1);
    JoinUnder(Join(b, x1), x2, x3);
    JoinPlain(Join(b, y1), y2);
    PrefixTrans(y + y1, Join(b, y1), Join(Join(b, y1), y2));
    PrefixChar(y, x1, Join(Join(Join(b, x1), x2), x3));
    PrefixChar(y, y1, Join(Join(b, y1), y2));
  }

  /** Joining two plain names below an absolute directory extends it. */
  lemma JoinUnder(d: string, x: string, z: string)
    requires IsAbsolute(d) && IsPlainName(x) && IsPlainName(z)
    ensures d <= Join(Join(d, x), z)
  {
    JoinPlain(d, x);
    JoinPlain(Join(d, x), z);
    PrefixTrans(d, Join(d, x), Join(Join(d, x), z));
  }

  lemma PrefixTrans(a: string, b: string, c: string)
    requires a <= b && b <= c
    ensures a <= c
  {
    assert c[..|a|] == b[..|a|];
  }

  lemma LiteralNamesPlain()
    ensures IsPlainName(Uploads) && IsPlainName("launcher") && IsPlainName("verilator_assets")
    ensures IsPlainName("sim_main.cpp")
  {
  }

  /** A text that extends `y + w` has `w`'s first character right after `y`. */
  lemma PrefixChar(y: string, w: string, t: string)
    requires w != [] && y + w <= t
    ensures |y| < |t| && t[|y|] == w[0]
  {
    assert t[|y|] == (y + w)[|y|];
  }

  /** "top_" and a backslash-free upload name make a name the rename template inserts verbatim. */
  lemma ModuleNameVerbatim(u: string)
    requires '\\' !in u
    ensures InsertsVerbatim(ModuleNameFor(u))
  {
    SplitExtParts(u);
    var stem := SplitExt(u).0;
    assert forall k | 0 <= k < |stem| :: stem[k] == u[k];
  }

  // ---------------------------------------------------------------------
  // run_tool and klayout_run: saving an upload
  // ---------------------------------------------------------------------

  /** An uploaded file: its client-side name, as Django cleans it, and its content. */
  datatype Upload = Upload(name: string, content: string)

  /** `uuid.uuid4().hex`: 32 lower-case hexadecimal digits. */
  predicate IsUuidHex(h: string) {
    |h| == 32 && forall k | 0 <= k < |h| :: '0' <= h[k] <= '9' || 'a' <= h[k] <= 'f'
  }

  /** Django keeps only the base name of an upload's name. */
  predicate IsCleanName(name: string) {
    forall k | 0 <= k < |name| :: !IsSep(name[k])
  }

  /** An upload is true in Python when its name is not empty. */
  predicate Present(upload: Option<Upload>) {
    upload.Some? && upload.value.name != []
  }

  /**
   * The detail of the 405 reply `@api_view(["POST"])` gives a method other
   * than POST and OPTIONS (it always allows OPTIONS as well).
   */
  function NotAllowed(verb: string): string {
    "Method \"" + verb + "\" not allowed."
  }

  /** The name an upload is saved under. */
  function SavedName(hex: string, name: string): string {
    hex + "_" + name
  }

  /** `JsonResponse(resp.data)`: the body is kept, the status becomes 200. */
  function Rewrapped(r: ToolReply): (w: ToolReply)
    ensures r.Refused? ==> w == Refused(200, r.error)
    ensures !r.Refused? ==> w == r
  {
    if r.Refused? then Refused(200, r.error) else r
  }

  /**
   * `run_tool(request, slug)`: saves the upload as "<hex>_<name>" in the
   * uploads folder and hands its name to `launch_tool`. Without a (named)
   * upload `launch_tool` is handed None and raises.
   */
  method RunTool(host: Machine, verb: string, tool: Option<Dispatch.Tool>, upload: Option<Upload>, hex: string,
                 baseDir: string, folder: string, wslFound: bool, outs: Outputs, listing: seq<string>)
    returns (reply: ToolReply)
    requires IsUuidHex(hex)
    requires upload.Some? ==> IsCleanName(upload.value.name)
    modifies host
    ensures verb == "OPTIONS" ==> reply == Described
    ensures verb != "POST" && verb != "OPTIONS" ==> reply == Refused(405, NotAllowed(verb))
    ensures verb == "POST" && tool.None? ==> reply == NoSuchTool
    ensures verb != "POST" || tool.None? ==> host.files == old(host.files) && host.dirs == old(host.dirs)
    ensures verb == "POST" && tool.Some? && !Present(upload) ==>
      && reply == Raised("TypeError") && host.files == old(host.files)
      && host.dirs == AfterMakeDirs(old(host.files), old(host.dirs), UploadsDir(baseDir))
    ensures verb == "POST" && tool.Some? && Present(upload) ==>
      var f := SavedName(hex, upload.value.name);
      WentOn(old(host.files)[Join(UploadsDir(baseDir), f) := upload.value.content],
             AfterMakeDirs(old(host.files), old(host.dirs), UploadsDir(baseDir)),
             old(host.journal), host, f, baseDir, folder, wslFound, outs, listing, reply)
    ensures !reply.Ran? ==> host.journal == old(host.journal)
  {
    if verb == "OPTIONS" {
      return Described;
    }
    if verb != "POST" {
      return Refused(405, NotAllowed(verb));
    }
    if tool.None? {
      return NoSuchTool;
    }
    var uploadsDir := Join(baseDir, Uploads);
    host.MakeDirs(uploadsDir);
    var filename: Option<string> := None;
    if Present(upload) {
      filename := Some(SavedName(hex, upload.value.name));
      host.Write(Join(uploadsDir, filename.value), upload.value.content);
      SavedNameVerbatim(hex, upload.value.name);
    }
    var resp := LaunchTool(host, "POST", tool, filename, baseDir, folder, wslFound, outs, listing);
    return Rewrapped(resp);
  }

  /** A saved name is a plain file name, free of backslashes, and never the harness's name. */
  lemma SavedNameVerbatim(hex: string, name: string)
    requires IsUuidHex(hex) && IsCleanName(name)
    ensures var f := SavedName(hex, name);
      IsPlainName(f) && '\\' !in f && |f| > 32
  {
    var f := SavedName(hex, name);
    assert f[1] == hex[1];
    forall k | 0 <= k < |f| ensures !IsSep(f[k]) {
      if k < |hex| { assert f[k] == hex[k]; }
      else if k > |hex| { assert f[k] == name[k - |hex| - 1]; }
    }
  }

  /**
   * Through `run_tool`, with an absolute base directory and a fresh run
   * folder, the design compiled is the uploaded content renamed, and the
   * harness beside it is the patched template.
   */
  lemma RunToolCompilesUpload(files: map<string, string>, dirs: set<string>, baseDir: string, folder: string,
                              hex: string, upload: Upload)
    requires IsAbsolute(baseDir) && IsUuidHex(folder) && IsUuidHex(hex) && IsCleanName(upload.name)
    requires SimSource(baseDir) in files && SimDest(WorkDir(baseDir, folder)) !in dirs
    ensures InsertsVerbatim(ModuleNameFor(SavedName(hex, upload.name)))
    ensures var f := SavedName(hex, upload.name);
      var saved := files[Join(UploadsDir(baseDir), f) := upload.content];
      var r := Launched(saved, AfterMakeDirs(saved, dirs, WorkDir(baseDir, folder)), baseDir, folder, f);
      && r.raised.None?
      && Join(WorkDir(baseDir, folder), f) in r.files && SimDest(WorkDir(baseDir, folder)) in r.files
      && r.files[Join(WorkDir(baseDir, folder), f)]
           == (match FixedText(upload.content, ModuleNameFor(f)) case None => upload.content case Some(t) => t)
      && r.files[SimDest(WorkDir(baseDir, folder))] == PatchedSimMain(files[SimSource(baseDir)], ModuleNameFor(f))
  {
    var f := SavedName(hex, upload.name);
    SavedNameVerbatim(hex, upload.name);
    UuidPlain(folder);
    SavedUnderUploads(files, dirs, baseDir, folder, f, upload.content);
  }

  /** `RunToolCompilesUpload` for any plain saved name `f` longer than the harness's name. */
  lemma SavedUnderUploads(files: map<string, string>, dirs: set<string>, baseDir: string, folder: string,
                          f: string, content: string)
    requires IsAbsolute(baseDir) && IsPlainName(folder) && IsPlainName(f) && '\\' !in f && |f| > 32
    requires SimSource(baseDir) in files && SimDest(WorkDir(baseDir, folder)) !in dirs
    ensures InsertsVerbatim(ModuleNameFor(f))
    ensures var saved := files[Join(UploadsDir(baseDir), f) := content];
      var r := Launched(saved, AfterMakeDirs(saved, dirs, WorkDir(baseDir, folder)), baseDir, folder, f);
      && r.raised.None?
      && Join(WorkDir(baseDir, folder), f) in r.files && SimDest(WorkDir(baseDir, folder)) in r.files
      && r.files[Join(WorkDir(baseDir, folder), f)]
           == (match FixedText(content, ModuleNameFor(f)) case None => content case Some(t) => t)
      && r.files[SimDest(WorkDir(baseDir, folder))] == PatchedSimMain(files[SimSource(baseDir)], ModuleNameFor(f))
  {
    var wd := WorkDir(baseDir, folder);
    var saved := files[Join(UploadsDir(baseDir), f) := content];
    SaveSetup(files, baseDir, folder, f, content);
    LaunchedPicks(saved, AfterMakeDirs(saved, dirs, wd), baseDir, folder, f);
  }

  /** The facts about the paths of a run that `LaunchedFiles` needs, for a saved upload `f`. */
  lemma SaveSetup(files: map<string, string>, baseDir: string, folder: string, f: string, content: string)
    requires IsAbsolute(baseDir) && IsPlainName(folder) && IsPlainName(f) && |f| > 32
    requires SimSource(baseDir) in files
    ensures var saved := files[Join(UploadsDir(baseDir), f) := content];
      SimSource(baseDir) in saved && saved[SimSource(baseDir)] == files[SimSource(baseDir)]
    ensures var wd := WorkDir(baseDir, folder);
      IsAbsolute(wd) && |SimDest(wd)| > |wd| && Join(wd, f) != SimDest(wd) && f != "sim_main.cpp"
  {
    var wd := WorkDir(baseDir, folder);
    SimSourceAfterSave(files, baseDir, folder, f, content);
    UploadsDirAbsolute(baseDir);
    JoinPlain(UploadsDir(baseDir), folder);
    LiteralNamesPlain();
    JoinPlain(wd, "sim_main.cpp");
    assert |SimDest(wd)| > |wd|;
    SiblingsDiffer(wd, f, "sim_main.cpp");
  }

  /** Saving an upload leaves the harness template where it was. */
  lemma SimSourceAfterSave(files: map<string, string>, baseDir: string, folder: string, f: string, content: string)
    requires IsAbsolute(baseDir) && IsPlainName(f) && SimSource(baseDir) in files
    ensures var saved := files[Join(UploadsDir(baseDir), f) := content];
      SimSource(baseDir) in saved && saved[SimSource(baseDir)] == files[SimSource(baseDir)]
  {
    LiteralNamesPlain();
    assert SimSource(baseDir) != Join(UploadsDir(baseDir), f) by {
      PartedTwo(baseDir, "launcher", "verilator_assets", "sim_main.cpp", Uploads, f);
    }
  }

  lemma UuidPlain(h: string)
    requires IsUuidHex(h)
    ensures IsPlainName(h)
  {
    assert h[1] != ':';
  }

  /** The folder `klayout_run` saves GDS uploads in. */
  function KlayoutDir(baseDir: string): string {
    Join(Join(baseDir, Uploads), "klayout")
  }

  /** The command `klayout_run` starts: KLayout on the WSL form of the saved file. */
  function KlayoutCommand(fullPath: string): string {
    "klayout " + WslStripDrive(fullPath)
  }

  /**
   * `klayout_run(request)`: saves a GDS upload as "<hex>_<name>" under
   * uploads/klayout and opens it in KLayout through WSL. When Windows does
   * not find `wsl`, `Popen` raises after the file was saved.
   */
  method KlayoutRun(host: Machine, verb: string, upload: Option<Upload>, hex: string, baseDir: string, wslFound: bool)
    returns (reply: Dispatch.Reply)
    modifies host
    ensures verb != "POST" ==> reply == Dispatch.Error(400, Dispatch.PostRequired)
    ensures verb == "POST" && !Present(upload) ==> reply == Dispatch.Error(400, "No GDS file uploaded")
    ensures verb != "POST" || !Present(upload) ==>
      host.files == old(host.files) && host.dirs == old(host.dirs) && host.journal == old(host.journal)
    ensures verb == "POST" && Present(upload) ==>
      var full := Join(KlayoutDir(baseDir), SavedName(hex, upload.value.name));
      && host.dirs == AfterMakeDirs(old(host.files), old(host.dirs), KlayoutDir(baseDir))
      && host.files == old(host.files)[full := upload.value.content]
      && (wslFound ==>
            && reply == Dispatch.Json(200, true, "message", "KLayout opened with GDS file")
            && host.journal == old(host.journal) + [Started(Wsl(KlayoutCommand(full)))])
      && (!wslFound ==> reply == Dispatch.Uncaught(FileMissing) && host.journal == old(host.journal))
  {
    if verb != "POST" {
      return Dispatch.Error(400, Dispatch.PostRequired);
    }
    if !Present(upload) {
      return Dispatch.Error(400, "No GDS file uploaded");
    }
    var uploadDir := KlayoutDir(baseDir);
    host.MakeDirs(uploadDir);
    var filename := SavedName(hex, upload.value.name);
    var fullPath := Join(uploadDir, filename);
    host.Write(fullPath, upload.value.content);
    var wslPath := WslStripDrive(fullPath);
    if !wslFound {
      return Dispatch.Uncaught(FileMissing);
    }
    host.Record(Started(Wsl("klayout " + wslPath)));
    return Dispatch.Json(200, true, "message", "KLayout opened with GDS file");
  }

  /** The KLayout command names a WSL path under "/mnt/c" holding no backslash. */
  lemma KlayoutCommandPath(fullPath: string)
    ensures var cmd := KlayoutCommand(fullPath);
      "klayout " + WslRoot <= cmd && '\\' !in cmd[|"klayout "|..]
  {
    var w := WslStripDrive(fullPath);
    assert KlayoutCommand(fullPath)[|"klayout "|..] == w;
    assert (KlayoutCommand(fullPath))[..|"klayout "| + |WslRoot|] == "klayout " + WslRoot;
  }
}
