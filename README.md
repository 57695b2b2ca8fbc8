# EDA tool launcher: a verified model of its core

The launcher is a Django application that starts EDA tools (Verilator, KLayout) for a user: on the desktop of a Windows host through WSL, or as a web workspace. This project models the parts of it that compute something, in Dafny, and proves what they do:

- **Verilog rewriting** (module `Verilog`): `fix_verilog_module_name` renames the first `module <identifier>` declaration of a design. It then wraps the text in `DECLFILENAME` lint pragmas unless they are already there, and ends it with a newline. `patch_sim_main` substitutes the model class name into the C++ harness. The regular expression `(\bmodule\s+)([A-Za-z_][A-Za-z0-9_]*)` is modelled position by position (`MatchHere`, `MatchAt`, `FirstMatch`).
- **Windows paths** (module `Paths`): `os.path.join`, `splitext`, `abspath` and `normpath` of `ntpath`; the two Windows→WSL translations; and `serve_upload`'s containment check.
- **Request dispatch** (module `Dispatch`): `tool_page`, the effective `launch_web` and `launch_desktop`.
- **The Verilator pipeline** (module `Launch`): `launch_tool`, `run_tool` and `klayout_run` as methods on a host (module `Host`, a class holding the files, the directories and a journal of started processes and saved records). They cover the upload check, the work folder, the copy and rename of the design, the patched harness, the compile and run commands, and the last waveform of the listing.
- **The KLayout script's arguments** (module `KlayoutParams`): the loop that reads every `key=value` argument into a dictionary, and the check that `gds`, `png` and `meta` are given.
- **A tool run** (module `Services`): `execute_tool_run` with its `ToolRun` record (a class whose status and log path are updated and saved), the log text, its path and the final status.

Module `Text` holds the Python string operations the others need: `str.isspace`, `strip`, `in` and `replace`. It also holds `Find`, a search for the first occurrence of a pattern, which the proofs use to read texts back and to locate placeholders. Module `Wrappers` holds `Option` and `Result`.

External processes are not run. The outputs and exit codes they would yield are parameters, and starting one is an event `Started(argv)` in the host's journal. The host is Windows, so paths follow `ntpath`: both `/` and `\` separate, `\` is written, and a path has a drive.

## Model

| member | source | states |
|---|---|---|
| Text.StripSound | edalauncher_project/scripts/klayout_extract.py:12 | `strip()` leaves the core between a run of leading and a run of trailing whitespace (`str.isspace`); the core neither starts nor ends with whitespace |
| Text.StrippedIsStrip | edalauncher_project/scripts/klayout_extract.py:12 | any such split of a text gives the same core as `strip()` (the stripped text is unique) |
| Text.ReplaceAllAbsent | launcher/views.py:142 | `replace` leaves a text without the pattern unchanged |
| Text.ReplaceAllAtFirst | launcher/views.py:142 | `replace` substitutes the first occurrence and goes on scanning after it, so occurrences do not overlap |
| Text.ForwardSlashes | launcher/views.py:164 | `.replace("\\", "/")` keeps the length, turns every backslash into `/` and leaves no backslash |
| Verilog.MatchHereSound | launcher/views.py:114 | a match is a word boundary, `module`, one or more whitespace characters and a complete identifier that no word character follows |
| Verilog.DeclarationFacts | launcher/views.py:114 | the same facts about a match, stated as positions of the whole text |
| Verilog.MatchHereComplete | launcher/views.py:114 | conversely, at a word boundary every `module`, run of whitespace and complete identifier not followed by a word character is matched, with the whitespace and the identifier taken whole |
| Verilog.MatchAtComplete | launcher/views.py:114 | the same converse at a position of the whole text: a declaration shape after a non-word character or at the start is the match there |
| Verilog.FirstMatch | launcher/views.py:115 | `search` finds the leftmost match, or None when the pattern matches at no position |
| Verilog.FixedText | launcher/views.py:114-130 | None exactly when the pattern matches nowhere (the function returns False and writes nothing); otherwise the leftmost match's identifier is replaced by the new name with everything else kept, the text is finished, and it ends with a newline |
| Verilog.FixedTextOfMatch | launcher/views.py:115-120 | for the leftmost match `m`, the result is the text with only `m`'s identifier replaced, then finished |
| Verilog.FinishCases | launcher/views.py:122-130 | the pragmas are added exactly when `verilator lint_off DECLFILENAME` is absent; otherwise the text is kept, with a newline added exactly when it does not end with one |
| Verilog.FinishMarked | launcher/views.py:122-130 | the finished text ends with a newline and holds the lint_off marker |
| Verilog.FinishWraps | launcher/views.py:122-130 | finishing only adds the lint_off pragma before the text and the lint_on pragma, a newline or nothing after it |
| Verilog.FinishIdempotent | launcher/views.py:122-130 | finishing a finished text changes nothing |
| Verilog.RescanAfterRename | launcher/views.py:114-127 | in the rewritten text, the leftmost match is the renamed declaration, moved by the added pragma |
| Verilog.FixedTextIdempotent | launcher/views.py:110-135 | with an identifier as the new name, a second run writes back exactly what the first wrote |
| Verilog.RenameNotIdempotent | launcher/views.py:110-135 | with a name that starts like an identifier but holds another character (such as `top_a-b`), a second run renames again and the text changes |
| Verilog.SecondRunGrows | launcher/views.py:114-120 | in that case, each run lengthens the text |
| Verilog.PatchedSimMainUnchanged | launcher/views.py:142 | a harness without `VMODULE_NAME` is left as it is |
| Verilog.PatchedSimMainFirst | launcher/views.py:142 | the first `VMODULE_NAME` becomes `V<module>`, and the rest is patched in the same way |
| Launch.ModuleNameVerbatim | launcher/views.py:177 | the module name of a backslash-free upload is inserted verbatim by the template `\1<name>` |
| Launch.FixFiles | launcher/views.py:110-135 | the rename leaves every other file, and the set of files, unchanged; the file itself holds the fixed text, or is unchanged when nothing matched |
| Launch.FixVerilogModuleName | launcher/views.py:110-135 | a missing file raises the open error; otherwise the result says whether a declaration was found, and the files become `FixFiles` of the old ones |
| Launch.PatchSimMain | launcher/views.py:138-145 | a missing harness raises; otherwise the harness is replaced by its patched text, and nothing else changes |
| Launch.CommandsAgree | launcher/views.py:185-193 | both commands change to the WSL work folder; the compile command ends with the make target `V<module>`, and the run command ends by starting `obj_dir/V<module>` |
| Launch.HarnessNamesBinary | launcher/views.py:183-190 | the patched harness names, where the placeholder was, the class `V<module>` that the make target builds |
| Launch.VcdOfLast | launcher/views.py:207-210 | the waveform is None exactly when no listed name ends in `.vcd`, and otherwise links to a `.vcd` name after which none is listed |
| Launch.VcdLastWins | launcher/views.py:207-210 | a `.vcd` name followed only by other names is the one linked |
| Launch.LastVcd | launcher/views.py:207-210 | the loop over the listing computes that link |
| Launch.PrepareDesign | launcher/views.py:175-178 | copies the upload into the work folder and renames its module; its effect and the exception it raises, if any, are the design stage `Prepared` |
| Launch.PrepareHarness | launcher/views.py:180-183 | copies the harness template beside the design and patches it; the harness stage `Harnessed` |
| Launch.PrepareFiles | launcher/views.py:170-183 | makes the work folder and its missing parents, then runs both stages; the files are `Launched` of the old ones |
| Launch.StartCommands | launcher/views.py:185-205 | when `wsl` is found, starts the compile command, then the run command, through `wsl bash -lc`; when it is not, the first `Popen` raises FileNotFoundError and nothing starts; the files are left as they are |
| Launch.CompileAndRun | launcher/views.py:170-217 | what happens once the upload was found: the work folder is made and the file stages run; either one raises and no command starts; or `wsl` is not found and the first `Popen` raises, after the files were prepared; or both commands start and the reply carries the joined outputs and the last waveform |
| Launch.LaunchTool | launcher/views.py:153-217 | a method other than POST gets 400 "POST required"; a missing tool gets 404; no upload name raises; a name not on disk gets 404 "Uploaded file missing"; otherwise the run goes on. Nothing changes unless it went on |
| Launch.LaunchedFiles | launcher/views.py:170-183 | with plain names and the template present, both stages complete: the copy holds the fixed design, and the harness the patched template |
| Launch.LaunchedPicks | launcher/views.py:170-183 | the same, read file by file: nothing raises, the copy of the upload holds the fixed text, and `sim_main.cpp` holds the patched template |
| Launch.SimSourceOutsideWorkDir | launcher/views.py:171-180 | the harness template is never the copied design |
| Launch.Rewrapped | launcher/views.py:244 | `JsonResponse(resp.data)` keeps the body of a refusal and makes its status 200 |
| Launch.RunTool | launcher/views.py:224-244 | OPTIONS gets the 200 metadata answer before the tool is looked up, and changes nothing; any other method but POST gets 405; a missing tool gets 404; the uploads folder is made with its missing parents; without a file `launch_tool` raises; with one the file is saved as `<hex>_<name>` and `launch_tool` goes on with that name; commands start only when it ran |
| Launch.SavedNameVerbatim | launcher/views.py:234 | the saved name is a plain name without backslash, longer than the hex prefix |
| Launch.RunToolCompilesUpload | launcher/views.py:224-244 | with the template present, a saved upload is copied and renamed without error: its copy holds the upload's fixed text, and the harness is patched for `top_<hex>_<stem>` |
| Launch.SavedUnderUploads | launcher/views.py:229-237 | the same for any long plain saved name |
| Launch.KlayoutRun | launcher/views.py:329-359 | a method other than POST gets 400; no file gets 400 "No GDS file uploaded", and nothing changes; otherwise the folder uploads/klayout is made with its missing parents and the file saved as `<hex>_<name>`; then KLayout is started on its WSL path and the reply says so, or, when `wsl` is not found, `Popen` raises and the file stays saved |
| Launch.KlayoutCommandPath | launcher/views.py:348-351 | the command is `klayout /mnt/c…`, and the path it passes holds no backslash |
| Paths.JoinRelative | launcher/views.py:171 | `os.path.join` appends a relative name after one separator |
| Paths.JoinRooted | launcher/views.py:94 | a rooted second part keeps only the drive of the first |
| Paths.JoinPlain | launcher/views.py:171 | joining a plain name to an absolute folder gives an absolute path under it, whose base name is the name |
| Paths.Basename | launcher/services.py:17 | the base name holds no separator and ends the path |
| Paths.SplitExtParts | launcher/views.py:177 | `splitext` cuts a path in two parts that give it back; the extension is a dot and no separator and no further dot |
| Paths.SplitExtAt | launcher/views.py:177 | when the last dot lies in the last component after a character of it that is not a dot, `splitext` cuts there |
| Paths.SplitExtWhole | launcher/views.py:177 | when there is no such dot, `splitext` keeps the whole path and the extension is empty |
| Paths.ModuleNameParts | launcher/views.py:177 | the module name is `top_` followed by the upload name without its extension |
| Paths.ModuleNameOfDesign | launcher/views.py:177 | `alu.tb.v` gives the module `top_alu.tb`: only the last extension is dropped |
| Paths.ModuleNameOfDotName | launcher/views.py:177 | `.v` gives `top_.v`: a leading dot starts no extension |
| Paths.WslDropDrive | launcher/views.py:164 | the translation starts with `/mnt/c`, holds no backslash, drops exactly two characters, and never returns its input |
| Paths.WslStripDrive | launcher/views.py:348 | the translation starts with `/mnt/c` and holds no backslash |
| Paths.WslAgree | launcher/views.py:164 | on a drive-C: path without another `C:`, both translations agree |
| Paths.WslExample | launcher/views.py:348 | `C:\a\b` becomes `/mnt/c/a/b` under both translations |
| Paths.WslOtherDrive | launcher/views.py:164 | the drive letter is ignored: a D: path is translated as if it were on C: |
| Paths.WslStripDriveMoves | launcher/views.py:348 | a POSIX path is moved under `/mnt/c`, not kept |
| Paths.ResolveComponents | launcher/views.py:95 | normalisation keeps only proper components, and no `..` under a root |
| Paths.ResolveAppend | launcher/views.py:95 | normalising components in two parts is normalising them in one |
| Paths.NormalizeAbsolute | launcher/views.py:95 | an absolute path normalises to its drive, a backslash, and proper components without `..` |
| Paths.AbsTarget | launcher/views.py:95 | `abspath` resolves any path against the working folder to an absolute one |
| Paths.UploadsDirLast | launcher/views.py:94 | the uploads folder of an absolute base ends with the component `uploads` |
| Paths.ServeUpload | launcher/views.py:93-103 | 403 exactly when the absolute requested path does not start, as a string, with the absolute uploads folder; 404 exactly when it does but names neither a file nor a folder; that file when it names one; and the server error of `open` when it names a folder |
| Paths.SiblingRequest | launcher/views.py:94-95 | a request for `../uploads<sfx>/<leaf>` resolves to the uploads folder's own text followed by `<sfx>\<leaf>` |
| Paths.SiblingEscapes | launcher/views.py:93-98 | that request passes the check though it lies outside the folder, and the component-wise check refuses it |
| Paths.ServeUploadFixed | launcher/views.py:97 | the corrected check: 403 exactly when the requested path is neither the folder nor under it; otherwise the same answer as `serve_upload` |
| Paths.WithinComponents | launcher/views.py:97 | lying under a folder, as text with separators, is having its components first |
| Paths.ServeUploadFixedContained | launcher/views.py:97 | the corrected check admits a path exactly when it has the folder's drive and the folder's components first |
| Paths.SplitUnder | launcher/views.py:173 | `ntpath.split` of a plain name joined under an absolute folder gives back the folder and the name |
| Paths.SiblingFixedRefuses | launcher/views.py:97 | the corrected check refuses the sibling request |
| Dispatch.ToolPage | launcher/views.py:54-86 | a missing tool gets 404; in web mode Verilator and KLayout get their workspaces, marked as web mode and told where the user came from; everything else gets the default page; the environments are listed except on the KLayout workspace |
| Dispatch.WebModeUrls | launcher/views.py:420-430 | the two URLs are `/tool/klayout/?mode=web` and `/tool/verilator/?mode=web` |
| Dispatch.LaunchWeb | launcher/views.py:416-432 | ok exactly for POST and the slugs `klayout` and `verilator`, with their URL; otherwise 400 with "POST required" or "No web mode" |
| Dispatch.LaunchWebOpensWorkspace | launcher/views.py:62-78 | every URL `launch_web` hands out opens a web workspace on the tool page |
| Dispatch.DesktopExe | launcher/views.py:475 | the Linux path when it is set, else the Windows path; empty exactly when neither is set |
| Dispatch.DesktopCommand | launcher/views.py:486-491 | ` -e` is appended for `klayout` only |
| Dispatch.LaunchDesktop | launcher/views.py:464-510 | a command is handed to `Popen` exactly for POST, a known tool and an executable, and it is that tool's command; 400 without POST or without an executable, 404 without the tool, 500 with the error when starting fails, otherwise "<name> launched successfully" |
| Dispatch.LaunchDesktopOk | launcher/views.py:493-510 | the reply is ok exactly when a command was handed to `Popen` and `Popen` raised nothing |
| Host.OpenError | launcher/views.py:111 | opening a folder as a file raises a permission error, anything else missing raises file-not-found |
| Host.CopyTarget | launcher/views.py:175 | `shutil.copy` into a folder writes under the source's base name, and to any other target writes the target itself |
| Host.MadeDirs | launcher/views.py:173 | `os.makedirs` creates the folder itself, and only folders whose paths start it: the folder and, while a head is missing, the heads `ntpath.split` takes off it |
| Host.MadeDirsUnder | launcher/views.py:173 | making `a\u` under an absolute folder `a` makes just `a\u` when `a` exists, and also `a` and its missing parents when it does not |
| Host.Machine.MakeDirs | launcher/views.py:173 | the folders after the call are the old ones and those `os.makedirs` creates; files and journal are unchanged |
| Host.Machine.Write | launcher/views.py:235-237 | the file holds the written text; nothing else changes |
| Host.Machine.Append | launcher/services.py:42 | the text is added to the end of the file |
| Host.Machine.Copy | launcher/views.py:175 | a missing source raises and changes nothing; otherwise the target holds the source's text |
| KlayoutParams.EqIndex | edalauncher_project/scripts/klayout_extract.py:11 | the position of the first `=`, or the length when there is none |
| KlayoutParams.SplitAtEq | edalauncher_project/scripts/klayout_extract.py:10-11 | None exactly without `=`; otherwise the key, free of `=`, and the value, which may hold `=`, joined by `=` give the argument |
| KlayoutParams.SplitJoined | edalauncher_project/scripts/klayout_extract.py:11 | splitting `key=value` gives the key and the whole value back, whatever the value holds |
| KlayoutParams.ParseParams | edalauncher_project/scripts/klayout_extract.py:8-12 | the loop builds the dictionary of the stripped pairs of every argument, the first one included |
| KlayoutParams.NoEqAddsNothing | edalauncher_project/scripts/klayout_extract.py:10 | an argument without `=` adds nothing |
| KlayoutParams.LaterOverwrites | edalauncher_project/scripts/klayout_extract.py:12 | a later argument overwrites the value of its stripped key |
| KlayoutParams.Lookup | edalauncher_project/scripts/klayout_extract.py:8-12 | a key is present exactly when some argument sets it, with the value of the last one that does |
| KlayoutParams.LookupArgs | edalauncher_project/scripts/klayout_extract.py:9-12 | the same on the arguments: the value is the stripped value of the last argument setting the key, wherever it stands |
| KlayoutParams.AllStripped | edalauncher_project/scripts/klayout_extract.py:12 | every key and every value in the dictionary is stripped |
| KlayoutParams.StripFixed | edalauncher_project/scripts/klayout_extract.py:12 | stripping twice strips no more than once |
| KlayoutParams.RequiredParams | edalauncher_project/scripts/klayout_extract.py:14-19 | raises "Missing required -rd parameters" exactly when `gds`, `png` or `meta` is missing or empty; otherwise the three paths, all non-empty |
| KlayoutParams.RequiredFromLast | edalauncher_project/scripts/klayout_extract.py:9-19 | a key passes the check exactly when the last argument setting it gives it a value that is not blank |
| Services.FinalStatus | launcher/services.py:44 | "success" exactly for exit code 0, "failed" for any other |
| Services.ParseLog | launcher/services.py:40-42 | what reads back from a log is the two streams under their headers |
| Services.LogRoundTrip | launcher/services.py:40-42 | a log reads back as the two streams written, when the standard output holds no copy of the second header (with both streams piped in text mode `communicate()` gives two strings, so `or ""` never applies) |
| Services.ToolRun.constructor | launcher/services.py:21-27 | the record is created with its ids and folder, as "running" without log, and saved |
| Services.ToolRun.Save | launcher/services.py:46 | the record's current status and log path are saved |
| Services.RecordRun | launcher/services.py:19-46 | the record is saved as running; when `python` is not found `Popen` raises, and the record stays running without a log and no log is written; otherwise the process starts, the log is written in two steps, and the record is saved again with the final status and the log URL |
| Services.ExecuteToolRun | launcher/services.py:9-54 | the run folder is made with its missing parents; an upload that is not a file raises before any record exists; otherwise the upload is copied in and the record created; a `Popen` that raises leaves the record running and writes no log; otherwise three events are journaled in order, and the result is ok with the streams verbatim, the log URL and the run id, even when the run failed |
| Services.RunDirNamed | launcher/services.py:13 | the run folder is absolute and named after the run id |
| Services.RunDirMade | launcher/services.py:13-14 | under an existing base folder, making the run folder also makes `uploads\runs` and `uploads`, each only when it is missing, and no other folder |
| Services.LogUrlNamesRun | launcher/services.py:45 | the log URL is `/uploads/runs/<run id>/run.log` |
| Services.LogUrlLocatesLog | launcher/services.py:13-45 | the log URL returned locates the log file written: its part after `/uploads/`, with slashes made backslashes, is the log file's path inside the uploads folder (the folder the `/uploads/` route serves) |

## Left out

- External processes (WSL, Verilator, make, KLayout, `python --version`) are not run. Their outputs and exit codes are parameters, and starting one is a journal event. Decoding their output with `.decode()`, which can raise, is not modelled.
- File contents are text. The `errors="ignore"` decoding of the design, the byte chunks of uploads, and Windows text-mode newline translation are not modelled: neither `\r\n` becoming `\n` when `fix_verilog_module_name` and `patch_sim_main` read a file, nor `\n` becoming `\r\n` when they and `execute_tool_run` write one.
- `os.listdir` is a given listing, in the order given. The folder the commands write to is not tracked.
- The database is not modelled: a saved record is a journal event, and a tool or user is its id. A missing tool is the 404 of `get_object_or_404`. An executable path that is None and one that is empty are both the empty string.
- `ntpath` is modelled for drive-letter paths only. Left out are UNC paths, per-drive working folders, the stripping of trailing dots and spaces, case folding in comparisons, and symbolic links.
- The regex `\b` uses ASCII word characters, so a non-ASCII letter right before `module` counts as a boundary here but not in Python.
- Launch.LaunchTool: requires that the upload name holds no backslash. A backslash would reach the `re.sub` template `\1<name>` as an escape, and `os.path.join` would read it as a folder. The escape processing of the template is not modelled.
- Launch.RunTool: requires the hex prefix to be 32 lower-case hexadecimal digits (`uuid4().hex`) and the file name to hold no separator, since Django keeps only an upload's base name. The 405 reply of `@api_view` is modelled by its detail text only, and its 200 answer to OPTIONS without the metadata body (view name, description, renderers, parsers).
- `Popen` failing is modelled only for a missing executable (`wsl`, `python`), as FileNotFoundError. Other `OSError`s it can raise are not modelled.
- Host.Machine.MakeDirs: a folder to make, or a missing parent of it, that exists as a file makes `os.makedirs` raise; the model makes the folder anyway. Paths in the model do not end in a separator, so the second `split` of a trailing separator is modelled but not exercised.
- The fresh `uuid4()` values (the work folder, the prefix of a saved name, the run id) are parameters.
- `serve_upload` returns the file's path (`File(path)`) instead of streaming it. A path both a file and a folder cannot arise on a real disk; the model gives the file.
- Dead code is not modelled: the triple-quoted blocks in launcher/views.py and the first, shadowed `launch_web` (launcher/views.py:363-384).
- The `pya` part of the KLayout script (from line 21 of edalauncher_project/scripts/klayout_extract.py) calls a library whose behaviour is not visible.

## Findings

| source | as written | input that shows it | evidently intended | confidence | as-written member | corrected member |
|---|---|---|---|---|---|---|
| launcher/views.py:97 | `full.startswith(os.path.abspath(base))` compares text, so a sibling folder whose name starts with `uploads` passes | `path = "../uploads2/x"` resolves to `<BASE>\uploads2\x`, which starts with `<BASE>\uploads` and is served | serve only the uploads folder and what lies under it, comparing whole components | not executed | Paths.SiblingEscapes | Paths.ServeUploadFixedContained |
