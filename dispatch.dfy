/**
 * The request dispatch of launcher/views.py that depends only on the
 * request and the tool record: which page `tool_page` renders, which URL
 * `launch_web` hands back, and which command `launch_desktop` starts.
 */
module Dispatch {
  import opened Wrappers

  /**
   * A tool record as the views read it. An executable path that is unset
   * (None) or empty is the empty string: both are false in Python.
   */
  datatype Tool = Tool(id: nat, slug: string, name: string, linuxExe: string, windowsExe: string)

  /** A JSON reply: its status, its "ok" flag and its one other field. */
  datatype Reply =
    | Json(status: nat, ok: bool, key: string, value: string)
    | NotFound  // the 404 page of `get_object_or_404`
    | Uncaught(exception: string)  // an exception the view lets escape: a server error

  function Error(status: nat, message: string): Reply {
    Json(status, false, "error", message)
  }

  const PostRequired := "POST required"

  // ---------------------------------------------------------------------
  // tool_page
  // ---------------------------------------------------------------------

  /** What `tool_page` renders: the template and the context it passes. */
  datatype Page = Page(template: string, envs: bool, webmode: bool, launchedFrom: Option<string>)

  const VerilatorWorkspace := "launcher/verilator.html"
  const KlayoutWorkspace := "launcher/klayout_workspace.html"
  const DefaultPage := "launcher/tool.html"

  /**
   * `tool_page`: with mode "web", the Verilator and KLayout tools get their
   * web workspaces, marked as web mode and told where the user came from;
   * every other request gets the default page. The tool environments are
   * listed on the Verilator workspace and the default page only.
   */
  function ToolPage(tool: Option<Tool>, mode: Option<string>, from: Option<string>): (r: Option<Page>)
    ensures r.None? <==> tool.None?
    ensures r.Some? ==>
      var web := mode == Some("web");
      && (r.value.template == VerilatorWorkspace <==> web && tool.value.slug == "verilator")
      && (r.value.template == KlayoutWorkspace <==> web && tool.value.slug == "klayout")
      && (r.value.template == DefaultPage <==> !(web && tool.value.slug in {"verilator", "klayout"}))
      && (r.value.webmode <==> r.value.template != DefaultPage)
      && (r.value.envs <==> r.value.template != KlayoutWorkspace)
      && r.value.launchedFrom == (if r.value.webmode then from else None)
  {
    if tool.None? then None
    else if mode == Some("web") && tool.value.slug == "verilator" then
      Some(Page(VerilatorWorkspace, true, true, from))
    else if mode == Some("web") && tool.value.slug == "klayout" then
      Some(Page(KlayoutWorkspace, false, true, from))
    else
      Some(Page(DefaultPage, true, false, None))
  }

  // ---------------------------------------------------------------------
  // launch_web
  // ---------------------------------------------------------------------

  /** The tools with a web mode. */
  predicate HasWebMode(slug: string) {
    slug == "klayout" || slug == "verilator"
  }

  /** The tool page of `slug` in web mode. */
  function WebModeUrl(slug: string): string {
    "/tool/" + slug + "/?mode=web"
  }

  lemma WebModeUrls()
    ensures WebModeUrl("klayout") == "/tool/klayout/?mode=web"
    ensures WebModeUrl("verilator") == "/tool/verilator/?mode=web"
  {
  }

  /**
   * `launch_web` (the definition in force, the later of the two): a POST for
   * KLayout or Verilator gets the tool page's URL in web mode; anything else
   * is a 400.
   */
  function LaunchWeb(verb: string, slug: string): (r: Reply)
    ensures r.Json?
    ensures r.ok <==> verb == "POST" && HasWebMode(slug)
    ensures r.ok ==> r.status == 200 && r.key == "url" && r.value == WebModeUrl(slug)
    ensures !r.ok ==> r == Error(400, if verb != "POST" then PostRequired else "No web mode")
  {
    WebModeUrls();
    if verb != "POST" then Error(400, PostRequired)
    else if slug == "klayout" then Json(200, true, "url", "/tool/klayout/?mode=web")
    else if slug == "verilator" then Json(200, true, "url", "/tool/verilator/?mode=web")
    else Error(400, "No web mode")
  }

  /**
   * The URL `launch_web` hands out leads to a web workspace: following it
   * (mode "web") renders the tool's workspace page, never the default page.
   */
  lemma LaunchWebOpensWorkspace(verb: string, tool: Tool, from: Option<string>)
    requires LaunchWeb(verb, tool.slug).ok
    ensures var p := ToolPage(Some(tool), Some("web"), from);
      p.Some? && p.value.webmode && p.value.template != DefaultPage
  {
  }

  // ---------------------------------------------------------------------
  // launch_desktop
  // ---------------------------------------------------------------------

  /** The executable `launch_desktop` prefers: the Linux one when set, else the Windows one. */
  function DesktopExe(tool: Tool): (exe: string)
    ensures tool.linuxExe != [] ==> exe == tool.linuxExe
    ensures tool.linuxExe == [] ==> exe == tool.windowsExe
    ensures exe == [] <==> tool.linuxExe == [] && tool.windowsExe == []
  {
    if tool.linuxExe != [] then tool.linuxExe else tool.windowsExe
  }

  /** The command line: KLayout is started in editor mode ("-e"), every other tool bare. */
  function DesktopCommand(tool: Tool): (cmd: string)
    ensures tool.slug == "klayout" ==> cmd == DesktopExe(tool) + " -e"
    ensures tool.slug != "klayout" ==> cmd == DesktopExe(tool)
  {
    var exe := DesktopExe(tool);
    if tool.slug == "klayout" then exe + " -e" else exe
  }

  /** The outcome of `launch_desktop`: the reply and the command handed to `subprocess.Popen`, if any (it may have raised). */
  datatype Launch = Launch(reply: Reply, attempted: Option<string>)

  /**
   * `launch_desktop(request, slug)`. `tool` is the record found for the slug
   * and `spawnError` the message of the exception `subprocess.Popen` raised,
   * if it raised one.
   */
  function LaunchDesktop(verb: string, tool: Option<Tool>, spawnError: Option<string>): (r: Launch)
    ensures r.attempted.Some? <==> verb == "POST" && tool.Some? && DesktopExe(tool.value) != []
    ensures r.attempted.Some? ==> r.attempted.value == DesktopCommand(tool.value)
    ensures verb != "POST" ==> r.reply == Error(400, PostRequired)
    ensures verb == "POST" && tool.None? ==> r.reply == NotFound
    ensures verb == "POST" && tool.Some? && DesktopExe(tool.value) == [] ==>
      r.reply == Error(400, "Executable path not configured")
    ensures r.attempted.Some? && spawnError.Some? ==> r.reply == Error(500, spawnError.value)
    ensures r.attempted.Some? && spawnError.None? ==>
      r.reply == Json(200, true, "message", tool.value.name + " launched successfully")
  {
    if verb != "POST" then Launch(Error(400, PostRequired), None)
    else if tool.None? then Launch(NotFound, None)
    else
      var exe := DesktopExe(tool.value);
      if exe == [] then Launch(Error(400, "Executable path not configured"), None)
      else
        var cmd := DesktopCommand(tool.value);
        match spawnError
        case Some(e) => Launch(Error(500, e), Some(cmd))
        case None => Launch(Json(200, true, "message", tool.value.name + " launched successfully"), Some(cmd))
  }

  /** A reply is a success exactly when a command was handed to `Popen` and `Popen` raised nothing. */
  lemma LaunchDesktopOk(verb: string, tool: Option<Tool>, spawnError: Option<string>)
    ensures var r := LaunchDesktop(verb, tool, spawnError);
      (r.reply.Json? && r.reply.ok) <==> r.attempted.Some? && spawnError.None?
  {
  }
}
