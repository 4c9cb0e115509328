/**
  The desktop launcher's event handlers (`UiEvent` in `src/event.py`): the listening
  port field, the system-proxy pick, the checks before SillyTavern is launched and the
  command it is launched with, the `gitconfig` rewrite that points GitHub at a mirror,
  and the tray and autostart switches.
 */
module Event {
  import opened Wrappers
  import opened Strings
  import opened Numerals
  import opened Config
  import opened StConfig

  // ---------------------------------------------------------------- save_port

  /** What `save_port` makes of the text typed in. */
  datatype PortInput = Accepted(port: int) | OutOfRange | NotANumber

  function ReadPort(value: string): (r: PortInput)
    ensures r == NotANumber <==> PyInt(value).None?
    ensures r == OutOfRange <==> PyInt(value).Some? && !(1 <= PyInt(value).value <= 65535)
    ensures r.Accepted? ==> PyInt(value) == Some(r.port) && 1 <= r.port <= 65535
  {
    match PyInt(value)
    case None => NotANumber
    case Some(p) => if p < 1 || p > 65535 then OutOfRange else Accepted(p)
  }

  /** Every valid port, written out, is accepted as itself. */
  lemma ReadPortOfString(p: int)
    requires 1 <= p <= 65535
    ensures ReadPort(IntToString(p)) == Accepted(p)
  {
    PyIntOfString(p);
  }

  // ------------------------------------------------------------------ proxies

  /** The proxy taken from `urllib.request.getproxies()`: `http`, then `https`,
      then `socks`, then `socks5`; the empty string when none is listed. */
  function ProxyChoice(proxies: map<string, string>): (url: string)
    ensures "http" in proxies ==> url == proxies["http"]
    ensures "http" !in proxies && "https" in proxies ==> url == proxies["https"]
    ensures "http" !in proxies && "https" !in proxies && "socks" in proxies ==> url == proxies["socks"]
    ensures ("http" !in proxies && "https" !in proxies && "socks" !in proxies && "socks5" in proxies
             ==> url == proxies["socks5"])
    ensures url != "" ==> url in proxies.Values
  {
    if "http" in proxies then proxies["http"]
    else if "https" in proxies then proxies["https"]
    else if "socks" in proxies then proxies["socks"]
    else if "socks5" in proxies then proxies["socks5"]
    else ""
  }

  /** The attributes after a proxy pick: a proxy found is enabled and recorded; none
      found turns the proxy off when `disableWhenNone`, else changes nothing. */
  function ProxyAttrs(attrs: map<string, Value>, url: string, disableWhenNone: bool): (r: map<string, Value>)
    ensures url != "" ==> r == attrs["proxy_enabled" := Bool(true)]["proxy_url" := Str(url)]
    ensures url == "" && disableWhenNone ==> r == attrs["proxy_enabled" := Bool(false)]
    ensures url == "" && !disableWhenNone ==> r == attrs
    ensures forall k :: k in attrs && k != "proxy_enabled" && k != "proxy_url" ==> k in r && r[k] == attrs[k]
  {
    if url != "" then attrs["proxy_enabled" := Bool(true)]["proxy_url" := Str(url)]
    else if disableWhenNone then attrs["proxy_enabled" := Bool(false)]
    else attrs
  }

  // ------------------------------------------------------------ launch checks

  /** A CJK unified ideograph, U+4E00..U+9FFF. */
  predicate IsCjk(c: char) { '\U{4E00}' <= c <= '\U{9FFF}' }

  predicate HasCjk(path: string) { exists i :: 0 <= i < |path| && IsCjk(path[i]) }

  /** Why `start_sillytavern` refuses or what it did. */
  datatype StartOutcome =
    | CjkInPath
    | SpaceInPath
    | AlreadyRunning
    | NotInstalled
    | ModulesMissing
    | Launched(command: string)
    | LaunchFailed(command: string)

  /** The checks on the working directory, CJK characters first. */
  function PathCheck(cwd: string): (r: Option<StartOutcome>)
    ensures r == Some(CjkInPath) <==> HasCjk(cwd)
    ensures r == Some(SpaceInPath) <==> !HasCjk(cwd) && ' ' in cwd
    ensures r.None? <==> !HasCjk(cwd) && ' ' !in cwd
  {
    if HasCjk(cwd) then Some(CjkInPath)
    else if ' ' in cwd then Some(SpaceInPath)
    else None
  }

  /** `"<node dir>node" server.js`, followed by the custom arguments when there are
      any. */
  function Command(nodePath: string, customArgs: string): (cmd: string)
    ensures customArgs == "" ==> cmd == BaseCommand(nodePath)
    ensures customArgs != "" ==> cmd == BaseCommand(nodePath) + " " + customArgs
  {
    var base := BaseCommand(nodePath);
    if customArgs != "" then base + " " + customArgs else base
  }

  function BaseCommand(nodePath: string): string {
    "\"" + nodePath + "node\" server.js"
  }

  /** `execute_command` is a coroutine function, so the value `start_sillytavern` tests
      is the coroutine object, which is always true: the launch is reported and the
      running flag stays set even when spawning fails inside the coroutine, whose
      exit callback then never runs. The result is the running flag and the outcome. */
  function LaunchAsWritten(command: string, spawnOk: bool): (r: (bool, StartOutcome))
    ensures r == (true, Launched(command))
  {
    var coroutineIsTruthy := true;
    if coroutineIsTruthy then (true, Launched(command)) else (spawnOk, LaunchFailed(command))
  }

  /** The launch as intended: a failed spawn is reported and clears the flag. */
  function Launch(command: string, spawnOk: bool): (r: (bool, StartOutcome))
    ensures r.0 <==> spawnOk
    ensures r.1 == if spawnOk then Launched(command) else LaunchFailed(command)
  {
    if spawnOk then (true, Launched(command)) else (false, LaunchFailed(command))
  }

  /** The decision `start_sillytavern` takes after the proxy step. */
  function StartGate(running: bool, installed: bool, modules: bool): (r: Option<StartOutcome>)
    ensures running ==> r == Some(AlreadyRunning)
    ensures !running && !installed ==> r == Some(NotInstalled)
    ensures !running && installed && !modules ==> r == Some(ModulesMissing)
    ensures r.None? <==> !running && installed && modules
  {
    if running then Some(AlreadyRunning)
    else if !installed then Some(NotInstalled)
    else if !modules then Some(ModulesMissing)
    else None
  }

  /** As written, one failed spawn leaves the flag set, so every later start is
      refused as already running although nothing runs. */
  lemma FailedSpawnBlocksRestart(command: string, installed: bool, modules: bool)
    ensures LaunchAsWritten(command, false).1 == Launched(command)
    ensures StartGate(LaunchAsWritten(command, false).0, installed, modules) == Some(AlreadyRunning)
  {
  }

  /** As intended, a failed spawn leaves the way open for the next start. */
  lemma FailedSpawnAllowsRetry(command: string)
    ensures Launch(command, false).1 == LaunchFailed(command)
    ensures StartGate(Launch(command, false).0, true, true).None?
  {
  }

  // ---------------------------------------------------------------- gitconfig

  /** One `[section]` of a git configuration with its options; option names are
      lower case, as `configparser` stores them. */
  datatype Section = Section(name: string, options: map<string, string>)

  const GithubUrl: string := "https://github.com/"

  /** `url "https://<mirror>/https://github.com/"`. */
  function MirrorSection(mirror: string): string {
    "url \"https://" + mirror + "/" + GithubUrl + "\""
  }

  /** A section that rewrites GitHub URLs. */
  predicate Redirects(s: Section) {
    "insteadof" in s.options && s.options["insteadof"] == GithubUrl
  }

  predicate DistinctNames(sections: seq<Section>) {
    forall i, j :: 0 <= i < j < |sections| ==> sections[i].name != sections[j].name
  }

  /** The sections left after every GitHub redirect is removed, in order. */
  function Kept(sections: seq<Section>): (r: seq<Section>)
    ensures |r| <= |sections|
  {
    if sections == [] then []
    else (if Redirects(sections[0]) then [] else [sections[0]]) + Kept(sections[1..])
  }

  /** The position of the section called `name`. */
  function IndexOfName(sections: seq<Section>, name: string): (r: Option<nat>)
    ensures r.Some? ==> r.value < |sections| && sections[r.value].name == name
    ensures r.None? ==> forall i :: 0 <= i < |sections| ==> sections[i].name != name
  {
    if sections == [] then None
    else if sections[0].name == name then Some(0)
    else match IndexOfName(sections[1..], name)
      case None => None
      case Some(i) => Some(i + 1)
  }

  /** `add_section` when missing, then `set(name, "insteadof", GithubUrl)`. */
  function WithRedirect(sections: seq<Section>, name: string): (r: seq<Section>) {
    match IndexOfName(sections, name)
    case Some(i) => sections[i := Section(name, sections[i].options["insteadof" := GithubUrl])]
    case None => sections + [Section(name, map["insteadof" := GithubUrl])]
  }

  /** The file `update_mirror_setting` writes. */
  function Rewritten(sections: seq<Section>, mirror: string): seq<Section> {
    if mirror == "github" then Kept(sections) else WithRedirect(Kept(sections), MirrorSection(mirror))
  }

  /** `(use_sys_env and patchgit) or not use_sys_env`. */
  predicate MirrorGate(useSysEnv: Value, patchgit: Value) {
    (Truthy(useSysEnv) && Truthy(patchgit)) || !Truthy(useSysEnv)
  }

  lemma MirrorGateSimplified(useSysEnv: Value, patchgit: Value)
    ensures MirrorGate(useSysEnv, patchgit) <==> !Truthy(useSysEnv) || Truthy(patchgit)
  {
  }

  /** Whether `update_mirror_setting` gets to rewrite `gitconfig`, as written: past the
      gate it reads `self.env.git_dir`, but with `use_sys_env` set `self.env` is a
      `SysEnv`, which has no such attribute, so the handler raises there. */
  predicate PatchesAsWritten(useSysEnv: Value, patchgit: Value, gitDirExists: bool) {
    MirrorGate(useSysEnv, patchgit) && !Truthy(useSysEnv) && gitDirExists
  }

  /** As intended: the gate decides, and Git's directory must exist. */
  predicate PatchesIntended(useSysEnv: Value, patchgit: Value, gitDirExists: bool) {
    MirrorGate(useSysEnv, patchgit) && gitDirExists
  }

  /** As written, `patchgit` never matters: with the system environment selected nothing
      is patched, whatever `patchgit` says. */
  lemma PatchgitIgnored(useSysEnv: Value, patchgit: Value, gitDirExists: bool)
    ensures PatchesAsWritten(useSysEnv, patchgit, gitDirExists) <==> !Truthy(useSysEnv) && gitDirExists
    ensures !PatchesAsWritten(Bool(true), Bool(true), gitDirExists)
  {
  }

  /** As intended, `patchgit` opts the system environment in: with it set and Git's
      directory present the file is patched, and without the system environment it
      always is. */
  lemma PatchgitHonoured(useSysEnv: Value, patchgit: Value, gitDirExists: bool)
    ensures PatchesIntended(useSysEnv, patchgit, gitDirExists) <==> gitDirExists && (!Truthy(useSysEnv) || Truthy(patchgit))
    ensures PatchesIntended(Bool(true), Bool(true), true)
  {
  }

  /** The removal keeps exactly the sections that do not redirect GitHub. */
  lemma {:induction false} KeptMembers(sections: seq<Section>, s: Section)
    ensures s in Kept(sections) <==> s in sections && !Redirects(s)
  {
    if sections != [] {
      KeptMembers(sections[1..], s);
      assert sections == [sections[0]] + sections[1..];
    }
  }

  lemma {:induction false} KeptNames(sections: seq<Section>)
    requires DistinctNames(sections)
    ensures DistinctNames(Kept(sections))
  {
    if sections != [] {
      KeptNames(sections[1..]);
      var rest := Kept(sections[1..]);
      forall s | s in rest
        ensures s.name != sections[0].name
      {
        KeptMembers(sections[1..], s);
        var j :| 0 <= j < |sections[1..]| && sections[1..][j] == s;
        assert sections[j + 1] == s;
      }
    }
  }

  lemma WithRedirectNames(sections: seq<Section>, name: string)
    requires DistinctNames(sections)
    ensures DistinctNames(WithRedirect(sections, name))
  {
  }

  /** After the rewrite no section but the mirror's redirects GitHub: none at all for
      `github`, and the mirror's section does. The section names stay distinct. */
  lemma RewriteRedirects(sections: seq<Section>, mirror: string)
    requires DistinctNames(sections)
    ensures DistinctNames(Rewritten(sections, mirror))
    ensures forall s :: s in Rewritten(sections, mirror) && Redirects(s) ==> mirror != "github" && s.name == MirrorSection(mirror)
    ensures mirror != "github" ==> exists s :: s in Rewritten(sections, mirror) && Redirects(s) && s.name == MirrorSection(mirror)
  {
    KeptNames(sections);
    var k := Kept(sections);
    forall s | s in k ensures !Redirects(s) {
      KeptMembers(sections, s);
    }
    if mirror != "github" {
      var name := MirrorSection(mirror);
      WithRedirectNames(k, name);
      var r := WithRedirect(k, name);
      match IndexOfName(k, name)
      case Some(i) =>
        assert r[i].name == name && Redirects(r[i]);
        forall s | s in r && Redirects(s) ensures s.name == name {
          var j :| 0 <= j < |r| && r[j] == s;
          if j != i {
            assert false;
          }
        }
      case None =>
        assert r[|k|].name == name && Redirects(r[|k|]);
        forall s | s in r && Redirects(s) ensures s.name == name {
          var j :| 0 <= j < |r| && r[j] == s;
          if j != |k| {
            assert false;
          }
        }
    }
  }

  /** A section that neither redirects GitHub nor is the mirror's own survives the
      rewrite unchanged. */
  lemma RewriteKeepsOthers(sections: seq<Section>, mirror: string, s: Section)
    requires s in sections && !Redirects(s)
    requires mirror == "github" || s.name != MirrorSection(mirror)
    ensures s in Rewritten(sections, mirror)
  {
    KeptMembers(sections, s);
    var k := Kept(sections);
    if mirror != "github" {
      var j :| 0 <= j < |k| && k[j] == s;
      var r := WithRedirect(k, MirrorSection(mirror));
      assert r[j] == s;
    }
  }

  /** The `configparser` object `update_mirror_setting` edits. */
  class GitConfig {
    var sections: seq<Section>

    constructor (sections: seq<Section>)
      ensures this.sections == sections
    {
      this.sections := sections;
    }

    /** Collects the sections whose `insteadof` is GitHub and removes them. */
    method RemoveGithubRedirects()
      modifies this
      ensures sections == Kept(old(sections))
    {
      var result := [];
      var i := |sections|;
      while i > 0
        invariant 0 <= i <= |sections|
        invariant result == Kept(sections[i..])
      {
        i := i - 1;
        assert sections[i..][1..] == sections[i + 1..];
        if !Redirects(sections[i]) {
          result := [sections[i]] + result;
        }
      }
      sections := result;
    }

    /** Makes the mirror's section redirect GitHub, adding it when missing. */
    method PointAtMirror(mirror: string)
      modifies this
      ensures sections == WithRedirect(old(sections), MirrorSection(mirror))
    {
      var name := MirrorSection(mirror);
      var at := IndexOfName(sections, name);
      if at.None? {
        sections := sections + [Section(name, map[])];
        at := Some(|sections| - 1);
      }
      var i := at.value;
      sections := sections[i := Section(name, sections[i].options["insteadof" := GithubUrl])];
    }
  }

  // ----------------------------------------------------------------- handlers

  class UiEvent {
    const configManager: ConfigManager
    const stCfg: StCfg
    /** The terminal's `is_running` flag. */
    var isRunning: bool
    /** Whether a tray icon exists. */
    var tray: bool

    predicate Valid()
      reads this, stCfg
    {
      stCfg.Valid()
    }

    constructor (found: ConfigFile, cwd: string, yaml: YamlFile, whitelist: Option<string>)
      ensures Valid() && fresh(configManager) && fresh(stCfg)
      ensures configManager.config == LoadConfig(found)
      ensures !isRunning && !tray
    {
      configManager := new ConfigManager(found);
      stCfg := new StCfg(cwd, yaml, whitelist);
      isRunning := false;
      tray := false;
    }

    /** `save_port`: a number in 1..65535 becomes the port and is saved; anything
        else changes nothing. */
    method SavePort(value: string, outcome: SaveOutcome) returns (r: PortInput)
      requires Valid()
      modifies stCfg
      ensures r == ReadPort(value)
      ensures r.Accepted? ==> stCfg.attrs == old(stCfg.attrs)["port" := Int(r.port)]
      ensures (r.Accepted? && outcome != DirFails
               ==> stCfg.configData == WriteBack(old(stCfg.configData), old(stCfg.attrs)["listen"], Int(r.port)))
      ensures !r.Accepted? ==> stCfg.attrs == old(stCfg.attrs) && stCfg.configData == old(stCfg.configData)
                               && stCfg.file == old(stCfg.file)
      ensures (r.Accepted? ==> (stCfg.configData, stCfg.file)
                                 == Saved(old(stCfg.configData), old(stCfg.file), old(stCfg.attrs)["listen"], Int(r.port), outcome))
      ensures stCfg.whitelist == old(stCfg.whitelist)
      ensures Valid()
    {
      r := ReadPort(value);
      if r.Accepted? {
        Unreserved("port");
        stCfg.Assign("port", Int(r.port));
        stCfg.Save(outcome);
      }
    }

    /** The proxy step of `start_sillytavern` (`disableWhenNone`) and
        `auto_detect_and_set_proxy`; `proxies` is `None` when reading them raised. */
    method ApplyProxy(proxies: Option<map<string, string>>, disableWhenNone: bool, outcome: SaveOutcome)
      requires Valid()
      modifies stCfg
      ensures Valid()
      ensures proxies.None? ==> stCfg.attrs == old(stCfg.attrs) && stCfg.configData == old(stCfg.configData)
                                && stCfg.file == old(stCfg.file)
      ensures proxies.Some? ==> stCfg.attrs == ProxyAttrs(old(stCfg.attrs), ProxyChoice(proxies.value), disableWhenNone)
      // a save happens exactly when a proxy is set or cleared; the document only ever
      // receives `listen` and `port`, so the proxy stays in memory
      ensures (stCfg.configData, stCfg.file)
        == if proxies.Some? && (ProxyChoice(proxies.value) != "" || disableWhenNone)
           then Saved(old(stCfg.configData), old(stCfg.file), old(stCfg.attrs)["listen"], old(stCfg.attrs)["port"], outcome)
           else (old(stCfg.configData), old(stCfg.file))
      ensures stCfg.whitelist == old(stCfg.whitelist)
    {
      if proxies.None? {
        return;
      }
      var url := ProxyChoice(proxies.value);
      Unreserved("proxy_enabled");
      Unreserved("proxy_url");
      if url == "" {
        if disableWhenNone {
          stCfg.Assign("proxy_enabled", Bool(false));
          stCfg.Save(outcome);
        }
      } else {
        stCfg.Assign("proxy_enabled", Bool(true));
        stCfg.Assign("proxy_url", Str(url));
        stCfg.Save(outcome);
      }
    }

    /** The proxy step of `start_sillytavern`, taken when `auto_proxy` is set. */
    method AutoProxy(proxies: Option<map<string, string>>, outcome: SaveOutcome)
      requires Valid()
      modifies stCfg
      ensures Valid()
      ensures (Truthy(Lookup(Dict(configManager.config), KeyPath("auto_proxy"), Bool(false))) && proxies.Some?
               ==> stCfg.attrs == ProxyAttrs(old(stCfg.attrs), ProxyChoice(proxies.value), true))
      ensures (!(Truthy(Lookup(Dict(configManager.config), KeyPath("auto_proxy"), Bool(false))) && proxies.Some?)
               ==> stCfg.attrs == old(stCfg.attrs))
      ensures (stCfg.configData, stCfg.file)
        == if Truthy(Lookup(Dict(configManager.config), KeyPath("auto_proxy"), Bool(false))) && proxies.Some?
           then Saved(old(stCfg.configData), old(stCfg.file), old(stCfg.attrs)["listen"], old(stCfg.attrs)["port"], outcome)
           else (old(stCfg.configData), old(stCfg.file))
      ensures stCfg.whitelist == old(stCfg.whitelist)
    {
      var autoProxy := configManager.Get("auto_proxy", Bool(false));
      if Truthy(autoProxy) {
        ApplyProxy(proxies, true, outcome);
      }
    }

    /** `start_sillytavern`: the path checks, the optional proxy step, the running
        check, the installation checks, then the launch as written, which reports
        success and keeps the running flag set whether or not the spawn works.
        `customArgs` is the `custom_args` setting. */
    method StartSillyTavern(cwd: string, proxies: Option<map<string, string>>, outcome: SaveOutcome,
                            installed: bool, modules: bool, nodePath: string, customArgs: string, spawnOk: bool)
      returns (r: StartOutcome)
      requires Valid()
      modifies this`isRunning, stCfg
      ensures Valid()
      ensures PathCheck(cwd).Some? ==> r == PathCheck(cwd).value && isRunning == old(isRunning)
                                       && stCfg.attrs == old(stCfg.attrs)
                                       && stCfg.configData == old(stCfg.configData) && stCfg.file == old(stCfg.file)
      ensures (PathCheck(cwd).None? && StartGate(old(isRunning), installed, modules).Some?
               ==> r == StartGate(old(isRunning), installed, modules).value && isRunning == old(isRunning))
      ensures (PathCheck(cwd).None? && StartGate(old(isRunning), installed, modules).None?
               ==> (isRunning, r) == LaunchAsWritten(Command(nodePath, customArgs), spawnOk))
      ensures (PathCheck(cwd).None? && Truthy(Lookup(Dict(configManager.config), KeyPath("auto_proxy"), Bool(false)))
               && proxies.Some?
               ==> stCfg.attrs == ProxyAttrs(old(stCfg.attrs), ProxyChoice(proxies.value), true))
      // the proxy step, relayed from `AutoProxy`: it runs only with `auto_proxy` set
      // and a proxy read, and then saves `listen` and `port`
      ensures (PathCheck(cwd).None? && !(Truthy(Lookup(Dict(configManager.config), KeyPath("auto_proxy"), Bool(false)))
                                        && proxies.Some?)
               ==> stCfg.attrs == old(stCfg.attrs))
      ensures (PathCheck(cwd).None? ==>
                 (stCfg.configData, stCfg.file)
                 == if Truthy(Lookup(Dict(configManager.config), KeyPath("auto_proxy"), Bool(false))) && proxies.Some?
                    then Saved(old(stCfg.configData), old(stCfg.file), old(stCfg.attrs)["listen"], old(stCfg.attrs)["port"], outcome)
                    else (old(stCfg.configData), old(stCfg.file)))
      ensures stCfg.whitelist == old(stCfg.whitelist)
    {
      var problem := PathCheck(cwd);
      if problem.Some? {
        return problem.value;
      }
      AutoProxy(proxies, outcome);
      var refused := StartGate(isRunning, installed, modules);
      if refused.Some? {
        return refused.value;
      }
      var launched := LaunchAsWritten(Command(nodePath, customArgs), spawnOk);
      isRunning := launched.0;
      r := launched.1;
    }

    /** `update_mirror_setting`: records and saves the mirror, then, past the gate,
        rewrites `gitconfig` when Git's directory exists. With `use_sys_env` set the
        handler raises (`raised`) on reading `git_dir` instead. A file that cannot be
        read or written is left as it was. */
    method UpdateMirrorSetting(mirror: string, gitDirExists: bool, file: seq<Section>, writeOk: bool)
      returns (newFile: seq<Section>, raised: bool)
      modifies configManager
      ensures configManager.config == SetPath(old(configManager.config), KeyPath("github.mirror"), Str(mirror))
      ensures configManager.file == Parsed(configManager.config)
      ensures raised <==> (Truthy(Lookup(Dict(configManager.config), KeyPath("use_sys_env"), Bool(false)))
                           && Truthy(Lookup(Dict(configManager.config), KeyPath("patchgit"), Bool(false))))
      ensures (newFile == if PatchesAsWritten(Lookup(Dict(configManager.config), KeyPath("use_sys_env"), Bool(false)),
                                               Lookup(Dict(configManager.config), KeyPath("patchgit"), Bool(false)),
                                               gitDirExists)
                             && DistinctNames(file) && writeOk
                          then Rewritten(file, mirror) else file)
    {
      configManager.Set("github.mirror", Str(mirror));
      configManager.Save();
      var useSysEnv := configManager.Get("use_sys_env", Bool(false));
      var patchgit := configManager.Get("patchgit", Bool(false));
      newFile := file;
      raised := false;
      if !MirrorGate(useSysEnv, patchgit) {
        return;
      }
      if Truthy(useSysEnv) {
        // `self.env` is a `SysEnv`: `self.env.git_dir` raises `AttributeError`
        raised := true;
        return;
      }
      if !gitDirExists || !DistinctNames(file) {
        return;
      }
      var g := new GitConfig(file);
      g.RemoveGithubRedirects();
      if mirror != "github" {
        g.PointAtMirror(mirror);
      }
      if writeOk {
        newFile := g.sections;
      }
    }

    /** `tray_changed`: the setting is saved; a tray is created only when enabling
        with none present and removed only when disabling with one present (`ok`
        false when that step raised). */
    method TrayChanged(value: bool, ok: bool)
      modifies configManager, this`tray
      ensures configManager.config == SetPath(old(configManager.config), KeyPath("tray"), Bool(value))
      ensures configManager.file == Parsed(configManager.config)
      ensures tray == if value != old(tray) && ok then value else old(tray)
    {
      configManager.Set("tray", Bool(value));
      configManager.Save();
      if value && !tray {
        if ok {
          tray := true;
        }
      } else if !value && tray {
        if ok {
          tray := false;
        }
      }
    }

    /** `autostart_changed`: `autostart` and `tray` both take the new value. */
    method AutostartChanged(value: bool)
      modifies configManager
      ensures configManager.config == SetPath(SetPath(old(configManager.config), KeyPath("autostart"), Bool(value)),
                                              KeyPath("tray"), Bool(value))
      ensures configManager.file == Parsed(configManager.config)
    {
      configManager.Set("autostart", Bool(value));
      configManager.Set("tray", Bool(value));
      configManager.Save();
    }
  }

  /** After `autostart_changed` both switches read back as the value chosen. */
  lemma AutostartSetsBoth(m: map<string, Value>, value: bool, default: Value)
    ensures (Lookup(Dict(SetPath(SetPath(m, KeyPath("autostart"), Bool(value)), KeyPath("tray"), Bool(value))),
                    ["autostart"], default) == Bool(value))
    ensures (Lookup(Dict(SetPath(SetPath(m, KeyPath("autostart"), Bool(value)), KeyPath("tray"), Bool(value))),
                    ["tray"], default) == Bool(value))
  {
    OneKey("autostart");
    OneKey("tray");
    var a, t := ["autostart"], ["tray"];
    assert a[0] != t[0] && a[..0] == t[..0];
    assert Diverge(t, a);
    GetAfterSet(m, a, Bool(value), default);
    SetFrame(SetPath(m, a, Bool(value)), t, Bool(value), a, default);
    GetAfterSet(SetPath(m, a, Bool(value)), t, Bool(value), default);
  }

  /** A setting name that starts with a letter and is none of the object's own names. */
  lemma Unreserved(key: string)
    requires key != "" && key[0] != '_'
    requires key !in {"yaml", "config_data", "load_config", "save_config", "create_whitelist", "set", "get"}
    ensures !Reserved(key)
  {
  }

  lemma OneKey(key: string)
    requires '.' !in key
    ensures KeyPath(key) == [key]
  {
    SplitNoSep(key, '.');
  }
}
