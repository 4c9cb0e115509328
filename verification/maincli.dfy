/**
  The command-line launcher (`SillyTavernCliLauncher` in `src/main_cli.py`): the
  GitHub mirror URL, the commands it runs to install, update and start SillyTavern,
  the mirror menu and the component dispatch.
 */
module MainCli {
  import opened Wrappers
  import opened Strings
  import opened Numerals
  import opened Config
  import opened StConfig

  const GithubHome: string := "https://github.com"
  const NpmMirror: string := "--registry=https://registry.npmmirror.com"

  /** `get_github_mirror` for a mirror name: GitHub itself for `github`, otherwise the
      mirror's prefix in front of GitHub's address. */
  function MirrorUrl(mirror: string): (url: string)
    ensures mirror == "github" ==> url == GithubHome
    ensures mirror != "github" ==> url == "https://" + mirror + "/" + GithubHome
  {
    if mirror == "github" then GithubHome else "https://" + mirror + "/" + GithubHome
  }

  /** The configured mirror; `None` stands for a non-string setting, whose rendering
      by Python's `str` is not modelled. */
  function ConfiguredMirrorUrl(setting: Value): (url: Option<string>)
    ensures setting.Str? <==> url.Some?
    ensures setting.Str? ==> url == Some(MirrorUrl(setting.s))
  {
    match setting
    case Str(m) => Some(MirrorUrl(m))
    case _ => None
  }

  /** Every URL ends with GitHub's address and names GitHub or the mirror up front. */
  lemma MirrorUrlShape(mirror: string)
    ensures EndsWith(MirrorUrl(mirror), GithubHome)
    ensures StartsWith(MirrorUrl(mirror), "https://")
  {
    var url := MirrorUrl(mirror);
    if mirror != "github" {
      assert url[|url| - |GithubHome|..] == GithubHome;
      assert url[..8] == "https://";
    } else {
      assert url[..8] == "https://";
    }
  }

  /** Different mirror names give different URLs: the URL determines the mirror. */
  lemma MirrorUrlInjective(a: string, b: string)
    requires MirrorUrl(a) == MirrorUrl(b)
    ensures a == b
  {
    var u := MirrorUrl(a);
    if a != "github" && b != "github" {
      assert |a| == |b|;
      forall i | 0 <= i < |a| ensures a[i] == b[i] {
        assert u[8 + i] == a[i];
        assert u[8 + i] == b[i];
      }
    }
  }

  /** The clone URL of `install_sillytavern`. */
  function RepoUrl(mirrorUrl: string): string {
    mirrorUrl + "/SillyTavern/SillyTavern.git"
  }

  function CloneCommand(mirrorUrl: string): (cmd: seq<string>)
    ensures |cmd| == 4 && cmd[..2] == ["git", "clone"] && cmd[3] == "SillyTavern"
    ensures EndsWith(cmd[2], "/SillyTavern/SillyTavern.git") && StartsWith(cmd[2], mirrorUrl)
  {
    var url := RepoUrl(mirrorUrl);
    assert url[|url| - |"/SillyTavern/SillyTavern.git"|..] == "/SillyTavern/SillyTavern.git";
    assert url[..|mirrorUrl|] == mirrorUrl;
    ["git", "clone", url, "SillyTavern"]
  }

  /** The `npm install` of `install_sillytavern` and `update_sillytavern`; `mirror` is
      the raw setting, compared with the string `github`. */
  function NpmInstall(mirror: Value): (cmd: seq<string>)
    ensures |cmd| == if mirror != Str("github") then 5 else 4
    ensures cmd[..4] == ["npm", "install", "--no-audit", "--no-fund"]
    ensures NpmMirror in cmd <==> mirror != Str("github")
  {
    var base := ["npm", "install", "--no-audit", "--no-fund"];
    if mirror != Str("github") then base + [NpmMirror] else base
  }

  /** Python's `str` of a value, where it is modelled. */
  function Render(v: Value): (r: Option<string>)
    ensures v.Int? ==> r == Some(IntToString(v.i))
    ensures v.Str? ==> r == Some(v.s)
    ensures v.Dict? || v.List? <==> r.None?
  {
    match v
    case Int(i) => Some(IntToString(i))
    case Str(s) => Some(s)
    case Bool(b) => Some(if b then "True" else "False")
    case Null => Some("None")
    case _ => None
  }

  /** The argument list `start_sillytavern` hands to `node`; `None` when a truthy port
      is a list or an object, whose rendering is not modelled. */
  function StartCommand(port: Value, listen: Value): (cmd: Option<seq<string>>)
    ensures cmd.None? <==> Truthy(port) && Render(port).None?
    ensures cmd.Some? ==> |cmd.value| == 2 + (if Truthy(port) then 2 else 0) + (if Truthy(listen) then 1 else 0)
    ensures cmd.Some? ==> cmd.value[..2] == ["node", "server.js"]
    ensures cmd.Some? && Truthy(port) ==> cmd.value[2] == "--port" && Some(cmd.value[3]) == Render(port)
    ensures cmd.Some? && Truthy(listen) ==> cmd.value[|cmd.value| - 1] == "--listen"
  {
    var withPort: Option<seq<string>> :=
      if !Truthy(port) then Some(["node", "server.js"])
      else match Render(port)
        case None => None
        case Some(p) => Some(["node", "server.js", "--port", p]);
    match withPort
    case None => None
    case Some(c) =>
      Some(if Truthy(listen) then c + ["--listen"] else c)
  }

  /** An integer port in the command reads back, through `int`, as that port. */
  lemma PortArgumentRoundTrip(p: int, listen: Value)
    requires p != 0
    ensures StartCommand(Int(p), listen).Some?
    ensures PyInt(StartCommand(Int(p), listen).value[3]) == Some(p)
  {
    PyIntOfString(p);
  }

  // -------------------------------------------------------------- mirror menu

  /** The numbered entries of `show_mirror_menu`. */
  const MenuMirrors: map<string, string> := map[
    "1" := "github",
    "2" := "gh-proxy.com",
    "3" := "ghfile.geekertao.top",
    "4" := "gh.dpik.top",
    "5" := "github.dpik.top",
    "6" := "github.acmsz.top",
    "7" := "git.yylx.win"
  ]

  datatype MenuChoice = SetMirror(mirror: string) | Back | Invalid

  function ReadMenuChoice(choice: string): (r: MenuChoice)
    ensures r.SetMirror? <==> choice in MenuMirrors
    ensures r.SetMirror? ==> r.mirror in MenuMirrors.Values
    ensures r == Back <==> choice == "0"
  {
    if choice in MenuMirrors then SetMirror(MenuMirrors[choice])
    else if choice == "0" then Back
    else Invalid
  }

  /** The seven entries name seven different mirrors, and only the first is GitHub. */
  lemma MenuMirrorsDistinct(a: string, b: string)
    requires a in MenuMirrors && b in MenuMirrors && a != b
    ensures MenuMirrors[a] != MenuMirrors[b]
    ensures MenuMirrors[a] == "github" <==> a == "1"
  {
  }

  // --------------------------------------------------------------- dispatch

  datatype Component = SillyTavern | Launcher | Unknown

  /** `update_component`: only `st` and `stl` name a component. */
  function ComponentOf(name: string): (c: Component)
    ensures c == SillyTavern <==> name == "st"
    ensures c == Launcher <==> name == "stl"
    ensures c == Unknown <==> name != "st" && name != "stl"
  {
    if name == "st" then SillyTavern else if name == "stl" then Launcher else Unknown
  }

  /** `run_command_with_output`: the exit code, or `None` when starting or reading the
      process raised. */
  function CommandSucceeded(rc: Option<int>): (ok: bool)
    ensures ok <==> rc == Some(0)
  {
    match rc
    case Some(code) => code == 0
    case None => false
  }

  /** The mirror setting `get_github_mirror` and the `npm` choice read. */
  function MirrorSetting(config: map<string, Value>): Value {
    Lookup(Dict(config), KeyPath("github.mirror"), Str("github"))
  }

  /** An answer of `y` in either case to the reinstall question. */
  predicate Confirms(answer: string) { answer == "y" || answer == "Y" }

  /** Where `install_sillytavern` stops. */
  datatype InstallOutcome = EnvMissing | Cancelled | CloneFailed | DepsFailed | Installed

  /** The commands `install_sillytavern` runs, in order, and where it stops, given
      whether the tools are on the PATH, whether the directory exists, the answer to
      the reinstall question, the mirror setting and the exit codes. */
  function InstallSteps(envOk: bool, dirExists: bool, answer: string, mirror: Value,
                        cloneRc: Option<int>, npmRc: Option<int>): (r: (seq<seq<string>>, InstallOutcome))
    ensures !envOk ==> r == ([], EnvMissing)
    ensures envOk && dirExists && !Confirms(answer) ==> r == ([], Cancelled)
    ensures envOk && (!dirExists || Confirms(answer)) ==> |r.0| >= 1
    ensures (envOk && (!dirExists || Confirms(answer)) && mirror.Str?
             ==> r.0[0] == CloneCommand(MirrorUrl(mirror.s)))
    ensures r.1 == CloneFailed <==> envOk && (!dirExists || Confirms(answer)) && !CommandSucceeded(cloneRc)
    ensures r.1 == CloneFailed ==> |r.0| == 1
    ensures r.1 in {DepsFailed, Installed} ==> |r.0| == 2 && r.0[1] == NpmInstall(mirror)
    ensures r.1 == Installed <==> r.1 in {DepsFailed, Installed} && CommandSucceeded(npmRc)
  {
    if !envOk then ([], EnvMissing)
    else if dirExists && !Confirms(answer) then ([], Cancelled)
    else
      var clone := CloneCommand(match ConfiguredMirrorUrl(mirror) case Some(u) => u case None => "");
      if !CommandSucceeded(cloneRc) then ([clone], CloneFailed)
      else ([clone, NpmInstall(mirror)], if CommandSucceeded(npmRc) then Installed else DepsFailed)
  }

  class CliLauncher {
    const configManager: ConfigManager
    const stCfg: StCfg

    constructor (found: ConfigFile, cwd: string, yaml: YamlFile, whitelist: Option<string>)
      ensures configManager.config == LoadConfig(found)
      ensures stCfg.Valid()
      ensures stCfg.attrs["listen"] == LoadedListen(yaml) && stCfg.attrs["port"] == LoadedPort(yaml)
    {
      configManager := new ConfigManager(found);
      stCfg := new StCfg(cwd, yaml, whitelist);
    }

    /** `get_github_mirror`, defaulting to GitHub itself. */
    method GithubMirror() returns (url: Option<string>)
      ensures url == ConfiguredMirrorUrl(MirrorSetting(configManager.config))
    {
      var mirror := Mirror();
      url := ConfiguredMirrorUrl(mirror);
    }

    /** The `github.mirror` setting, `github` when unset. */
    method Mirror() returns (mirror: Value)
      ensures mirror == MirrorSetting(configManager.config)
    {
      mirror := configManager.Get("github.mirror", Str("github"));
    }

    /** `install_sillytavern`, with the `github.mirror` setting read once. */
    method Install(envOk: bool, dirExists: bool, answer: string, cloneRc: Option<int>, npmRc: Option<int>)
      returns (ran: seq<seq<string>>, outcome: InstallOutcome)
      ensures (ran, outcome) == InstallSteps(envOk, dirExists, answer, MirrorSetting(configManager.config), cloneRc, npmRc)
    {
      var mirror := Mirror();
      var steps := InstallSteps(envOk, dirExists, answer, mirror, cloneRc, npmRc);
      ran, outcome := steps.0, steps.1;
    }

    /** `start_sillytavern` once SillyTavern is installed: the arguments from the
        current `port` and `listen`. */
    method Start() returns (cmd: Option<seq<string>>)
      requires stCfg.Valid()
      ensures cmd == StartCommand(stCfg.attrs["port"], stCfg.attrs["listen"])
    {
      cmd := StartCommand(stCfg.attrs["port"], stCfg.attrs["listen"]);
    }

    /** `update_sillytavern`: `git pull`, then the same `npm install` as installing. */
    method Update(dirExists: bool, pullRc: Option<int>, npmRc: Option<int>)
      returns (ran: seq<seq<string>>, ok: bool)
      ensures !dirExists ==> ran == [] && !ok
      ensures dirExists ==> |ran| >= 1 && ran[0] == ["git", "pull"]
      ensures dirExists && !CommandSucceeded(pullRc) ==> |ran| == 1 && !ok
      ensures (dirExists && CommandSucceeded(pullRc)
               ==> ran == [["git", "pull"], NpmInstall(MirrorSetting(configManager.config))]
                   && (ok <==> CommandSucceeded(npmRc)))
    {
      if !dirExists {
        return [], false;
      }
      ran := [["git", "pull"]];
      if !CommandSucceeded(pullRc) {
        return ran, false;
      }
      var mirror := Mirror();
      ran := ran + [NpmInstall(mirror)];
      ok := CommandSucceeded(npmRc);
    }

    /** `set_github_mirror`: records the mirror and saves. */
    method SetGithubMirror(mirror: string)
      modifies configManager
      ensures configManager.config == SetPath(old(configManager.config), KeyPath("github.mirror"), Str(mirror))
      ensures configManager.file == Parsed(configManager.config)
    {
      configManager.Set("github.mirror", Str(mirror));
      configManager.Save();
    }

    /** `show_mirror_menu`: the line read is stripped; a numbered choice sets its
        mirror; `0` and anything else leave the settings alone. */
    method MirrorMenu(line: string) returns (r: MenuChoice)
      modifies configManager
      ensures r == ReadMenuChoice(Strip(line))
      ensures (r.SetMirror? ==> configManager.config == SetPath(old(configManager.config), KeyPath("github.mirror"), Str(r.mirror))
                                && configManager.file == Parsed(configManager.config))
      ensures !r.SetMirror? ==> configManager.config == old(configManager.config) && configManager.file == old(configManager.file)
    {
      r := ReadMenuChoice(Strip(line));
      if r.SetMirror? {
        SetGithubMirror(r.mirror);
      }
    }
  }

  /** After a menu choice, `get_github_mirror` gives that mirror's URL. */
  lemma MenuThenMirrorUrl(m: map<string, Value>, line: string)
    requires Strip(line) in MenuMirrors
    ensures var mirror := MenuMirrors[Strip(line)];
      ConfiguredMirrorUrl(MirrorSetting(SetPath(m, KeyPath("github.mirror"), Str(mirror)))) == Some(MirrorUrl(mirror))
  {
    GetAfterSet(m, KeyPath("github.mirror"), Str(MenuMirrors[Strip(line)]), Str("github"));
  }

  /** A choice typed with surrounding white space is still that choice: ` 2` picks
      `gh-proxy.com` like `2` does. */
  lemma PaddedChoice(w1: string, choice: string, w2: string)
    requires choice != [] && !IsSpace(choice[0]) && !IsSpace(choice[|choice| - 1])
    requires forall k :: 0 <= k < |w1| ==> IsSpace(w1[k])
    requires forall k :: 0 <= k < |w2| ==> IsSpace(w2[k])
    ensures ReadMenuChoice(Strip(w1 + choice + w2)) == ReadMenuChoice(choice)
  {
    StripSurrounded(w1, choice, w2);
  }

  /** With the default settings the clone goes through `gh-proxy.com` and `npm` uses
      the mirror registry. */
  lemma DefaultMirror()
    ensures MirrorSetting(DefaultConfig()) == Str("gh-proxy.com")
    ensures NpmMirror in NpmInstall(MirrorSetting(DefaultConfig()))
  {
    MirrorKey();
    DefaultMirrorEntry();
  }

  lemma DefaultMirrorEntry()
    ensures Lookup(Dict(DefaultConfig()), ["github", "mirror"], Str("github")) == Str("gh-proxy.com")
  {
    var c := DefaultConfig();
    assert c["github"] == Dict(map["mirror" := Str("gh-proxy.com")]);
  }

  lemma MirrorKey()
    ensures KeyPath("github.mirror") == ["github", "mirror"]
  {
    TwoPartKey("github.mirror", "github", "mirror");
  }
}
