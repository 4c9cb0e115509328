/**
  The system-environment probe of `src/sysenv.py` (`SysEnv`): finding `git.exe` and
  `node.exe` on the Windows `PATH`, deriving Git's installation root from the directory
  it was found in, and checking that a SillyTavern checkout is present. Paths follow
  Python's `ntpath`: both `\` and `/` separate, and `X:` is a drive.
 */
module SysEnv {
  import opened Wrappers
  import opened Strings

  predicate IsSep(c: char) { c == '\\' || c == '/' }

  /** The length of the drive `ntpath.splitdrive` takes off: two for `X:`, else none. */
  function DriveLength(p: string): (n: nat)
    ensures n <= |p|
  {
    if |p| >= 2 && p[1] == ':' then 2 else 0
  }

  /** The index just past the last separator of `p`, or 0 when it has none. */
  function AfterLastSep(p: string): (i: nat)
    ensures i <= |p|
    ensures i > 0 ==> IsSep(p[i - 1])
    ensures forall j :: i <= j < |p| ==> !IsSep(p[j])
  {
    if p == [] || IsSep(p[|p| - 1]) then |p| else AfterLastSep(p[..|p| - 1])
  }

  /** `s.rstrip('\\/')`. */
  function RStripSeps(s: string): (r: string)
    ensures |r| <= |s| && r == s[..|r|]
    ensures r != [] ==> !IsSep(r[|r| - 1])
    ensures forall i :: |r| <= i < |s| ==> IsSep(s[i])
  {
    if s != [] && IsSep(s[|s| - 1]) then RStripSeps(s[..|s| - 1]) else s
  }

  /** `ntpath.split`: the head keeps its drive and loses its trailing separators
      unless it is nothing but separators; the tail has no separator. */
  function SplitPath(p: string): (string, string) {
    var d := DriveLength(p);
    var rest := p[d..];
    var i := AfterLastSep(rest);
    var head := rest[..i];
    var stripped := RStripSeps(head);
    (p[..d] + (if stripped == "" then head else stripped), rest[i..])
  }

  function Dirname(p: string): string { SplitPath(p).0 }

  function Basename(p: string): string { SplitPath(p).1 }

  /** `ntpath.join(a, b)` for a `b` with neither a drive nor a leading separator. */
  function JoinPath(a: string, b: string): string {
    if DriveLength(a) == |a| || IsSep(a[|a| - 1]) then a + b else a + "\\" + b
  }

  /** How a `PATH` entry is stored: every trailing backslash replaced by one. */
  function Stored(entry: string): (s: string)
    ensures s != [] && s[|s| - 1] == '\\'
    ensures |s| >= 2 ==> s[|s| - 2] != '\\'
    ensures s[..|s| - 1] == RStripChar(entry, '\\')
  {
    RStripChar(entry, '\\') + "\\"
  }

  /** `get_git_root_dir`: no path gives no root; a path whose parent directory is
      named `cmd` or `bin` gives that directory's parent; any other path is its own
      root. */
  function GitRoot(gitPath: Option<string>): (r: Option<string>)
    ensures gitPath.None? || gitPath == Some("") ==> r.None?
    ensures r.Some? ==> gitPath.Some? && gitPath.value != ""
  {
    if gitPath.None? || gitPath.value == "" then None
    else
      var parent := Dirname(gitPath.value);
      if Basename(parent) == "cmd" || Basename(parent) == "bin" then Some(Dirname(parent))
      else Some(gitPath.value)
  }

  /** The first entry of `entries` that holds the executable `exe`. */
  function FirstFound(entries: seq<string>, exe: string, files: set<string>): (r: Option<nat>)
    ensures r.Some? ==> r.value < |entries| && JoinPath(entries[r.value], exe) in files
    ensures r.Some? ==> forall j :: 0 <= j < r.value ==> JoinPath(entries[j], exe) !in files
    ensures r.None? ==> forall j :: 0 <= j < |entries| ==> JoinPath(entries[j], exe) !in files
    decreases |entries|
  {
    if entries == [] then None
    else if JoinPath(entries[0], exe) in files then Some(0)
    else match FirstFound(entries[1..], exe, files)
      case None => None
      case Some(i) => Some(i + 1)
  }

  /** The outcome of one of the two checks: `True` or the message returned. */
  datatype Check = Passed | Failed(message: string)

  /** `checkSysEnv`'s answer: `True`, or which tool is missing. */
  datatype Verdict = Ready | Missing(message: string)

  const GitMissing: string := "Git is not installed on system"
  const NodeMissing: string := "Node.js is not installed on system"

  /** `check_system_git`, given whether `git --version` ran and succeeded. */
  function GitCheck(gitRuns: bool, pathVar: string, files: set<string>): (c: Check)
    ensures c.Passed? <==> gitRuns && FirstFound(Split(pathVar, ';'), "git.exe", files).Some?
    ensures c.Failed? ==> c.message == GitMissing
  {
    if !gitRuns then Failed(GitMissing)
    else if FirstFound(Split(pathVar, ';'), "git.exe", files).Some? then Passed
    else Failed(GitMissing)
  }

  /** `s.lstrip(c)` for one character `c`. */
  function LStripChar(s: string, c: char): (r: string)
    ensures |r| <= |s| && r == s[|s| - |r|..]
    ensures forall i :: 0 <= i < |s| - |r| ==> s[i] == c
    ensures r != [] ==> r[0] != c
  {
    if s != [] && s[0] == c then LStripChar(s[1..], c) else s
  }

  /** The version `node --version` printed, without white space or leading `v`s. */
  function NodeVersion(out: string): string { LStripChar(Strip(out), 'v') }

  /** `check_system_node`, given whether `node --version` ran and succeeded, what it
      printed and whether that version is older than 18.0.0. */
  function NodeCheck(nodeRuns: bool, out: string, tooOld: bool, pathVar: string, files: set<string>): (c: Check)
    ensures c.Passed? <==> nodeRuns && !tooOld && FirstFound(Split(pathVar, ';'), "node.exe", files).Some?
    ensures nodeRuns && tooOld ==> c == Failed("Node.js version " + NodeVersion(out) + " is too old, requires 18.x LTS or higher")
    ensures c.Failed? && !(nodeRuns && tooOld) ==> c.message == NodeMissing
  {
    if !nodeRuns then Failed(NodeMissing)
    else if tooOld then Failed("Node.js version " + NodeVersion(out) + " is too old, requires 18.x LTS or higher")
    else if FirstFound(Split(pathVar, ';'), "node.exe", files).Some? then Passed
    else Failed(NodeMissing)
  }

  /** `checkSysEnv`: ready only when both checks pass; a missing Git is reported
      ahead of a missing Node.js. */
  function Decide(git: Check, node: Check): (v: Verdict)
    ensures v == Ready <==> git.Passed? && node.Passed?
    ensures git.Failed? ==> v == Missing("System Git Not Found")
    ensures git.Passed? && node.Failed? ==> v == Missing("System Node Not Found")
  {
    if git.Passed? && node.Passed? then Ready
    else if !git.Passed? then Missing("System Git Not Found")
    else Missing("System Node Not Found")
  }

  class Env {
    const baseDir: string
    /** The SillyTavern directory, with a trailing backslash. */
    const stDir: string
    var systemGitPath: Option<string>
    var systemNodePath: Option<string>
    const gitrootDir: Option<string>

    /** `__init__`: nothing has been found yet, so there is no Git root either. */
    constructor (cwd: string)
      ensures baseDir == cwd && stDir == JoinPath(cwd, "SillyTavern\\")
      ensures systemGitPath.None? && systemNodePath.None?
      ensures gitrootDir.None?
    {
      baseDir := cwd;
      stDir := JoinPath(cwd, "SillyTavern\\");
      systemGitPath := None;
      systemNodePath := None;
      gitrootDir := GitRoot(None);
    }

    /** Walks the `PATH` entries in order and records the first that holds `exe`. */
    method Search(entries: seq<string>, exe: string, files: set<string>) returns (found: Option<string>)
      ensures found.None? <==> FirstFound(entries, exe, files).None?
      ensures found.Some? ==> found.value == Stored(entries[FirstFound(entries, exe, files).value])
    {
      var i := 0;
      while i < |entries|
        invariant 0 <= i <= |entries|
        invariant forall j :: 0 <= j < i ==> JoinPath(entries[j], exe) !in files
      {
        if JoinPath(entries[i], exe) in files {
          FirstFoundAt(entries, exe, files, i);
          return Some(Stored(entries[i]));
        }
        i := i + 1;
      }
      return None;
    }

    /** `check_system_git`: on success the directory found is remembered. */
    method CheckSystemGit(gitRuns: bool, pathVar: string, files: set<string>) returns (c: Check)
      modifies this`systemGitPath
      ensures c == GitCheck(gitRuns, pathVar, files)
      ensures c.Passed? ==> systemGitPath == Some(Stored(Split(pathVar, ';')[FirstFound(Split(pathVar, ';'), "git.exe", files).value]))
      ensures c.Failed? ==> systemGitPath == old(systemGitPath)
    {
      if !gitRuns {
        return Failed(GitMissing);
      }
      var found := Search(Split(pathVar, ';'), "git.exe", files);
      if found.Some? {
        systemGitPath := found;
        c := Passed;
      } else {
        c := Failed(GitMissing);
      }
    }

    /** `check_system_node`: on success the directory found is remembered. */
    method CheckSystemNode(nodeRuns: bool, out: string, tooOld: bool, pathVar: string, files: set<string>) returns (c: Check)
      modifies this`systemNodePath
      ensures c == NodeCheck(nodeRuns, out, tooOld, pathVar, files)
      ensures c.Passed? ==> systemNodePath == Some(Stored(Split(pathVar, ';')[FirstFound(Split(pathVar, ';'), "node.exe", files).value]))
      ensures c.Failed? ==> systemNodePath == old(systemNodePath)
    {
      if !nodeRuns {
        return Failed(NodeMissing);
      }
      if tooOld {
        return Failed("Node.js version " + NodeVersion(out) + " is too old, requires 18.x LTS or higher");
      }
      var found := Search(Split(pathVar, ';'), "node.exe", files);
      if found.Some? {
        systemNodePath := found;
        c := Passed;
      } else {
        c := Failed(NodeMissing);
      }
    }

    /** `checkSysEnv`: both checks run, Git first. */
    method CheckSysEnv(gitRuns: bool, nodeRuns: bool, out: string, tooOld: bool, pathVar: string, files: set<string>)
      returns (v: Verdict)
      modifies this`systemGitPath, this`systemNodePath
      ensures v == Decide(GitCheck(gitRuns, pathVar, files), NodeCheck(nodeRuns, out, tooOld, pathVar, files))
      ensures var entries := Split(pathVar, ';');
        systemGitPath == if GitCheck(gitRuns, pathVar, files).Passed?
          then Some(Stored(entries[FirstFound(entries, "git.exe", files).value])) else old(systemGitPath)
      ensures var entries := Split(pathVar, ';');
        systemNodePath == if NodeCheck(nodeRuns, out, tooOld, pathVar, files).Passed?
          then Some(Stored(entries[FirstFound(entries, "node.exe", files).value])) else old(systemNodePath)
    {
      var git := CheckSystemGit(gitRuns, pathVar, files);
      var node := CheckSystemNode(nodeRuns, out, tooOld, pathVar, files);
      v := Decide(git, node);
    }

    /** `get_git_root_dir` on the path found so far. */
    function GitRootDir(): (r: Option<string>)
      reads this
      ensures systemGitPath.None? ==> r.None?
    {
      GitRoot(systemGitPath)
    }

    /** `checkST`: the directory exists and holds `package.json` and `server.js` as
        files. */
    function CheckST(dirs: set<string>, files: set<string>): (ok: bool)
      ensures ok <==> (stDir in dirs || stDir in files)
                      && JoinPath(stDir, "package.json") in files
                      && JoinPath(stDir, "server.js") in files
    {
      if !(stDir in dirs || stDir in files) then false
      else if JoinPath(stDir, "package.json") !in files then false
      else JoinPath(stDir, "server.js") in files
    }

    /** `check_nodemodules`: the `node_modules` directory exists. */
    function CheckNodeModules(dirs: set<string>, files: set<string>): (ok: bool)
      ensures ok <==> JoinPath(stDir, "node_modules") in dirs || JoinPath(stDir, "node_modules") in files
    {
      JoinPath(stDir, "node_modules") in dirs || JoinPath(stDir, "node_modules") in files
    }
  }

  lemma {:induction false} FirstFoundAt(entries: seq<string>, exe: string, files: set<string>, i: nat)
    requires i < |entries| && JoinPath(entries[i], exe) in files
    requires forall j :: 0 <= j < i ==> JoinPath(entries[j], exe) !in files
    ensures FirstFound(entries, exe, files) == Some(i)
    decreases i
  {
    if i > 0 {
      FirstFoundAt(entries[1..], exe, files, i - 1);
    }
  }

  /** A `PATH` entry with any number of trailing backslashes is stored with exactly
      one. */
  lemma StoredEntry(dir: string, k: nat)
    requires dir != [] && dir[|dir| - 1] != '\\'
    ensures Stored(dir + Backslashes(k)) == dir + "\\"
  {
    var e := dir + Backslashes(k);
    var r := RStripChar(e, '\\');
    assert e[|dir| - 1] == dir[|dir| - 1];
    assert |r| >= |dir|;
    assert r == dir;
  }

  function Backslashes(k: nat): (s: string)
    ensures |s| == k && forall i :: 0 <= i < k ==> s[i] == '\\'
  {
    if k == 0 then "" else Backslashes(k - 1) + "\\"
  }

  /** Git found in `dir\cmd` or `dir\bin` (any trailing backslashes on the `PATH`
      entry) has its root at `dir`, drive and all. */
  lemma RootOfToolDir(dir: string, leaf: string, k: nat)
    requires leaf == "cmd" || leaf == "bin"
    requires DriveLength(dir) < |dir| && !IsSep(dir[|dir| - 1])
    ensures GitRoot(Some(Stored(dir + "\\" + leaf + Backslashes(k)))) == Some(dir)
  {
    var q := dir + "\\" + leaf;
    assert Plain(leaf) && leaf[2] != '\\';
    StoredEntry(q, k);
    assert dir + "\\" + leaf + Backslashes(k) == q + Backslashes(k);
    LeafOf(dir, leaf);
    DriveOf(dir, "\\" + leaf);
    DirnameOfTrailing(q);
  }

  /** Git found in a directory named other than `cmd` or `bin` has that directory,
      stored with its one trailing backslash, as its root. */
  lemma RootOfOtherDir(dir: string, leaf: string, k: nat)
    requires Plain(leaf) && leaf != "cmd" && leaf != "bin"
    requires DriveLength(dir) < |dir| && !IsSep(dir[|dir| - 1])
    ensures GitRoot(Some(Stored(dir + "\\" + leaf + Backslashes(k)))) == Some(dir + "\\" + leaf + "\\")
  {
    var q := dir + "\\" + leaf;
    StoredEntry(q, k);
    assert dir + "\\" + leaf + Backslashes(k) == q + Backslashes(k);
    LeafOf(dir, leaf);
    DriveOf(dir, "\\" + leaf);
    DirnameOfTrailing(q);
  }

  /** A separator after the first character leaves the drive as it was. */
  lemma DriveOf(dir: string, ext: string)
    requires dir != [] && ext != [] && IsSep(ext[0])
    ensures DriveLength(dir + ext) == DriveLength(dir)
  {
    if |dir| == 1 {
      assert (dir + ext)[1] == ext[0];
    } else {
      assert (dir + ext)[1] == dir[1];
    }
  }

  /** A path ending in a separator has the rest of it as its directory. */
  lemma DirnameOfTrailing(q: string)
    requires DriveLength(q) < |q| && !IsSep(q[|q| - 1])
    requires DriveLength(q + "\\") == DriveLength(q)
    ensures Dirname(q + "\\") == q
  {
    var p := q + "\\";
    var d := DriveLength(q);
    var rest := p[d..];
    assert rest == q[d..] + "\\";
    AfterLastSepAt(rest, |rest|);
    RStripSepsAt(rest, |rest| - 1);
    assert rest[..|rest| - 1] == q[d..];
    assert p[..d] + q[d..] == q;
  }

  predicate Plain(name: string) { name != [] && forall i :: 0 <= i < |name| ==> !IsSep(name[i]) }

  /** `dir\leaf` splits into `dir` and `leaf`. */
  lemma LeafOf(dir: string, leaf: string)
    requires Plain(leaf)
    requires DriveLength(dir) < |dir| && !IsSep(dir[|dir| - 1])
    ensures Basename(dir + "\\" + leaf) == leaf && Dirname(dir + "\\" + leaf) == dir
  {
    var q := dir + "\\" + leaf;
    DriveOf(dir, "\\" + leaf);
    assert q == dir + ("\\" + leaf);
    var d := DriveLength(dir);
    var rest := q[d..];
    var i := |rest| - |leaf|;
    assert rest == dir[d..] + "\\" + leaf;
    assert rest[..i] == dir[d..] + "\\" && rest[i..] == leaf;
    LeafSplit(rest, dir[d..], leaf);
    assert q[..d] + dir[d..] == dir;
  }

  lemma LeafSplit(rest: string, front: string, leaf: string)
    requires Plain(leaf) && front != [] && !IsSep(front[|front| - 1])
    requires rest == front + "\\" + leaf
    ensures AfterLastSep(rest) == |front| + 1
    ensures RStripSeps(rest[..|front| + 1]) == front
  {
    var i := |front| + 1;
    assert rest[i - 1] == '\\';
    assert forall j :: i <= j < |rest| ==> rest[j] == leaf[j - i];
    AfterLastSepAt(rest, i);
    var head := rest[..i];
    assert head == front + "\\";
    RStripSepsAt(head, i - 1);
    assert head[..i - 1] == front;
  }

  /** `AfterLastSep` is pinned down by a separator with none after it. */
  lemma AfterLastSepAt(p: string, k: nat)
    requires 0 < k <= |p| && IsSep(p[k - 1])
    requires forall j :: k <= j < |p| ==> !IsSep(p[j])
    ensures AfterLastSep(p) == k
  {
  }

  /** `RStripSeps` is pinned down by a non-separator with only separators after it. */
  lemma RStripSepsAt(s: string, k: nat)
    requires 0 < k <= |s| && !IsSep(s[k - 1])
    requires forall j :: k <= j < |s| ==> IsSep(s[j])
    ensures RStripSeps(s) == s[..k]
  {
  }
}
