/**
  The data-sync server (`SyncServer` in `src/sync_server.py`): the `/file` handler's
  path sanitising and status mapping, the `/manifest` and `/info` envelopes, the ZIP
  member list and the `running` flag behind `start` and `stop`.

  Paths follow POSIX: `os.path.join(root, p)` discards `root` when `p` starts with `/`,
  and the file system reads `a//b` and `a/./b` as `a/b`. The data directory and the
  rest of the host's file system are two `Tree`s; a directory exists when some file
  lies under it.
 */
module SyncServer {
  import opened Wrappers
  import opened Strings
  import opened Manifest

  /** Where a joined path lands: inside the data directory or elsewhere on the host. */
  datatype Location = InData(path: Path) | OnHost(path: Path)

  /** What `/file` answers: the file, or a JSON error with its HTTP status. */
  datatype FileReply = Sent(at: Location, stat: FileStat) | Refused(status: nat, error: string)

  /** Python's `s.replace('..', '')`: a left-to-right scan that drops non-overlapping pairs. */
  function RemoveDotDot(s: string): string {
    if |s| < 2 then s
    else if s[0] == '.' && s[1] == '.' then RemoveDotDot(s[2..])
    else [s[0]] + RemoveDotDot(s[1..])
  }

  /** A string that starts with anything but a dot keeps its first character. */
  lemma RemoveDotDotHead(s: string)
    requires s != [] && s[0] != '.'
    ensures RemoveDotDot(s) != [] && RemoveDotDot(s)[0] == s[0]
  {
  }

  /** A string without dots is left as it is. */
  lemma {:induction false} RemoveDotDotWithoutDots(s: string)
    requires '.' !in s
    ensures RemoveDotDot(s) == s
  {
    if |s| >= 2 {
      RemoveDotDotWithoutDots(s[1..]);
      assert [s[0]] + s[1..] == s;
    }
  }

  /** No two adjacent dots. */
  predicate NoDotDot(s: string) {
    forall i :: 0 <= i < |s| - 1 ==> !(s[i] == '.' && s[i + 1] == '.')
  }

  /** The sanitised path holds no `..`: every run of dots keeps at most one. */
  lemma {:induction false} SanitisedHasNoDotDot(s: string)
    ensures NoDotDot(RemoveDotDot(s))
    ensures !Contains(RemoveDotDot(s), "..")
  {
    var r := RemoveDotDot(s);
    if |s| >= 2 {
      if s[0] == '.' && s[1] == '.' {
        SanitisedHasNoDotDot(s[2..]);
      } else {
        SanitisedHasNoDotDot(s[1..]);
        var rest := RemoveDotDot(s[1..]);
        assert r == [s[0]] + rest;
        if s[0] == '.' {
          RemoveDotDotHead(s[1..]);
        }
        forall i | 0 <= i < |r| - 1 ensures !(r[i] == '.' && r[i + 1] == '.') {
          if i > 0 {
            assert r[i] == rest[i - 1] && r[i + 1] == rest[i];
          }
        }
      }
    }
    NoDotDotNotContains(r);
  }

  /** Without adjacent dots there is no `..` substring. */
  lemma NoDotDotNotContains(r: string)
    requires NoDotDot(r)
    ensures !Contains(r, "..")
  {
    forall i | 0 <= i <= |r| - 2 ensures !OccursAt(r, "..", i) {
      assert r[i..i + 2] == [r[i], r[i + 1]];
    }
  }

  /** The names of a split path that the file system does not skip. */
  function Segments(parts: seq<string>): (r: Path)
    ensures forall i :: 0 <= i < |r| ==> r[i] != "" && r[i] != "."
  {
    if parts == [] then []
    else (if parts[0] == "" || parts[0] == "." then [] else [parts[0]]) + Segments(parts[1..])
  }

  /** `os.path.join(data_path, p)` as the file system resolves it. */
  function Resolve(p: string): Location {
    if StartsWith(p, "/") then OnHost(Segments(Split(p, '/'))) else InData(Segments(Split(p, '/')))
  }

  predicate IsFile(t: Tree, p: Path) { p in t && t[p].readable }

  /** A directory exists when it is the root or some file lies beneath it. */
  predicate IsDir(t: Tree, p: Path) {
    p == [] || exists k | k in t :: |p| < |k| && k[..|p|] == p
  }

  function TreeAt(at: Location, data: Tree, host: Tree): Tree {
    if at.InData? then data else host
  }

  /** The part of `get_file` after sanitising: 404 for nothing there, 400 for a
      directory, the file otherwise. `shown` is the path the error text quotes. */
  function Serve(shown: string, at: Location, data: Tree, host: Tree): (r: FileReply)
    ensures r.Sent? ==> r.at == at && IsFile(TreeAt(at, data, host), at.path)
    ensures r.Refused? && r.status == 404 <==> !IsFile(TreeAt(at, data, host), at.path) && !IsDir(TreeAt(at, data, host), at.path)
    ensures r.Refused? ==> r.status == 404 || r.status == 400
  {
    var t := TreeAt(at, data, host);
    if !IsFile(t, at.path) && !IsDir(t, at.path) then Refused(404, "File not found: " + shown)
    else if !IsFile(t, at.path) then Refused(400, "Not a file: " + shown)
    else Sent(at, t[at.path])
  }

  /** `get_file` as written: a missing or empty parameter is refused with 400; otherwise
      every `..` is removed and the result joined to the data directory. */
  function GetFileAsWritten(param: Option<string>, data: Tree, host: Tree): (r: FileReply)
    ensures param.None? || param.value == "" ==> r == Refused(400, "Missing path parameter")
    ensures param.Some? && param.value != "" ==> r == Serve(RemoveDotDot(param.value), Resolve(RemoveDotDot(param.value)), data, host)
  {
    if param.None? || param.value == "" then Refused(400, "Missing path parameter")
    else
      var filePath := RemoveDotDot(param.value);
      Serve(filePath, Resolve(filePath), data, host)
  }

  /** A parameter with a leading `/` survives sanitising and leaves the data directory. */
  lemma AbsoluteParamEscapes(s: string)
    requires StartsWith(s, "/")
    ensures Resolve(RemoveDotDot(s)).OnHost?
  {
    assert s[0] == '/';
    RemoveDotDotHead(s);
  }

  /** `?path=/etc/passwd` is answered with the host's `/etc/passwd`. */
  lemma TraversalServesHostFile(data: Tree, st: FileStat)
    requires st.readable
    ensures GetFileAsWritten(Some("/etc/passwd"), data, map[["etc", "passwd"] := st])
      == Sent(OnHost(["etc", "passwd"]), st)
  {
    var s := "/etc/passwd";
    var host := map[["etc", "passwd"] := st];
    RemoveDotDotWithoutDots(s);
    EtcPasswdSegments();
    assert StartsWith(s, "/");
    assert Resolve(s) == OnHost(["etc", "passwd"]);
    assert IsFile(host, ["etc", "passwd"]);
    assert Serve(s, OnHost(["etc", "passwd"]), data, host) == Sent(OnHost(["etc", "passwd"]), st);
  }

  lemma EtcPasswdSegments()
    ensures Split("/etc/passwd", '/') == ["", "etc", "passwd"]
    ensures Segments(["", "etc", "passwd"]) == ["etc", "passwd"]
  {
    EtcPasswdSplit();
    assert Segments(["passwd"]) == ["passwd"];
  }

  lemma EtcPasswdSplit()
    ensures Split("/etc/passwd", '/') == ["", "etc", "passwd"]
  {
    SplitThree("", "etc", "passwd", '/');
    assert "" + ['/'] + "etc" + ['/'] + "passwd" == "/etc/passwd";
  }

  /** A file named `a..b`, which the manifest lists, is answered with 404. */
  lemma DotDotNameNotServed(st: FileStat)
    requires st.readable
    ensures GetFileAsWritten(Some("a..b"), map[["a..b"] := st], map[]) == Refused(404, "File not found: ab")
  {
    assert RemoveDotDot("a..b") == "ab" by {
      assert RemoveDotDot("b") == "b";
      assert RemoveDotDot("..b") == "b";
    }
    SplitNoSep("ab", '/');
    assert Segments(["ab"]) == ["ab"];
  }

  /** The names of a split path other than the ones that do not name a file:
      empty, `.` and `..`. */
  function SafeSegments(parts: seq<string>): (r: Path)
    ensures forall i :: 0 <= i < |r| ==> r[i] != "" && r[i] != "." && r[i] != ".."
  {
    if parts == [] then []
    else (if parts[0] in {"", ".", ".."} then [] else [parts[0]]) + SafeSegments(parts[1..])
  }

  /** The sanitiser `get_file` needs: the parameter's names without empty, `.` and `..`
      ones, always below the data directory. */
  function Confined(param: string): Path {
    SafeSegments(Split(param, '/'))
  }

  /** `get_file` with the confined sanitiser: every answer comes from the data directory. */
  function GetFile(param: Option<string>, data: Tree): (r: FileReply)
    ensures param.None? || param.value == "" ==> r == Refused(400, "Missing path parameter")
    ensures r.Sent? ==> r.at.InData? && IsFile(data, r.at.path) && r.stat == data[r.at.path]
  {
    if param.None? || param.value == "" then Refused(400, "Missing path parameter")
    else
      var p := Confined(param.value);
      Serve(Join(p, '/'), InData(p), data, map[])
  }

  /** Names that are all valid pass through the confined sanitiser unchanged. */
  lemma {:induction false} SafeSegmentsKeepsValid(parts: seq<string>)
    requires forall i :: 0 <= i < |parts| ==> ValidName(parts[i], '/')
    ensures SafeSegments(parts) == parts
  {
    if parts != [] {
      SafeSegmentsKeepsValid(parts[1..]);
      assert [parts[0]] + parts[1..] == parts;
    }
  }

  /** Every manifest path the server publishes is answered with that file. */
  lemma ManifestPathServed(data: Tree, sep: char, p: Path)
    requires WellFormed(data, sep)
    requires sep == '/' || sep == '\\'
    requires p in data && data[p].readable
    ensures GetFile(Some(RelPath(p, sep)), data) == Sent(InData(p), data[p])
  {
    RelPathRoundTrip(p, sep);
    SafeSegmentsKeepsValid(p);
    assert RelPath(p, sep) != "" by {
      assert Split("", '/') == [""];
      assert p != [""];
    }
  }

  /** `_create_zip`: one member per listed, readable file, named by its manifest path. */
  function ZipOf(walk: seq<Path>, tree: Tree, sep: char): seq<ZipMember>
    requires InTree(walk, tree)
  {
    if walk == [] then []
    else
      var p := walk[|walk| - 1];
      ZipOf(walk[..|walk| - 1], tree, sep)
        + (if Listed(p) && tree[p].readable then [ZipMember(RelPath(p, sep), tree[p].size)] else [])
  }

  /** The archive holds exactly the corrected manifest's files, in the same order and
      sizes. */
  lemma {:induction false} ZipMatchesManifest(walk: seq<Path>, tree: Tree, sep: char)
    requires InTree(walk, tree)
    ensures var z := ZipOf(walk, tree, sep); var m := Generated(walk, tree, sep);
      |z| == |m| && forall i :: 0 <= i < |z| ==> z[i].name == m[i].path && z[i].size == m[i].size
  {
    if walk != [] {
      ZipMatchesManifest(walk[..|walk| - 1], tree, sep);
    }
  }

  /** Against the source's manifest, each archive member's name matches its entry's
      path once the member's back-slashes are turned into slashes: on a POSIX host a
      file `a\b` is stored as `a\b` but listed as `a/b`. `GeneratedAgrees` says when
      the two are equal. */
  lemma ZipMatchesAsWritten(walk: seq<Path>, tree: Tree, sep: char)
    requires InTree(walk, tree)
    requires sep == '/' || sep == '\\'
    ensures var z := ZipOf(walk, tree, sep); var a := GeneratedAsWritten(walk, tree, sep);
      |z| == |a| && forall i :: 0 <= i < |z| ==> ReplaceChar(z[i].name, '\\', '/') == a[i].path && z[i].size == a[i].size
  {
    ZipMatchesManifest(walk, tree, sep);
    AsWrittenSlashes(walk, tree, sep);
  }

  /** The body of a successful `/manifest` answer. */
  datatype ManifestBody = ManifestBody(manifest: seq<Entry>, totalFiles: nat)

  /** The `server_info` object of `/info`. */
  datatype ServerInfo = ServerInfo(dataPath: string, port: int, host: string, running: bool, totalSize: nat, fileCount: nat)

  /** A `/manifest` answer: the manifest, or a 500 with the error text. */
  datatype ManifestReply = ManifestOk(body: ManifestBody) | ManifestFailed(status: nat, error: string)

  class SyncServer {
    const dataPath: string
    const port: int
    const host: string
    const sep: char
    /** The data directory being served. */
    var tree: Tree
    var running: bool
    /** How many times the Flask application has been launched. */
    var launches: nat

    constructor (dataPath: string, port: int, host: string, data: Tree, sep: char)
      ensures this.dataPath == dataPath && this.port == port && this.host == host && this.sep == sep
      ensures tree == data && !running && launches == 0
    {
      this.dataPath, this.port, this.host, this.sep := dataPath, port, host, sep;
      tree := data;
      running := false;
      launches := 0;
    }

    /** `SyncServer(...)`: raises (here: yields nothing) when the data path does not exist. */
    static method Create(dataPath: string, port: int, host: string, disk: map<string, Tree>, sep: char)
      returns (s: SyncServer?)
      ensures s != null <==> dataPath in disk
      ensures s != null ==> fresh(s) && s.tree == disk[dataPath] && !s.running && s.launches == 0
      ensures s != null ==> s.dataPath == dataPath && s.port == port && s.host == host && s.sep == sep
    {
      if dataPath !in disk {
        return null;
      }
      s := new SyncServer(dataPath, port, host, disk[dataPath], sep);
    }

    /** `/manifest`: the manifest and its length, or a 500 when building it raised. */
    method GetManifest(walk: seq<Path>, failure: Option<string>) returns (r: ManifestReply)
      requires IsWalk(walk, tree)
      ensures failure.Some? ==> r == ManifestFailed(500, failure.value)
      ensures failure.None? ==>
        (r.ManifestOk? && r.body.manifest == GeneratedAsWritten(walk, tree, sep) && r.body.totalFiles == |r.body.manifest|)
    {
      if failure.Some? {
        return ManifestFailed(500, failure.value);
      }
      var m := GenerateManifest(tree, walk, sep);
      r := ManifestOk(ManifestBody(m, |m|));
    }

    /** `/info`: the file count is the manifest's length, while the total size counts
        every readable file, so it is never below the manifest's byte total. */
    method GetInfo(walk: seq<Path>) returns (info: ServerInfo)
      requires IsWalk(walk, tree)
      ensures info.dataPath == dataPath && info.port == port && info.host == host && info.running == running
      ensures info.fileCount == |GeneratedAsWritten(walk, tree, sep)|
      ensures info.totalSize == SizeOf(walk, tree)
      ensures info.totalSize >= TotalOf(GeneratedAsWritten(walk, tree, sep))
    {
      var total := CalculateTotalSize(tree, walk);
      var m := GenerateManifest(tree, walk, sep);
      ManifestTotalAtMostSize(walk, tree, sep);
      info := ServerInfo(dataPath, port, host, running, total, |m|);
    }

    /** `_create_zip`'s loop. */
    method CreateZip(walk: seq<Path>) returns (members: seq<ZipMember>)
      requires IsWalk(walk, tree)
      ensures members == ZipOf(walk, tree, sep)
    {
      members := [];
      var i := 0;
      while i < |walk|
        invariant 0 <= i <= |walk|
        invariant members == ZipOf(walk[..i], tree, sep)
      {
        assert walk[..i + 1][..i] == walk[..i];
        var p := walk[i];
        if Listed(p) && tree[p].readable {
          members := members + [ZipMember(RelPath(p, sep), tree[p].size)];
        }
        i := i + 1;
      }
      assert walk[..|walk|] == walk;
    }

    /** `start`: does nothing when already running; otherwise launches the application
        once and sets `running`. */
    method Start()
      modifies this`running, this`launches
      ensures running
      ensures launches == if old(running) then old(launches) else old(launches) + 1
    {
      if running {
        return;
      }
      launches := launches + 1;
      running := true;
    }

    /** `stop`: clears `running`; the application already launched is not stopped. */
    method Stop()
      modifies this`running
      ensures !running
    {
      if running {
        running := false;
      }
    }
  }
}
