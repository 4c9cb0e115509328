/**
  The file manifest that both ends of the data sync build over a data directory
  (`SyncClient.get_local_manifest`, `SyncServer._generate_manifest`), and the
  unfiltered byte total the server reports in `/info` (`_calculate_total_size`).

  A data directory is a map from relative paths (lists of path components) to what
  `os.stat` says about the regular file there; directories are the strict prefixes of
  those paths. `os.walk` visits the files in an order the operating system chooses:
  it is passed in as `walk`, a list of the tree's paths without repetition.
 */
module Manifest {
  import opened Strings

  type Path = seq<string>

  /** What `os.stat` reports for one file; `readable` is false when the call raises. */
  datatype FileStat = FileStat(size: nat, mtime: real, readable: bool)

  /** Every regular file under the data root, keyed by its path components. */
  type Tree = map<Path, FileStat>

  /** One manifest record `{path, size, mtime, is_dir}` (the ISO `modified` text is left out). */
  datatype Entry = Entry(path: string, size: nat, mtime: real, isDir: bool)

  predicate Hidden(name: string) { StartsWith(name, ".") }

  predicate Temporary(name: string) { EndsWith(name, ".tmp") }

  /** The walk never enters a hidden directory, and skips hidden and `.tmp` file names. */
  predicate Listed(p: Path) {
    && |p| > 0
    && (forall i :: 0 <= i < |p| ==> !Hidden(p[i]))
    && !Temporary(p[|p| - 1])
  }

  /** A file name as a host with separator `sep` allows it: non-empty, not `.` or `..`,
      without a slash, and without a back-slash on a host that separates with one. A
      POSIX host (`sep == '/'`) allows back-slashes in names. */
  predicate ValidName(n: string, sep: char) {
    n != "" && n != "." && n != ".." && '/' !in n && (sep == '\\' ==> '\\' !in n)
  }

  predicate ValidPath(p: Path, sep: char) { |p| > 0 && forall i :: 0 <= i < |p| ==> ValidName(p[i], sep) }

  predicate WellFormed(tree: Tree, sep: char) { forall p :: p in tree ==> ValidPath(p, sep) }

  /** The manifest path as written: `os.path.relpath` joined with the host separator,
      then every back-slash turned into a slash, also one inside a POSIX file name. */
  function RelPathAsWritten(p: Path, sep: char): string {
    ReplaceChar(Join(p, sep), '\\', '/')
  }

  /** The manifest path with only the host separator turned into a slash, as `zipfile`
      does for member names: the normalisation the manifest evidently intends. */
  function RelPath(p: Path, sep: char): string {
    ReplaceChar(Join(p, sep), sep, '/')
  }

  /** The entry of the corrected manifest. */
  function EntryOf(p: Path, st: FileStat, sep: char): Entry {
    Entry(RelPath(p, sep), st.size, st.mtime, false)
  }

  /** The entry `_generate_manifest` and `get_local_manifest` append. */
  function EntryOfAsWritten(p: Path, st: FileStat, sep: char): Entry {
    Entry(RelPathAsWritten(p, sep), st.size, st.mtime, false)
  }

  /** `walk` lists every path of `tree` exactly once. */
  predicate IsWalk(walk: seq<Path>, tree: Tree) {
    && (forall i :: 0 <= i < |walk| ==> walk[i] in tree)
    && (forall p :: p in tree ==> p in walk)
    && (forall i, j :: 0 <= i < j < |walk| ==> walk[i] != walk[j])
  }

  predicate InTree(walk: seq<Path>, tree: Tree) {
    forall i :: 0 <= i < |walk| ==> walk[i] in tree
  }

  /** The manifest of the files visited in `walk`, in visiting order, as the source
      builds it: every back-slash of a relative path becomes a slash. */
  function GeneratedAsWritten(walk: seq<Path>, tree: Tree, sep: char): seq<Entry>
    requires InTree(walk, tree)
  {
    if walk == [] then []
    else
      var p := walk[|walk| - 1];
      GeneratedAsWritten(walk[..|walk| - 1], tree, sep)
        + (if Listed(p) && tree[p].readable then [EntryOfAsWritten(p, tree[p], sep)] else [])
  }

  /** The same manifest with only the host separator normalised: the corrected
      builder, which the lemmas below describe and `GeneratedAgrees` ties to the
      source's on Windows and on POSIX trees without back-slashes in names. */
  function Generated(walk: seq<Path>, tree: Tree, sep: char): seq<Entry>
    requires InTree(walk, tree)
  {
    if walk == [] then []
    else
      var p := walk[|walk| - 1];
      Generated(walk[..|walk| - 1], tree, sep)
        + (if Listed(p) && tree[p].readable then [EntryOf(p, tree[p], sep)] else [])
  }

  /** The sum of the sizes of every readable file visited, hidden or not. */
  function SizeOf(walk: seq<Path>, tree: Tree): nat
    requires InTree(walk, tree)
  {
    if walk == [] then 0
    else
      var p := walk[|walk| - 1];
      SizeOf(walk[..|walk| - 1], tree) + (if tree[p].readable then tree[p].size else 0)
  }

  /** The sum of the sizes of a list of entries. */
  function TotalOf(entries: seq<Entry>): nat {
    if entries == [] then 0 else TotalOf(entries[..|entries| - 1]) + entries[|entries| - 1].size
  }

  /** One archive member: its stored name (a directory ends in `/`) and its size. */
  datatype ZipMember = ZipMember(name: string, size: nat)

  /** The order in which `os.walk` visits the files: the operating system's choice, so
      any listing of the tree's paths without repetition. */
  method ChooseWalk(tree: Tree) returns (walk: seq<Path>)
    ensures IsWalk(walk, tree)
  {
    walk := [];
    var rest := tree.Keys;
    while rest != {}
      invariant rest <= tree.Keys
      invariant forall i :: 0 <= i < |walk| ==> walk[i] in tree && walk[i] !in rest
      invariant forall p :: p in tree ==> p in rest || p in walk
      invariant forall i, j :: 0 <= i < j < |walk| ==> walk[i] != walk[j]
      decreases |rest|
    {
      var p :| p in rest;
      walk := walk + [p];
      rest := rest - {p};
    }
  }

  /** Builds the manifest: the loop of `get_local_manifest` / `_generate_manifest`. */
  method GenerateManifest(tree: Tree, walk: seq<Path>, sep: char) returns (manifest: seq<Entry>)
    requires InTree(walk, tree)
    ensures manifest == GeneratedAsWritten(walk, tree, sep)
  {
    manifest := [];
    var i := 0;
    while i < |walk|
      invariant 0 <= i <= |walk|
      invariant manifest == GeneratedAsWritten(walk[..i], tree, sep)
    {
      var p := walk[i];
      assert walk[..i + 1][..i] == walk[..i] && walk[..i + 1][i] == p;
      if Listed(p) {
        var st := tree[p];
        if st.readable {
          manifest := manifest + [EntryOfAsWritten(p, st, sep)];
        }
      }
      i := i + 1;
    }
    assert walk[..|walk|] == walk;
  }

  /** `_calculate_total_size`: every file counts, hidden and temporary ones included. */
  method CalculateTotalSize(tree: Tree, walk: seq<Path>) returns (total: nat)
    requires IsWalk(walk, tree)
    ensures total == SizeOf(walk, tree)
  {
    total := 0;
    var i := 0;
    while i < |walk|
      invariant 0 <= i <= |walk|
      invariant total == SizeOf(walk[..i], tree)
    {
      assert walk[..i + 1][..i] == walk[..i];
      var st := tree[walk[i]];
      if st.readable {
        total := total + st.size;
      }
      i := i + 1;
    }
    assert walk[..|walk|] == walk;
  }

  /** Every manifest entry comes from a listed, readable file of the walk. */
  lemma {:induction false} GeneratedSound(walk: seq<Path>, tree: Tree, sep: char, e: Entry)
    requires InTree(walk, tree)
    requires e in Generated(walk, tree, sep)
    ensures exists p :: p in walk && p in tree && Listed(p) && tree[p].readable && e == EntryOf(p, tree[p], sep)
  {
    var p := walk[|walk| - 1];
    var front := walk[..|walk| - 1];
    if e in Generated(front, tree, sep) {
      GeneratedSound(front, tree, sep, e);
      var q :| q in front && q in tree && Listed(q) && tree[q].readable && e == EntryOf(q, tree[q], sep);
      assert q in walk;
    } else {
      assert p in walk;
    }
  }

  /** Every listed, readable file of the walk has its entry in the manifest. */
  lemma {:induction false} GeneratedComplete(walk: seq<Path>, tree: Tree, sep: char, p: Path)
    requires InTree(walk, tree)
    requires p in walk && Listed(p) && tree[p].readable
    ensures EntryOf(p, tree[p], sep) in Generated(walk, tree, sep)
  {
    var front := walk[..|walk| - 1];
    if p != walk[|walk| - 1] {
      assert p in front;
      GeneratedComplete(front, tree, sep, p);
    }
  }

  /** Every entry of the source's manifest comes from a listed, readable file of the walk. */
  lemma {:induction false} GeneratedAsWrittenSound(walk: seq<Path>, tree: Tree, sep: char, e: Entry)
    requires InTree(walk, tree)
    requires e in GeneratedAsWritten(walk, tree, sep)
    ensures exists p :: p in walk && p in tree && Listed(p) && tree[p].readable && e == EntryOfAsWritten(p, tree[p], sep)
  {
    var p := walk[|walk| - 1];
    var front := walk[..|walk| - 1];
    if e in GeneratedAsWritten(front, tree, sep) {
      GeneratedAsWrittenSound(front, tree, sep, e);
      var q :| q in front && q in tree && Listed(q) && tree[q].readable && e == EntryOfAsWritten(q, tree[q], sep);
      assert q in walk;
    } else {
      assert p in walk;
    }
  }

  /** Every listed, readable file of the walk has its entry in the source's manifest. */
  lemma {:induction false} GeneratedAsWrittenComplete(walk: seq<Path>, tree: Tree, sep: char, p: Path)
    requires InTree(walk, tree)
    requires p in walk && Listed(p) && tree[p].readable
    ensures EntryOfAsWritten(p, tree[p], sep) in GeneratedAsWritten(walk, tree, sep)
  {
    var front := walk[..|walk| - 1];
    if p != walk[|walk| - 1] {
      assert p in front;
      GeneratedAsWrittenComplete(front, tree, sep, p);
    }
  }

  /** With names the host allows and either host separator, the manifest path is the
      slash-joined path and splitting it at `/` gives the file's path back. */
  lemma RelPathRoundTrip(p: Path, sep: char)
    requires ValidPath(p, sep)
    requires sep == '/' || sep == '\\'
    ensures RelPath(p, sep) == Join(p, '/')
    ensures Split(RelPath(p, sep), '/') == p
  {
    if sep == '/' {
      ReplaceSame(Join(p, sep), sep);
    } else {
      NormalisedJoin(p, sep);
    }
    SplitOfJoin(p, '/');
  }

  /** On a POSIX host the file `a\b` at the top and the file `b` in directory `a` get
      the same manifest path as written, `a/b`. */
  lemma BackslashNamesCollide()
    ensures ValidPath(["a\\b"], '/') && ValidPath(["a", "b"], '/')
    ensures RelPathAsWritten(["a\\b"], '/') == "a/b"
    ensures RelPathAsWritten(["a", "b"], '/') == "a/b"
  {
    assert Join(["a", "b"], '/') == "a/b";
  }

  /** The two normalisations agree on every Windows path and on every POSIX path
      without a back-slash in a name: only those names tell them apart. */
  lemma AsWrittenAgrees(p: Path, sep: char)
    requires ValidPath(p, sep)
    requires sep == '/' || sep == '\\'
    requires sep == '\\' || forall i :: 0 <= i < |p| ==> '\\' !in p[i]
    ensures RelPathAsWritten(p, sep) == RelPath(p, sep)
  {
    NormalisedJoin(p, sep);
    RelPathRoundTrip(p, sep);
  }

  /** What a manifest holds, stated on the entries alone: no directory, no back-slash
      from a Windows host, and (for a well-formed tree) exactly the listed readable
      files, found again by splitting the entry's path at `/`. */
  lemma ManifestExact(walk: seq<Path>, tree: Tree, sep: char)
    requires IsWalk(walk, tree)
    requires WellFormed(tree, sep)
    requires sep == '/' || sep == '\\'
    ensures forall e :: e in Generated(walk, tree, sep) ==> !e.isDir && (sep == '\\' ==> '\\' !in e.path)
    ensures forall e :: e in Generated(walk, tree, sep) <==>
      var p := Split(e.path, '/');
      p in tree && Listed(p) && tree[p].readable && e == EntryOf(p, tree[p], sep)
  {
    var m := Generated(walk, tree, sep);
    forall e | e in m
      ensures !e.isDir && (sep == '\\' ==> '\\' !in e.path)
      ensures var p := Split(e.path, '/'); p in tree && Listed(p) && tree[p].readable && e == EntryOf(p, tree[p], sep)
    {
      GeneratedSound(walk, tree, sep, e);
      var q :| q in walk && q in tree && Listed(q) && tree[q].readable && e == EntryOf(q, tree[q], sep);
      RelPathRoundTrip(q, sep);
      if sep == '\\' {
        JoinFreeOf(q, '/', '\\');
      }
    }
    forall e: Entry | var p := Split(e.path, '/'); p in tree && Listed(p) && tree[p].readable && e == EntryOf(p, tree[p], sep)
      ensures e in m
    {
      GeneratedComplete(walk, tree, sep, Split(e.path, '/'));
    }
  }

  /** A join of parts free of `c`, with a separator other than `c`, is free of `c`. */
  lemma {:induction false} JoinFreeOf(parts: seq<string>, sep: char, c: char)
    requires sep != c
    requires forall i :: 0 <= i < |parts| ==> c !in parts[i]
    ensures c !in Join(parts, sep)
  {
    if |parts| > 1 {
      JoinFreeOf(parts[1..], sep, c);
    }
  }

  predicate DistinctPaths(m: seq<Entry>) {
    forall i, j :: 0 <= i < j < |m| ==> m[i].path != m[j].path
  }

  /** Distinct valid paths have distinct manifest paths. */
  lemma RelPathsDiffer(q: Path, p: Path, sep: char)
    requires ValidPath(q, sep) && ValidPath(p, sep) && q != p
    requires sep == '/' || sep == '\\'
    ensures RelPath(q, sep) != RelPath(p, sep)
  {
    RelPathRoundTrip(q, sep);
    RelPathRoundTrip(p, sep);
  }

  /** No two manifest entries share a path when the tree's names are valid. */
  lemma {:induction false} ManifestPathsDistinct(walk: seq<Path>, tree: Tree, sep: char)
    requires InTree(walk, tree)
    requires forall i, j :: 0 <= i < j < |walk| ==> walk[i] != walk[j]
    requires WellFormed(tree, sep)
    requires sep == '/' || sep == '\\'
    ensures DistinctPaths(Generated(walk, tree, sep))
  {
    if walk != [] {
      var p := walk[|walk| - 1];
      var front := walk[..|walk| - 1];
      ManifestPathsDistinct(front, tree, sep);
      var m0 := Generated(front, tree, sep);
      if Listed(p) && tree[p].readable {
        var m := m0 + [EntryOf(p, tree[p], sep)];
        forall i | 0 <= i < |m0| ensures m0[i].path != RelPath(p, sep) {
          GeneratedSound(front, tree, sep, m0[i]);
          var q :| q in front && q in tree && Listed(q) && tree[q].readable && m0[i] == EntryOf(q, tree[q], sep);
          var k :| 0 <= k < |front| && front[k] == q;
          assert walk[k] == q;
          assert q != p;
          RelPathsDiffer(q, p, sep);
        }
        assert Generated(walk, tree, sep) == m;
        forall i, j | 0 <= i < j < |m| ensures m[i].path != m[j].path {
          if j < |m0| {
            assert m[i] == m0[i] && m[j] == m0[j];
          } else {
            assert m[i] == m0[i];
          }
        }
      } else {
        assert Generated(walk, tree, sep) == m0;
      }
    }
  }

  /** The manifest's byte total, as built and as corrected, never exceeds the
      unfiltered total of `/info`. */
  lemma {:induction false} ManifestTotalAtMostSize(walk: seq<Path>, tree: Tree, sep: char)
    requires InTree(walk, tree)
    ensures TotalOf(Generated(walk, tree, sep)) <= SizeOf(walk, tree)
    ensures TotalOf(GeneratedAsWritten(walk, tree, sep)) <= SizeOf(walk, tree)
  {
    if walk != [] {
      var front := walk[..|walk| - 1];
      ManifestTotalAtMostSize(front, tree, sep);
      var p := walk[|walk| - 1];
      var m0 := Generated(front, tree, sep);
      var a0 := GeneratedAsWritten(front, tree, sep);
      if Listed(p) && tree[p].readable {
        var m := m0 + [EntryOf(p, tree[p], sep)];
        var a := a0 + [EntryOfAsWritten(p, tree[p], sep)];
        assert Generated(walk, tree, sep) == m && GeneratedAsWritten(walk, tree, sep) == a;
        assert m[..|m| - 1] == m0 && a[..|a| - 1] == a0;
        assert TotalOf(m) == TotalOf(m0) + tree[p].size;
        assert TotalOf(a) == TotalOf(a0) + tree[p].size;
      } else {
        assert Generated(walk, tree, sep) == m0 && GeneratedAsWritten(walk, tree, sep) == a0;
      }
    }
  }

  /** The source's manifest path is the corrected one with every remaining back-slash
      turned into a slash. */
  lemma AsWrittenOfCorrected(p: Path, sep: char)
    requires sep == '/' || sep == '\\'
    ensures RelPathAsWritten(p, sep) == ReplaceChar(RelPath(p, sep), '\\', '/')
  {
    var j := Join(p, sep);
    if sep == '/' {
      ReplaceSame(j, sep);
    } else {
      var once := ReplaceChar(j, '\\', '/');
      var twice := ReplaceChar(once, '\\', '/');
      assert forall i :: 0 <= i < |j| ==> twice[i] == once[i];
    }
  }

  /** The source's manifest lists the same files in the same order with the same sizes
      and times as the corrected one; only back-slashes in paths differ. */
  lemma {:induction false} AsWrittenSlashes(walk: seq<Path>, tree: Tree, sep: char)
    requires InTree(walk, tree)
    requires sep == '/' || sep == '\\'
    ensures var a := GeneratedAsWritten(walk, tree, sep); var m := Generated(walk, tree, sep);
      |a| == |m| && forall i :: 0 <= i < |a| ==> a[i] == m[i].(path := ReplaceChar(m[i].path, '\\', '/'))
  {
    if walk != [] {
      var front := walk[..|walk| - 1];
      AsWrittenSlashes(front, tree, sep);
      AsWrittenOfCorrected(walk[|walk| - 1], sep);
    }
  }

  /** No file name of the tree holds a back-slash. */
  predicate NoBackslashNames(tree: Tree) {
    forall p, i :: p in tree && 0 <= i < |p| ==> '\\' !in p[i]
  }

  /** On Windows, and on POSIX trees without a back-slash in a name, the source's
      manifest is the corrected one, so every lemma about `Generated` holds of it. */
  lemma {:induction false} GeneratedAgrees(walk: seq<Path>, tree: Tree, sep: char)
    requires InTree(walk, tree) && WellFormed(tree, sep)
    requires sep == '/' || sep == '\\'
    requires sep == '\\' || NoBackslashNames(tree)
    ensures GeneratedAsWritten(walk, tree, sep) == Generated(walk, tree, sep)
  {
    if walk != [] {
      var p := walk[|walk| - 1];
      GeneratedAgrees(walk[..|walk| - 1], tree, sep);
      AsWrittenAgrees(p, sep);
    }
  }

  /** On a POSIX host, the top-level file `a\b` and the file `b` in directory `a` are
      listed under the same path by the source's manifest. */
  lemma AsWrittenManifestCollides(st: FileStat)
    requires st.readable
    ensures var tree := map[["a\\b"] := st, ["a", "b"] := st];
      && WellFormed(tree, '/') && IsWalk([["a\\b"], ["a", "b"]], tree)
      && !DistinctPaths(GeneratedAsWritten([["a\\b"], ["a", "b"]], tree, '/'))
  {
    var tree := map[["a\\b"] := st, ["a", "b"] := st];
    var walk: seq<Path> := [["a\\b"], ["a", "b"]];
    BackslashNamesCollide();
    var p: Path := ["a\\b"];
    var q: Path := ["a", "b"];
    assert !StartsWith(p[0], ".") && !EndsWith(p[0], ".tmp");
    assert !StartsWith(q[0], ".") && !StartsWith(q[1], ".") && !EndsWith(q[1], ".tmp");
    assert Listed(p) && Listed(q);
    assert walk[..1] == [p] && walk[..1][..0] == [] && walk[1] == q && walk[0] == p;
    assert GeneratedAsWritten([p], tree, '/') == [EntryOfAsWritten(p, st, '/')];
    assert GeneratedAsWritten(walk, tree, '/')
      == [EntryOfAsWritten(["a\\b"], st, '/'), EntryOfAsWritten(["a", "b"], st, '/')];
    var g := GeneratedAsWritten(walk, tree, '/');
    assert g[0].path == "a/b" && g[1].path == "a/b";
  }
}
