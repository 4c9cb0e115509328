/**
  The data-sync client (`SyncClient` in `src/sync_client.py`): the incremental sync
  that deletes stale files and then fetches new and newer ones, the full ZIP sync with
  its backup and restore, and the `sync` driver that falls back from one strategy to
  the other.

  The local data directory is a `Tree` that the client's methods update in place; the
  backup directories beside it are a map from the backup's time stamp to the copy.
  Everything the server answers, and every I/O failure, is an input.
 */
module SyncClient {
  import opened Wrappers
  import opened Strings
  import opened Manifest
  import opened SyncPlan

  /** The data-directory file a manifest or archive path names. */
  function Key(path: string): Path { Split(path, '/') }

  predicate IsDirMember(m: ZipMember) { EndsWith(m.name, "/") }

  datatype Strategy = Zip | Incremental

  /** What one ZIP attempt meets: the backup's time stamp and whether copying succeeds,
      the archive (`None` when the download fails), the index of the member whose
      extraction raises (if any), whether the restore's copy succeeds, and the clock. */
  datatype ZipAttempt = ZipAttempt(
    stamp: string, backupCopyOk: bool,
    archive: Option<seq<ZipMember>>, failAt: Option<nat>,
    restoreCopyOk: bool, now: real)

  /** The removals of the incremental sync: each path not in `fails` is removed. */
  function ApplyDeletes(tree: Tree, paths: seq<string>, fails: set<string>): Tree {
    if paths == [] then tree
    else
      var t := ApplyDeletes(tree, paths[..|paths| - 1], fails);
      var p := paths[|paths| - 1];
      if p in fails then t else t - {Key(p)}
  }

  /** How one download fails. `Refused`: the request, or creating the directory, raises
      before the file is opened, and nothing is written. `BrokenAfterOpen`: the file has
      been opened for writing (and so emptied), `written` bytes landed, then the stream
      or setting the mtime raised; the file keeps the time of the write, `now`. */
  datatype FetchFailure = Refused | BrokenAfterOpen(written: nat, now: real)

  /** The download of `e` opens the local file: it succeeds or fails after the open. */
  predicate Writes(fails: map<string, FetchFailure>, path: string) {
    path !in fails || fails[path].BrokenAfterOpen?
  }

  /** The directory after downloading `e`, as `_download_file` leaves it. */
  function Downloaded(tree: Tree, e: Entry, fails: map<string, FetchFailure>): Tree {
    if e.path !in fails then tree[Key(e.path) := FileStat(e.size, e.mtime, true)]
    else match fails[e.path]
      case Refused => tree
      case BrokenAfterOpen(written, now) => tree[Key(e.path) := FileStat(written, now, true)]
  }

  /** The downloads, in order; a failure of one only affects that file. */
  function ApplyDownloads(tree: Tree, files: seq<Entry>, fails: map<string, FetchFailure>): Tree {
    if files == [] then tree
    else Downloaded(ApplyDownloads(tree, files[..|files| - 1], fails), files[|files| - 1], fails)
  }

  /** What the incremental sync does to the data directory once it has a remote manifest. */
  function Executed(tree: Tree, remote: seq<Entry>, local: seq<Entry>, removeFails: set<string>, fetchFails: map<string, FetchFailure>): Tree {
    var deleted := ApplyDeletes(tree, DeletePlan(LocalKeys(local), remote), removeFails);
    ApplyDownloads(deleted, DownloadPlan(remote, Index(local)), fetchFails)
  }

  /** Extraction over the existing directory: directory members are skipped, every file
      is written with the extraction time, and nothing already there is removed. */
  function Extracted(tree: Tree, members: seq<ZipMember>, now: real): Tree {
    if members == [] then tree
    else
      var t := Extracted(tree, members[..|members| - 1], now);
      var m := members[|members| - 1];
      if IsDirMember(m) then t else t[Key(m.name) := FileStat(m.size, now, true)]
  }

  predicate ExtractionFails(members: seq<ZipMember>, failAt: Option<nat>) {
    failAt.Some? && failAt.value < |members| && !IsDirMember(members[failAt.value])
  }

  /** The directory after a failed attempt, before any restore: what was extracted so far. */
  function Partial(tree: Tree, z: ZipAttempt): Tree {
    if z.archive.None? then tree
    else if ExtractionFails(z.archive.value, z.failAt) then Extracted(tree, z.archive.value[..z.failAt.value], z.now)
    else Extracted(tree, z.archive.value, z.now)
  }

  /** An empty (or missing) directory needs no backup; otherwise the copy must succeed
      and the time-stamped target must not exist yet. */
  predicate BackupSucceeds(tree: Tree, backups: map<string, Tree>, stamp: string, copyOk: bool) {
    tree == map[] || (stamp !in backups && copyOk)
  }

  /** The directory after `_restore_backup`: unchanged without a recorded, existing backup;
      otherwise removed and copied back, and left missing if the copy fails. */
  function Restored(tree: Tree, backups: map<string, Tree>, last: Option<string>, copyOk: bool): Tree {
    if last.Some? && last.value in backups then (if copyOk then backups[last.value] else map[]) else tree
  }

  predicate IncrementalSucceeds(remote: Option<seq<Entry>>) {
    remote.Some? && remote.value != []
  }

  predicate ZipSucceeds(backup: bool, tree: Tree, backups: map<string, Tree>, z: ZipAttempt) {
    && (!backup || BackupSucceeds(tree, backups, z.stamp, z.backupCopyOk))
    && z.archive.Some?
    && !ExtractionFails(z.archive.value, z.failAt)
  }

  function Preferred(preferZip: bool): Strategy {
    if preferZip then Zip else Incremental
  }

  /** What one ZIP attempt leaves behind: the directory, the backups and the recorded
      backup. A failed backup leaves everything as it was; otherwise a non-empty
      directory is backed up when asked, the archive is extracted over the directory,
      and a failed attempt restores the recorded backup when a backup was asked for. */
  function ZipEffect(backup: bool, tree: Tree, backups: map<string, Tree>, last: Option<string>, z: ZipAttempt)
    : (Tree, map<string, Tree>, Option<string>)
  {
    if backup && !BackupSucceeds(tree, backups, z.stamp, z.backupCopyOk) then (tree, backups, last)
    else
      var made := backup && tree != map[];
      var b := if made then backups[z.stamp := tree] else backups;
      var l := if made then Some(z.stamp) else last;
      if ZipSucceeds(backup, tree, backups, z) then (Extracted(tree, z.archive.value, z.now), b, l)
      else if backup then (Restored(Partial(tree, z), b, l, z.restoreCopyOk), b, l)
      else (Partial(tree, z), b, l)
  }

  /** The directory after an incremental sync: unchanged without a non-empty remote
      manifest, otherwise the plan against some walk of the directory, carried out. */
  ghost predicate IncrementalEffect(before: Tree, after: Tree, sep: char, remote: Option<seq<Entry>>,
                                    removeFails: set<string>, fetchFails: map<string, FetchFailure>)
  {
    if !IncrementalSucceeds(remote) then after == before
    else
      exists walk ::
        (IsWalk(walk, before) &&
         after == Executed(before, remote.value, GeneratedAsWritten(walk, before, sep), removeFails, fetchFails))
  }

  /** What `sync` does to the directory `t0`, the backups `b0` and the recorded backup
      `l0`, leaving `t1`, `b1` and `l1`: nothing without a healthy server; otherwise
      the preferred strategy and, when it fails, the other one on what it left. */
  ghost predicate SyncEffect(preferZip: bool, backup: bool, healthy: bool, remote: Option<seq<Entry>>,
                             removeFails: set<string>, fetchFails: map<string, FetchFailure>, z: ZipAttempt, sep: char,
                             t0: Tree, b0: map<string, Tree>, l0: Option<string>,
                             t1: Tree, b1: map<string, Tree>, l1: Option<string>)
  {
    if !healthy then t1 == t0 && b1 == b0 && l1 == l0
    else if preferZip then
      var zr := ZipEffect(backup, t0, b0, l0, z);
      && b1 == zr.1 && l1 == zr.2
      && if ZipSucceeds(backup, t0, b0, z) then t1 == zr.0
         else IncrementalEffect(zr.0, t1, sep, remote, removeFails, fetchFails)
    else if IncrementalSucceeds(remote) then
      IncrementalEffect(t0, t1, sep, remote, removeFails, fetchFails) && b1 == b0 && l1 == l0
    else (t1, b1, l1) == ZipEffect(backup, t0, b0, l0, z)
  }

  class SyncClient {
    /** The local data directory. */
    var tree: Tree
    /** The `<data_path>.backup.<stamp>` directories on disk. */
    var backups: map<string, Tree>
    /** `_last_backup_path`, absent until a backup is recorded. */
    var lastBackup: Option<string>
    /** The host's path separator (`os.sep`). */
    const sep: char

    /** The client over an existing data directory, with no backup recorded yet. */
    constructor (data: Tree, disk: map<string, Tree>, sep: char)
      ensures tree == data && backups == disk && lastBackup == None && this.sep == sep
    {
      tree := data;
      backups := disk;
      lastBackup := None;
      this.sep := sep;
    }

    /** `get_local_manifest`: the manifest of the directory in some `os.walk` order. */
    method LocalManifest() returns (manifest: seq<Entry>)
      ensures exists walk :: IsWalk(walk, tree) && manifest == GeneratedAsWritten(walk, tree, sep)
    {
      var walk := ChooseWalk(tree);
      manifest := GenerateManifest(tree, walk, sep);
    }

    /** `_download_file`: on success the file holds the remote size and mtime; a failure
        before the file is opened writes nothing; a failure after it leaves the bytes
        written so far with the write time as mtime. Nothing else changes. */
    method DownloadFile(e: Entry, fails: map<string, FetchFailure>) returns (ok: bool)
      modifies this`tree
      ensures ok == (e.path !in fails)
      ensures ok ==> tree == old(tree)[Key(e.path) := FileStat(e.size, e.mtime, true)]
      ensures !ok && fails[e.path].Refused? ==> tree == old(tree)
      ensures !ok && fails[e.path].BrokenAfterOpen? ==>
        tree == old(tree)[Key(e.path) := FileStat(fails[e.path].written, fails[e.path].now, true)]
    {
      if e.path !in fails {
        tree := tree[Key(e.path) := FileStat(e.size, e.mtime, true)];
        return true;
      }
      match fails[e.path] {
        case Refused =>
        case BrokenAfterOpen(written, now) =>
          tree := tree[Key(e.path) := FileStat(written, now, true)];
      }
      return false;
    }

    /** `sync_incremental`: without a non-empty remote manifest nothing changes and the
        result is false; otherwise every planned deletion runs, then every planned
        download, a failure of either only skips that file, and the result is true. */
    method SyncIncremental(remote: Option<seq<Entry>>, removeFails: set<string>, fetchFails: map<string, FetchFailure>)
      returns (ok: bool)
      modifies this`tree
      ensures ok == IncrementalSucceeds(remote)
      ensures !ok ==> tree == old(tree)
      ensures ok ==> exists walk ::
        (IsWalk(walk, old(tree)) &&
         tree == Executed(old(tree), remote.value, GeneratedAsWritten(walk, old(tree), sep), removeFails, fetchFails))
    {
      var walk := ChooseWalk(tree);
      var local := GenerateManifest(tree, walk, sep);
      if remote.None? || remote.value == [] {
        return false;
      }
      var toDownload, toDelete, _ := Plan(remote.value, local);
      if toDownload == [] && toDelete == [] {
        return true;
      }
      ghost var t0 := tree;
      RemoveFiles(toDelete, removeFails);
      DownloadFiles(toDownload, fetchFails);
      assert IsWalk(walk, t0) && tree == Executed(t0, remote.value, GeneratedAsWritten(walk, t0, sep), removeFails, fetchFails);
      return true;
    }

    /** The deletion pass of `sync_incremental`: each planned path is removed, and a
        removal that fails is skipped. */
    method RemoveFiles(toDelete: seq<string>, removeFails: set<string>)
      modifies this`tree
      ensures tree == ApplyDeletes(old(tree), toDelete, removeFails)
    {
      var i := 0;
      while i < |toDelete|
        invariant 0 <= i <= |toDelete|
        invariant tree == ApplyDeletes(old(tree), toDelete[..i], removeFails)
      {
        assert toDelete[..i + 1][..i] == toDelete[..i];
        if toDelete[i] !in removeFails {
          tree := tree - {Key(toDelete[i])};
        }
        i := i + 1;
      }
      assert toDelete[..|toDelete|] == toDelete;
    }

    /** The download pass of `sync_incremental`: each planned file is fetched in order,
        and a failed request is skipped. */
    method DownloadFiles(toDownload: seq<Entry>, fetchFails: map<string, FetchFailure>)
      modifies this`tree
      ensures tree == ApplyDownloads(old(tree), toDownload, fetchFails)
    {
      var i := 0;
      while i < |toDownload|
        invariant 0 <= i <= |toDownload|
        invariant tree == ApplyDownloads(old(tree), toDownload[..i], fetchFails)
      {
        assert toDownload[..i + 1][..i] == toDownload[..i];
        var _ := DownloadFile(toDownload[i], fetchFails);
        i := i + 1;
      }
      assert toDownload[..|toDownload|] == toDownload;
    }

    /** `_backup_existing_data`. */
    method BackupExistingData(stamp: string, copyOk: bool) returns (ok: bool)
      modifies this`backups, this`lastBackup
      ensures ok == BackupSucceeds(tree, old(backups), stamp, copyOk)
      ensures ok && tree != map[] ==> backups == old(backups)[stamp := tree] && lastBackup == Some(stamp)
      ensures !(ok && tree != map[]) ==> backups == old(backups) && lastBackup == old(lastBackup)
    {
      if tree == map[] {
        return true;
      }
      if stamp in backups || !copyOk {
        return false;
      }
      backups := backups[stamp := tree];
      lastBackup := Some(stamp);
      return true;
    }

    /** `_restore_backup`: false when no backup was recorded or it has gone; otherwise the
        directory is replaced by the backup, and the result says whether the copy worked. */
    method RestoreBackup(copyOk: bool) returns (ok: bool)
      modifies this`tree
      ensures ok == (lastBackup.Some? && lastBackup.value in backups && copyOk)
      ensures tree == Restored(old(tree), backups, lastBackup, copyOk)
    {
      if lastBackup.None? {
        return false;
      }
      var path := lastBackup.value;
      if path !in backups {
        return false;
      }
      tree := map[];
      if !copyOk {
        return false;
      }
      tree := backups[path];
      return true;
    }

    /** `_extract_zip_with_progress`, stopping at the member whose extraction raises. */
    method ExtractArchive(members: seq<ZipMember>, failAt: Option<nat>, now: real) returns (ok: bool)
      modifies this`tree
      ensures ok == !ExtractionFails(members, failAt)
      ensures tree == Extracted(old(tree), if ok then members else members[..failAt.value], now)
    {
      var i := 0;
      while i < |members|
        invariant 0 <= i <= |members|
        invariant tree == Extracted(old(tree), members[..i], now)
        invariant forall j :: 0 <= j < i ==> !(failAt == Some(j) && !IsDirMember(members[j]))
      {
        assert members[..i + 1][..i] == members[..i];
        var m := members[i];
        if !EndsWith(m.name, "/") {
          if failAt == Some(i) {
            return false;
          }
          tree := tree[Key(m.name) := FileStat(m.size, now, true)];
        }
        i := i + 1;
      }
      assert members[..|members|] == members;
      return true;
    }

    /** `sync_full_zip`. A failed backup aborts before any download; a failed download or
        extraction restores the last recorded backup when a backup was asked for. */
    method SyncFullZip(backup: bool, z: ZipAttempt) returns (ok: bool)
      modifies this
      ensures ok == ZipSucceeds(backup, old(tree), old(backups), z)
      ensures ok ==> tree == Extracted(old(tree), z.archive.value, z.now)
      ensures backup && !BackupSucceeds(old(tree), old(backups), z.stamp, z.backupCopyOk) ==>
        tree == old(tree) && backups == old(backups) && lastBackup == old(lastBackup)
      ensures var made := backup && old(tree) != map[] && BackupSucceeds(old(tree), old(backups), z.stamp, z.backupCopyOk);
        && backups == (if made then old(backups)[z.stamp := old(tree)] else old(backups))
        && lastBackup == (if made then Some(z.stamp) else old(lastBackup))
      ensures !ok && (!backup || BackupSucceeds(old(tree), old(backups), z.stamp, z.backupCopyOk)) ==>
        tree == if backup then Restored(Partial(old(tree), z), backups, lastBackup, z.restoreCopyOk)
                else Partial(old(tree), z)
      ensures (!ok && backup && old(tree) != map[] && z.restoreCopyOk &&
               BackupSucceeds(old(tree), old(backups), z.stamp, z.backupCopyOk)) ==> tree == old(tree)
      ensures (tree, backups, lastBackup) == ZipEffect(backup, old(tree), old(backups), old(lastBackup), z)
    {
      if backup {
        var saved := BackupExistingData(z.stamp, z.backupCopyOk);
        if !saved {
          return false;
        }
      }
      if z.archive.None? {
        ok := false;
      } else {
        ok := ExtractArchive(z.archive.value, z.failAt, z.now);
      }
      if !ok && backup {
        var _ := RestoreBackup(z.restoreCopyOk);
      }
    }

    /** `sync`: nothing is tried when the health check fails; otherwise the preferred
        strategy, and the other one exactly once if the first reports failure. */
    method Sync(preferZip: bool, backup: bool, healthy: bool, remote: Option<seq<Entry>>,
                removeFails: set<string>, fetchFails: map<string, FetchFailure>, z: ZipAttempt)
      returns (ok: bool, tried: seq<Strategy>)
      modifies this
      ensures !healthy ==> tried == [] && tree == old(tree) && backups == old(backups) && lastBackup == old(lastBackup)
      ensures healthy ==> 1 <= |tried| <= 2 && tried[0] == Preferred(preferZip)
      ensures healthy && tried[0] == Zip ==> (|tried| == 2 <==> !ZipSucceeds(backup, old(tree), old(backups), z))
      ensures healthy && tried[0] == Incremental ==> (|tried| == 2 <==> !IncrementalSucceeds(remote))
      ensures |tried| == 2 ==> tried[1] != tried[0]
      ensures ok <==> healthy && (IncrementalSucceeds(remote) || ZipSucceeds(backup, old(tree), old(backups), z))
      ensures healthy && preferZip ==>
        var zr := ZipEffect(backup, old(tree), old(backups), old(lastBackup), z);
        && backups == zr.1 && lastBackup == zr.2
        && if ZipSucceeds(backup, old(tree), old(backups), z) then tree == zr.0
           else IncrementalEffect(zr.0, tree, sep, remote, removeFails, fetchFails)
      ensures healthy && !preferZip ==>
        if IncrementalSucceeds(remote)
        then IncrementalEffect(old(tree), tree, sep, remote, removeFails, fetchFails)
             && backups == old(backups) && lastBackup == old(lastBackup)
        else (tree, backups, lastBackup) == ZipEffect(backup, old(tree), old(backups), old(lastBackup), z)
      ensures SyncEffect(preferZip, backup, healthy, remote, removeFails, fetchFails, z, sep,
                         old(tree), old(backups), old(lastBackup), tree, backups, lastBackup)
    {
      if !healthy {
        return false, [];
      }
      if preferZip {
        ok := SyncFullZip(backup, z);
        tried := [Zip];
        if !ok {
          ok := SyncIncremental(remote, removeFails, fetchFails);
          tried := tried + [Incremental];
        }
      } else {
        ok := SyncIncremental(remote, removeFails, fetchFails);
        tried := [Incremental];
        if !ok {
          ok := SyncFullZip(backup, z);
          tried := tried + [Zip];
        }
      }
    }
  }

  /** Two manifest paths that name the same file are the same path. */
  lemma KeyInjective(a: string, b: string)
    requires Key(a) == Key(b)
    ensures a == b
  {
    JoinOfSplit(a, '/');
    JoinOfSplit(b, '/');
  }

  /** `p` is among `paths` and its removal does not fail. */
  predicate Removed(paths: seq<string>, fails: set<string>, k: Path) {
    exists p :: p in paths && p !in fails && Key(p) == k
  }

  /** The deletions remove exactly the files of the paths whose removal succeeds, and
      leave every other file as it was. */
  lemma {:induction false} DeletesRemoveExactly(tree: Tree, paths: seq<string>, fails: set<string>)
    ensures forall k :: k in ApplyDeletes(tree, paths, fails) <==> k in tree && !Removed(paths, fails, k)
    ensures forall k :: k in ApplyDeletes(tree, paths, fails) ==> ApplyDeletes(tree, paths, fails)[k] == tree[k]
  {
    if paths != [] {
      var front := paths[..|paths| - 1];
      DeletesRemoveExactly(tree, front, fails);
      assert paths == front + [paths[|paths| - 1]];
      forall k ensures Removed(paths, fails, k) <==> Removed(front, fails, k) || (paths[|paths| - 1] !in fails && Key(paths[|paths| - 1]) == k) {
        if Removed(paths, fails, k) {
          var p :| p in paths && p !in fails && Key(p) == k;
          if p != paths[|paths| - 1] {
            assert p in front;
          }
        }
      }
    }
  }

  /** Some file among `files` whose download opens the local file writes `k`. */
  predicate Fetched(files: seq<Entry>, fails: map<string, FetchFailure>, k: Path) {
    exists e :: e in files && Writes(fails, e.path) && Key(e.path) == k
  }

  /** With distinct paths, a file whose request succeeds is present with the remote
      size and mtime. */
  lemma {:induction false} DownloadLands(tree: Tree, files: seq<Entry>, fails: map<string, FetchFailure>, e: Entry)
    requires forall i, j :: 0 <= i < j < |files| ==> files[i].path != files[j].path
    requires e in files && e.path !in fails
    ensures Key(e.path) in ApplyDownloads(tree, files, fails)
    ensures ApplyDownloads(tree, files, fails)[Key(e.path)] == FileStat(e.size, e.mtime, true)
  {
    var front := files[..|files| - 1];
    var last := files[|files| - 1];
    if e != last {
      var i :| 0 <= i < |files| && files[i] == e;
      assert i < |files| - 1;
      assert front[i] == e;
      DownloadLands(tree, front, fails, e);
      if Writes(fails, last.path) && Key(last.path) == Key(e.path) {
        KeyInjective(last.path, e.path);
        assert false;
      }
    }
  }

  /** A file no successful download writes is left as it was. */
  lemma {:induction false} DownloadsElsewhere(tree: Tree, files: seq<Entry>, fails: map<string, FetchFailure>, k: Path)
    requires !Fetched(files, fails, k)
    ensures k in ApplyDownloads(tree, files, fails) <==> k in tree
    ensures k in tree ==> ApplyDownloads(tree, files, fails)[k] == tree[k]
  {
    if files != [] {
      var front := files[..|files| - 1];
      var last := files[|files| - 1];
      assert last in files;
      assert !Fetched(front, fails, k) by {
        forall e | e in front ensures e in files {
          var i :| 0 <= i < |front| && front[i] == e;
          assert files[i] == e;
        }
      }
      DownloadsElsewhere(tree, front, fails, k);
    }
  }

  /** Each local manifest entry reports the mtime of the directory's copy. */
  predicate Reflects(local: seq<Entry>, tree: Tree) {
    forall e :: e in local ==> Key(e.path) in tree && tree[Key(e.path)].mtime == e.mtime
  }

  /** A generated manifest reports the directory's mtimes: the corrected one always,
      the source's on Windows and on POSIX trees without back-slashes in names. */
  lemma GeneratedReflects(walk: seq<Path>, tree: Tree, sep: char)
    requires IsWalk(walk, tree) && WellFormed(tree, sep)
    requires sep == '/' || sep == '\\'
    ensures Reflects(Generated(walk, tree, sep), tree)
    ensures sep == '\\' || NoBackslashNames(tree) ==> Reflects(GeneratedAsWritten(walk, tree, sep), tree)
  {
    ManifestExact(walk, tree, sep);
    if sep == '\\' || NoBackslashNames(tree) {
      GeneratedAgrees(walk, tree, sep);
    }
  }

  /** After an incremental sync in which no request fails, every remote file is present
      and at least as new as the remote copy. This holds for a local manifest that
      reports the directory's mtimes, as a generated one does (`GeneratedReflects`). */
  lemma RemoteFilesPresent(tree: Tree, remote: seq<Entry>, local: seq<Entry>, removeFails: set<string>, r: Entry)
    requires forall i, j :: 0 <= i < j < |remote| ==> remote[i].path != remote[j].path
    requires Reflects(local, tree)
    requires r in remote
    ensures var t := Executed(tree, remote, local, removeFails, map[]);
      Key(r.path) in t && t[Key(r.path)].mtime >= r.mtime
  {
    var idx := Index(local);
    var keys := LocalKeys(local);
    var dels := DeletePlan(keys, remote);
    var downs := DownloadPlan(remote, idx);
    var t1 := ApplyDeletes(tree, dels, removeFails);
    DownloadPlanMembers(remote, idx, r);
    DownloadPlanOrder(remote, idx);
    if r in downs {
      DownloadLands(t1, downs, map[], r);
    } else {
      IndexShape(local);
      var i :| LastWithPath(local, i, r.path) && local[i] == idx[r.path];
      assert local[i] in local;
      DeletesRemoveExactly(tree, dels, removeFails);
      if Removed(dels, removeFails, Key(r.path)) {
        var p :| p in dels && p !in removeFails && Key(p) == Key(r.path);
        KeyInjective(p, r.path);
        DeletePlanMembers(keys, remote, p);
        assert false;
      }
      if Fetched(downs, map[], Key(r.path)) {
        var d :| d in downs && Key(d.path) == Key(r.path);
        KeyInjective(d.path, r.path);
        DownloadPlanMembers(remote, idx, d);
        assert false;
      }
      DownloadsElsewhere(t1, downs, map[], Key(r.path));
    }
  }

  /** After an incremental sync in which no removal fails, a local file that the remote
      manifest does not name is gone. */
  lemma StaleFilesGone(tree: Tree, remote: seq<Entry>, local: seq<Entry>, fetchFails: map<string, FetchFailure>, e: Entry)
    requires e in local && e.path !in Paths(remote)
    ensures Key(e.path) !in Executed(tree, remote, local, {}, fetchFails)
  {
    var t1 := ApplyDeletes(tree, DeletePlan(LocalKeys(local), remote), {});
    StaleDeleted(tree, remote, local, e);
    StaleNotFetched(remote, local, fetchFails, e);
    DownloadsElsewhere(t1, DownloadPlan(remote, Index(local)), fetchFails, Key(e.path));
  }

  lemma StaleDeleted(tree: Tree, remote: seq<Entry>, local: seq<Entry>, e: Entry)
    requires e in local && e.path !in Paths(remote)
    ensures Key(e.path) !in ApplyDeletes(tree, DeletePlan(LocalKeys(local), remote), {})
  {
    var keys := LocalKeys(local);
    var dels := DeletePlan(keys, remote);
    IndexKeys(local);
    assert e.path in Paths(local) by {
      var i :| 0 <= i < |local| && local[i] == e;
      assert Paths(local)[i] == e.path;
    }
    assert e.path in keys;
    DeletePlanMembers(keys, remote, e.path);
    DeletesRemoveExactly(tree, dels, {});
    assert Removed(dels, {}, Key(e.path));
  }

  lemma StaleNotFetched(remote: seq<Entry>, local: seq<Entry>, fetchFails: map<string, FetchFailure>, e: Entry)
    requires e.path !in Paths(remote)
    ensures !Fetched(DownloadPlan(remote, Index(local)), fetchFails, Key(e.path))
  {
    var downs := DownloadPlan(remote, Index(local));
    if Fetched(downs, fetchFails, Key(e.path)) {
      var d :| d in downs && Writes(fetchFails, d.path) && Key(d.path) == Key(e.path);
      KeyInjective(d.path, e.path);
      DownloadPlanMembers(remote, Index(local), d);
    }
  }

  /** The download plan keeps the remote manifest's order, so it inherits distinct paths. */
  lemma {:induction false} DownloadPlanOrder(remote: seq<Entry>, idx: map<string, Entry>)
    requires forall i, j :: 0 <= i < j < |remote| ==> remote[i].path != remote[j].path
    ensures var d := DownloadPlan(remote, idx);
      forall i, j :: 0 <= i < j < |d| ==> d[i].path != d[j].path
  {
    if remote != [] {
      var front := remote[..|remote| - 1];
      var last := remote[|remote| - 1];
      DownloadPlanOrder(front, idx);
      var d0 := DownloadPlan(front, idx);
      forall i | 0 <= i < |d0| ensures d0[i].path != last.path {
        DownloadPlanMembers(front, idx, d0[i]);
        var a :| 0 <= a < |front| && front[a] == d0[i];
        assert remote[a] == d0[i];
      }
    }
  }

  /** A second plan against a manifest that reports the synced directory, and names
      every remote path, downloads nothing: equal mtimes are never fetched again. */
  lemma NothingLeftToDownload(t: Tree, remote: seq<Entry>, local: seq<Entry>)
    requires forall r :: r in remote ==> Key(r.path) in t && t[Key(r.path)].mtime >= r.mtime
    requires Reflects(local, t)
    requires forall r :: r in remote ==> r.path in Paths(local)
    ensures DownloadPlan(remote, Index(local)) == []
  {
    var idx := Index(local);
    IndexShape(local);
    forall r | r in remote
      ensures !NeedsDownload(r, idx)
    {
      var i :| LastWithPath(local, i, r.path) && local[i] == idx[r.path];
      assert local[i] in local;
    }
    var d := DownloadPlan(remote, idx);
    if d != [] {
      DownloadPlanMembers(remote, idx, d[0]);
    }
  }

  /** A second plan against the same remote manifest deletes nothing: after an
      incremental sync in which no removal fails, every file the new local manifest
      lists is named by the remote manifest. This holds on Windows and on POSIX
      directories without back-slashes in names, where each manifest path names its
      file. */
  lemma NothingLeftToDelete(walk: seq<Path>, tree: Tree, sep: char, remote: seq<Entry>,
                            fetchFails: map<string, FetchFailure>, walk2: seq<Path>)
    requires IsWalk(walk, tree) && (sep == '/' || sep == '\\')
    requires var t1 := Executed(tree, remote, GeneratedAsWritten(walk, tree, sep), {}, fetchFails);
      IsWalk(walk2, t1) && WellFormed(t1, sep) && (sep == '\\' || NoBackslashNames(t1))
    ensures var t1 := Executed(tree, remote, GeneratedAsWritten(walk, tree, sep), {}, fetchFails);
      DeletePlan(LocalKeys(GeneratedAsWritten(walk2, t1, sep)), remote) == []
  {
    var local := GeneratedAsWritten(walk, tree, sep);
    var t1 := Executed(tree, remote, local, {}, fetchFails);
    var local2 := GeneratedAsWritten(walk2, t1, sep);
    var dels := DeletePlan(LocalKeys(local), remote);
    var deleted := ApplyDeletes(tree, dels, {});
    var downs := DownloadPlan(remote, Index(local));
    forall e | e in local2
      ensures e.path in Paths(remote)
    {
      GeneratedAsWrittenSound(walk2, t1, sep, e);
      var q :| q in walk2 && q in t1 && Listed(q) && t1[q].readable && e == EntryOfAsWritten(q, t1[q], sep);
      AsWrittenAgrees(q, sep);
      RelPathRoundTrip(q, sep);
      if e.path !in Paths(remote) {
        StaleNotFetched(remote, local, fetchFails, e);
        DownloadsElsewhere(deleted, downs, fetchFails, q);
        DeletesRemoveExactly(tree, dels, {});
        GeneratedAsWrittenComplete(walk, tree, sep, q);
        StaleFilesGone(tree, remote, local, fetchFails, EntryOfAsWritten(q, tree[q], sep));
        assert false;
      }
    }
    var keys2 := LocalKeys(local2);
    IndexShape(local2);
    var x := DeletePlan(keys2, remote);
    if x != [] {
      DeletePlanMembers(keys2, remote, x[0]);
      assert false;
    }
  }

  /** The bundle sync extracts over the existing directory, so a local file the archive
      lacks survives it, and the next incremental plan against the server's manifest
      deletes it: a bundle sync does not leave the directory in step with the server. */
  lemma StaleFileSurvivesZip(st: FileStat, now: real)
    requires st.readable
    ensures var before: Tree := map[["old"] := st];
      var z := ZipAttempt("s", true, Some([ZipMember("new", 1)]), None, true, now);
      var after := ZipEffect(false, before, map[], None, z).0;
      && ZipSucceeds(false, before, map[], z)
      && after == map[["old"] := st, ["new"] := FileStat(1, now, true)]
      && DeletePlan(LocalKeys(GeneratedAsWritten([["old"], ["new"]], after, '/')), [Entry("new", 1, now, false)]) == ["old"]
  {
    var members := [ZipMember("new", 1)];
    assert !IsDirMember(members[0]);
    SplitNoSep("new", '/');
    assert members[..0] == [];
    var after := map[["old"] := st, ["new"] := FileStat(1, now, true)];
    assert Extracted(map[["old"] := st], members, now) == after;
    StaleManifest(st, now);
    StalePlan(Entry("old", st.size, st.mtime, false), Entry("new", 1, now, false));
  }

  /** The manifest of the directory after that bundle sync. */
  lemma StaleManifest(st: FileStat, now: real)
    requires st.readable
    ensures var after := map[["old"] := st, ["new"] := FileStat(1, now, true)];
      GeneratedAsWritten([["old"], ["new"]], after, '/')
      == [Entry("old", st.size, st.mtime, false), Entry("new", 1, now, false)]
  {
    var after := map[["old"] := st, ["new"] := FileStat(1, now, true)];
    var walk: seq<Path> := [["old"], ["new"]];
    var p: Path := ["old"];
    StaleNames();
    assert walk[..1] == [p] && walk[..1][..0] == [];
    assert GeneratedAsWritten([p], after, '/') == [EntryOfAsWritten(p, st, '/')];
  }

  lemma StaleNames()
    ensures Listed(["old"]) && Listed(["new"])
    ensures RelPathAsWritten(["old"], '/') == "old" && RelPathAsWritten(["new"], '/') == "new"
  {
    var p: Path := ["old"];
    var q: Path := ["new"];
    assert !StartsWith(p[0], ".") && !EndsWith(p[0], ".tmp");
    assert !StartsWith(q[0], ".") && !EndsWith(q[0], ".tmp");
  }

  /** The plan against a remote manifest that names only the second file deletes the first. */
  lemma StalePlan(a: Entry, b: Entry)
    requires a.path == "old" && b.path == "new"
    ensures DeletePlan(LocalKeys([a, b]), [b]) == ["old"]
  {
    assert [a, b][..1] == [a] && [a][..0] == [];
    assert LocalKeys([a]) == ["old"];
    assert "new" != "old";
    assert LocalKeys([a, b]) == ["old", "new"];
    var keys: seq<string> := ["old", "new"];
    assert keys[..1] == ["old"] && keys[..1][..0] == [];
    assert Paths([b]) == ["new"] && "old" !in Paths([b]) && "new" in Paths([b]);
    assert DeletePlan(keys[..1], [b]) == ["old"];
  }

  /** A download that fails after the file was opened is not retried: once the
      directory's manifest lists the file again, its mtime is the write time, so a plan
      against the same remote entry skips it whenever the write came after the remote
      copy's mtime, whatever `written` was. */
  lemma BrokenDownloadKept(tree: Tree, e: Entry, fails: map<string, FetchFailure>, local: seq<Entry>)
    requires e.path in fails && fails[e.path].BrokenAfterOpen?
    requires fails[e.path].now >= e.mtime
    requires Reflects(local, Downloaded(tree, e, fails))
    requires e.path in Paths(local)
    ensures Downloaded(tree, e, fails)[Key(e.path)] == FileStat(fails[e.path].written, fails[e.path].now, true)
    ensures !NeedsDownload(e, Index(local))
  {
    IndexShape(local);
    var i :| LastWithPath(local, i, e.path) && local[i] == Index(local)[e.path];
    assert local[i] in local;
  }

  /** Extraction keeps every file already present and adds the archive's files. */
  lemma {:induction false} ExtractKeepsFiles(tree: Tree, members: seq<ZipMember>, now: real)
    ensures forall k :: k in Extracted(tree, members, now) <==>
      k in tree || exists m :: m in members && !IsDirMember(m) && Key(m.name) == k
  {
    if members != [] {
      var front := members[..|members| - 1];
      ExtractKeepsFiles(tree, front, now);
      assert members == front + [members[|members| - 1]];
    }
  }
}
