/**
  The three-way diff of `SyncClient.sync_incremental`: from the server's manifest and
  the local one it derives the files to download, the local paths to delete and the
  number of bytes to fetch.
 */
module SyncPlan {
  import opened Manifest

  /** `{item['path']: item for item in local_manifest}`: a later entry replaces an earlier one. */
  function Index(local: seq<Entry>): map<string, Entry> {
    if local == [] then map[]
    else
      var e := local[|local| - 1];
      Index(local[..|local| - 1])[e.path := e]
  }

  /** The keys of that dictionary in iteration order: each path where it first occurs. */
  function LocalKeys(local: seq<Entry>): seq<string> {
    if local == [] then []
    else
      var keys := LocalKeys(local[..|local| - 1]);
      var p := local[|local| - 1].path;
      if p in keys then keys else keys + [p]
  }

  /** `[f['path'] for f in remote_manifest]`. */
  function Paths(entries: seq<Entry>): (ps: seq<string>)
    ensures |ps| == |entries|
    ensures forall i :: 0 <= i < |entries| ==> ps[i] == entries[i].path
  {
    if entries == [] then [] else Paths(entries[..|entries| - 1]) + [entries[|entries| - 1].path]
  }

  /** A remote file is fetched when there is no local file at its path, or when it is
      strictly newer: equal modification times never cause a download. */
  predicate NeedsDownload(r: Entry, local: map<string, Entry>) {
    r.path !in local || r.mtime > local[r.path].mtime
  }

  /** `files_to_download`, in the order of the remote manifest. */
  function DownloadPlan(remote: seq<Entry>, local: map<string, Entry>): seq<Entry> {
    if remote == [] then []
    else
      var r := remote[|remote| - 1];
      DownloadPlan(remote[..|remote| - 1], local) + (if NeedsDownload(r, local) then [r] else [])
  }

  /** `files_to_delete`: the local keys, in order, that the remote manifest does not name. */
  function DeletePlan(keys: seq<string>, remote: seq<Entry>): seq<string> {
    if keys == [] then []
    else
      var k := keys[|keys| - 1];
      DeletePlan(keys[..|keys| - 1], remote) + (if k in Paths(remote) then [] else [k])
  }

  /** The diff of `sync_incremental`: builds the lookup table, the download list with
      its byte total, then the delete list. */
  method Plan(remote: seq<Entry>, local: seq<Entry>)
    returns (toDownload: seq<Entry>, toDelete: seq<string>, total: nat)
    ensures toDownload == DownloadPlan(remote, Index(local))
    ensures toDelete == DeletePlan(LocalKeys(local), remote)
    ensures total == TotalOf(toDownload)
  {
    var localFiles, order := IndexLocal(local);
    toDownload, total := SelectDownloads(remote, localFiles);
    toDelete := SelectDeletes(order, remote);
  }

  /** The lookup table of the local manifest, and its keys in insertion order. */
  method IndexLocal(local: seq<Entry>) returns (localFiles: map<string, Entry>, order: seq<string>)
    ensures localFiles == Index(local)
    ensures order == LocalKeys(local)
  {
    localFiles, order := map[], [];
    var i := 0;
    while i < |local|
      invariant 0 <= i <= |local|
      invariant localFiles == Index(local[..i])
      invariant order == LocalKeys(local[..i])
    {
      assert local[..i + 1][..i] == local[..i];
      var e := local[i];
      if e.path !in order {
        order := order + [e.path];
      }
      localFiles := localFiles[e.path := e];
      i := i + 1;
    }
    assert local[..|local|] == local;
  }

  /** The remote entries missing locally or newer than the local copy, with the sum of
      their sizes. */
  method SelectDownloads(remote: seq<Entry>, localFiles: map<string, Entry>)
    returns (toDownload: seq<Entry>, total: nat)
    ensures toDownload == DownloadPlan(remote, localFiles)
    ensures total == TotalOf(toDownload)
  {
    toDownload, total := [], 0;
    var i := 0;
    while i < |remote|
      invariant 0 <= i <= |remote|
      invariant toDownload == DownloadPlan(remote[..i], localFiles)
      invariant total == TotalOf(toDownload)
    {
      assert remote[..i + 1][..i] == remote[..i];
      var r := remote[i];
      if r.path !in localFiles || r.mtime > localFiles[r.path].mtime {
        var next := toDownload + [r];
        assert next[..|next| - 1] == toDownload;
        toDownload, total := next, total + r.size;
      }
      i := i + 1;
    }
    assert remote[..|remote|] == remote;
  }

  /** The local keys the remote manifest does not name, in order. */
  method SelectDeletes(order: seq<string>, remote: seq<Entry>) returns (toDelete: seq<string>)
    ensures toDelete == DeletePlan(order, remote)
  {
    var remotePaths := Paths(remote);
    toDelete := [];
    var i := 0;
    while i < |order|
      invariant 0 <= i <= |order|
      invariant toDelete == DeletePlan(order[..i], remote)
    {
      assert order[..i + 1][..i] == order[..i];
      if order[i] !in remotePaths {
        toDelete := toDelete + [order[i]];
      }
      i := i + 1;
    }
    assert order[..|order|] == order;
  }

  /** A remote entry is planned for download exactly when it needs one. */
  lemma {:induction false} DownloadPlanMembers(remote: seq<Entry>, local: map<string, Entry>, r: Entry)
    ensures r in DownloadPlan(remote, local) <==> r in remote && NeedsDownload(r, local)
  {
    if remote != [] {
      var front := remote[..|remote| - 1];
      DownloadPlanMembers(front, local, r);
      assert remote == front + [remote[|remote| - 1]];
    }
  }

  /** A local path is planned for deletion exactly when the remote manifest lacks it. */
  lemma {:induction false} DeletePlanMembers(keys: seq<string>, remote: seq<Entry>, p: string)
    ensures p in DeletePlan(keys, remote) <==> p in keys && p !in Paths(remote)
  {
    if keys != [] {
      var front := keys[..|keys| - 1];
      DeletePlanMembers(front, remote, p);
      assert keys == front + [keys[|keys| - 1]];
    }
  }

  /** `local[i]` is the last entry of `local` whose path is `p`. */
  predicate LastWithPath(local: seq<Entry>, i: int, p: string) {
    0 <= i < |local| && local[i].path == p && forall j :: i < j < |local| ==> local[j].path != p
  }

  /** The dictionary's keys are the manifest's paths, each listed once, and each path
      maps to the last entry that carries it. */
  lemma IndexShape(local: seq<Entry>)
    ensures forall p :: p in LocalKeys(local) <==> p in Index(local)
    ensures forall p :: p in Index(local) <==> p in Paths(local)
    ensures forall i, j :: 0 <= i < j < |LocalKeys(local)| ==> LocalKeys(local)[i] != LocalKeys(local)[j]
    ensures forall p :: p in Index(local) ==>
      exists i :: LastWithPath(local, i, p) && local[i] == Index(local)[p]
  {
    IndexKeys(local);
    IndexLast(local);
  }

  lemma {:induction false} IndexKeys(local: seq<Entry>)
    ensures forall p :: p in LocalKeys(local) <==> p in Index(local)
    ensures forall p :: p in Index(local) <==> p in Paths(local)
    ensures forall i, j :: 0 <= i < j < |LocalKeys(local)| ==> LocalKeys(local)[i] != LocalKeys(local)[j]
  {
    if local != [] {
      var front := local[..|local| - 1];
      var e := local[|local| - 1];
      IndexKeys(front);
      assert Paths(local) == Paths(front) + [e.path];
    }
  }

  lemma {:induction false} IndexLast(local: seq<Entry>)
    ensures forall p :: p in Index(local) ==>
      exists i :: LastWithPath(local, i, p) && local[i] == Index(local)[p]
  {
    if local != [] {
      var front := local[..|local| - 1];
      var e := local[|local| - 1];
      IndexLast(front);
      var idx := Index(local);
      assert idx == Index(front)[e.path := e];
      forall p | p in idx
        ensures exists i :: LastWithPath(local, i, p) && local[i] == idx[p]
      {
        if p == e.path {
          assert LastWithPath(local, |local| - 1, p) && local[|local| - 1] == idx[p];
        } else {
          assert p in Index(front);
          var i :| LastWithPath(front, i, p) && front[i] == Index(front)[p];
          assert LastWithPath(local, i, p) && local[i] == idx[p];
        }
      }
    }
  }

  /** Nothing is planned, and the incremental sync reports "already up to date", exactly
      when every remote file is present locally and not newer, and every local path is
      present remotely. */
  lemma {:induction false} PlanEmptyIff(remote: seq<Entry>, local: seq<Entry>)
    ensures DownloadPlan(remote, Index(local)) == [] && DeletePlan(LocalKeys(local), remote) == []
      <==>
      (forall r :: r in remote ==> r.path in Index(local) && r.mtime <= Index(local)[r.path].mtime)
      && (forall p :: p in Paths(local) ==> p in Paths(remote))
  {
    var idx := Index(local);
    var keys := LocalKeys(local);
    IndexShape(local);
    forall r | r in remote {
      DownloadPlanMembers(remote, idx, r);
    }
    forall p | p in keys {
      DeletePlanMembers(keys, remote, p);
    }
    var d := DownloadPlan(remote, idx);
    if d != [] {
      DownloadPlanMembers(remote, idx, d[0]);
    }
    var x := DeletePlan(keys, remote);
    if x != [] {
      DeletePlanMembers(keys, remote, x[0]);
    }
  }
}
