/**
  The Termux front end of data sync (`TermuxSyncManager` and `main` in
  `src/sync_termux.py`): choosing the address to announce, turning `ip:port` into a
  URL, starting and stopping the server with its settings recorded, and picking the
  strategy a sync tries first.
 */
module Termux {
  import opened Wrappers
  import opened Strings
  import opened Numerals
  import opened Config
  import opened Manifest
  import SyncServer
  import SyncClient

  /** Loopback, link-local and broadcast or unspecified addresses are never announced. */
  predicate Discarded(ip: string) {
    || ip == "127.0.0.1"
    || StartsWith(ip, "169.254.")
    || StartsWith(ip, "255.")
    || StartsWith(ip, "0.")
  }

  /** Addresses in the usual home-network ranges, preferred over the rest. */
  predicate Preferred(ip: string) {
    StartsWith(ip, "192.168.") || StartsWith(ip, "10.")
  }

  /** The candidates that survive the filter, in the order they were found. */
  function Candidates(found: seq<string>): (r: seq<string>)
    ensures |r| <= |found|
  {
    if found == [] then []
    else (if Discarded(found[0]) then [] else [found[0]]) + Candidates(found[1..])
  }

  /** The filter keeps exactly the addresses that are not discarded. */
  lemma {:induction false} CandidatesMembers(found: seq<string>, x: string)
    ensures x in Candidates(found) <==> x in found && !Discarded(x)
  {
    if found != [] {
      CandidatesMembers(found[1..], x);
      assert found == [found[0]] + found[1..];
    }
  }

  /** The position of the first preferred address. */
  function FirstPreferred(lan: seq<string>): (r: Option<nat>)
    ensures r.Some? ==> r.value < |lan| && Preferred(lan[r.value])
    ensures r.Some? ==> forall j :: 0 <= j < r.value ==> !Preferred(lan[j])
    ensures r.None? ==> forall j :: 0 <= j < |lan| ==> !Preferred(lan[j])
  {
    if lan == [] then None
    else if Preferred(lan[0]) then Some(0)
    else match FirstPreferred(lan[1..])
      case None => None
      case Some(i) => Some(i + 1)
  }

  /** The first preferred address, else the first address, else nothing. */
  function Choice(lan: seq<string>): (r: Option<string>)
    ensures r.None? <==> lan == []
    ensures r.Some? ==> r.value in lan
    ensures (exists x :: x in lan && Preferred(x)) ==> r.Some? && Preferred(r.value)
    ensures (forall x :: x in lan ==> !Preferred(x)) && lan != [] ==> r == Some(lan[0])
  {
    match FirstPreferred(lan)
    case Some(i) => Some(lan[i])
    case None => if lan == [] then None else Some(lan[0])
  }

  /** An octet as `int()` reads it, within 0..255. */
  predicate Octet(part: string) {
    PyInt(part).Some? && 0 <= PyInt(part).value <= 255
  }

  /** The checks the socket probe's answer must pass; an octet `int()` rejects fails
      them as surely as one out of range. */
  predicate AcceptedProbe(ip: string) {
    var parts := Split(ip, '.');
    && |parts| == 4
    && (forall i :: 0 <= i < 4 ==> Octet(parts[i]))
    && ip != "127.0.0.1"
    && (StartsWith(ip, "192.168.") || StartsWith(ip, "10.") || StartsWith(ip, "172."))
  }

  /** `_get_local_ip`: `ipconfig` gives the addresses its output lists (`None` when
      running it fails), `probe` the address a UDP socket is bound to (`None` when
      that fails). */
  function LocalIp(ipconfig: Option<seq<string>>, probe: Option<string>): (ip: string)
    ensures ip == "127.0.0.1" || !Discarded(ip)
    ensures ipconfig.Some? && Candidates(ipconfig.value) != [] ==> ip in Candidates(ipconfig.value)
  {
    var c := if ipconfig.Some? then Choice(Candidates(ipconfig.value)) else None;
    if c.Some? then (CandidatesMembers(ipconfig.value, c.value); c.value)
    else if probe.Some? && AcceptedProbe(probe.value) then (ProbeKept(probe.value); probe.value)
    else "127.0.0.1"
  }

  lemma ProbeKept(ip: string)
    requires AcceptedProbe(ip)
    ensures !Discarded(ip)
  {
    var kept := ["192.168.", "10.", "172."];
    var dropped := ["169.254.", "255.", "0."];
    forall a, d | a in kept && d in dropped
      ensures !(StartsWith(ip, a) && StartsWith(ip, d))
    {
      if a[0] == d[0] {
        NotBoth(ip, a, d, 1);
      } else {
        NotBoth(ip, a, d, 0);
      }
    }
  }

  /** No string starts with two prefixes that differ at a common position. */
  lemma NotBoth(s: string, p: string, q: string, i: nat)
    requires i < |p| && i < |q| && p[i] != q[i]
    ensures !(StartsWith(s, p) && StartsWith(s, q))
  {
  }

  /** A preferred address found by `ipconfig` always wins: the first of them. */
  lemma PreferredWins(found: seq<string>, probe: Option<string>, i: nat)
    requires i < |found| && !Discarded(found[i]) && Preferred(found[i])
    requires forall j :: 0 <= j < i ==> Discarded(found[j]) || !Preferred(found[j])
    ensures LocalIp(Some(found), probe) == found[i]
  {
    CandidatesBefore(found, i);
  }

  lemma {:induction false} CandidatesBefore(found: seq<string>, i: nat)
    requires i < |found| && !Discarded(found[i]) && Preferred(found[i])
    requires forall j :: 0 <= j < i ==> Discarded(found[j]) || !Preferred(found[j])
    ensures FirstPreferred(Candidates(found)).Some?
    ensures Candidates(found)[FirstPreferred(Candidates(found)).value] == found[i]
  {
    var front := if Discarded(found[0]) then [] else [found[0]];
    var c, c' := Candidates(found), Candidates(found[1..]);
    assert c == front + c';
    if i == 0 {
      assert c[0] == found[0];
    } else {
      CandidatesBefore(found[1..], i - 1);
      var k := FirstPreferred(c').value;
      if front == [] {
        assert c == c';
      } else {
        assert c[1..] == c' && c[0] == found[0];
        assert !Preferred(c[0]);
        assert FirstPreferred(c) == Some(k + 1);
        assert c[k + 1] == c'[k];
      }
    }
  }

  /** With nothing usable from `ipconfig`, the probe is announced exactly when it
      passes its checks. */
  lemma ProbeFallback(ipconfig: Option<seq<string>>, probe: string)
    requires ipconfig.None? || Candidates(ipconfig.value) == []
    ensures LocalIp(ipconfig, Some(probe)) == if AcceptedProbe(probe) then probe else "127.0.0.1"
  {
  }

  /** `ip:port` without a scheme becomes an `http://` URL; anything else is kept. */
  function NormaliseServerUrl(arg: string): (url: string)
    ensures url == if ':' in arg && !StartsWith(arg, "http://") && !StartsWith(arg, "https://")
                   then "http://" + arg else arg
  {
    if ':' in arg && !StartsWith(arg, "http://") && !StartsWith(arg, "https://") then
      var i := FirstIndexOf(arg, ':');
      var ip := arg[..i];
      var port := arg[i + 1..];
      assert ip + ":" + port == arg;
      "http://" + ip + ":" + port
    else arg
  }

  /** Where `split(c, 1)` cuts. */
  function FirstIndexOf(s: string, c: char): (i: nat)
    requires c in s
    ensures i < |s| && s[i] == c && c !in s[..i]
  {
    if s[0] == c then 0 else FirstIndexOf(s[1..], c) + 1
  }

  /** `--method`: ZIP first for `auto` and `zip`, incremental first otherwise. */
  function PreferZip(syncMethod: string): (z: bool)
    ensures SyncClient.Preferred(z) == SyncClient.Zip <==> syncMethod == "auto" || syncMethod == "zip"
  {
    syncMethod == "auto" || syncMethod == "zip"
  }

  /** `expanduser("~/SillytavernLauncher")` and the two joins below it. */
  function DataDir(home: string): string {
    var base := RStripChar(home, '/') + "/SillytavernLauncher";
    PosixJoin(PosixJoin(PosixJoin(base, "SillyTavern"), "data"), "default-user")
  }

  /** The three settings `start_sync_server` records, in order. */
  function SyncSettings(m: map<string, Value>, port: int, host: string): map<string, Value> {
    var m1 := SetPath(m, KeyPath("sync.enabled"), Bool(true));
    var m2 := SetPath(m1, KeyPath("sync.port"), Int(port));
    SetPath(m2, KeyPath("sync.host"), Str(host))
  }

  /** After a start the settings read back as enabled, with the port and host used. */
  lemma SyncSettingsRead(m: map<string, Value>, port: int, host: string, default: Value)
    ensures Lookup(Dict(SyncSettings(m, port, host)), ["sync", "enabled"], default) == Bool(true)
    ensures Lookup(Dict(SyncSettings(m, port, host)), ["sync", "port"], default) == Int(port)
    ensures Lookup(Dict(SyncSettings(m, port, host)), ["sync", "host"], default) == Str(host)
  {
    var e, p, h := ["sync", "enabled"], ["sync", "port"], ["sync", "host"];
    SyncKeys();
    DivergeAt(p, e, 1);
    DivergeAt(h, e, 1);
    DivergeAt(h, p, 1);
    ThreeWrites(m, e, p, h, Bool(true), Int(port), Str(host), default);
  }

  lemma SyncKeys()
    ensures KeyPath("sync.enabled") == ["sync", "enabled"]
    ensures KeyPath("sync.port") == ["sync", "port"]
    ensures KeyPath("sync.host") == ["sync", "host"]
  {
    EnabledKey();
    PortKey();
    HostKey();
  }

  lemma EnabledKey() ensures KeyPath("sync.enabled") == ["sync", "enabled"] {
    TwoPartKey("sync.enabled", "sync", "enabled");
  }

  lemma PortKey() ensures KeyPath("sync.port") == ["sync", "port"] {
    TwoPartKey("sync.port", "sync", "port");
  }

  lemma HostKey() ensures KeyPath("sync.host") == ["sync", "host"] {
    TwoPartKey("sync.host", "sync", "host");
  }

  lemma DivergeAt(a: seq<string>, b: seq<string>, i: nat)
    requires i < |a| && i < |b| && a[i] != b[i] && a[..i] == b[..i]
    ensures Diverge(a, b)
  {
  }

  /** Three writes to keys that part ways pairwise each read back. */
  lemma ThreeWrites(m: map<string, Value>, a: seq<string>, b: seq<string>, c: seq<string>,
                    va: Value, vb: Value, vc: Value, default: Value)
    requires |a| >= 1 && |b| >= 1 && |c| >= 1
    requires Diverge(b, a) && Diverge(c, a) && Diverge(c, b)
    ensures Lookup(Dict(SetPath(SetPath(SetPath(m, a, va), b, vb), c, vc)), a, default) == va
    ensures Lookup(Dict(SetPath(SetPath(SetPath(m, a, va), b, vb), c, vc)), b, default) == vb
    ensures Lookup(Dict(SetPath(SetPath(SetPath(m, a, va), b, vb), c, vc)), c, default) == vc
  {
    var m1 := SetPath(m, a, va);
    var m2 := SetPath(m1, b, vb);
    GetAfterSet(m, a, va, default);
    SetFrame(m1, b, vb, a, default);
    GetAfterSet(m1, b, vb, default);
    SetFrame(m2, c, vc, a, default);
    SetFrame(m2, c, vc, b, default);
    GetAfterSet(m2, c, vc, default);
  }

  class TermuxSyncManager {
    const configManager: ConfigManager
    const dataDir: string

    constructor (found: ConfigFile, home: string)
      ensures fresh(configManager)
      ensures configManager.config == LoadConfig(found)
      ensures dataDir == DataDir(home)
    {
      configManager := new ConfigManager(found);
      dataDir := DataDir(home);
    }

    /** `start_sync_server`: without the data directory nothing happens; otherwise
        the server is created, the settings recorded and saved, and the server started.
        `disk` maps the directories that exist to their files. */
    method StartSyncServer(port: int, host: string, disk: map<string, Tree>, sep: char)
      returns (ok: bool, server: SyncServer.SyncServer?)
      modifies configManager
      ensures ok <==> dataDir in disk
      ensures !ok ==> server == null && configManager.config == old(configManager.config)
                      && configManager.file == old(configManager.file)
      ensures ok ==> server != null && fresh(server) && server.running && server.launches == 1
                     && server.tree == disk[dataDir] && server.port == port && server.host == host
      ensures ok ==> configManager.config == SyncSettings(old(configManager.config), port, host)
                     && configManager.file == Parsed(configManager.config)
    {
      if dataDir !in disk {
        return false, null;
      }
      server := SyncServer.SyncServer.Create(dataDir, port, host, disk, sep);
      configManager.Set("sync.enabled", Bool(true));
      configManager.Set("sync.port", Int(port));
      configManager.Set("sync.host", Str(host));
      configManager.Save();
      server.Start();
      ok := true;
    }

    /** `stop_sync_server`: records the service as disabled and saves. */
    method StopSyncServer()
      modifies configManager
      ensures configManager.config == SetPath(old(configManager.config), KeyPath("sync.enabled"), Bool(false))
      ensures configManager.file == Parsed(configManager.config)
    {
      configManager.Set("sync.enabled", Bool(false));
      configManager.Save();
    }

    /** `sync_from_custom_server`: a client over the data directory (created empty
        when missing) runs one sync, ZIP first when the method asks for it. `disk`
        maps the directories that exist to their files, and `backupDirs` holds the
        backup directories already on disk. */
    method SyncFromCustomServer(disk: map<string, Tree>, backupDirs: map<string, Tree>, sep: char,
                                syncMethod: string, backup: bool, healthy: bool,
                                remote: Option<seq<Entry>>, removeFails: set<string>, fetchFails: map<string, SyncClient.FetchFailure>,
                                z: SyncClient.ZipAttempt)
      returns (ok: bool, tried: seq<SyncClient.Strategy>, client: SyncClient.SyncClient)
      ensures fresh(client) && client.sep == sep
      ensures healthy ==> tried != [] && tried[0] == (if syncMethod == "auto" || syncMethod == "zip" then SyncClient.Zip else SyncClient.Incremental)
      ensures !healthy ==> tried == [] && !ok
      ensures var data := if dataDir in disk then disk[dataDir] else map[];
        && (ok <==> healthy && (SyncClient.IncrementalSucceeds(remote)
                                || SyncClient.ZipSucceeds(backup, data, backupDirs, z)))
        && SyncClient.SyncEffect(PreferZip(syncMethod), backup, healthy, remote, removeFails, fetchFails, z, sep,
                                 data, backupDirs, None, client.tree, client.backups, client.lastBackup)
    {
      var data := if dataDir in disk then disk[dataDir] else map[];
      client := new SyncClient.SyncClient(data, backupDirs, sep);
      ok, tried := client.Sync(PreferZip(syncMethod), backup, healthy, remote, removeFails, fetchFails, z);
    }
  }

  /** `_get_local_ip`'s filtering loop. */
  method LanIps(found: seq<string>) returns (lan: seq<string>)
    ensures lan == Candidates(found)
  {
    lan := [];
    var i := 0;
    while i < |found|
      invariant 0 <= i <= |found|
      invariant lan + Candidates(found[i..]) == Candidates(found)
    {
      assert Candidates(found[i..]) == (if Discarded(found[i]) then [] else [found[i]]) + Candidates(found[i + 1..]);
      if !Discarded(found[i]) {
        lan := lan + [found[i]];
      }
      i := i + 1;
    }
  }

  /** `_get_local_ip`'s preference loop and its fallback to the first address. */
  method PickLan(lan: seq<string>) returns (r: Option<string>)
    ensures r == Choice(lan)
  {
    var i := 0;
    while i < |lan|
      invariant 0 <= i <= |lan|
      invariant forall j :: 0 <= j < i ==> !Preferred(lan[j])
    {
      if Preferred(lan[i]) {
        FirstPreferredAt(lan, i);
        return Some(lan[i]);
      }
      i := i + 1;
    }
    if lan != [] {
      return Some(lan[0]);
    }
    return None;
  }

  lemma {:induction false} FirstPreferredAt(lan: seq<string>, i: nat)
    requires i < |lan| && Preferred(lan[i])
    requires forall j :: 0 <= j < i ==> !Preferred(lan[j])
    ensures FirstPreferred(lan) == Some(i)
    decreases i
  {
    if i > 0 {
      FirstPreferredAt(lan[1..], i - 1);
    }
  }

  /** `_get_local_ip`. */
  method GetLocalIp(ipconfig: Option<seq<string>>, probe: Option<string>) returns (ip: string)
    ensures ip == LocalIp(ipconfig, probe)
  {
    if ipconfig.Some? {
      var lan := LanIps(ipconfig.value);
      var c := PickLan(lan);
      if c.Some? {
        return c.value;
      }
    }
    if probe.Some? && AcceptedProbe(probe.value) {
      return probe.value;
    }
    return "127.0.0.1";
  }
}
