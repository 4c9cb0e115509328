/**
  The launcher's settings store (`ConfigManager` in `src/config.py`): a JSON object
  whose entries are read and written by dotted keys such as `github.mirror`.
 */
module Config {
  import opened Strings

  /** A JSON value as the settings file holds it. */
  datatype Value =
    | Dict(entries: map<string, Value>)
    | Str(s: string)
    | Bool(b: bool)
    | Int(i: int)
    | List(items: seq<Value>)
    | Null

  /** Python's truth value of a settings value. */
  predicate Truthy(v: Value) {
    match v
    case Dict(m) => |m| > 0
    case Str(s) => s != ""
    case Bool(b) => b
    case Int(i) => i != 0
    case List(xs) => xs != []
    case Null => false
  }

  /** `key.split('.')`. */
  function KeyPath(key: string): (ks: seq<string>)
    ensures |ks| >= 1
  {
    Split(key, '.')
  }

  /** Descends `keys` from `v`; a missing key, or a step into anything but an object,
      gives `default` (the `KeyError` and `TypeError` that `get` catches). */
  function Lookup(v: Value, keys: seq<string>, default: Value): Value
    decreases |keys|
  {
    if keys == [] then v
    else if v.Dict? && keys[0] in v.entries then Lookup(v.entries[keys[0]], keys[1..], default)
    else default
  }

  /** The object `set` descends into under `k`: the existing one, or a fresh empty one
      replacing a missing or non-object value. */
  function Child(m: map<string, Value>, k: string): map<string, Value> {
    if k in m && m[k].Dict? then m[k].entries else map[]
  }

  /** The settings after `set(keys, v)`. */
  function SetPath(m: map<string, Value>, keys: seq<string>, v: Value): map<string, Value>
    requires |keys| >= 1
    decreases |keys|
  {
    if |keys| == 1 then m[keys[0] := v]
    else m[keys[0] := Dict(SetPath(Child(m, keys[0]), keys[1..], v))]
  }

  /** Two dotted paths part ways at some position before either ends. */
  predicate Diverge(a: seq<string>, b: seq<string>) {
    exists i :: 0 <= i < |a| && i < |b| && a[i] != b[i] && a[..i] == b[..i]
  }

  /** `update`: `set` for each pair in order. */
  function UpdateAll(m: map<string, Value>, updates: seq<(string, Value)>): map<string, Value>
    decreases |updates|
  {
    if updates == [] then m
    else
      var last := updates[|updates| - 1];
      SetPath(UpdateAll(m, updates[..|updates| - 1]), KeyPath(last.0), last.1)
  }

  /** The settings written on first run. */
  function DefaultConfig(): (c: map<string, Value>)
    ensures Lookup(Dict(c), ["github", "mirror"], Null) == Str("gh-proxy.com")
    ensures Lookup(Dict(c), ["log"], Null) == Bool(false)
    ensures Lookup(Dict(c), ["tray"], Null) == Bool(false)
    ensures Lookup(Dict(c), ["autostart"], Null) == Bool(false)
    ensures Lookup(Dict(c), ["patchgit"], Null) == Bool(false)
    ensures Lookup(Dict(c), ["use_sys_env"], Null) == Bool(false)
  {
    map[
      "patchgit" := Bool(false),
      "use_sys_env" := Bool(false),
      "theme" := Str("dark"),
      "first_run" := Bool(true),
      "github" := Dict(map["mirror" := Str("gh-proxy.com")]),
      "log" := Bool(false),
      "checkupdate" := Bool(true),
      "stcheckupdate" := Bool(false),
      "tray" := Bool(false),
      "autostart" := Bool(false)
    ]
  }

  /** The settings file as `load_config` finds it. */
  datatype ConfigFile = Missing | Unreadable | Parsed(content: map<string, Value>)

  /** `load_config`: the defaults when the file is missing or cannot be read. */
  function LoadConfig(file: ConfigFile): (c: map<string, Value>)
    ensures file.Parsed? ==> c == file.content
    ensures !file.Parsed? ==> c == DefaultConfig()
  {
    if file.Parsed? then file.content else DefaultConfig()
  }

  class ConfigManager {
    var config: map<string, Value>
    /** The file on disk; a missing one is created with the defaults. */
    var file: ConfigFile

    constructor (found: ConfigFile)
      ensures config == LoadConfig(found)
      ensures file == if found.Missing? then Parsed(DefaultConfig()) else found
    {
      config := LoadConfig(found);
      file := if found.Missing? then Parsed(DefaultConfig()) else found;
    }

    /** `get`: the value at the dotted key, or `default`. */
    method Get(key: string, default: Value) returns (value: Value)
      ensures value == Lookup(Dict(config), KeyPath(key), default)
    {
      var keys := KeyPath(key);
      value := Dict(config);
      var i := 0;
      while i < |keys|
        invariant 0 <= i <= |keys|
        invariant Lookup(Dict(config), keys, default) == Lookup(value, keys[i..], default)
      {
        if !(value.Dict? && keys[i] in value.entries) {
          return default;
        }
        value := value.entries[keys[i]];
        i := i + 1;
      }
    }

    /** `set`: walks down the dotted key, putting an empty object wherever a step is
        missing or not an object, then writes the value at the last key. The nested
        objects are values here, so the walk down records them and the write is carried
        back up. */
    method Set(key: string, value: Value)
      modifies this`config
      ensures config == SetPath(old(config), KeyPath(key), value)
    {
      var keys := KeyPath(key);
      var n := |keys| - 1;
      var maps := [config];
      var i := 0;
      while i < n
        invariant 0 <= i <= n
        invariant |maps| == i + 1 && maps[0] == config
        invariant forall j :: 0 <= j < i ==> maps[j + 1] == Child(maps[j], keys[j])
      {
        maps := maps + [Child(maps[i], keys[i])];
        i := i + 1;
      }
      var acc := maps[n][keys[n] := value];
      assert keys[n..] == [keys[n]];
      i := n;
      while i > 0
        invariant 0 <= i <= n
        invariant acc == SetPath(maps[i], keys[i..], value)
      {
        i := i - 1;
        assert keys[i..][1..] == keys[i + 1..];
        acc := maps[i][keys[i] := Dict(acc)];
      }
      config := acc;
    }

    /** `update`: the pairs in order, each through `set`. */
    method Update(updates: seq<(string, Value)>)
      modifies this`config
      ensures config == UpdateAll(old(config), updates)
    {
      var i := 0;
      while i < |updates|
        invariant 0 <= i <= |updates|
        invariant config == UpdateAll(old(config), updates[..i])
      {
        assert updates[..i + 1][..i] == updates[..i];
        Set(updates[i].0, updates[i].1);
        i := i + 1;
      }
      assert updates[..|updates|] == updates;
    }

    /** `save_config()`: the file now holds the current settings. */
    method Save()
      modifies this`file
      ensures file == Parsed(config)
    {
      file := Parsed(config);
    }
  }

  /** A dotted key with one dot names a two-step path. */
  lemma TwoPartKey(key: string, a: string, b: string)
    requires '.' !in a && '.' !in b
    requires key == a + "." + b
    ensures KeyPath(key) == [a, b]
  {
    SplitAfterPart(a, b, '.');
    SplitNoSep(b, '.');
  }

  /** After `set(k, v)`, `get(k)` gives `v`. */
  lemma {:induction false} GetAfterSet(m: map<string, Value>, keys: seq<string>, v: Value, default: Value)
    requires |keys| >= 1
    ensures Lookup(Dict(SetPath(m, keys, v)), keys, default) == v
    decreases |keys|
  {
    if |keys| > 1 {
      GetAfterSet(Child(m, keys[0]), keys[1..], v, default);
    }
  }

  /** `set` leaves every dotted key that parts ways with the written one as it was. */
  lemma {:induction false} SetFrame(m: map<string, Value>, keys: seq<string>, v: Value, other: seq<string>, default: Value)
    requires |keys| >= 1
    requires Diverge(keys, other)
    ensures Lookup(Dict(SetPath(m, keys, v)), other, default) == Lookup(Dict(m), other, default)
    decreases |keys|
  {
    var i :| 0 <= i < |keys| && i < |other| && keys[i] != other[i] && keys[..i] == other[..i];
    var k := keys[0];
    var s := SetPath(m, keys, v);
    if i == 0 {
      assert other[0] != k;
      assert other[0] in s <==> other[0] in m;
      assert other[0] in m ==> s[other[0]] == m[other[0]];
    } else {
      assert other[0] == k by {
        assert keys[..i][0] == other[..i][0];
      }
      var inner := SetPath(Child(m, k), keys[1..], v);
      assert s == m[k := Dict(inner)];
      assert Lookup(Dict(s), other, default) == Lookup(Dict(inner), other[1..], default);
      assert keys[1..][i - 1] == keys[i] && other[1..][i - 1] == other[i];
      assert keys[1..][..i - 1] == other[1..][..i - 1] by {
        assert keys[1..][..i - 1] == keys[..i][1..];
        assert other[1..][..i - 1] == other[..i][1..];
      }
      SetFrame(Child(m, k), keys[1..], v, other[1..], default);
      ChildLookup(m, k, other[1..], default);
      assert [k] + other[1..] == other;
    }
  }

  /** Looking below `k` in `Child(m, k)` is looking below `k` in `m`, unless that finds
      the missing or non-object value `set` would replace, where both give the default. */
  lemma {:induction false} ChildLookup(m: map<string, Value>, k: string, rest: seq<string>, default: Value)
    requires rest != []
    ensures Lookup(Dict(Child(m, k)), rest, default) == Lookup(Dict(m), [k] + rest, default)
  {
    assert ([k] + rest)[1..] == rest;
    if k in m && m[k].Dict? {
      assert Dict(Child(m, k)) == m[k];
    }
  }

  /** Every strict prefix of the written key names an object afterwards. */
  lemma {:induction false} SetMakesObjects(m: map<string, Value>, keys: seq<string>, v: Value, j: nat, default: Value)
    requires 1 <= |keys|
    requires j < |keys|
    ensures Lookup(Dict(SetPath(m, keys, v)), keys[..j], default).Dict?
    decreases |keys|
  {
    if j > 0 {
      assert |keys| > 1;
      SetMakesObjects(Child(m, keys[0]), keys[1..], v, j - 1, default);
      assert keys[..j][1..] == keys[1..][..j - 1];
    }
  }

  /** `update`: a pair's value is read back unless a later pair writes into, over or
      below its key; so of two writes to the same key the last one wins. */
  lemma {:induction false} UpdateGet(m: map<string, Value>, updates: seq<(string, Value)>, i: nat, default: Value)
    requires i < |updates|
    requires forall j :: i < j < |updates| ==> Diverge(KeyPath(updates[j].0), KeyPath(updates[i].0))
    ensures Lookup(Dict(UpdateAll(m, updates)), KeyPath(updates[i].0), default) == updates[i].1
  {
    var front := updates[..|updates| - 1];
    var last := updates[|updates| - 1];
    if i == |updates| - 1 {
      GetAfterSet(UpdateAll(m, front), KeyPath(last.0), last.1, default);
    } else {
      assert front[i] == updates[i];
      forall j | i < j < |front| ensures Diverge(KeyPath(front[j].0), KeyPath(front[i].0)) {
        assert front[j] == updates[j];
      }
      UpdateGet(m, front, i, default);
      SetFrame(UpdateAll(m, front), KeyPath(last.0), last.1, KeyPath(updates[i].0), default);
    }
  }
}
