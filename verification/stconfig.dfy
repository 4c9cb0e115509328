/**
  SillyTavern's own settings (`stcfg` in `src/stconfig.py`): the `listen` and `port`
  attributes, the YAML document they are read from and written back into, and the
  client whitelist file.
 */
module StConfig {
  import opened Wrappers
  import opened Strings
  import opened Config

  /** The YAML file as `load_config` finds it. */
  datatype YamlFile = NotFound | Broken | Loaded(data: map<string, Value>)

  /** How far `save_config` gets before an error is printed and swallowed. */
  datatype SaveOutcome = DirFails | WriteFails | Written

  const WhitelistText: string := "192.168.*.*\n127.0.0.1\n"

  /** Names `hasattr` also finds on the object but that are not settings: its
      methods, its YAML handler, the document itself and Python's own dunder names.
      Rebinding these is not modelled. */
  predicate Reserved(key: string) {
    || key in {"yaml", "config_data", "load_config", "save_config", "create_whitelist", "set", "get"}
    || StartsWith(key, "__")
  }

  /** `listen` and `port` as `load_config` leaves them. */
  function LoadedListen(found: YamlFile): (v: Value)
    ensures !found.Loaded? ==> v == Bool(false)
    ensures found.Loaded? && "listen" in found.data ==> v == found.data["listen"]
    ensures found.Loaded? && "listen" !in found.data ==> v == Bool(false)
  {
    if found.Loaded? && "listen" in found.data then found.data["listen"] else Bool(false)
  }

  function LoadedPort(found: YamlFile): (v: Value)
    ensures !found.Loaded? ==> v == Int(8000)
    ensures found.Loaded? && "port" in found.data ==> v == found.data["port"]
    ensures found.Loaded? && "port" !in found.data ==> v == Int(8000)
  {
    if found.Loaded? && "port" in found.data then found.data["port"] else Int(8000)
  }

  /** The document after `save_config` copies the two attributes into it. */
  function WriteBack(data: map<string, Value>, listen: Value, port: Value): (r: map<string, Value>)
    ensures r.Keys == data.Keys + {"listen", "port"}
    ensures r["listen"] == listen && r["port"] == port
    ensures forall k :: k in data && k != "listen" && k != "port" ==> r[k] == data[k]
  {
    data["listen" := listen]["port" := port]
  }

  /** The document and the file after `save_config` with the given attributes: nothing
      changes when the directory cannot be created; otherwise the attributes are copied
      in, and the file holds the document when the write succeeds. */
  function Saved(data: map<string, Value>, file: YamlFile, listen: Value, port: Value, outcome: SaveOutcome)
    : (r: (map<string, Value>, YamlFile))
    ensures outcome == DirFails ==> r == (data, file)
    ensures outcome != DirFails ==> r.0 == WriteBack(data, listen, port)
    ensures outcome == WriteFails ==> r.1 == file
    ensures outcome == Written ==> r.1 == Loaded(r.0)
  {
    if outcome == DirFails then (data, file)
    else
      var d := WriteBack(data, listen, port);
      (d, if outcome == Written then Loaded(d) else file)
  }

  class StCfg {
    /** The object's data attributes by name. */
    var attrs: map<string, Value>
    /** The parsed YAML document. */
    var configData: map<string, Value>
    /** `config.yaml` on disk. */
    var file: YamlFile
    /** `whitelist.txt` on disk, when it exists. */
    var whitelist: Option<string>

    predicate Valid()
      reads this
    {
      "listen" in attrs && "port" in attrs
    }

    /** `__init__` followed by `load_config`: `listen` is false and `port` is 8000
        unless a readable file says otherwise. */
    constructor (cwd: string, found: YamlFile, whitelistFile: Option<string>)
      ensures Valid()
      ensures attrs["listen"] == LoadedListen(found) && attrs["port"] == LoadedPort(found)
      ensures configData == if found.Loaded? then found.data else map[]
      ensures file == found && whitelist == whitelistFile
      ensures attrs.Keys == {"base_dir", "config_path", "whitelist_path", "listen", "port"}
    {
      var base := PosixJoin(cwd, "SillyTavern");
      attrs := map[
        "base_dir" := Str(base),
        "config_path" := Str(PosixJoin(base, "config.yaml")),
        "whitelist_path" := Str(PosixJoin(base, "whitelist.txt")),
        "listen" := LoadedListen(found),
        "port" := LoadedPort(found)
      ];
      configData := if found.Loaded? then found.data else map[];
      file := found;
      whitelist := whitelistFile;
    }

    /** `get`: the attribute, or `default` when there is none. */
    function Get(key: string, default: Value): (v: Value)
      reads this
      requires !Reserved(key)
      ensures key in attrs ==> v == attrs[key]
      ensures key !in attrs ==> v == default
    {
      if key in attrs then attrs[key] else default
    }

    /** `set`: an existing attribute is rebound and mirrored into the document; an
        unknown one is the `AttributeError` (`ok` false), which changes nothing. */
    method Set(key: string, value: Value) returns (ok: bool)
      requires !Reserved(key)
      modifies this`attrs, this`configData
      ensures ok <==> key in old(attrs)
      ensures ok ==> attrs == old(attrs)[key := value] && configData == old(configData)[key := value]
      ensures !ok ==> attrs == old(attrs) && configData == old(configData)
      ensures ok ==> forall d :: Get(key, d) == value
      ensures old(Valid()) ==> Valid()
    {
      if key in attrs {
        attrs := attrs[key := value];
        configData := configData[key := value];
        ok := true;
      } else {
        ok := false;
      }
    }

    /** A plain attribute assignment from outside (`stCfg.port = p`). */
    method Assign(key: string, value: Value)
      requires !Reserved(key)
      modifies this`attrs
      ensures attrs == old(attrs)[key := value]
      ensures old(Valid()) ==> Valid()
    {
      attrs := attrs[key := value];
    }

    /** `save_config`: `listen` and `port` are copied into the document, which keeps
        every other key, and the document is written out. A failure to create the
        directory happens before the copy; a failure to write happens after it. */
    method Save(outcome: SaveOutcome)
      requires Valid()
      modifies this`configData, this`file
      ensures outcome == DirFails ==> configData == old(configData) && file == old(file)
      ensures outcome != DirFails ==> configData == WriteBack(old(configData), attrs["listen"], attrs["port"])
      ensures outcome == WriteFails ==> file == old(file)
      ensures outcome == Written ==> file == Loaded(configData)
      ensures (configData, file) == Saved(old(configData), old(file), attrs["listen"], attrs["port"], outcome)
    {
      if outcome == DirFails {
        return;
      }
      configData := configData["listen" := attrs["listen"]];
      configData := configData["port" := attrs["port"]];
      if outcome == Written {
        file := Loaded(configData);
      }
    }

    /** `create_whitelist`: writes the default list only when no file exists; a
        failed write leaves no file. */
    method CreateWhitelist(writeOk: bool)
      modifies this`whitelist
      ensures old(whitelist).Some? ==> whitelist == old(whitelist)
      ensures old(whitelist).None? ==> whitelist == if writeOk then Some(WhitelistText) else None
    {
      if whitelist.None? && writeOk {
        whitelist := Some(WhitelistText);
      }
    }
  }

  /** Saving and loading again gives back the attributes that were saved. */
  lemma SaveThenLoad(data: map<string, Value>, listen: Value, port: Value)
    ensures LoadedListen(Loaded(WriteBack(data, listen, port))) == listen
    ensures LoadedPort(Loaded(WriteBack(data, listen, port))) == port
  {
  }
}
