/**
 * The settings store of the note manager (`ConfigManager` in
 * src/config_manager.py).
 *
 * Settings live in memory as a dict and on disk in `config.json` under the
 * application directory. Loading keeps every stored key and adds each
 * default key that is missing; a file that does not load gives exactly the
 * defaults, and a missing file gives the defaults and is written once.
 * `set` changes the dict first and then writes it, so the new value is
 * visible even when the write fails.
 */
module Config {
  import opened Options
  import opened Paths

  /** The JSON values a setting can take. */
  datatype Json =
    | JNull
    | JBool(b: bool)
    | JNumber(n: int)
    | JString(s: string)
    | JArray(items: seq<Json>)
    | JObject(fields: map<string, Json>)

  /** One `key: value` item of a dict, in iteration order. */
  datatype Setting = Setting(key: string, value: Json)

  /** What `config.json` holds: nothing, something `json.load` rejects, or an object. */
  datatype ConfigFile = Absent | Unreadable | Stored(settings: map<string, Json>)

  /** The name of the settings file inside the application directory. */
  const ConfigFileName := "config.json"

  /** The only default key: where the notes live. */
  const DataDirKey := "data_dir"

  /** `default_config`, item by item: `data_dir` is `<app_dir>/data`. */
  function DefaultSettings(appDir: string): (items: seq<Setting>)
    ensures |items| == 1 && items[0].key == DataDirKey
  {
    [Setting(DataDirKey, JString(Join(appDir, "data")))]
  }

  /** The keys of a list of items. */
  ghost predicate HasKey(items: seq<Setting>, k: string) {
    exists i :: 0 <= i < |items| && items[i].key == k
  }

  /**
   * The loop of `load_config` over `default_config.items()`: each default
   * key missing from `config` is added with its default value; keys already
   * there keep their stored value.
   */
  function WithDefaults(config: map<string, Json>, defaults: seq<Setting>): (filled: map<string, Json>)
  {
    if defaults == [] then config
    else
      var before := WithDefaults(config, defaults[..|defaults| - 1]);
      var d := defaults[|defaults| - 1];
      if d.key in before then before else before[d.key := d.value]
  }

  /** `default_config` as a dict: its items put into an empty dict. */
  function DefaultConfig(appDir: string): (config: map<string, Json>)
    ensures config.Keys == {DataDirKey} && config[DataDirKey] == DefaultSettings(appDir)[0].value
  {
    var items := DefaultSettings(appDir);
    assert WithDefaults(map[], items[..0]) == map[] by { assert items[..0] == []; }
    assert WithDefaults(map[], items) == map[DataDirKey := items[0].value];
    WithDefaults(map[], items)
  }

  /** Filling in defaults keeps every stored key and value and adds exactly the default keys. */
  lemma {:induction false} WithDefaultsKeys(config: map<string, Json>, defaults: seq<Setting>)
    ensures forall k :: k in config ==> k in WithDefaults(config, defaults) && WithDefaults(config, defaults)[k] == config[k]
    ensures forall k :: k in WithDefaults(config, defaults) <==> k in config || HasKey(defaults, k)
  {
    if defaults != [] {
      var n := |defaults| - 1;
      WithDefaultsKeys(config, defaults[..n]);
      forall k ensures HasKey(defaults, k) <==> HasKey(defaults[..n], k) || defaults[n].key == k {
        if HasKey(defaults, k) {
          var i :| 0 <= i < |defaults| && defaults[i].key == k;
          if i < n {
            assert defaults[..n][i] == defaults[i];
          }
        }
        if HasKey(defaults[..n], k) {
          var i :| 0 <= i < n && defaults[..n][i].key == k;
          assert defaults[i] == defaults[..n][i];
        }
      }
    }
  }

  /** A key missing from the stored settings takes the value of its first default item. */
  lemma {:induction false} WithDefaultsValue(config: map<string, Json>, defaults: seq<Setting>, i: nat)
    requires i < |defaults| && defaults[i].key !in config
    requires forall j :: 0 <= j < i ==> defaults[j].key != defaults[i].key
    ensures defaults[i].key in WithDefaults(config, defaults)
    ensures WithDefaults(config, defaults)[defaults[i].key] == defaults[i].value
  {
    var n := |defaults| - 1;
    var k := defaults[i].key;
    if i == n {
      forall j | 0 <= j < n ensures defaults[..n][j].key != k {
        assert defaults[..n][j] == defaults[j];
      }
      assert !HasKey(defaults[..n], k);
      WithDefaultsKeys(config, defaults[..n]);
    } else {
      assert defaults[..n][i] == defaults[i];
      WithDefaultsValue(config, defaults[..n], i);
    }
  }

  /** Filling in the same defaults twice changes nothing more. */
  lemma WithDefaultsIdempotent(config: map<string, Json>, defaults: seq<Setting>)
    ensures WithDefaults(WithDefaults(config, defaults), defaults) == WithDefaults(config, defaults)
  {
    var once := WithDefaults(config, defaults);
    WithDefaultsKeys(config, defaults);
    WithDefaultsKeys(once, defaults);
  }

  /** The settings `load_config` returns for the file as found. */
  function Loaded(file: ConfigFile, appDir: string): (config: map<string, Json>)
  {
    match file
    case Stored(settings) => WithDefaults(settings, DefaultSettings(appDir))
    case _ => DefaultConfig(appDir)
  }

  /**
   * Whatever the file holds, the loaded settings have `data_dir`; it is the
   * stored value when the file sets it and `<app_dir>/data` otherwise, and
   * every other stored key is kept.
   */
  lemma LoadedHasDataDir(file: ConfigFile, appDir: string)
    ensures DataDirKey in Loaded(file, appDir)
    ensures file.Stored? && DataDirKey in file.settings ==>
              Loaded(file, appDir)[DataDirKey] == file.settings[DataDirKey]
    ensures !(file.Stored? && DataDirKey in file.settings) ==>
              Loaded(file, appDir)[DataDirKey] == JString(Join(appDir, "data"))
    ensures file.Stored? ==> forall k :: k in file.settings ==> k in Loaded(file, appDir) && Loaded(file, appDir)[k] == file.settings[k]
    ensures file.Stored? ==> Loaded(file, appDir).Keys == file.settings.Keys + {DataDirKey}
    ensures !file.Stored? ==> Loaded(file, appDir) == DefaultConfig(appDir)
  {
    if file.Stored? {
      var defaults := DefaultSettings(appDir);
      WithDefaultsKeys(file.settings, defaults);
      assert HasKey(defaults, DataDirKey);
      assert forall k :: HasKey(defaults, k) ==> k == DataDirKey;
      if DataDirKey !in file.settings {
        WithDefaultsValue(file.settings, defaults, 0);
      }
    }
  }

  /** Saving what was loaded and loading again gives the same settings. */
  lemma ReloadIsStable(file: ConfigFile, appDir: string)
    ensures Loaded(Stored(Loaded(file, appDir)), appDir) == Loaded(file, appDir)
  {
    var config := Loaded(file, appDir);
    LoadedHasDataDir(file, appDir);
    LoadedHasDataDir(Stored(config), appDir);
  }

  class ConfigManager {
    /** `app_dir` */
    const appDir: string
    /** `config_file`: `<app_dir>/config.json`. */
    const configFile: string
    /** Whether writing `config.json` succeeds. */
    const writable: bool
    /** `config`: the settings in memory. */
    var config: map<string, Json>
    /** The contents of `config.json`. */
    var file: ConfigFile

    /** `__init__`: `config` is whatever `load_config` returns. */
    constructor (appDir: string, file: ConfigFile, writable: bool)
      ensures this.appDir == appDir && this.writable == writable
      ensures configFile == Join(appDir, ConfigFileName)
      ensures config == Loaded(file, appDir)
      ensures this.file == (if file.Absent? && writable then Stored(config) else file)
    {
      this.appDir := appDir;
      configFile := Join(appDir, ConfigFileName);
      this.writable := writable;
      config := map[];
      this.file := file;
      new;
      var loaded := LoadConfig();
      config := loaded;
    }

    /**
     * `load_config`: a stored object gets the missing defaults filled in, an
     * unreadable file gives the defaults, and a missing file gives the
     * defaults after saving them (which also makes them the current
     * settings).
     */
    method LoadConfig() returns (loaded: map<string, Json>)
      modifies this
      ensures loaded == Loaded(old(file), appDir)
      ensures old(file).Absent? ==> config == loaded && file == (if writable then Stored(loaded) else Absent)
      ensures !old(file).Absent? ==> config == old(config) && file == old(file)
    {
      var defaults := DefaultConfig(appDir);
      match file {
        case Stored(settings) =>
          loaded := FillDefaults(settings, DefaultSettings(appDir));
        case Unreadable =>
          loaded := defaults;
        case Absent =>
          var _ := SaveConfig(Some(defaults));
          loaded := defaults;
      }
    }

    /** The loop of `load_config` that adds each missing default key. */
    static method FillDefaults(stored: map<string, Json>, defaults: seq<Setting>) returns (filled: map<string, Json>)
      ensures filled == WithDefaults(stored, defaults)
    {
      filled := stored;
      for i := 0 to |defaults|
        invariant filled == WithDefaults(stored, defaults[..i])
      {
        assert defaults[..i + 1][..i] == defaults[..i];
        var d := defaults[i];
        if d.key !in filled {
          filled := filled[d.key := d.value];
        }
      }
      assert defaults[..|defaults|] == defaults;
    }

    /**
     * `save_config`: a given dict replaces the settings first; then the
     * settings are written, and the result says whether that worked.
     */
    method SaveConfig(replacement: Option<map<string, Json>>) returns (ok: bool)
      modifies this
      ensures config == (if replacement.Some? then replacement.value else old(config))
      ensures ok == writable
      ensures file == (if ok then Stored(config) else old(file))
    {
      if replacement.Some? {
        config := replacement.value;
      }
      if writable {
        file := Stored(config);
        ok := true;
      } else {
        ok := false;
      }
    }

    /** `get`: the stored value, or `default` when the key is not set. */
    function Get(key: string, default: Json): (v: Json)
      reads this
      ensures key in config ==> v == config[key]
      ensures key !in config ==> v == default
    {
      if key in config then config[key] else default
    }

    /** `set`: store the value in memory, then save; the result is the save's. */
    method Set(key: string, value: Json) returns (ok: bool)
      modifies this
      ensures config == old(config)[key := value]
      ensures forall default :: Get(key, default) == value
      ensures ok == writable
      ensures file == (if ok then Stored(config) else old(file))
    {
      config := config[key := value];
      ok := SaveConfig(None);
    }
  }
}
