/** Settings: the `config` table of key/value rows and the cache of it.
    `set_settings` checks every key before one batched write, so a rejected
    key leaves every setting unchanged. Whether a path is a directory or a
    file, and the naming-format check, are parameters. */
module Settings {
  import opened Common
  import opened Strings

  /** The settings holding a naming format. */
  const NamingKeys: set<string> := {"volume_folder_naming", "file_naming", "file_naming_tpb"}

  /** The keys of `default_settings`. */
  const DefaultKeys: set<string> :=
    {"host", "port", "comicvine_api_key", "auth_password", "volume_folder_naming", "file_naming",
     "file_naming_tpb", "download_folder", "log_level", "database_version"}

  /** `default_settings`, with the download folder and the database version
      given; numbers are written as their text. */
  function DefaultSettings(downloadFolder: string, databaseVersion: nat): (d: map<string, string>)
    ensures d.Keys == DefaultKeys
    ensures d["port"] == "5656" && d["log_level"] == "info" && d["download_folder"] == downloadFolder
  {
    map[
      "host" := "0.0.0.0",
      "port" := "5656",
      "comicvine_api_key" := "",
      "auth_password" := "",
      "volume_folder_naming" := "{series_name}/Volume {volume_number} ({year})",
      "file_naming" := "{series_name} ({year}) Volume {volume_number} Issue {issue_number}",
      "file_naming_tpb" := "{series_name} ({year}) Volume {volume_number} TPB",
      "download_folder" := downloadFolder,
      "log_level" := "info",
      "database_version" := NatToString(databaseVersion)
    ]
  }

  /** The checks `set_settings` makes of one key and value, in the order of
      its `if`/`elif` chain; `None` when the pair is accepted. */
  function CheckSetting(key: string, value: string, isDir: string -> bool, isFile: string -> bool,
                        formatCheck: (string, string) -> Option<Error>): Option<Error>
  {
    if key == "port" && !IsDigits(value) then Some(InvalidSettingValue(key))
    else if key == "api_key" then Some(InvalidSettingModification(key))
    else if key == "download_folder" && !isDir(value) then Some(FolderNotFound)
    else if key in NamingKeys then formatCheck(value, key)
    else if key == "log_level" && value != "info" && value != "debug" then Some(InvalidSettingValue(key))
    else if key == "log_file" && !isFile(value) then Some(InvalidSettingValue(key))
    else if key !in DefaultKeys then Some(InvalidSettingKey(key))
    else None
  }

  /** The error of the first rejected pair, in the order of the request. */
  function FirstError(settings: seq<(string, string)>, isDir: string -> bool, isFile: string -> bool,
                      formatCheck: (string, string) -> Option<Error>): Option<Error>
    decreases |settings|
  {
    if |settings| == 0 then None
    else
      var e := CheckSetting(settings[0].0, settings[0].1, isDir, isFile, formatCheck);
      if e.Some? then e else FirstError(settings[1..], isDir, isFile, formatCheck)
  }

  /** The keys of a request. */
  function Keys(settings: seq<(string, string)>): (ks: set<string>)
    ensures forall k :: k in ks <==> exists i | 0 <= i < |settings| :: settings[i].0 == k
    decreases |settings|
  {
    if |settings| == 0 then {}
    else
      var rest := Keys(settings[1..]);
      assert forall i | 1 <= i < |settings| :: settings[i] == settings[1..][i - 1];
      {settings[0].0} + rest
  }

  /** A request comes from a dict: no key is in it twice. */
  predicate DistinctKeys(settings: seq<(string, string)>) {
    forall i, j | 0 <= i < j < |settings| :: settings[i].0 != settings[j].0
  }

  /** `UPDATE config SET value = ? WHERE key = ?`: only an existing row
      changes. */
  function UpdateRow(config: map<string, string>, key: string, value: string): map<string, string> {
    if key in config then config[key := value] else config
  }

  /** The batched update of every pair of a request, in order. */
  function Applied(config: map<string, string>, changes: seq<(string, string)>): map<string, string>
    decreases |changes|
  {
    if |changes| == 0 then config
    else Applied(UpdateRow(config, changes[0].0, changes[0].1), changes[1..])
  }

  /** The batched update keeps the set of rows, gives every requested key
      that has a row its new value and leaves every other row alone. */
  lemma {:induction false} AppliedEffect(config: map<string, string>, changes: seq<(string, string)>)
    requires DistinctKeys(changes)
    ensures Applied(config, changes).Keys == config.Keys
    ensures forall i | 0 <= i < |changes| && changes[i].0 in config ::
      Applied(config, changes)[changes[i].0] == changes[i].1
    ensures forall k | k in config && k !in Keys(changes) :: Applied(config, changes)[k] == config[k]
    decreases |changes|
  {
    if |changes| > 0 {
      var next := UpdateRow(config, changes[0].0, changes[0].1);
      var rest := changes[1..];
      AppliedEffect(next, rest);
      forall i | 0 <= i < |changes| && changes[i].0 in config
        ensures Applied(config, changes)[changes[i].0] == changes[i].1
      {
        if i > 0 {
          assert changes[i] == rest[i - 1];
        } else {
          assert changes[0].0 !in Keys(rest);
        }
      }
    }
  }

  /** `api_key` can never be set through `set_settings`: a request holding
      it is always rejected. */
  lemma {:induction false} ApiKeyRejected(settings: seq<(string, string)>, isDir: string -> bool,
                                          isFile: string -> bool, formatCheck: (string, string) -> Option<Error>)
    requires "api_key" in Keys(settings)
    ensures FirstError(settings, isDir, isFile, formatCheck).Some?
    decreases |settings|
  {
    if settings[0].0 != "api_key" {
      var i :| 0 <= i < |settings| && settings[i].0 == "api_key";
      assert settings[1..][i - 1].0 == "api_key";
      ApiKeyRejected(settings[1..], isDir, isFile, formatCheck);
    }
  }

  /** `log_file` is always rejected: when the file is missing the value is
      invalid, and otherwise the key is unknown. */
  lemma LogFileRejected(value: string, isDir: string -> bool, isFile: string -> bool,
                        formatCheck: (string, string) -> Option<Error>)
    ensures CheckSetting("log_file", value, isDir, isFile, formatCheck) ==
      Some(if isFile(value) then InvalidSettingKey("log_file") else InvalidSettingValue("log_file"))
  {
  }

  /** An accepted request names only default settings, gives `port` digits,
      `log_level` 'info' or 'debug' and `download_folder` a directory. */
  lemma {:induction false} AcceptedRequest(settings: seq<(string, string)>, isDir: string -> bool,
                                           isFile: string -> bool, formatCheck: (string, string) -> Option<Error>)
    requires FirstError(settings, isDir, isFile, formatCheck).None?
    ensures forall i | 0 <= i < |settings| :: settings[i].0 in DefaultKeys
    ensures forall i | 0 <= i < |settings| && settings[i].0 == "port" :: IsDigits(settings[i].1)
    ensures forall i | 0 <= i < |settings| && settings[i].0 == "log_level" ::
      settings[i].1 == "info" || settings[i].1 == "debug"
    ensures forall i | 0 <= i < |settings| && settings[i].0 == "download_folder" :: isDir(settings[i].1)
    ensures forall i | 0 <= i < |settings| && settings[i].0 in NamingKeys ::
      formatCheck(settings[i].1, settings[i].0).None?
    decreases |settings|
  {
    if |settings| > 0 {
      AcceptedRequest(settings[1..], isDir, isFile, formatCheck);
      forall i | 1 <= i < |settings| ensures settings[i] == settings[1..][i - 1] {
      }
    }
  }

  /** The error is the first pair's own error when the request is rejected
      at some pair and accepted before it. */
  lemma {:induction false} FirstErrorAt(settings: seq<(string, string)>, isDir: string -> bool,
                                        isFile: string -> bool, formatCheck: (string, string) -> Option<Error>, i: nat)
    requires i < |settings|
    requires CheckSetting(settings[i].0, settings[i].1, isDir, isFile, formatCheck).Some?
    requires forall j | 0 <= j < i :: CheckSetting(settings[j].0, settings[j].1, isDir, isFile, formatCheck).None?
    ensures FirstError(settings, isDir, isFile, formatCheck) ==
      CheckSetting(settings[i].0, settings[i].1, isDir, isFile, formatCheck)
    decreases i
  {
    if i > 0 {
      forall j | 0 <= j < i - 1 ensures settings[1..][j] == settings[j + 1] {
      }
      FirstErrorAt(settings[1..], isDir, isFile, formatCheck, i - 1);
    }
  }

  class SettingsStore {
    /** The `config` table: key to value. */
    var config: map<string, string>
    /** The cache of the table, filled by `get_settings`. */
    var cache: map<string, string>
    /** `default_settings`. */
    const defaults: map<string, string>

    constructor(initial: map<string, string>, downloadFolder: string, databaseVersion: nat)
      ensures config == initial && cache == map[]
      ensures defaults == DefaultSettings(downloadFolder, databaseVersion)
    {
      config := initial;
      cache := map[];
      defaults := DefaultSettings(downloadFolder, databaseVersion);
    }

    /** `get_settings`: when the cache is empty or not to be used, the rows
        of the table are merged into it (keys are never removed); the cache
        is returned. */
    method GetSettings(useCache: bool) returns (s: map<string, string>)
      modifies this
      ensures config == old(config)
      ensures cache == if old(cache) == map[] || !useCache then old(cache) + config else old(cache)
      ensures s == cache
    {
      if cache == map[] || !useCache {
        cache := cache + config;
      }
      s := cache;
    }

    /** `set_settings`: every pair is checked in order and the first
        rejection is raised with nothing written; otherwise all pairs are
        written in one batch and the cache is reloaded. An empty request
        writes nothing and returns the cache. */
    method SetSettings(settings: seq<(string, string)>, isDir: string -> bool, isFile: string -> bool,
                       formatCheck: (string, string) -> Option<Error>) returns (r: Result<map<string, string>>)
      requires DistinctKeys(settings)
      modifies this
      ensures r.Err? <==> FirstError(settings, isDir, isFile, formatCheck).Some?
      ensures r.Err? ==> Some(r.error) == FirstError(settings, isDir, isFile, formatCheck)
      ensures r.Err? ==> config == old(config) && cache == old(cache)
      ensures r.Ok? ==> config == Applied(old(config), settings)
      ensures r.Ok? && |settings| > 0 ==> cache == old(cache) + config && r.value == cache
      ensures r.Ok? && |settings| == 0 ==>
        cache == (if old(cache) == map[] then old(cache) + config else old(cache)) && r.value == cache
    {
      var changes: seq<(string, string)> := [];
      var i := 0;
      while i < |settings|
        invariant 0 <= i <= |settings|
        invariant changes == settings[..i]
        invariant FirstError(settings, isDir, isFile, formatCheck) == FirstError(settings[i..], isDir, isFile, formatCheck)
      {
        var (key, value) := settings[i];
        var e := CheckSetting(key, value, isDir, isFile, formatCheck);
        if e.Some? {
          return Err(e.value);
        }
        assert settings[i..][1..] == settings[i + 1..];
        changes := changes + [settings[i]];
        i := i + 1;
      }
      assert changes == settings;
      var result;
      if |changes| > 0 {
        config := Applied(config, changes);
        result := GetSettings(false);
      } else {
        result := GetSettings(true);
      }
      return Ok(result);
    }

    /** `reset_setting`: an unknown key is `InvalidSettingKey`; otherwise the
        row gets its default value back and the cache is reloaded. */
    method ResetSetting(key: string) returns (r: Result<map<string, string>>)
      modifies this
      ensures key !in defaults ==> r == Err(InvalidSettingKey(key)) && config == old(config) && cache == old(cache)
      ensures key in defaults ==>
        && config == UpdateRow(old(config), key, defaults[key])
        && cache == old(cache) + config
        && r == Ok(cache)
    {
      if key !in defaults {
        return Err(InvalidSettingKey(key));
      }
      config := UpdateRow(config, key, defaults[key]);
      var s := GetSettings(false);
      return Ok(s);
    }
  }
}
