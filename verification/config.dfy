/**
 The discovery timeout and the timestamp pattern as `loadConfig` and
 `fillDefaultConfigs` leave them. The config file's contents arrive as an
 input: `None` when the assignments from the file are never reached (no
 file, an unreadable file, an IOException while reading), `Some(data)` with
 the entries of the parsed YAML otherwise.
 */
module Config {
  import opened Wrappers

  /** The config key of the discovery timeout. */
  const DiscoveryTimeoutKey: string := "discovery-timeout-ms"

  /** The value a Java `static int` field holds before any assignment. */
  const InitialTimeout: int := 0

  /** The value `fillDefaultConfigs` writes. */
  const DefaultTimeout: int := 1000

  /**
   The timeout after `loadConfig`'s read: the field's initial value when the
   read is skipped, the configured value, or `-1` for a missing key.
   */
  function LoadedTimeout(data: Option<map<string, int>>): int {
    match data
    case None => InitialTimeout
    case Some(d) => if DiscoveryTimeoutKey in d then d[DiscoveryTimeoutKey] else -1
  }

  /**
   The timeout part of `fillDefaultConfigs`. Its test is inverted: every
   value except `-1` is overwritten with the default, and `-1` is kept.
   */
  function FillDefaultTimeout(t: int): (r: int)
    ensures r == -1 || r == DefaultTimeout
    ensures r == -1 <==> t == -1
  {
    if t != -1 then DefaultTimeout else t
  }

  /**
   The timeout the polling loop compares against. It is `-1` exactly when
   the file was read and either lacks the key or sets it to `-1`; in every
   other case, a configured value included, it is the default.
   */
  function EffectiveTimeout(data: Option<map<string, int>>): (r: int)
    ensures r == -1 || r == DefaultTimeout
    ensures r == -1 <==> data.Some? && (DiscoveryTimeoutKey !in data.value || data.value[DiscoveryTimeoutKey] == -1)
  {
    FillDefaultTimeout(LoadedTimeout(data))
  }

  /**
   A configured timeout is never used: `5000` in the file gives `1000`, as
   does a missing file, while a file without the key gives `-1`.
   */
  lemma TimeoutExamples()
    ensures EffectiveTimeout(Some(map[DiscoveryTimeoutKey := 5000])) == DefaultTimeout
    ensures EffectiveTimeout(None) == DefaultTimeout
    ensures EffectiveTimeout(Some(map[])) == -1
  {
  }

  /** The config key of the timestamp pattern. */
  const TimestampFormatKey: string := "timestamp-format"

  /** The pattern `fillDefaultConfigs` writes. */
  const DefaultTimestampFormat: string := "YYYY-MM-dd_HHmm"

  /**
   The timestamp pattern after `loadConfig`'s read, `None` standing for
   `null`: the configured pattern when the file was read and has the key,
   and the field's initial `null` otherwise. `data` holds the string entries
   of the parsed file.
   */
  function LoadedTimestampFormat(data: Option<map<string, string>>): Option<string> {
    if data.Some? && TimestampFormatKey in data.value then Some(data.value[TimestampFormatKey]) else None
  }

  /**
   The timestamp part of `fillDefaultConfigs`. Its test is inverted too: a
   pattern that is set is replaced by the default, and `null` stays `null`.
   */
  function FillDefaultTimestampFormat(f: Option<string>): (r: Option<string>)
    ensures r.Some? <==> f.Some?
    ensures r.Some? ==> r.value == DefaultTimestampFormat
  {
    if f.Some? then Some(DefaultTimestampFormat) else f
  }

  /**
   The pattern `getOutFile` formats the clock with. It is set, and then
   always the default, exactly when the file was read and has the key; in
   every other case, a missing file included, it is `null`, and
   `getOutFile` fails on it.
   */
  function EffectiveTimestampFormat(data: Option<map<string, string>>): (r: Option<string>)
    ensures r.Some? <==> data.Some? && TimestampFormatKey in data.value
    ensures r.Some? ==> r.value == DefaultTimestampFormat
  {
    FillDefaultTimestampFormat(LoadedTimestampFormat(data))
  }

  /**
   A configured pattern is never used: `yyyyMMdd` in the file gives the
   default pattern, and a missing file or a file without the key leaves no
   pattern at all.
   */
  lemma TimestampFormatExamples()
    ensures EffectiveTimestampFormat(Some(map[TimestampFormatKey := "yyyyMMdd"])) == Some(DefaultTimestampFormat)
    ensures EffectiveTimestampFormat(None) == None
    ensures EffectiveTimestampFormat(Some(map[])) == None
  {
  }
}
