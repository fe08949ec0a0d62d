# EZUSBBackup device-grouping and backup engine, in Dafny

EZUSBBackup watches for USB storage devices. Each partition-attach event is
filed under a logical device id: the raw device path with its trailing digits
removed, so `sdb1` and `sdb2` both become `sdb`. A polling loop waits until a
device has had no new partition for longer than a discovery timeout. It then
works out the image name and launches a `dd` copy of the whole device, once.
The registry entry is dropped when that copy exits. This needs a timestamp
pattern, which the code only has when `config.yaml` sets one (see below).

This project models that sequential core as pure functions:

- `Normalizer` models `stripEndNumbers`, including the exact meaning of
  `matches(".*\\d")`.
- `Devices` models `DeviceHolder` as an immutable record. The clock is an
  explicit `now` parameter.
- `Backup` models `getBackupInfo`, the `BackupInfo` pair and `getOutFile`.
  The file system is a parameter `fs`. `fs(path)` is `Some(data)` when the
  YAML descriptor at `path` loads, and `None` when it is missing, unreadable
  or reading it raises an IOException.
- `Registry` models the `DEVICES` map and its three transitions, each taken
  one at a time:
  - the attach listener;
  - one pass of the polling loop, together with `unmountAndBackup`;
  - the copy's exit callback.
- `Config` models how `loadConfig` and `fillDefaultConfigs` settle the
  discovery timeout and the timestamp pattern. The config file's contents are an input.
- `Lifecycle` applies whole sequences of these events. It proves that a
  device is backed up at most once while it stays registered.

Behaviour of the code that the model keeps:

- **Multi-line paths are not stripped.** `.*\d` must match the whole
  string, and `.` does not match a line terminator (`\n`, `\r`, U+0085,
  U+2028, U+2029). So only a path with no line terminator before its last
  character loses its trailing digit run (`StripSingleLine`,
  `StripCharacterised`); any other path is returned unchanged, even when it
  ends in digits (`StripMultiLine`).
- **A version without a name is kept.** The first descriptor that loads ends
  the search even when it has no `backup-name`. The name then falls back to
  the first partition's volume name, but that descriptor's `version` is kept.
- **The flag is set after the launch.** The code sets `hasBackedUp` at the
  end of `unmountAndBackup`, after the launch attempt, not in a claim before
  any work, and whether or not `dd` started (provided a timestamp pattern is
  set; see the last point). Events are applied one at a
  time here, so `Tick` marks every holder it processes, and only those. A
  holder whose copy never started is never removed (`StaysBackedUp`).
- **Ages can be negative.** The age test is `now - lastModified > timeout`
  over the integers. A clock that went backwards gives a negative age.
- **The configured timeout is ignored.** The `!=` tests in
  `fillDefaultConfigs` are inverted. The timeout in force is `-1` when
  `config.yaml` was read and either sets `discovery-timeout-ms` to `-1` or
  lacks that key, and `1000` in every other case: any other configured
  value, and a config file that is missing or unreadable (the field then
  still holds its initial `0`). `Config.EffectiveTimeout` models this. The
  registry takes the timeout as an arbitrary `int`, which over-approximates
  these two values.
- **Without a configured pattern, nothing is backed up.** The timestamp
  test in `fillDefaultConfigs` is inverted as well. `TIMESTAMP_FORMAT` is
  the default `YYYY-MM-dd_HHmm` when `config.yaml` was read and sets
  `timestamp-format`, and `null` in every other case, a missing config file
  included (`Config.EffectiveTimestampFormat`). With `null`, `getOutFile`
  throws at its first line, inside `unmountAndBackup` and before its `try`.
  The exception ends the polling loop at the first eligible holder: `dd`
  never starts and the holder is never marked. The registry model takes the
  formatted timestamp as a parameter, so it describes the configuration
  where a pattern is set.

## Model

| member | source | states |
|---|---|---|
| Normalizer.StripEndNumbers | src/dev/emly/ez_usb_backup/EZUSBBackup.java:99-103 | The result is a prefix of the input. Every removed character is an ASCII digit. The `.*\d` match no longer succeeds on the result. |
| Normalizer.StripNonMatching | src/dev/emly/ez_usb_backup/EZUSBBackup.java:100-102 | A string the regex does not match, such as one not ending in a digit, is returned unchanged. |
| Normalizer.StripIdempotent | src/dev/emly/ez_usb_backup/EZUSBBackup.java:99-103 | Normalising an already normalised id changes nothing. |
| Normalizer.StripSingleLine | src/dev/emly/ez_usb_backup/EZUSBBackup.java:99-103 | For a path without line terminators, the result is empty or ends in a non-digit. |
| Normalizer.StripMultiLine | src/dev/emly/ez_usb_backup/EZUSBBackup.java:100 | A line terminator before the last character stops `.*` from matching, so the path is returned unchanged even if it ends in digits. |
| Normalizer.StripCharacterised | src/dev/emly/ez_usb_backup/EZUSBBackup.java:99-103 | For a single-line path, a string is the result if and only if it is a prefix followed only by digits and is empty or ends in a non-digit. |
| Normalizer.StripAllDigits | src/dev/emly/ez_usb_backup/EZUSBBackup.java:99-103 | An all-digit path normalises to the empty string. |
| Normalizer.StripExamples | src/dev/emly/ez_usb_backup/EZUSBBackup.java:35 | `sdb1` and `sdb2` both map to `sdb`, and `nvme0n1p3` maps to `nvme0n1p`. |
| Normalizer.TrimTrailingDigits | src/dev/emly/ez_usb_backup/EZUSBBackup.java:99-103 | A loop that scans once for line terminators and then trims trailing digits computes the same id as the recursive definition. |
| Config.FillDefaultTimeout | src/dev/emly/ez_usb_backup/EZUSBBackup.java:93-94 | The result is `-1` or `1000`, and it is `-1` exactly when the input is `-1`. |
| Config.EffectiveTimeout | src/dev/emly/ez_usb_backup/EZUSBBackup.java:59-97 | The timeout in force is `-1` or `1000`. It is `-1` exactly when the config was read and either lacks `discovery-timeout-ms` or sets it to `-1`. A skipped read leaves the field's initial `0`, which becomes `1000`. |
| Config.TimeoutExamples | src/dev/emly/ez_usb_backup/EZUSBBackup.java:74-94 | A configured `5000` gives `1000`, as does a missing file. A file without the key gives `-1`. |
| Config.FillDefaultTimestampFormat | src/dev/emly/ez_usb_backup/EZUSBBackup.java:91-92 | A set pattern becomes the default `YYYY-MM-dd_HHmm`; an unset one stays unset. |
| Config.EffectiveTimestampFormat | src/dev/emly/ez_usb_backup/EZUSBBackup.java:59-97 | A pattern is in force exactly when the config was read and has `timestamp-format`, and it is then always the default. A missing file leaves none. |
| Config.TimestampFormatExamples | src/dev/emly/ez_usb_backup/EZUSBBackup.java:72-92 | A configured `yyyyMMdd` gives the default pattern. A missing file and a file without the key give none. |
| Devices.NewHolder | src/dev/emly/ez_usb_backup/DeviceHolder.java:15-19 | A new holder has the given id, no partitions, the flag cleared and `lastModified` set to the creation time. |
| Devices.AddUsbDevice | src/dev/emly/ez_usb_backup/DeviceHolder.java:33-41 | The list grows by one. Earlier partitions keep their places and the new one is last. `lastModified` becomes `now`. The id and the flag are unchanged. |
| Devices.SetBackedUp | src/dev/emly/ez_usb_backup/DeviceHolder.java:43-45 | The flag is set. The id, partitions and `lastModified` are unchanged. |
| Devices.SetBackedUpIdempotent | src/dev/emly/ez_usb_backup/DeviceHolder.java:43-49 | Setting the flag twice equals setting it once. Setting an already set flag changes nothing. An append never clears the flag. |
| Devices.AddUsbDeviceMonotone | src/dev/emly/ez_usb_backup/DeviceHolder.java:33-41 | If the clock does not run backwards, an append never decreases `lastModified`. |
| Backup.FirstLoaded | src/dev/emly/ez_usb_backup/EZUSBBackup.java:134-158 | Finds the first partition, in discovery order, whose descriptor loads; every partition before it has none. `None` means no partition's descriptor loads. |
| Backup.GetBackupInfo | src/dev/emly/ez_usb_backup/EZUSBBackup.java:131-164 | Empty holder: no result (the `get(0)` failure). The first partition whose descriptor loads supplies `backup-name` and `version`; a missing name falls back to the first partition's volume name and the version is kept. No descriptor loads: the first volume name, no version. |
| Backup.LaterPartitionsNotConsulted | src/dev/emly/ez_usb_backup/EZUSBBackup.java:134-158 | Partitions after the first that loads are never consulted. The same info results when their descriptors differ or more partitions are appended. |
| Backup.SecondPartitionDescriptor | src/dev/emly/ez_usb_backup/EZUSBBackup.java:134-163 | With partitions `[A, B]`, where A has no descriptor and B names "X", the info is `X` with no version. |
| Backup.ResolveBackupInfo | src/dev/emly/ez_usb_backup/EZUSBBackup.java:131-164 | The Java loop with its `break` and the fallback returns the same info as the functional definition. |
| Backup.OutFile | src/dev/emly/ez_usb_backup/EZUSBBackup.java:166-179 | The file name starts with the backup name and ends with `_timestamp.img`. What lies between them recovers the version exactly, absent or present. |
| Backup.OutFileNameVersionAmbiguous | src/dev/emly/ez_usb_backup/EZUSBBackup.java:169-176 | The name alone cannot be recovered. `OS_1.2` with no version and `OS` at version `1.2` get the same file name. |
| Backup.OutFileExamples | src/dev/emly/ez_usb_backup/EZUSBBackup.java:166-179 | `OS` at version `1.2` and timestamp `2024-01-01_1200` gives `OS_1.2_2024-01-01_1200.img`. Without a version it gives `OS_2024-01-01_1200.img`. |
| Registry.Attach | src/dev/emly/ez_usb_backup/EZUSBBackup.java:35-46 | The partition goes last in the holder keyed by the stripped path. That holder is created first when absent. Its stamp becomes `now` and its flag is unchanged. Every other key is untouched. Well-formedness is preserved. |
| Registry.Eligible | src/dev/emly/ez_usb_backup/EZUSBBackup.java:53 | A holder qualifies for a backup only if it is not backed up. With a non-negative timeout, its last attach lies strictly in the past. |
| Registry.EligibleWaiting | src/dev/emly/ez_usb_backup/EZUSBBackup.java:53 | Waiting longer never disqualifies a holder. An attach at `now` keeps its holder from qualifying until more than `timeout` milliseconds have passed. |
| Registry.Launch | src/dev/emly/ez_usb_backup/EZUSBBackup.java:105-118 | The copy reads the holder's id. It unmounts the holder's partitions in order. Its image name is `getOutFile` of the resolved backup info. |
| Registry.MarkEligible | src/dev/emly/ez_usb_backup/EZUSBBackup.java:51-54 | After a pass, a holder is backed up if and only if it was before or it is eligible: not backed up and `now - lastModified > timeout`. Ids, partitions and stamps are unchanged, no key is added or removed, and well-formedness is preserved. |
| Registry.Tick | src/dev/emly/ez_usb_backup/EZUSBBackup.java:51-54 | A pass launches a copy for an id if and only if its holder is registered and eligible. Each copy reads that holder's device and unmounts its partitions. Its image file is `getOutFile` of the holder's backup info, which always resolves because the holder has a partition. The registry afterwards is the one `MarkEligible` describes. |
| Registry.Scan | src/dev/emly/ez_usb_backup/EZUSBBackup.java:52-54 | The entry-by-entry loop computes exactly the pass `Tick` describes, whatever order the map yields its entries in. |
| Registry.Complete | src/dev/emly/ez_usb_backup/EZUSBBackup.java:120-123 | Removes exactly the entry for the given id. Every other entry is unchanged. |
| Registry.TickThreshold | src/dev/emly/ez_usb_backup/EZUSBBackup.java:53 | A holder exactly `timeout` old is not processed. One a millisecond older is. |
| Registry.NoSecondLaunch | src/dev/emly/ez_usb_backup/EZUSBBackup.java:105-128 | A pass processes every eligible holder. The next pass does not process it again, at any time or timeout. A further attach does not clear its flag. |
| Lifecycle.Next | src/dev/emly/ez_usb_backup/EZUSBBackup.java:32-56 | Every attach, pass and completion takes a well-formed registry to a well-formed one: each holder sits under its own id and has a partition. |
| Lifecycle.NextIsTick | src/dev/emly/ez_usb_backup/EZUSBBackup.java:50-56 | The registry a pass event leaves, and the ids it launches copies for, are exactly those of one pass of the polling loop. |
| Lifecycle.Run | src/dev/emly/ez_usb_backup/EZUSBBackup.java:32-56 | Applying any sequence of events in order to a well-formed registry gives a run: one registry per step, each well formed, each the previous one after its event. |
| Lifecycle.StepKeepsBackedUp | src/dev/emly/ez_usb_backup/DeviceHolder.java:43-49 | No single attach, pass or completion for another id unregisters a backed-up holder or clears its flag. |
| Lifecycle.StaysBackedUp | src/dev/emly/ez_usb_backup/DeviceHolder.java:43-49 | In any run, once a holder is backed up, it stays registered and backed up through every later event except the completion of its own copy. |
| Lifecycle.LaunchMarks | src/dev/emly/ez_usb_backup/EZUSBBackup.java:105-128 | The event that launches a copy for an id leaves that holder registered and backed up. |
| Lifecycle.BackedUpNotLaunched | src/dev/emly/ez_usb_backup/EZUSBBackup.java:53 | No event of a run launches a copy for a holder that is already backed up. |
| Lifecycle.AtMostOnceBetweenCompletions | src/dev/emly/ez_usb_backup/EZUSBBackup.java:50-56 | If two events of a run both launch a copy for the same id, a completion of that id's copy came between them. |
| Lifecycle.TwoPartitionsOneBackup | src/dev/emly/ez_usb_backup/EZUSBBackup.java:32-56 | `sdc1` at 0 ms and `sdc2` at 5 ms, with a 1000 ms timeout: a pass at 1005 ms launches nothing. A pass at 1006 ms launches exactly one copy, for `sdc`. |

## Left out

- Device detection and unmounting come from an external USB detector library. Attach events are inputs. The unmount list is part of the launched `Job`, not an action.
- Launching `dd`, the exit-callback registration and the exit code are process I/O. Completion is an explicit `Completed(id)` event. The `dd` argument list and the output directory are not modelled.
- A failed launch is not modelled. Either way the holder is marked, so `Tick` does not depend on it.
- Reading and parsing `config.yaml` is not modelled: its contents are an input to `Config.EffectiveTimeout` and `Config.EffectiveTimestampFormat`. A value of the wrong type (a failing cast) and an invalid pattern (which the `SimpleDateFormat` constructor rejects) are out of scope. The output directory and the webhook URL are not modelled; the output directory only prefixes the `dd` target.
- Timestamp formatting (`SimpleDateFormat`, `new Date()`) is not modelled. The timestamp is an opaque string, and one pass uses one timestamp for all of its holders.
- Backup.OutFile: takes the formatted timestamp as a parameter, so it assumes a pattern is set. When none is (`Config.EffectiveTimestampFormat` is `None`), `getOutFile` throws a NullPointerException at line 167. That ends the polling loop before `dd` starts and before the holder is marked. `Registry.Tick`, `Registry.Scan` and `Lifecycle` do not model that failure.
- The wall clock is an explicit `now`. A new holder's constructor and its first append read the clock twice; both readings are `now` here.
- Backup.GetBackupInfo: a descriptor whose YAML fails to parse, an empty descriptor file, a non-string `backup-name` or `version`, or a partition without a mount root raise unchecked exceptions in the code. Those end the polling thread. The model only distinguishes loaded from not loaded.
- Webhook notifications (`logAndHook`, the Discord client and its single retry) are network I/O.
- The listener thread, the polling thread, `ConcurrentHashMap` and `Thread.sleep` are not modelled. Events are applied one at a time. The check-then-set race between the scan test and `setBackedUp` is therefore out of scope.
- Console output and stack traces are not modelled.
- Java `long` timestamps and `int` timeouts are unbounded integers here. Overflow of `now - lastModified` is not modelled.
