/**
 Backup metadata and naming: `getBackupInfo` (which descriptor names the
 image), the `BackupInfo` pair it returns, and `getOutFile` (the image file
 name).

 The file system is a parameter: `fs(path)` is `Some(data)` when the YAML
 file at `path` exists, is readable and loads into the map `data`, and
 `None` when it is missing, unreadable or its reading raises an IOException.
 */
module Backup {
  import opened Wrappers
  import opened Devices

  /** The descriptor file name, looked up under each partition's mount root. */
  const DescriptorFile := "backup-info.yaml"

  /** Keys of the descriptor (the "for backup info" constants of ConfigKeys). */
  const BackupNameKey := "backup-name"
  const VersionKey := "version"

  /** The key/value pairs of a loaded descriptor; a key bound to YAML null is absent. */
  type Descriptor = map<string, string>

  /** What reading a descriptor at a given absolute path yields. */
  type FileSystem = string -> Option<Descriptor>

  /** `BackupInfo`: the image's name and optional version. */
  datatype BackupInfo = BackupInfo(name: string, version: Option<string>)

  /** Absolute path of a partition's descriptor. */
  function DescriptorPath(p: Partition): string {
    p.root + "/" + DescriptorFile
  }

  /** What the loop body finds on partition `p`. */
  function Load(fs: FileSystem, p: Partition): Option<Descriptor> {
    fs(DescriptorPath(p))
  }

  /** `data.get(key)`: the value, or absent. */
  function Lookup(d: Descriptor, key: string): Option<string> {
    if key in d then Some(d[key]) else None
  }

  /**
   Index of the first partition, in discovery order, whose descriptor loads:
   the partition at which the Java loop breaks.
   */
  function FirstLoaded(parts: seq<Partition>, fs: FileSystem): (r: Option<nat>)
    ensures r.Some? ==> r.value < |parts| && Load(fs, parts[r.value]).Some?
    ensures r.Some? ==> forall j :: 0 <= j < r.value ==> Load(fs, parts[j]).None?
    ensures r.None? ==> forall j :: 0 <= j < |parts| ==> Load(fs, parts[j]).None?
    decreases |parts|
  {
    if |parts| == 0 then None
    else if Load(fs, parts[0]).Some? then Some(0)
    else
      match FirstLoaded(parts[1..], fs)
      case None => None
      case Some(k) => Some(k + 1)
  }

  /**
   `getBackupInfo`. The first descriptor that loads ends the search and
   supplies the name and version; when no name was obtained the first
   partition's volume name is used and a version read from that descriptor
   is kept. With no partitions at all the Java code fails on `get(0)`, which
   is `None` here.
   */
  function GetBackupInfo(parts: seq<Partition>, fs: FileSystem): (r: Option<BackupInfo>)
    ensures r.None? <==> |parts| == 0
    ensures |parts| > 0 && (forall j :: 0 <= j < |parts| ==> Load(fs, parts[j]).None?) ==>
              r == Some(BackupInfo(parts[0].name, None))
    ensures forall k :: 0 <= k < |parts| && Load(fs, parts[k]).Some? &&
                        (forall j :: 0 <= j < k ==> Load(fs, parts[j]).None?) ==>
              && r.Some?
              && r.value.name == (if BackupNameKey in Load(fs, parts[k]).value
                                  then Load(fs, parts[k]).value[BackupNameKey] else parts[0].name)
              && r.value.version == Lookup(Load(fs, parts[k]).value, VersionKey)
  {
    var found := FirstLoaded(parts, fs);
    var name := if found.Some? then Lookup(Load(fs, parts[found.value]).value, BackupNameKey) else None;
    var version := if found.Some? then Lookup(Load(fs, parts[found.value]).value, VersionKey) else None;
    if name.Some? then Some(BackupInfo(name.value, version))
    else if |parts| == 0 then None
    else Some(BackupInfo(parts[0].name, version))
  }

  /**
   Partitions after the one whose descriptor loads are never consulted: a
   file system that differs only on their descriptors, or more partitions
   appended after them, give the same BackupInfo.
   */
  lemma LaterPartitionsNotConsulted(parts: seq<Partition>, more: seq<Partition>, fs: FileSystem, fs': FileSystem, k: nat)
    requires k < |parts| && Load(fs, parts[k]).Some?
    requires forall j :: 0 <= j <= k ==> Load(fs, parts[j]) == Load(fs', parts[j])
    ensures GetBackupInfo(parts + more, fs') == GetBackupInfo(parts, fs)
  {
    var k0 := FirstLoaded(parts, fs).value;
    assert k0 <= k;
    var all := parts + more;
    forall j | 0 <= j < k0
      ensures Load(fs', all[j]).None?
    {
      assert all[j] == parts[j];
    }
    assert all[k0] == parts[k0] && all[0] == parts[0];
  }

  /** A holder whose first partition has no descriptor but whose second names "X" backs up as "X". */
  lemma SecondPartitionDescriptor(a: Partition, b: Partition, fs: FileSystem)
    requires Load(fs, a).None?
    requires Load(fs, b) == Some(map[BackupNameKey := "X"])
    ensures GetBackupInfo([a, b], fs) == Some(BackupInfo("X", None))
  {
    assert [a, b][1] == b;
  }

  /**
   `getOutFile`: the name, then `_version` when a version is present, then
   `_timestamp`, then `.img`. The timestamp is the already formatted clock
   reading. The file name starts with the backup name, ends with
   `_timestamp.img`, and the version, present or absent, is recovered
   exactly from what lies between them.
   */
  function OutFile(info: BackupInfo, timestamp: string): (r: string)
    ensures |r| >= |info.name| + |timestamp| + 5
    ensures r[..|info.name|] == info.name
    ensures r[|r| - |timestamp| - 5..] == "_" + timestamp + ".img"
    ensures ParseVersion(r, info.name, timestamp) == Some(info.version)
  {
    var tail := "_" + timestamp + ".img";
    var segment := VersionSegment(info.version);
    var f := info.name + segment + tail;
    assert f[..|info.name|] == info.name;
    assert f[|f| - |tail|..] == tail;
    assert f[|info.name|..|f| - |tail|] == segment;
    f
  }

  /** The `_version` part of the file name; empty without a version. */
  function VersionSegment(v: Option<string>): string {
    match v
    case None => ""
    case Some(s) => "_" + s
  }

  /**
   Reads the version back out of a file name, given the name and timestamp
   it was built with: `Some(v)` when `file` has the shape
   `name[_v]_timestamp.img`, `None` when it does not.
   */
  function ParseVersion(file: string, name: string, timestamp: string): Option<Option<string>> {
    var tail := "_" + timestamp + ".img";
    if |file| < |name| + |tail| || file[..|name|] != name || file[|file| - |tail|..] != tail then None
    else
      var middle := file[|name|..|file| - |tail|];
      if middle == "" then Some(None)
      else if middle[0] == '_' then Some(Some(middle[1..]))
      else None
  }

  /**
   The name alone is not recoverable: an unversioned image named `OS_1.2`
   and version `1.2` of an image named `OS` get the same file name.
   */
  lemma OutFileNameVersionAmbiguous(timestamp: string)
    ensures OutFile(BackupInfo("OS_1.2", None), timestamp) == OutFile(BackupInfo("OS", Some("1.2")), timestamp)
  {
  }

  /** Two example file names, with and without a version. */
  lemma OutFileExamples()
    ensures OutFile(BackupInfo("OS", Some("1.2")), "2024-01-01_1200") == "OS_1.2_2024-01-01_1200.img"
    ensures OutFile(BackupInfo("OS", None), "2024-01-01_1200") == "OS_2024-01-01_1200.img"
  {
    VersionedExample();
    UnversionedExample();
  }

  /** The versioned example. */
  lemma VersionedExample()
    ensures OutFile(BackupInfo("OS", Some("1.2")), "2024-01-01_1200") == "OS_1.2_2024-01-01_1200.img"
  {
    assert VersionSegment(Some("1.2")) == "_1.2";
    assert "OS" + "_1.2" + "_" + "2024-01-01_1200" + ".img" == "OS_1.2_2024-01-01_1200.img";
  }

  /** The unversioned example. */
  lemma UnversionedExample()
    ensures OutFile(BackupInfo("OS", None), "2024-01-01_1200") == "OS_2024-01-01_1200.img"
  {
    assert VersionSegment(None) == "";
    assert "OS" + "" + "_" + "2024-01-01_1200" + ".img" == "OS_2024-01-01_1200.img";
  }

  /**
   `getBackupInfo` as the Java loop: walk the partitions in order, stop at
   the first descriptor that loads, then fall back to the first partition's
   volume name.
   */
  method ResolveBackupInfo(parts: seq<Partition>, fs: FileSystem) returns (r: Option<BackupInfo>)
    ensures r == GetBackupInfo(parts, fs)
  {
    var backupName: Option<string> := None;
    var version: Option<string> := None;
    var i := 0;
    while i < |parts|
      invariant 0 <= i <= |parts|
      invariant forall j :: 0 <= j < i ==> Load(fs, parts[j]).None?
      invariant backupName == None && version == None
    {
      var loaded := Load(fs, parts[i]);
      if loaded.Some? {
        backupName := Lookup(loaded.value, BackupNameKey);
        version := Lookup(loaded.value, VersionKey);
        break;
      }
      i := i + 1;
    }
    if backupName.None? {
      if |parts| == 0 {
        return None;
      }
      backupName := Some(parts[0].name);
    }
    r := Some(BackupInfo(backupName.value, version));
  }
}
