/**
 The device registry (`DEVICES`, a map from logical id to holder) and the
 three things that change it, taken one at a time: a partition attach event,
 one pass of the polling loop, and the completion of a copy.
 */
module Registry {
  import opened Wrappers
  import opened Normalizer
  import opened Devices
  import opened Backup

  type Registry = map<string, Holder>

  /**
   What every reachable registry satisfies: each holder is stored under its
   own id and has at least one partition (a holder is created by the attach
   that appends its first partition).
   */
  predicate Wf(reg: Registry) {
    forall k :: k in reg ==> reg[k].id == k && |reg[k].partitions| > 0
  }

  /**
   The attach listener: look the partition's logical id up, create the
   holder when there is none, and append the partition to it.
   */
  function Attach(reg: Registry, p: Partition, now: nat): (r: Registry)
    ensures var id := StripEndNumbers(p.device);
            && r.Keys == reg.Keys + {id}
            && (forall k :: k in reg && k != id ==> r[k] == reg[k])
            && r[id].partitions == (if id in reg then reg[id].partitions else []) + [p]
            && r[id].lastModified == now
            && r[id].backedUp == (id in reg && reg[id].backedUp)
            && (id !in reg ==> r[id].id == id)
            && (id in reg ==> r[id].id == reg[id].id)
    ensures Wf(reg) ==> Wf(r)
  {
    var id := StripEndNumbers(p.device);
    var h := if id in reg then reg[id] else NewHolder(id, now);
    reg[id := AddUsbDevice(h, p, now)]
  }

  /**
   The scan predicate of the polling loop: not yet backed up and quiet for
   strictly longer than the timeout. `now - lastModified` is taken over the
   integers, so a clock that went backwards gives a negative age.
   */
  predicate Eligible(h: Holder, now: nat, timeout: int)
    ensures Eligible(h, now, timeout) ==> !h.backedUp
    ensures Eligible(h, now, timeout) && timeout >= 0 ==> h.lastModified < now
  {
    !h.backedUp && now - h.lastModified > timeout
  }

  /**
   A copy that `unmountAndBackup` launches: the block device read by `dd`,
   the image file name, and the partitions unmounted first, in order.
   */
  datatype Job = Job(device: string, outFile: string, unmount: seq<Partition>)

  /** The launch half of `unmountAndBackup` for one holder. */
  function Launch(h: Holder, fs: FileSystem, timestamp: string): (j: Job)
    requires |h.partitions| > 0
    ensures j.device == h.id && j.unmount == h.partitions
    ensures exists info :: GetBackupInfo(h.partitions, fs) == Some(info) && j.outFile == OutFile(info, timestamp)
  {
    Job(h.id, OutFile(GetBackupInfo(h.partitions, fs).value, timestamp), h.partitions)
  }

  /**
   The registry half of a pass: every eligible holder ends up marked backed
   up, whether or not its copy started; nothing else about any holder
   changes, and no entry is added or removed.
   */
  function MarkEligible(reg: Registry, now: nat, timeout: int): (r: Registry)
    requires Wf(reg)
    ensures Wf(r)
    ensures r.Keys == reg.Keys
    ensures forall k :: k in reg ==>
              && r[k].backedUp == (reg[k].backedUp || Eligible(reg[k], now, timeout))
              && r[k].id == reg[k].id
              && r[k].partitions == reg[k].partitions
              && r[k].lastModified == reg[k].lastModified
  {
    map k | k in reg :: if Eligible(reg[k], now, timeout) then SetBackedUp(reg[k]) else reg[k]
  }

  /** The registry after a pass of the polling loop, and the copies it launched, by id. */
  datatype TickResult = TickResult(devices: Registry, launched: map<string, Job>)

  /**
   One pass of the polling loop: every eligible holder is handed to
   `unmountAndBackup`, which launches its copy and then marks it backed up.
   Exactly the eligible holders get a copy.
   */
  function Tick(reg: Registry, now: nat, timeout: int, fs: FileSystem, timestamp: string): (r: TickResult)
    requires Wf(reg)
    ensures r.devices == MarkEligible(reg, now, timeout)
    ensures forall k :: k in r.launched <==> k in reg && Eligible(reg[k], now, timeout)
    ensures forall k :: k in r.launched ==>
              r.launched[k].device == k && r.launched[k].unmount == reg[k].partitions
    ensures forall k :: k in r.launched ==>
              GetBackupInfo(reg[k].partitions, fs).Some? &&
              r.launched[k].outFile == OutFile(GetBackupInfo(reg[k].partitions, fs).value, timestamp)
  {
    var launched := map k | k in reg && Eligible(reg[k], now, timeout) :: Launch(reg[k], fs, timestamp);
    TickResult(MarkEligible(reg, now, timeout), launched)
  }

  /**
   The polling loop's `for` over the entries, one holder at a time, in
   whatever order the map yields them: it computes the same pass as `Tick`.
   */
  method Scan(reg: Registry, now: nat, timeout: int, fs: FileSystem, timestamp: string) returns (r: TickResult)
    requires Wf(reg)
    ensures r == Tick(reg, now, timeout, fs, timestamp)
  {
    var devices := reg;
    var launched: map<string, Job> := map[];
    var remaining := reg.Keys;
    while remaining != {}
      invariant remaining <= reg.Keys && devices.Keys == reg.Keys
      invariant forall k :: k in remaining ==> devices[k] == reg[k]
      invariant forall k :: k in reg && k !in remaining ==>
                  devices[k] == if Eligible(reg[k], now, timeout) then SetBackedUp(reg[k]) else reg[k]
      invariant forall k :: k in launched <==> k in reg && k !in remaining && Eligible(reg[k], now, timeout)
      invariant forall k :: k in launched ==> launched[k] == Launch(reg[k], fs, timestamp)
      decreases remaining
    {
      var k :| k in remaining;
      var h := devices[k];
      if Eligible(h, now, timeout) {
        launched := launched[k := Launch(h, fs, timestamp)];
        devices := devices[k := SetBackedUp(h)];
      }
      remaining := remaining - {k};
    }
    assert devices == MarkEligible(reg, now, timeout);
    assert launched == Tick(reg, now, timeout, fs, timestamp).launched;
    r := TickResult(devices, launched);
  }

  /**
   The copy's exit callback: remove the entry under the holder's id. Every
   other entry stays as it was; a missing id changes nothing.
   */
  function Complete(reg: Registry, id: string): (r: Registry)
    ensures r.Keys == reg.Keys - {id}
    ensures forall k :: k in r ==> r[k] == reg[k]
    ensures Wf(reg) ==> Wf(r)
  {
    reg - {id}
  }

  /**
   Waiting longer never disqualifies a holder, and an attach restarts its
   quiet period: for `timeout` milliseconds after it, the holder does not
   qualify.
   */
  lemma EligibleWaiting(h: Holder, now: nat, later: nat, timeout: int, p: Partition, t: nat)
    requires now <= later
    ensures Eligible(h, now, timeout) ==> Eligible(h, later, timeout)
    ensures t >= now && t - now <= timeout ==> !Eligible(AddUsbDevice(h, p, now), t, timeout)
  {
  }

  /** A holder exactly `timeout` old is not processed; one a millisecond older is. */
  lemma TickThreshold(reg: Registry, id: string, timeout: nat, fs: FileSystem, timestamp: string)
    requires Wf(reg) && id in reg && !reg[id].backedUp
    ensures id !in Tick(reg, reg[id].lastModified + timeout, timeout, fs, timestamp).launched
    ensures id in Tick(reg, reg[id].lastModified + timeout + 1, timeout, fs, timestamp).launched
  {
  }

  /**
   A pass processes every eligible holder, and after that no later pass
   processes it while it stays registered, however many attaches and other
   passes come in between.
   */
  lemma NoSecondLaunch(reg: Registry, now: nat, timeout: int, fs: FileSystem, timestamp: string,
                       id: string, p: Partition, now2: nat, timeout2: int, timestamp2: string)
    requires Wf(reg) && id in reg && Eligible(reg[id], now, timeout)
    ensures id in Tick(reg, now, timeout, fs, timestamp).launched
    ensures var after := Tick(reg, now, timeout, fs, timestamp).devices;
            && id !in Tick(after, now2, timeout2, fs, timestamp2).launched
            && Attach(after, p, now2)[id].backedUp
  {
  }
}
