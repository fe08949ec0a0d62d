/**
 `DeviceHolder`: everything known about one physical device while its
 partitions are being discovered and backed up. The Java class mutates in
 place; here each mutator returns the updated holder, and the clock reading
 `System.currentTimeMillis()` is passed in as `now`.
 */
module Devices {

  /**
   One attached partition as the detector reports it: the raw device path
   (`getDevice`), the volume name (`getDeviceName`) and the mount root
   (`getRootDirectory`).
   */
  datatype Partition = Partition(device: string, name: string, root: string)

  /**
   `id` is the final `device` field, `partitions` the `usbDevices` list in
   discovery order, `backedUp` the `hasBackedUp` flag.
   */
  datatype Holder = Holder(id: string, partitions: seq<Partition>, lastModified: nat, backedUp: bool)

  /** The constructor: no partitions yet, not backed up, stamped with the creation time. */
  function NewHolder(id: string, now: nat): (h: Holder)
    ensures h.id == id && h.partitions == [] && h.lastModified == now && !h.backedUp
  {
    Holder(id, [], now, false)
  }

  /** `addUSBDevice`: append the partition at the end and refresh the stamp. */
  function AddUsbDevice(h: Holder, p: Partition, now: nat): (h': Holder)
    ensures |h'.partitions| == |h.partitions| + 1
    ensures h'.partitions[..|h.partitions|] == h.partitions && h'.partitions[|h.partitions|] == p
    ensures h'.lastModified == now
    ensures h'.id == h.id && h'.backedUp == h.backedUp
  {
    h.(partitions := h.partitions + [p], lastModified := now)
  }

  /** `setBackedUp`: raise the flag; nothing else changes. */
  function SetBackedUp(h: Holder): (h': Holder)
    ensures h'.backedUp
    ensures h'.id == h.id && h'.partitions == h.partitions && h'.lastModified == h.lastModified
  {
    h.(backedUp := true)
  }

  /** Raising the flag twice is raising it once, and the flag is never lowered by an append. */
  lemma SetBackedUpIdempotent(h: Holder, p: Partition, now: nat)
    ensures SetBackedUp(SetBackedUp(h)) == SetBackedUp(h)
    ensures h.backedUp ==> SetBackedUp(h) == h
    ensures AddUsbDevice(SetBackedUp(h), p, now).backedUp
  {
  }

  /** With a clock that does not run backwards, an append never moves `lastModified` back. */
  lemma AddUsbDeviceMonotone(h: Holder, p: Partition, now: nat)
    requires h.lastModified <= now
    ensures h.lastModified <= AddUsbDevice(h, p, now).lastModified
  {
  }
}
