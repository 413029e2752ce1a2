/** The disk query: one entry per mounted partition, each either the usage
    figures or an error message, so that one unreadable partition never stops
    the others from being reported. */
module DiskQuery {

  /** The error text recorded for a partition whose usage may not be read. */
  const PermissionDenied: string := "Permission Denied"

  /** Usage figures of one file system, in bytes, with the percentage used
      as reported by the host. */
  datatype Usage = Usage(total: nat, used: nat, free: nat, percent: real)

  /** What reading a partition's usage gave: the figures, a `PermissionError`,
      or any other exception with its message. */
  datatype UsageOutcome =
    | UsageRead(usage: Usage)
    | PermissionError
    | UsageFailed(message: string)

  /** A mounted partition as listed, with the outcome of reading its usage. */
  datatype Partition = Partition(mountpoint: string, fstype: string, usage: UsageOutcome)

  /** What listing the partitions gave: the partitions in order, or the
      exception the listing raised. */
  datatype Listing =
    | Listed(partitions: seq<Partition>)
    | ListingFailed(message: string)

  /** One reported disk: the full record or the error variant. */
  datatype DiskEntry =
    | Full(mountpoint: string, fstype: string, usage: Usage)
    | Unreadable(mountpoint: string, error: string)

  /** Entry `e` is what partition `p` must be reported as: its own mount point,
      and the figures with the file system type when they were read,
      "Permission Denied" on a permission failure, and the failure's message
      on any other failure. */
  ghost predicate Reports(e: DiskEntry, p: Partition) {
    match p.usage
    case UsageRead(u) => e == Full(p.mountpoint, p.fstype, u)
    case PermissionError => e == Unreadable(p.mountpoint, PermissionDenied)
    case UsageFailed(m) => e == Unreadable(p.mountpoint, m)
  }

  /** `get_disk_info()` */
  method GetDiskInfo(listing: Listing) returns (entries: seq<DiskEntry>)
    ensures listing.ListingFailed? ==> entries == []
    ensures listing.Listed? ==> |entries| == |listing.partitions|
    ensures listing.Listed? ==>
      forall i :: 0 <= i < |entries| ==> Reports(entries[i], listing.partitions[i])
  {
    entries := [];
    match listing
    case ListingFailed(_) =>
    case Listed(partitions) =>
      for i := 0 to |partitions|
        invariant |entries| == i
        invariant forall k :: 0 <= k < i ==> Reports(entries[k], partitions[k])
      {
        var partition := partitions[i];
        var mountpoint := partition.mountpoint;
        match partition.usage
        case UsageRead(u) =>
          entries := entries + [Full(mountpoint, partition.fstype, u)];
        case PermissionError =>
          entries := entries + [Unreadable(mountpoint, PermissionDenied)];
        case UsageFailed(m) =>
          entries := entries + [Unreadable(mountpoint, m)];
      }
  }

  /** Number of entries recorded with error text `msg`. */
  function ErrorCount(entries: seq<DiskEntry>, msg: string): nat {
    if entries == [] then 0
    else ErrorCount(entries[1..], msg) + (if entries[0].Unreadable? && entries[0].error == msg then 1 else 0)
  }

  /** Number of partitions whose usage read raised a `PermissionError`. */
  function PermissionErrorCount(partitions: seq<Partition>): nat {
    if partitions == [] then 0
    else PermissionErrorCount(partitions[1..]) + (if partitions[0].usage.PermissionError? then 1 else 0)
  }

  /** Number of partitions whose usage read failed otherwise with message `msg`. */
  function FailureCount(partitions: seq<Partition>, msg: string): nat {
    if partitions == [] then 0
    else FailureCount(partitions[1..], msg) + (if partitions[0].usage == UsageFailed(msg) then 1 else 0)
  }

  /** Fault isolation, counted: the entries tagged "Permission Denied" are one
      per partition that raised `PermissionError`, plus any other failure whose
      message happens to read the same. So with one permission failure among
      partitions that fail with other messages, exactly one entry is tagged. */
  lemma {:induction false} PermissionDeniedCount(entries: seq<DiskEntry>, partitions: seq<Partition>)
    requires |entries| == |partitions|
    requires forall i :: 0 <= i < |entries| ==> Reports(entries[i], partitions[i])
    ensures ErrorCount(entries, PermissionDenied) ==
      PermissionErrorCount(partitions) + FailureCount(partitions, PermissionDenied)
  {
    if entries != [] {
      assert Reports(entries[0], partitions[0]);
      PermissionDeniedCount(entries[1..], partitions[1..]);
    }
  }
}
