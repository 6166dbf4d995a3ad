/** The values a read request on the redirector works with: what the
    request packet carries, what the volume and the file control block say,
    and what each routine the read path calls but does not define hands
    back. The read path is modelled over these: each external call is an
    oracle whose answer is part of the input. */
module ReadTypes {
  import opened NtStatus

  /** A 32-bit unsigned count (`ULONG`). */
  type ULong = x: int | 0 <= x < 0x1_0000_0000

  /** `Header.NodeTypeCode` of the file control block. */
  datatype Node = IoctlNode | FileNode | OtherNode

  /** What an `IRP_MJ_READ` request carries. */
  datatype Request = Request(
    paging: bool,          // IRP_PAGING_IO
    noCache: bool,         // IRP_NOCACHE
    start: int,            // Parameters.Read.ByteOffset
    length: ULong,         // Parameters.Read.Length
    mdlComplete: bool,     // IRP_MN_COMPLETE
    mdl: bool,             // IRP_MN_MDL
    syncFile: bool,        // FO_SYNCHRONOUS_IO on the file object
    syncOperation: bool)   // IoIsOperationSynchronous

  /** The redirector's device: shut down or not, whether the cache file is
      open, the largest non-cached transfer, and the number of I/O runs that
      fit in the on-stack run array (`AFS_MAX_STACK_IO_RUNS`, whose value is
      not part of this model). */
  datatype Volume = Volume(shutdown: bool, cacheFileOpen: bool, maxIo: int, maxStackRuns: nat)

  /** What the read path reads from the file control block and the file
      object: node type, the deleted and invalid flags, the file size,
      whether a data section or a private cache map exists, and whether the
      byte-range locks refuse this read. */
  datatype Fcb = Fcb(
    node: Node, deleted: bool, invalid: bool, fileSize: int,
    dataSection: bool, cacheMapped: bool, lockConflict: bool)

  /** The status block a cache-manager call writes into the request. */
  datatype IoStatusBlock = IoStatusBlock(status: Status, information: int)

  /** A cache-manager call: it returned (with its boolean result, TRUE for
      a call that returns nothing) after writing the status block, or it
      raised an exception with a code and wrote nothing. */
  datatype CcResult = Returned(ok: bool, io: IoStatusBlock) | Raised(code: Status)

  /** The calls the cached path makes: `AFSRequestExtentsAsync`, the status
      left by `CcInitializeCacheMap` (its exception code, or success),
      `CcMdlRead`, `AFSLockSystemBuffer` (false: NULL) and `CcCopyRead`. */
  datatype CachedCalls = CachedCalls(
    requestExtents: Status, initCacheMap: Status, mdlRead: CcResult,
    bufferLocked: bool, copyRead: CcResult)

  /** One pass of the extent loop: what `AFSRequestExtents` returns and
      whether it reports the range mapped, what `AFSDoExtentsMapRegion`
      says under the extents lock, and what `AFSWaitForExtentMapping`
      returns. */
  datatype ExtentRound = ExtentRound(request: Status, mapped: bool, region: bool, wait: Status)

  /** A sub-request of the gather: issued, or completed with a status. */
  datatype IoEvent = Issue | Done(status: Status)

  /** The calls the non-cached path makes: `AFSLockSystemBuffer`, the extent
      loop's passes, `AFSGetExtents` (status and extent count), the heap run
      array allocation, `AFSSetupIoRun`, the gather block allocation,
      `AFSStartIos`, the sub-request events that happen while it runs, the
      statuses of the sub-requests still in flight after the issuer's own
      completion, and how many of those come before an asynchronous issuer
      returns (a synchronous one waits for all of them). */
  datatype NonCachedCalls = NonCachedCalls(
    bufferLocked: bool, rounds: seq<ExtentRound>,
    getExtents: Status, extentsCount: nat, runsAllocated: bool,
    setupIoRun: Status, gatherAllocated: bool,
    startIos: Status, during: seq<IoEvent>, after: seq<Status>, early: nat)

  /** The calls the pseudo-file path makes: `AFSMapToService` (false:
      NULL) and `AFSProcessRequest` with the byte count it reports. */
  datatype IoctlCalls = IoctlCalls(mapped: bool, process: Status, bytesProcessed: int)

  /** Every oracle of one read, and the process id `PsGetCurrentProcessId`
      reports. */
  datatype Calls = Calls(cached: CachedCalls, nonCached: NonCachedCalls, ioctl: IoctlCalls, process: int)

  /** Which routine completes the request. */
  datatype Party = ByCommonRead | ByCachedRead | ByNonCachedRead | ByGather

  datatype Completion = Completion(party: Party, status: Status)

  /** The main or paging resource of a file control block. */
  datatype LockKind = NoLock | PagingLock | MainLock
}
