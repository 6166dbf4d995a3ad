/** What a read on the redirector does, as functions of the request, the
    file control block and the oracles' answers: which path the common
    dispatcher takes and, for each path, the status, who completes the
    request and what is left in the request, the file object and the
    buffer. The methods in `ReadPath` are proved against these, and the
    lemmas here state what the read path promises. */
module ReadSpec {
  import opened NtStatus
  import opened ReadTypes
  import opened Gather

  // ---------------------------------------------------------------------
  // AFSCommonRead

  /** The request gets as far as taking the main or the paging resource: it
      is on a file, the redirector is not shutting down, the cache file is
      open, and it is neither empty nor an MDL completion. */
  predicate ReachesLocks(v: Volume, f: Fcb, r: Request) {
    !v.shutdown && f.node == FileNode && v.cacheFileOpen && r.length != 0 && !r.mdlComplete
  }

  /** It also passes the byte-range lock, deleted, end-of-file and invalid
      checks. */
  predicate ReachesRouting(v: Volume, f: Fcb, r: Request) {
    ReachesLocks(v, f, r) && (r.paging || !f.lockConflict) && !f.deleted &&
    r.start < f.fileSize && !f.invalid
  }

  /** The request is served through the cache: it is not paging I/O, and it
      is not non-cached unless the file already has a data section, in
      which case it is promoted. */
  predicate CachedIo(f: Fcb, r: Request) {
    !r.paging && (!r.noCache || f.dataSection)
  }

  /** The status a cache-manager call leaves. */
  function CcStatus(c: CcResult): Status {
    match c
    case Returned(_, io) => io.status
    case Raised(code) => code
  }

  /** The cached path gets as far as `CcMdlRead`. */
  predicate MdlReadMade(v: Volume, f: Fcb, r: Request, cc: CachedCalls) {
    ReachesRouting(v, f, r) && CachedIo(f, r) && NtSuccess(cc.requestExtents) &&
    (f.cacheMapped || NtSuccess(cc.initCacheMap)) && r.mdl
  }

  /** Where the dispatcher sends a request: finished by the dispatcher
      itself with a status, or handed to the pseudo-file, cached or
      non-cached path. */
  datatype Path = Finish(status: Status) | ToIoctl | ToCached(count: ULong) | ToNonCached

  /** The dispatcher's checks, in their order. */
  function Classify(v: Volume, f: Fcb, r: Request, cc: CachedCalls): Path {
    if v.shutdown then Finish(TooLate)
    else if f.node == OtherNode then Finish(InvalidParameter)
    else if f.node == IoctlNode then ToIoctl
    else if !v.cacheFileOpen then Finish(TooLate)
    else if r.length == 0 then Finish(Success)
    else if r.mdlComplete then Finish(Success)
    else if !r.paging && f.lockConflict then Finish(FileLockConflict)
    else if f.deleted then Finish(FileDeleted)
    else if r.start >= f.fileSize then Finish(EndOfFile)
    else if f.invalid then Finish(FileDeleted)
    else if !CachedIo(f, r) then ToNonCached
    else if !NtSuccess(cc.requestExtents) then Finish(cc.requestExtents)
    else if !f.cacheMapped && !NtSuccess(cc.initCacheMap) then Finish(cc.initCacheMap)
    else if r.mdl && !NtSuccess(CcStatus(cc.mdlRead)) then Finish(CcStatus(cc.mdlRead))
    else ToCached(ReadByteCount(f.fileSize, r))
  }

  /** The lock a read takes: the dispatcher's paging or main resource, or
      the main resource the pseudo-file path takes for a non-empty read. */
  function LockTaken(v: Volume, f: Fcb, r: Request): LockKind {
    if ReachesLocks(v, f, r) then (if r.paging then PagingLock else MainLock)
    else if !v.shutdown && f.node == IoctlNode && r.length != 0 then MainLock
    else NoLock
  }

  // ---------------------------------------------------------------------
  // AFSIOCtlRead

  function IoctlStatus(r: Request, ic: IoctlCalls): Status {
    if r.length == 0 then Success
    else if !ic.mapped then InsufficientResources
    else ic.process
  }

  /** The byte count reported back: the service's, when it succeeded. */
  function IoctlInformation(info: int, r: Request, ic: IoctlCalls): int {
    if r.length != 0 && ic.mapped && NtSuccess(ic.process) then ic.bytesProcessed else info
  }

  // ---------------------------------------------------------------------
  // AFSCachedRead

  /** The status returned, the status block left in the request, and
      whether the current byte offset moves to the end of the read. */
  datatype CachedOutcome = CachedOutcome(status: Status, io: IoStatusBlock, advances: bool)

  /** The cached read, from the status block the request holds on entry. */
  function CachedResult(syncFile: bool, cc: CachedCalls, io: IoStatusBlock): CachedOutcome {
    if !cc.bufferLocked then CachedOutcome(InsufficientResources, io, false)
    else
      match cc.copyRead
      case Returned(ok, io') => CachedOutcome(io'.status, io', ok && syncFile)
      case Raised(code) =>
        if NtSuccess(code) then CachedOutcome(io.status, io, syncFile)
        else CachedOutcome(code, io, false)
  }

  // ---------------------------------------------------------------------
  // AFSNonCachedRead

  /** How the extent loop ends: the range mapped and pinned, a failure, or
      still going when the oracle's passes run out. */
  datatype LoopEnd = Mapped | Failed | Unsettled

  function ExtentLoop(rounds: seq<ExtentRound>): LoopEnd {
    if rounds == [] then Unsettled
    else
      var x := rounds[0];
      if !NtSuccess(x.request) then Failed
      else if x.mapped && x.region then Mapped
      else if x.mapped then ExtentLoop(rounds[1..])
      else if !NtSuccess(x.wait) then Failed
      else ExtentLoop(rounds[1..])
  }

  /** Where the non-cached path stops: at one of its failures, or with the
      sub-requests issued. */
  datatype Stop =
    | TooLarge | NoBuffer | NoExtents | ExtentsNotListed(status: Status)
    | NoRunArray | RunsNotSetUp(status: Status) | NoGather | Issued

  function NonCachedStop(v: Volume, r: Request, nc: NonCachedCalls): Stop {
    if r.length > v.maxIo then TooLarge
    else if !nc.bufferLocked then NoBuffer
    else if !ExtentLoop(nc.rounds).Mapped? then NoExtents
    else if !NtSuccess(nc.getExtents) then ExtentsNotListed(nc.getExtents)
    else if nc.extentsCount > v.maxStackRuns && !nc.runsAllocated then NoRunArray
    else if !NtSuccess(nc.setupIoRun) then RunsNotSetUp(nc.setupIoRun)
    else if !nc.gatherAllocated then NoGather
    else Issued
  }

  /** The request's byte count cut at the end of the file: what the cached
      path is given and what the non-cached path asks of the extents. */
  function ReadByteCount(fileSize: int, r: Request): int {
    if r.start + r.length > fileSize then fileSize - r.start else r.length
  }

  /** The gather status of an issued read. */
  function NonCachedGatherStatus(nc: NonCachedCalls): Status {
    GatherStatus(nc.during, nc.startIos, nc.after)
  }

  /** How many of the completions after the issuer's own come before the
      issuer returns: all of them when it waits for them, otherwise as many
      as the calls say. */
  function Settled(r: Request, nc: NonCachedCalls): (n: nat)
    ensures n <= |nc.after|
    ensures r.syncOperation ==> n == |nc.after|
  {
    if r.syncOperation || nc.early >= |nc.after| then |nc.after| else nc.early
  }

  /** The sub-requests of an issued read still in flight when the
      non-cached path returns. */
  function InFlight(v: Volume, r: Request, nc: NonCachedCalls): (n: nat)
    ensures n > 0 <==> NonCachedStop(v, r, nc) == Issued && !r.syncOperation && nc.early < |nc.after|
  {
    if NonCachedStop(v, r, nc) == Issued then |nc.after| - Settled(r, nc) else 0
  }

  /** The gather status when the issuer returns. */
  function ReturnGatherStatus(r: Request, nc: NonCachedCalls): Status {
    GatherStatus(nc.during, nc.startIos, nc.after[..Settled(r, nc)])
  }

  function NonCachedStatus(v: Volume, r: Request, nc: NonCachedCalls): Status {
    match NonCachedStop(v, r, nc)
    case TooLarge => Unsuccessful
    case NoBuffer => InsufficientResources
    case NoExtents => InsufficientResources
    case ExtentsNotListed(s) => s
    case NoRunArray => InsufficientResources
    case RunsNotSetUp(s) => s
    case NoGather => InsufficientResources
    case Issued =>
      if !r.syncOperation then Pending
      else if NtSuccess(nc.startIos) then NonCachedGatherStatus(nc)
      else nc.startIos
  }

  /** Before the gather block is set up the path completes the request
      itself; after, the gather does. */
  function NonCachedCompletion(v: Volume, r: Request, nc: NonCachedCalls): Completion {
    if NonCachedStop(v, r, nc) == Issued then Completion(ByGather, NonCachedGatherStatus(nc))
    else Completion(ByNonCachedRead, NonCachedStatus(v, r, nc))
  }

  /** The path holds an extent reference: the loop ended mapped. */
  predicate References(v: Volume, r: Request, nc: NonCachedCalls) {
    !NonCachedStop(v, r, nc).TooLarge? && !NonCachedStop(v, r, nc).NoBuffer? &&
    !NonCachedStop(v, r, nc).NoExtents?
  }

  /** The path allocates a heap run array. */
  predicate TakesRunArray(v: Volume, r: Request, nc: NonCachedCalls) {
    References(v, r, nc) && NtSuccess(nc.getExtents) &&
    nc.extentsCount > v.maxStackRuns && nc.runsAllocated
  }

  /** The path reaches the end-of-file zeroing and the read crosses it. */
  predicate ZeroesTail(v: Volume, fileSize: int, r: Request, nc: NonCachedCalls) {
    r.length <= v.maxIo && nc.bufferLocked && r.start + r.length > fileSize
  }

  /** `s` with the bytes in `[from, to)` set to zero. */
  function Zeroed(s: seq<bv8>, from: int, to: int): (z: seq<bv8>)
    requires 0 <= from <= to <= |s|
    ensures |z| == |s|
    ensures forall k :: 0 <= k < |s| ==> z[k] == if from <= k < to then 0 else s[k]
  {
    s[..from] + seq(to - from, _ => 0) + s[to..]
  }

  function NonCachedBuffer(b: seq<bv8>, v: Volume, fileSize: int, r: Request, nc: NonCachedCalls): seq<bv8>
    requires |b| == r.length && r.start < fileSize
  {
    if ZeroesTail(v, fileSize, r, nc) then Zeroed(b, fileSize - r.start, r.length) else b
  }

  /** The current byte offset moves: success, not paging I/O, and a file
      object opened for synchronous I/O. */
  predicate NonCachedAdvances(v: Volume, r: Request, nc: NonCachedCalls) {
    NtSuccess(NonCachedStatus(v, r, nc)) && !r.paging && r.syncFile
  }

  // ---------------------------------------------------------------------
  // The whole read

  /** The status block the request holds once the dispatcher's own
      cache-manager calls are done. */
  function MdlIo(v: Volume, f: Fcb, r: Request, cc: CachedCalls, io: IoStatusBlock): IoStatusBlock {
    if MdlReadMade(v, f, r, cc) && cc.mdlRead.Returned? then cc.mdlRead.io else io
  }

  /** The dispatcher meets an invalid file control block. */
  predicate InvalidHit(v: Volume, f: Fcb, r: Request) {
    ReachesLocks(v, f, r) && (r.paging || !f.lockConflict) && !f.deleted &&
    r.start < f.fileSize && f.invalid
  }

  /** The dispatcher finishes an MDL completion. */
  predicate MdlCompleteHit(v: Volume, f: Fcb, r: Request) {
    !v.shutdown && f.node == FileNode && v.cacheFileOpen && r.length != 0 && r.mdlComplete
  }

  function ReadStatus(v: Volume, f: Fcb, r: Request, c: Calls, io: IoStatusBlock): Status {
    match Classify(v, f, r, c.cached)
    case Finish(s) => s
    case ToIoctl => IoctlStatus(r, c.ioctl)
    case ToCached(_) => CachedResult(r.syncFile, c.cached, MdlIo(v, f, r, c.cached, io)).status
    case ToNonCached => NonCachedStatus(v, r, c.nonCached)
  }

  function ReadCompletion(v: Volume, f: Fcb, r: Request, c: Calls, io: IoStatusBlock): Completion {
    match Classify(v, f, r, c.cached)
    case Finish(s) => Completion(ByCommonRead, s)
    case ToIoctl => Completion(ByCommonRead, IoctlStatus(r, c.ioctl))
    case ToCached(_) => Completion(ByCachedRead, ReadStatus(v, f, r, c, io))
    case ToNonCached => NonCachedCompletion(v, r, c.nonCached)
  }

  /** The read returns while sub-requests of its gather are still in
      flight; the request is completed later, by the last of them. */
  predicate Outstanding(v: Volume, f: Fcb, r: Request, c: Calls) {
    Classify(v, f, r, c.cached) == ToNonCached && InFlight(v, r, c.nonCached) > 0
  }

  /** The status block the request is left with. */
  function ReadIo(v: Volume, f: Fcb, r: Request, c: Calls, io: IoStatusBlock): IoStatusBlock {
    var m := MdlIo(v, f, r, c.cached, io);
    match Classify(v, f, r, c.cached)
    case Finish(_) => if InvalidHit(v, f, r) then m.(information := 0) else m
    case ToIoctl => io.(information := IoctlInformation(io.information, r, c.ioctl))
    case ToCached(_) => CachedResult(r.syncFile, c.cached, m).io
    case ToNonCached =>
      io.(information := if NonCachedStop(v, r, c.nonCached) == Issued then r.length as int else 0)
  }

  /** The current byte offset the file object is left with. */
  function ReadOffset(v: Volume, f: Fcb, r: Request, c: Calls, io: IoStatusBlock, offset: int): int {
    match Classify(v, f, r, c.cached)
    case ToCached(n) =>
      if CachedResult(r.syncFile, c.cached, MdlIo(v, f, r, c.cached, io)).advances then r.start + n else offset
    case ToNonCached => if NonCachedAdvances(v, r, c.nonCached) then r.start + r.length else offset
    case _ => offset
  }

  // ---------------------------------------------------------------------
  // What the read path promises

  /** The checks come in their order: shutting down, the node type, the
      pseudo-file, the cache file, then an empty read, each before any
      lock. */
  lemma EarlyChecks(v: Volume, f: Fcb, r: Request, c: Calls, io: IoStatusBlock)
    ensures v.shutdown ==> ReadStatus(v, f, r, c, io) == TooLate && LockTaken(v, f, r) == NoLock
    ensures !v.shutdown && f.node == OtherNode ==> ReadStatus(v, f, r, c, io) == InvalidParameter && LockTaken(v, f, r) == NoLock
    ensures !v.shutdown && f.node == FileNode && !v.cacheFileOpen ==> ReadStatus(v, f, r, c, io) == TooLate && LockTaken(v, f, r) == NoLock
    ensures ReadCompletion(v, f, r, c, io).party == ByCommonRead <==> (Classify(v, f, r, c.cached).Finish? || Classify(v, f, r, c.cached) == ToIoctl)
  {
  }

  /** An empty read, on a file or on the pseudo-file, succeeds before any
      lock is taken and before the deleted and end-of-file checks. */
  lemma ZeroLengthSucceedsUnlocked(v: Volume, f: Fcb, r: Request, c: Calls, io: IoStatusBlock)
    requires !v.shutdown && f.node != OtherNode && (f.node == IoctlNode || v.cacheFileOpen)
    requires r.length == 0
    ensures ReadStatus(v, f, r, c, io) == Success && LockTaken(v, f, r) == NoLock
    ensures ReadCompletion(v, f, r, c, io) == Completion(ByCommonRead, Success)
    ensures ReadIo(v, f, r, c, io) == io
  {
  }

  /** A read that starts at or after the end of the file fails with
      end-of-file, is finished by the dispatcher, and goes to no read path. */
  lemma EndOfFileIssuesNothing(v: Volume, f: Fcb, r: Request, cc: CachedCalls)
    requires ReachesLocks(v, f, r) && (r.paging || !f.lockConflict) && !f.deleted
    requires r.start >= f.fileSize
    ensures Classify(v, f, r, cc) == Finish(EndOfFile)
    ensures LockTaken(v, f, r) != NoLock
  {
  }

  /** Truncation: the cached path is given a count that ends exactly at the
      end of the file when the request crosses it, and the request's own
      count otherwise. */
  lemma TruncatedAtEndOfFile(v: Volume, f: Fcb, r: Request, cc: CachedCalls)
    requires Classify(v, f, r, cc).ToCached?
    ensures var n := Classify(v, f, r, cc).count;
            0 < n <= r.length && r.start + n <= f.fileSize &&
            (r.start + r.length > f.fileSize ==> r.start + n == f.fileSize) &&
            (r.start + r.length <= f.fileSize ==> n == r.length)
  {
  }

  /** Lock discipline: paging I/O takes only the paging resource and is
      never refused by a byte-range lock; other reads take only the main
      resource and are refused, after taking it, when a byte-range lock
      conflicts. */
  lemma LockChoice(v: Volume, f: Fcb, r: Request, cc: CachedCalls)
    ensures LockTaken(v, f, r) == PagingLock <==> ReachesLocks(v, f, r) && r.paging
    ensures LockTaken(v, f, r) == PagingLock ==> Classify(v, f, r, cc) != Finish(FileLockConflict)
    ensures ReachesLocks(v, f, r) && !r.paging ==> LockTaken(v, f, r) == MainLock
    ensures ReachesLocks(v, f, r) && !r.paging && f.lockConflict ==> Classify(v, f, r, cc) == Finish(FileLockConflict)
    ensures r.paging ==> LockTaken(v, f, r) != MainLock || f.node == IoctlNode
  {
  }

  /** Paging I/O always goes to the non-cached path; a non-cached request on
      a file with a data section is promoted to the cached path. */
  lemma Routing(v: Volume, f: Fcb, r: Request, cc: CachedCalls)
    requires ReachesRouting(v, f, r)
    ensures r.paging ==> Classify(v, f, r, cc) == ToNonCached
    ensures !r.paging && r.noCache && f.dataSection ==> Classify(v, f, r, cc) != ToNonCached
    ensures !r.paging && r.noCache && !f.dataSection ==> Classify(v, f, r, cc) == ToNonCached
    ensures Classify(v, f, r, cc) == ToNonCached <==> !CachedIo(f, r)
  {
  }

  /** A non-cached read longer than the largest transfer fails as
      unsuccessful, is completed by the non-cached path, and neither zeroes
      the buffer nor takes an extent reference. */
  lemma TooLargeFails(v: Volume, fileSize: int, r: Request, nc: NonCachedCalls, b: seq<bv8>)
    requires r.length > v.maxIo && |b| == r.length && r.start < fileSize
    ensures NonCachedStatus(v, r, nc) == Unsuccessful
    ensures NonCachedCompletion(v, r, nc) == Completion(ByNonCachedRead, Unsuccessful)
    ensures NonCachedBuffer(b, v, fileSize, r, nc) == b && !References(v, r, nc)
  {
  }

  /** End-of-file zeroing: every byte from the end of the file to the end
      of the request is zero, every byte before it is as it was, and the
      extents are asked for the bytes up to the end of the file, without
      wrap-around of the 32-bit count. */
  lemma ZeroesPastEndOfFile(v: Volume, fileSize: int, r: Request, nc: NonCachedCalls, b: seq<bv8>)
    requires |b| == r.length && r.start < fileSize
    requires r.length <= v.maxIo && nc.bufferLocked
    ensures var z := NonCachedBuffer(b, v, fileSize, r, nc);
            var n := ReadByteCount(fileSize, r);
            n == (if r.length < fileSize - r.start then r.length else fileSize - r.start) &&
            0 <= n < 0x1_0000_0000 &&
            (forall k :: n <= k < |z| ==> z[k] == 0) &&
            (forall k :: 0 <= k < n ==> z[k] == b[k])
  {
  }

  /** Only a loop that ends mapped leaves an extent reference to drop. */
  lemma ReferenceOnlyWhenMapped(v: Volume, r: Request, nc: NonCachedCalls)
    ensures References(v, r, nc) <==> r.length <= v.maxIo && nc.bufferLocked && ExtentLoop(nc.rounds) == Mapped
    ensures TakesRunArray(v, r, nc) ==> References(v, r, nc) && nc.extentsCount > v.maxStackRuns
  {
  }

  /** The non-cached path completes the request itself exactly when it
      stops before the gather block is set up, and then with a failure and
      no byte count; once the gather is set up it reports the whole
      request's count and the gather completes the request with the gather
      status. */
  lemma NonCachedCompleter(v: Volume, r: Request, nc: NonCachedCalls)
    ensures NonCachedCompletion(v, r, nc).party == ByNonCachedRead <==> NonCachedStop(v, r, nc) != Issued
    ensures NonCachedStop(v, r, nc) != Issued ==> !NtSuccess(NonCachedStatus(v, r, nc))
    ensures NonCachedStop(v, r, nc) == Issued ==> NonCachedCompletion(v, r, nc).status == GatherStatus(nc.during, nc.startIos, nc.after)
  {
    NtStatus.StatusClasses();
  }

  /** A synchronous read returns the gather status when starting the
      sub-requests succeeded and the start status otherwise; that is a
      success only if the start and every sub-request succeeded. An
      asynchronous one returns pending. */
  lemma IssuedStatus(v: Volume, r: Request, nc: NonCachedCalls)
    requires NonCachedStop(v, r, nc) == Issued
    ensures !r.syncOperation ==> NonCachedStatus(v, r, nc) == Pending
    ensures r.syncOperation ==>
              NonCachedStatus(v, r, nc) == (if NtSuccess(nc.startIos) then GatherStatus(nc.during, nc.startIos, nc.after) else nc.startIos)
    ensures r.syncOperation ==>
              (NtSuccess(NonCachedStatus(v, r, nc)) <==>
               var ss := Statuses(nc.during) + [nc.startIos] + nc.after;
               forall i :: 0 <= i < |ss| ==> NtSuccess(ss[i]))
  {
    var ss := Statuses(nc.during) + [nc.startIos] + nc.after;
    FoldAllSuccess(ss);
    assert ss[|Statuses(nc.during)|] == nc.startIos;
  }

  /** The completions that come after an asynchronous issuer has returned
      carry the gather on from the status it had then to the status of the
      whole read. */
  lemma LateCompletionsFinish(r: Request, nc: NonCachedCalls)
    ensures FoldAll(ReturnGatherStatus(r, nc), nc.after[Settled(r, nc)..]) == NonCachedGatherStatus(nc)
  {
    var n := Settled(r, nc);
    var pre := Statuses(nc.during) + [nc.startIos];
    FoldAppend(Success, pre + nc.after[..n], nc.after[n..]);
    assert pre + nc.after[..n] + nc.after[n..] == pre + nc.after;
  }

  /** The two paths move the current byte offset differently: the cached
      path to the end of the truncated count, the non-cached path to the end
      of the request's own count, which for a read that crosses the end of
      the file lies past it. A pending read counts as a success here. */
  lemma OffsetsDiffer(v: Volume, f: Fcb, r: Request, c: Calls, io: IoStatusBlock, offset: int)
    requires ReachesRouting(v, f, r) && r.start + r.length > f.fileSize && r.syncFile
    ensures Classify(v, f, r, c.cached).ToCached? && ReadOffset(v, f, r, c, io, offset) != offset ==>
              ReadOffset(v, f, r, c, io, offset) == f.fileSize
    ensures Classify(v, f, r, c.cached) == ToNonCached && !r.paging && NonCachedStop(v, r, c.nonCached) == Issued &&
            (!r.syncOperation || NtSuccess(NonCachedStatus(v, r, c.nonCached))) ==>
              ReadOffset(v, f, r, c, io, offset) == r.start + r.length > f.fileSize
  {
    NtStatus.StatusClasses();
  }
}
