/** The redirector's read path: the dispatcher `AFSCommonRead` and the
    three routines it hands requests to. Each works step by step on the
    request, the file object, the file control block and the pool, as the
    C routines do, with the calls it cannot see answered by the oracles in
    `Calls`; each is proved against the functions of `ReadSpec`. Every
    early exit of the C code (`try_return`) leaves its block here for the
    same clean-up code at the end. */
module ReadPath {
  import opened NtStatus
  import opened ReadTypes
  import opened ReadState
  import opened Gather
  import opened ReadSpec

  /** `RtlZeroMemory` over `[from, to)` of the buffer. */
  method ZeroTail(b: array<bv8>, from: int, to: int)
    requires 0 <= from <= to <= b.Length
    modifies b
    ensures b[..] == Zeroed(old(b[..]), from, to)
  {
    var k := from;
    while k < to
      invariant from <= k <= to
      invariant forall j :: 0 <= j < b.Length ==> b[j] == if from <= j < k then 0 else old(b[j])
    {
      b[k] := 0;
      k := k + 1;
    }
  }

  /** The extent loop: ask for the extents; when they are reported mapped,
      take the extents resource and, if the region is still mapped under
      it, take an extent reference and leave holding both; if it is not,
      drop the resource and go round again; when they are not mapped, wait
      for the mapping and go round again. Either call failing ends the loop
      without the resource. */
  method MapExtents(rounds: seq<ExtentRound>, fcb: FcbState) returns (mapped: bool)
    requires ExtentLoop(rounds) != Unsettled
    modifies fcb`extentsHeld, fcb`extentRefs, fcb`extentRefsTaken
    ensures mapped <==> ExtentLoop(rounds) == Mapped
    ensures fcb.extentsHeld == old(fcb.extentsHeld) + (if mapped then 1 else 0)
    ensures fcb.extentRefs == old(fcb.extentRefs) + (if mapped then 1 else 0)
    ensures fcb.extentRefsTaken == old(fcb.extentRefsTaken) + (if mapped then 1 else 0)
  {
    var i := 0;
    while true
      invariant 0 <= i <= |rounds|
      invariant ExtentLoop(rounds[i..]) == ExtentLoop(rounds)
      invariant fcb.extentsHeld == old(fcb.extentsHeld) && fcb.extentRefs == old(fcb.extentRefs)
      invariant fcb.extentRefsTaken == old(fcb.extentRefsTaken)
      decreases |rounds| - i
    {
      assert rounds[i..] != [];
      var x := rounds[i];
      if !NtSuccess(x.request) {
        return false;
      }
      if x.mapped {
        fcb.extentsHeld := fcb.extentsHeld + 1;
        if x.region {
          fcb.extentRefs := fcb.extentRefs + 1;
          fcb.extentRefsTaken := fcb.extentRefsTaken + 1;
          return true;
        }
        fcb.extentsHeld := fcb.extentsHeld - 1;
      } else if !NtSuccess(x.wait) {
        return false;
      }
      assert rounds[i..][1..] == rounds[i + 1..];
      i := i + 1;
    }
  }

  /** From the gather block's set-up on: `AFSStartIos` with the sub-request
      events that happen while it runs, then the issuer's own
      `AFSCompleteIo` with the start status, then the first `n` completions
      of the sub-requests still in flight. A synchronous issuer waits for
      all of them; an asynchronous one returns with the rest in flight. */
  method RunGather(g: GatherIo, nc: NonCachedCalls, n: nat)
    requires g.count == 1 && g.status == Success && !g.signalled && g.pool.gatherBlocks > 0
    requires Balanced(nc.during) && |nc.after| == Net(nc.during) && n <= |nc.after|
    modifies g`count, g`status, g`signalled, g.master`completions
    modifies g.pool`gatherBlocks, g.pool`gatherFreedByCompletion
    ensures g.count == |nc.after| - n && g.status == GatherStatus(nc.during, nc.startIos, nc.after[..n])
    ensures g.master.completions == old(g.master.completions) + (if g.count == 0 then [Completion(ByGather, g.status)] else [])
    ensures g.signalled == (g.count == 0 && g.synchronous)
    ensures g.pool.gatherBlocks == old(g.pool.gatherBlocks) - (if g.count == 0 && !g.synchronous then 1 else 0)
    ensures g.pool.gatherFreedByCompletion ==
              old(g.pool.gatherFreedByCompletion) + (if g.count == 0 && !g.synchronous then 1 else 0)
  {
    StartIos(g, nc.during);
    CompleteIos(g, [nc.startIos] + nc.after[..n]);
    FoldAppend(Success, Statuses(nc.during), [nc.startIos] + nc.after[..n]);
    assert Statuses(nc.during) + ([nc.startIos] + nc.after[..n]) == Statuses(nc.during) + [nc.startIos] + nc.after[..n];
  }

  /** The sub-request events while `AFSStartIos` runs: the issuer's own
      count keeps the gather from completing. */
  method StartIos(g: GatherIo, during: seq<IoEvent>)
    requires g.count == 1 && g.status == Success && !g.signalled && g.pool.gatherBlocks > 0
    requires Balanced(during)
    modifies g`count, g`status, g`signalled, g.master`completions
    modifies g.pool`gatherBlocks, g.pool`gatherFreedByCompletion
    ensures g.count == 1 + Net(during) && g.status == FoldAll(Success, Statuses(during))
    ensures g.master.completions == old(g.master.completions) && !g.signalled
    ensures g.pool.gatherBlocks == old(g.pool.gatherBlocks)
    ensures g.pool.gatherFreedByCompletion == old(g.pool.gatherFreedByCompletion)
  {
    var i := 0;
    while i < |during|
      invariant 0 <= i <= |during|
      invariant g.count == 1 + Net(during[..i])
      invariant g.status == FoldAll(Success, Statuses(during[..i]))
      invariant g.master.completions == old(g.master.completions) && !g.signalled
      invariant g.pool.gatherBlocks == old(g.pool.gatherBlocks)
      invariant g.pool.gatherFreedByCompletion == old(g.pool.gatherFreedByCompletion)
    {
      ghost var seen := during[..i];
      var e := during[i];
      assert during[..i + 1] == seen + [e];
      NetSnoc(seen, e);
      assert Net(during[..i + 1]) >= 0;
      if e.Issue? {
        g.Issue();
        assert Statuses(during[..i + 1]) == Statuses(seen);
      } else {
        FoldSnoc(Success, Statuses(seen), e.status);
        g.CompleteIo(e.status);
        assert Statuses(during[..i + 1]) == Statuses(seen) + [e.status];
      }
      i := i + 1;
    }
    assert during[..|during|] == during;
  }

  /** `AFSCompleteIo` once for each status, in order, on a gather with at
      least that many counts still out: the one that takes the count to
      zero completes the master request. */
  method CompleteIos(g: GatherIo, ss: seq<Status>)
    requires 0 < g.count && |ss| <= g.count && !g.signalled && g.pool.gatherBlocks > 0
    modifies g`count, g`status, g`signalled, g.master`completions
    modifies g.pool`gatherBlocks, g.pool`gatherFreedByCompletion
    ensures g.count == old(g.count) - |ss| && g.status == FoldAll(old(g.status), ss)
    ensures g.master.completions == old(g.master.completions) + (if g.count == 0 then [Completion(ByGather, g.status)] else [])
    ensures g.signalled == (g.count == 0 && g.synchronous)
    ensures g.pool.gatherBlocks == old(g.pool.gatherBlocks) - (if g.count == 0 && !g.synchronous then 1 else 0)
    ensures g.pool.gatherFreedByCompletion ==
              old(g.pool.gatherFreedByCompletion) + (if g.count == 0 && !g.synchronous then 1 else 0)
  {
    var j := 0;
    while j < |ss|
      invariant 0 <= j <= |ss|
      invariant g.count == old(g.count) - j
      invariant g.status == FoldAll(old(g.status), ss[..j])
      invariant g.master.completions == old(g.master.completions) + (if g.count == 0 then [Completion(ByGather, g.status)] else [])
      invariant g.signalled == (g.count == 0 && g.synchronous)
      invariant g.pool.gatherBlocks == old(g.pool.gatherBlocks) - (if g.count == 0 && !g.synchronous then 1 else 0)
      invariant g.pool.gatherFreedByCompletion ==
                  old(g.pool.gatherFreedByCompletion) + (if g.count == 0 && !g.synchronous then 1 else 0)
    {
      assert ss[..j + 1] == ss[..j] + [ss[j]];
      FoldSnoc(old(g.status), ss[..j], ss[j]);
      g.CompleteIo(ss[j]);
      j := j + 1;
    }
    assert ss[..|ss|] == ss;
  }

  /** The gather block of an asynchronous read that returned with
      sub-requests still in flight, as the read left it: the count of those
      sub-requests and the status gathered before the return. */
  ghost predicate PendingGather(g: GatherIo, irp: Irp, pool: Pool, r: Request, nc: NonCachedCalls)
    reads g
  {
    g.master == irp && g.pool == pool && !g.synchronous && !g.signalled &&
    g.count == |nc.after| - Settled(r, nc) && g.status == ReturnGatherStatus(r, nc)
  }

  /** The completions of the sub-requests still in flight after an
      asynchronous read has returned. The last one completes the master
      request with the gather status of the whole read and frees the block.
      They touch only the gather block, the master request and the pool:
      the read's extent reference and its resources were given back at its
      return. */
  method FinishGather(g: GatherIo, r: Request, nc: NonCachedCalls)
    requires PendingGather(g, g.master, g.pool, r, nc) && g.count > 0 && g.pool.gatherBlocks > 0
    modifies g`count, g`status, g`signalled, g.master`completions
    modifies g.pool`gatherBlocks, g.pool`gatherFreedByCompletion
    ensures g.count == 0 && g.status == NonCachedGatherStatus(nc)
    ensures g.master.completions == old(g.master.completions) + [Completion(ByGather, NonCachedGatherStatus(nc))]
    ensures g.pool.gatherBlocks == old(g.pool.gatherBlocks) - 1
    ensures g.pool.gatherFreedByCompletion == old(g.pool.gatherFreedByCompletion) + 1
  {
    CompleteIos(g, nc.after[Settled(r, nc)..]);
    LateCompletionsFinish(r, nc);
  }

  /** `AFSNonCachedRead`: refuse a transfer larger than the volume allows,
      lock the buffer and zero what lies past the end of the file;
      `PinAndRead` carries on from there. A stop before that holds nothing,
      and goes straight to the exit. */
  method NonCachedRead(v: Volume, fileSize: int, r: Request, nc: NonCachedCalls,
                       irp: Irp, fo: FileObject, fcb: FcbState, pool: Pool) returns (status: Status, gather: GatherIo?)
    requires irp.buffer.Length == r.length && r.start < fileSize
    requires ExtentLoop(nc.rounds) != Unsettled
    requires Balanced(nc.during) && |nc.after| == Net(nc.during)
    modifies irp`information, irp`completions, irp`pending, irp.buffer, fo`currentByteOffset
    modifies fcb`extentsHeld, fcb`extentRefs, fcb`extentRefsTaken
    modifies pool`runArrays, pool`runArraysTaken, pool`gatherBlocks, pool`gatherBlocksTaken
    modifies pool`gatherFreedByIssuer, pool`gatherFreedByCompletion
    ensures status == NonCachedStatus(v, r, nc)
    ensures gather != null <==> InFlight(v, r, nc) > 0
    ensures gather != null ==> PendingGather(gather, irp, pool, r, nc)
    ensures irp.completions == old(irp.completions) + (if gather != null then [] else [NonCachedCompletion(v, r, nc)])
    ensures irp.information == if NonCachedStop(v, r, nc) == Issued then r.length as int else 0
    ensures irp.pending == (old(irp.pending) || (NonCachedStop(v, r, nc) == Issued && !r.syncOperation))
    ensures irp.buffer[..] == NonCachedBuffer(old(irp.buffer[..]), v, fileSize, r, nc)
    ensures fo.currentByteOffset == if NonCachedAdvances(v, r, nc) then r.start + r.length else old(fo.currentByteOffset)
    ensures fcb.extentsHeld == old(fcb.extentsHeld) && fcb.extentRefs == old(fcb.extentRefs)
    ensures fcb.extentRefsTaken == old(fcb.extentRefsTaken) + (if References(v, r, nc) then 1 else 0)
    ensures pool.runArrays == old(pool.runArrays)
    ensures pool.runArraysTaken == old(pool.runArraysTaken) + (if TakesRunArray(v, r, nc) then 1 else 0)
    ensures pool.gatherBlocks == old(pool.gatherBlocks) + (if gather != null then 1 else 0)
    ensures pool.gatherBlocksTaken == old(pool.gatherBlocksTaken) + (if NonCachedStop(v, r, nc) == Issued then 1 else 0)
    ensures pool.gatherFreedByIssuer ==
              old(pool.gatherFreedByIssuer) + (if NonCachedStop(v, r, nc) == Issued && r.syncOperation then 1 else 0)
    ensures pool.gatherFreedByCompletion ==
              old(pool.gatherFreedByCompletion) + (if NonCachedStop(v, r, nc) == Issued && !r.syncOperation && gather == null then 1 else 0)
  {
    NtStatus.StatusClasses();
    var byteCount := r.length;
    if byteCount > v.maxIo {
      status := Unsuccessful;
    } else if !nc.bufferLocked {
      status := InsufficientResources;
    } else {
      if r.start + byteCount > fileSize {
        var zeroCount := r.start + byteCount - fileSize;
        var readCount := fileSize - r.start;
        ZeroTail(irp.buffer, readCount, readCount + zeroCount);
      }
      status, gather := PinAndRead(v, r, nc, irp, fo, fcb, pool);
      return;
    }
    gather := null;
    NonCachedExit(status, r, false, false, true, false, irp, fo, fcb, pool);
  }

  /** The extent loop of `AFSNonCachedRead` on a locked buffer: once the
      extents are pinned, `ReadExtents` carries on; a loop that ends without
      them goes to the exit holding nothing. */
  method PinAndRead(v: Volume, r: Request, nc: NonCachedCalls,
                    irp: Irp, fo: FileObject, fcb: FcbState, pool: Pool) returns (status: Status, gather: GatherIo?)
    requires r.length <= v.maxIo && nc.bufferLocked
    requires ExtentLoop(nc.rounds) != Unsettled
    requires Balanced(nc.during) && |nc.after| == Net(nc.during)
    modifies irp`information, irp`completions, irp`pending, fo`currentByteOffset
    modifies fcb`extentsHeld, fcb`extentRefs, fcb`extentRefsTaken
    modifies pool`runArrays, pool`runArraysTaken, pool`gatherBlocks, pool`gatherBlocksTaken
    modifies pool`gatherFreedByIssuer, pool`gatherFreedByCompletion
    ensures status == NonCachedStatus(v, r, nc)
    ensures gather != null <==> InFlight(v, r, nc) > 0
    ensures gather != null ==> PendingGather(gather, irp, pool, r, nc)
    ensures irp.completions == old(irp.completions) + (if gather != null then [] else [NonCachedCompletion(v, r, nc)])
    ensures irp.information == if NonCachedStop(v, r, nc) == Issued then r.length as int else 0
    ensures irp.pending == (old(irp.pending) || (NonCachedStop(v, r, nc) == Issued && !r.syncOperation))
    ensures fo.currentByteOffset == if NonCachedAdvances(v, r, nc) then r.start + r.length else old(fo.currentByteOffset)
    ensures fcb.extentsHeld == old(fcb.extentsHeld) && fcb.extentRefs == old(fcb.extentRefs)
    ensures fcb.extentRefsTaken == old(fcb.extentRefsTaken) + (if References(v, r, nc) then 1 else 0)
    ensures pool.runArrays == old(pool.runArrays)
    ensures pool.runArraysTaken == old(pool.runArraysTaken) + (if TakesRunArray(v, r, nc) then 1 else 0)
    ensures pool.gatherBlocks == old(pool.gatherBlocks) + (if gather != null then 1 else 0)
    ensures pool.gatherBlocksTaken == old(pool.gatherBlocksTaken) + (if NonCachedStop(v, r, nc) == Issued then 1 else 0)
    ensures pool.gatherFreedByIssuer ==
              old(pool.gatherFreedByIssuer) + (if NonCachedStop(v, r, nc) == Issued && r.syncOperation then 1 else 0)
    ensures pool.gatherFreedByCompletion ==
              old(pool.gatherFreedByCompletion) + (if NonCachedStop(v, r, nc) == Issued && !r.syncOperation && gather == null then 1 else 0)
  {
    NtStatus.StatusClasses();
    var mapped := MapExtents(nc.rounds, fcb);
    if mapped {
      status, gather := ReadExtents(v, r, nc, irp, fo, fcb, pool);
      return;
    }
    status, gather := InsufficientResources, null;
    NonCachedExit(status, r, false, false, true, false, irp, fo, fcb, pool);
  }

  /** The rest of `AFSNonCachedRead`, entered holding the extents resource
      and an extent reference: list the extents and find room for the I/O
      runs (on the stack, or in a heap array when there are more than fit);
      `IssueRuns` carries on from there. A failure here goes to the common
      exit. */
  method ReadExtents(v: Volume, r: Request, nc: NonCachedCalls,
                     irp: Irp, fo: FileObject, fcb: FcbState, pool: Pool) returns (status: Status, gather: GatherIo?)
    requires r.length <= v.maxIo && nc.bufferLocked && ExtentLoop(nc.rounds) == Mapped
    requires fcb.extentsHeld > 0 && fcb.extentRefs > 0
    requires Balanced(nc.during) && |nc.after| == Net(nc.during)
    modifies irp`information, irp`completions, irp`pending, fo`currentByteOffset
    modifies fcb`extentsHeld, fcb`extentRefs
    modifies pool`runArrays, pool`runArraysTaken, pool`gatherBlocks, pool`gatherBlocksTaken
    modifies pool`gatherFreedByIssuer, pool`gatherFreedByCompletion
    ensures status == NonCachedStatus(v, r, nc)
    ensures gather != null <==> InFlight(v, r, nc) > 0
    ensures gather != null ==> PendingGather(gather, irp, pool, r, nc)
    ensures irp.completions == old(irp.completions) + (if gather != null then [] else [NonCachedCompletion(v, r, nc)])
    ensures irp.information == if NonCachedStop(v, r, nc) == Issued then r.length as int else 0
    ensures irp.pending == (old(irp.pending) || (NonCachedStop(v, r, nc) == Issued && !r.syncOperation))
    ensures fo.currentByteOffset == if NonCachedAdvances(v, r, nc) then r.start + r.length else old(fo.currentByteOffset)
    ensures fcb.extentsHeld == old(fcb.extentsHeld) - 1 && fcb.extentRefs == old(fcb.extentRefs) - 1
    ensures pool.runArrays == old(pool.runArrays)
    ensures pool.runArraysTaken == old(pool.runArraysTaken) + (if TakesRunArray(v, r, nc) then 1 else 0)
    ensures pool.gatherBlocks == old(pool.gatherBlocks) + (if gather != null then 1 else 0)
    ensures pool.gatherBlocksTaken == old(pool.gatherBlocksTaken) + (if NonCachedStop(v, r, nc) == Issued then 1 else 0)
    ensures pool.gatherFreedByIssuer ==
              old(pool.gatherFreedByIssuer) + (if NonCachedStop(v, r, nc) == Issued && r.syncOperation then 1 else 0)
    ensures pool.gatherFreedByCompletion ==
              old(pool.gatherFreedByCompletion) + (if NonCachedStop(v, r, nc) == Issued && !r.syncOperation && gather == null then 1 else 0)
  {
    NtStatus.StatusClasses();
    gather := null;
    status := nc.getExtents;
    if !NtSuccess(status) {
      assert NonCachedStop(v, r, nc) == ExtentsNotListed(status);
    } else if nc.extentsCount > v.maxStackRuns && !nc.runsAllocated {
      status := InsufficientResources;
      assert NonCachedStop(v, r, nc) == NoRunArray;
    } else {
      var heapRuns := nc.extentsCount > v.maxStackRuns;
      if heapRuns {
        pool.runArrays := pool.runArrays + 1;
        pool.runArraysTaken := pool.runArraysTaken + 1;
      }
      status, gather := IssueRuns(v, r, nc, heapRuns, irp, fo, fcb, pool);
      return;
    }
    NonCachedExit(status, r, true, false, true, true, irp, fo, fcb, pool);
  }

  /** `AFSNonCachedRead` once the extents are listed and there is room for
      the runs (`heapRuns`: in a heap array): set the runs up, drop the
      extents resource and issue the gather; then the common exit. */
  method IssueRuns(v: Volume, r: Request, nc: NonCachedCalls, heapRuns: bool,
                   irp: Irp, fo: FileObject, fcb: FcbState, pool: Pool) returns (status: Status, gather: GatherIo?)
    requires r.length <= v.maxIo && nc.bufferLocked && ExtentLoop(nc.rounds) == Mapped && NtSuccess(nc.getExtents)
    requires heapRuns == (nc.extentsCount > v.maxStackRuns) && (heapRuns ==> nc.runsAllocated && pool.runArrays > 0)
    requires fcb.extentsHeld > 0 && fcb.extentRefs > 0
    requires Balanced(nc.during) && |nc.after| == Net(nc.during)
    modifies irp`information, irp`completions, irp`pending, fo`currentByteOffset
    modifies fcb`extentsHeld, fcb`extentRefs
    modifies pool`runArrays, pool`gatherBlocks, pool`gatherBlocksTaken
    modifies pool`gatherFreedByIssuer, pool`gatherFreedByCompletion
    ensures status == NonCachedStatus(v, r, nc)
    ensures gather != null <==> InFlight(v, r, nc) > 0
    ensures gather != null ==> PendingGather(gather, irp, pool, r, nc)
    ensures irp.completions == old(irp.completions) + (if gather != null then [] else [NonCachedCompletion(v, r, nc)])
    ensures irp.information == if NonCachedStop(v, r, nc) == Issued then r.length as int else 0
    ensures irp.pending == (old(irp.pending) || (NonCachedStop(v, r, nc) == Issued && !r.syncOperation))
    ensures fo.currentByteOffset == if NonCachedAdvances(v, r, nc) then r.start + r.length else old(fo.currentByteOffset)
    ensures fcb.extentsHeld == old(fcb.extentsHeld) - 1 && fcb.extentRefs == old(fcb.extentRefs) - 1
    ensures pool.runArrays == old(pool.runArrays) - (if heapRuns then 1 else 0)
    ensures pool.gatherBlocks == old(pool.gatherBlocks) + (if gather != null then 1 else 0)
    ensures pool.gatherBlocksTaken == old(pool.gatherBlocksTaken) + (if NonCachedStop(v, r, nc) == Issued then 1 else 0)
    ensures pool.gatherFreedByIssuer ==
              old(pool.gatherFreedByIssuer) + (if NonCachedStop(v, r, nc) == Issued && r.syncOperation then 1 else 0)
    ensures pool.gatherFreedByCompletion ==
              old(pool.gatherFreedByCompletion) + (if NonCachedStop(v, r, nc) == Issued && !r.syncOperation && gather == null then 1 else 0)
  {
    NtStatus.StatusClasses();
    var locked, completeIrp := true, true;
    gather := null;
    status := nc.setupIoRun;
    if !NtSuccess(status) {
      assert NonCachedStop(v, r, nc) == RunsNotSetUp(status);
    } else {
      fcb.extentsHeld := fcb.extentsHeld - 1;
      locked := false;
      if !nc.gatherAllocated {
        status := InsufficientResources;
        assert NonCachedStop(v, r, nc) == NoGather;
      } else {
        assert NonCachedStop(v, r, nc) == Issued;
        completeIrp := false;
        status, gather := IssueGather(r, nc, irp, pool);
      }
    }
    NonCachedExit(status, r, locked, heapRuns, completeIrp, true, irp, fo, fcb, pool);
  }

  /** The common exit of `AFSNonCachedRead`: move the current byte offset
      after a success that is not paging I/O on a synchronous file object,
      drop the extents resource if still held, free a heap run array,
      complete the request if the gather was never set up, and drop the
      extent reference if one was taken. */
  method NonCachedExit(status: Status, r: Request, locked: bool, heapRuns: bool, completeIrp: bool, derefExtents: bool,
                       irp: Irp, fo: FileObject, fcb: FcbState, pool: Pool)
    requires locked ==> fcb.extentsHeld > 0
    requires derefExtents ==> fcb.extentRefs > 0
    requires heapRuns ==> pool.runArrays > 0
    modifies irp`information, irp`completions, fo`currentByteOffset, fcb`extentsHeld, fcb`extentRefs, pool`runArrays
    ensures fo.currentByteOffset ==
              if NtSuccess(status) && !r.paging && r.syncFile then r.start + r.length else old(fo.currentByteOffset)
    ensures fcb.extentsHeld == old(fcb.extentsHeld) - (if locked then 1 else 0)
    ensures fcb.extentRefs == old(fcb.extentRefs) - (if derefExtents then 1 else 0)
    ensures pool.runArrays == old(pool.runArrays) - (if heapRuns then 1 else 0)
    ensures irp.completions == old(irp.completions) + (if completeIrp then [Completion(ByNonCachedRead, status)] else [])
    ensures irp.information == if completeIrp then 0 else old(irp.information)
  {
    if NtSuccess(status) && !r.paging && r.syncFile {
      fo.currentByteOffset := r.start + r.length;
    }
    if locked {
      fcb.extentsHeld := fcb.extentsHeld - 1;
    }
    if heapRuns {
      pool.runArrays := pool.runArrays - 1;
    }
    if completeIrp {
      irp.information := 0;
      irp.Complete(ByNonCachedRead, status);
    }
    if derefExtents {
      fcb.extentRefs := fcb.extentRefs - 1;
    }
  }

  /** The gather section of `AFSNonCachedRead`, from a gather block that
      was allocated: set it up with count 1, mark the request pending when
      the issuer will not wait, report the whole request's byte count, start
      the sub-requests and take the issuer's own count away. A synchronous
      issuer waits, returns the gather status unless starting failed, and
      frees the block at the exit; an asynchronous one returns pending and
      leaves the block to the last completion. `gather` is that block while
      sub-requests are still in flight at the return. */
  method IssueGather(r: Request, nc: NonCachedCalls, irp: Irp, pool: Pool) returns (status: Status, gather: GatherIo?)
    requires Balanced(nc.during) && |nc.after| == Net(nc.during)
    modifies irp`information, irp`completions, irp`pending
    modifies pool`gatherBlocks, pool`gatherBlocksTaken, pool`gatherFreedByIssuer, pool`gatherFreedByCompletion
    ensures status == if !r.syncOperation then Pending
                      else if NtSuccess(nc.startIos) then NonCachedGatherStatus(nc) else nc.startIos
    ensures gather != null <==> Settled(r, nc) < |nc.after|
    ensures gather != null ==> PendingGather(gather, irp, pool, r, nc)
    ensures irp.completions ==
              old(irp.completions) + (if gather != null then [] else [Completion(ByGather, NonCachedGatherStatus(nc))])
    ensures irp.information == r.length && irp.pending == (old(irp.pending) || !r.syncOperation)
    ensures pool.gatherBlocks == old(pool.gatherBlocks) + (if gather != null then 1 else 0)
    ensures pool.gatherBlocksTaken == old(pool.gatherBlocksTaken) + 1
    ensures pool.gatherFreedByIssuer == old(pool.gatherFreedByIssuer) + (if r.syncOperation then 1 else 0)
    ensures pool.gatherFreedByCompletion == old(pool.gatherFreedByCompletion) + (if r.syncOperation || gather != null then 0 else 1)
  {
    pool.gatherBlocks := pool.gatherBlocks + 1;
    pool.gatherBlocksTaken := pool.gatherBlocksTaken + 1;
    var g := new GatherIo(irp, pool, r.syncOperation);
    if !r.syncOperation {
      irp.pending := true;
    }
    irp.information := r.length;
    var settled := Settled(r, nc);
    RunGather(g, nc, settled);
    assert g.count == 0 ==> nc.after[..settled] == nc.after;
    var owned: GatherIo? := g;
    if r.syncOperation {
      status := nc.startIos;
      if NtSuccess(status) {
        status := g.status;
      }
    } else {
      status := Pending;
      owned := null;
    }
    if owned != null {
      pool.gatherBlocks := pool.gatherBlocks - 1;
      pool.gatherFreedByIssuer := pool.gatherFreedByIssuer + 1;
    }
    gather := if g.count > 0 then g else null;
  }

  /** `AFSCachedRead`: copy through the cache and complete the request;
      a synchronous file object's current byte offset moves to the end of
      the count it was given. */
  method CachedRead(r: Request, count: ULong, cc: CachedCalls, irp: Irp, fo: FileObject) returns (status: Status)
    modifies irp`ioStatus, irp`information, irp`completions, fo`currentByteOffset
    ensures var o := CachedResult(r.syncFile, cc, IoStatusBlock(old(irp.ioStatus), old(irp.information)));
            status == o.status && IoStatusBlock(irp.ioStatus, irp.information) == o.io &&
            fo.currentByteOffset == (if o.advances then r.start + count else old(fo.currentByteOffset))
    ensures irp.completions == old(irp.completions) + [Completion(ByCachedRead, status)]
  {
    status := Success;
    if !cc.bufferLocked {
      status := InsufficientResources;
    } else {
      var copied := true;
      match cc.copyRead {
        case Returned(ok, io) =>
          irp.ioStatus, irp.information := io.status, io.information;
          if !ok {
            status := irp.ioStatus;
            copied := false;
          }
        case Raised(code) =>
          status := code;
      }
      if copied && NtSuccess(status) {
        status := irp.ioStatus;
        if r.syncFile {
          fo.currentByteOffset := r.start + count;
        }
      }
    }
    irp.Complete(ByCachedRead, status);
  }

  /** `AFSIOCtlRead`: a read of the pseudo-file is passed to the service
      under the main resource, through a mapping of the caller's buffer. */
  method IoctlRead(r: Request, ic: IoctlCalls, irp: Irp, fcb: FcbState) returns (status: Status)
    modifies irp`information, irp`serviceMaps, irp`serviceMapsTaken, fcb`mainHeld, fcb`mainTaken
    ensures status == IoctlStatus(r, ic)
    ensures irp.information == IoctlInformation(old(irp.information), r, ic)
    ensures fcb.mainHeld == old(fcb.mainHeld)
    ensures fcb.mainTaken == old(fcb.mainTaken) + (if r.length != 0 then 1 else 0)
    ensures irp.serviceMaps == old(irp.serviceMaps)
    ensures irp.serviceMapsTaken == old(irp.serviceMapsTaken) + (if r.length != 0 && ic.mapped then 1 else 0)
  {
    status := Success;
    var held, mapped := false, false;
    if r.length != 0 {
      fcb.mainHeld := fcb.mainHeld + 1;
      fcb.mainTaken := fcb.mainTaken + 1;
      held := true;
      if !ic.mapped {
        status := InsufficientResources;
      } else {
        irp.serviceMaps := irp.serviceMaps + 1;
        irp.serviceMapsTaken := irp.serviceMapsTaken + 1;
        mapped := true;
        status := ic.process;
        if NtSuccess(status) {
          irp.information := ic.bytesProcessed;
        }
      }
    }
    if mapped {
      irp.serviceMaps := irp.serviceMaps - 1;
    }
    if held {
      fcb.mainHeld := fcb.mainHeld - 1;
    }
  }

  /** The non-cached path issues its sub-requests for this read. */
  predicate Gathers(v: Volume, f: Fcb, r: Request, c: Calls) {
    Classify(v, f, r, c.cached) == ToNonCached && NonCachedStop(v, r, c.nonCached) == Issued
  }

  /** `AFSCommonRead`: the file object is referenced for the length of the
      call; the request goes through the dispatcher's checks and is handed
      on, and the dispatcher completes it when it was not handed to the
      cached or non-cached path. By the return every lock, reference and
      mapping taken is given back, and the request has been completed once,
      unless sub-requests of an asynchronous read are still in flight:
      `gather` is then their gather block, and `FinishGather` completes the
      request from it. */
  method CommonRead(v: Volume, f: Fcb, r: Request, c: Calls, irp: Irp, fo: FileObject, fcb: FcbState, pool: Pool)
    returns (status: Status, gather: GatherIo?)
    requires irp.buffer.Length == r.length
    requires ExtentLoop(c.nonCached.rounds) != Unsettled
    requires Balanced(c.nonCached.during) && |c.nonCached.after| == Net(c.nonCached.during)
    modifies irp`ioStatus, irp`information, irp`completions, irp`pending, irp`hasMdl, irp.buffer
    modifies irp`serviceMaps, irp`serviceMapsTaken, fo`currentByteOffset, fo`refs
    modifies fcb`mainHeld, fcb`mainTaken, fcb`pagingHeld, fcb`pagingTaken, fcb`extentProcessId
    modifies fcb`extentsHeld, fcb`extentRefs, fcb`extentRefsTaken
    modifies pool`runArrays, pool`runArraysTaken, pool`gatherBlocks, pool`gatherBlocksTaken
    modifies pool`gatherFreedByIssuer, pool`gatherFreedByCompletion
    ensures status == ReadStatus(v, f, r, c, old(IoStatusBlock(irp.ioStatus, irp.information)))
    ensures irp.completions == old(irp.completions) + (if gather != null then [] else [ReadCompletion(v, f, r, c, old(IoStatusBlock(irp.ioStatus, irp.information)))])
    ensures gather != null <==> Outstanding(v, f, r, c)
    ensures gather != null ==> PendingGather(gather, irp, pool, r, c.nonCached)
    ensures IoStatusBlock(irp.ioStatus, irp.information) == ReadIo(v, f, r, c, old(IoStatusBlock(irp.ioStatus, irp.information)))
    ensures irp.pending == (old(irp.pending) || (Gathers(v, f, r, c) && !r.syncOperation))
    ensures irp.hasMdl == (old(irp.hasMdl) && !MdlCompleteHit(v, f, r))
    ensures irp.serviceMaps == old(irp.serviceMaps)
    ensures irp.serviceMapsTaken ==
              old(irp.serviceMapsTaken) + (if Classify(v, f, r, c.cached) == ToIoctl && r.length != 0 && c.ioctl.mapped then 1 else 0)
    ensures irp.buffer[..] ==
              if Classify(v, f, r, c.cached) == ToNonCached
              then NonCachedBuffer(old(irp.buffer[..]), v, f.fileSize, r, c.nonCached)
              else old(irp.buffer[..])
    ensures fo.currentByteOffset == ReadOffset(v, f, r, c, old(IoStatusBlock(irp.ioStatus, irp.information)), old(fo.currentByteOffset))
    ensures fo.refs == old(fo.refs)
    ensures fcb.mainHeld == old(fcb.mainHeld) && fcb.pagingHeld == old(fcb.pagingHeld) && fcb.extentsHeld == old(fcb.extentsHeld)
    ensures fcb.mainTaken == old(fcb.mainTaken) + (if LockTaken(v, f, r) == MainLock then 1 else 0)
    ensures fcb.pagingTaken == old(fcb.pagingTaken) + (if LockTaken(v, f, r) == PagingLock then 1 else 0)
    ensures fcb.extentRefs == old(fcb.extentRefs)
    ensures fcb.extentRefsTaken ==
              old(fcb.extentRefsTaken) + (if Classify(v, f, r, c.cached) == ToNonCached && References(v, r, c.nonCached) then 1 else 0)
    ensures fcb.extentProcessId == if ReachesRouting(v, f, r) && !r.paging then c.process else old(fcb.extentProcessId)
    ensures pool.runArrays == old(pool.runArrays) && pool.gatherBlocks == old(pool.gatherBlocks) + (if gather != null then 1 else 0)
    ensures pool.runArraysTaken ==
              old(pool.runArraysTaken) + (if Classify(v, f, r, c.cached) == ToNonCached && TakesRunArray(v, r, c.nonCached) then 1 else 0)
    ensures pool.gatherBlocksTaken == old(pool.gatherBlocksTaken) + (if Gathers(v, f, r, c) then 1 else 0)
    ensures pool.gatherFreedByIssuer == old(pool.gatherFreedByIssuer) + (if Gathers(v, f, r, c) && r.syncOperation then 1 else 0)
    ensures pool.gatherFreedByCompletion == old(pool.gatherFreedByCompletion) + (if Gathers(v, f, r, c) && !r.syncOperation && gather == null then 1 else 0)
  {
    fo.refs := fo.refs + 1;
    var completeIrp;
    status, completeIrp, gather := Dispatch(v, f, r, c, irp, fo, fcb, pool);
    if completeIrp {
      irp.Complete(ByCommonRead, status);
    }
    fo.refs := fo.refs - 1;
  }

  /** The dispatcher's checks in their order up to the file read:
      shutting down, the node type, the pseudo-file path; a file goes on to
      `ReadFile`. `completeIrp` says whether the dispatcher still has to
      complete the request. */
  method Dispatch(v: Volume, f: Fcb, r: Request, c: Calls, irp: Irp, fo: FileObject, fcb: FcbState, pool: Pool)
    returns (status: Status, completeIrp: bool, gather: GatherIo?)
    requires irp.buffer.Length == r.length
    requires ExtentLoop(c.nonCached.rounds) != Unsettled
    requires Balanced(c.nonCached.during) && |c.nonCached.after| == Net(c.nonCached.during)
    modifies irp`ioStatus, irp`information, irp`completions, irp`pending, irp`hasMdl, irp.buffer
    modifies irp`serviceMaps, irp`serviceMapsTaken, fo`currentByteOffset
    modifies fcb`mainHeld, fcb`mainTaken, fcb`pagingHeld, fcb`pagingTaken, fcb`extentProcessId
    modifies fcb`extentsHeld, fcb`extentRefs, fcb`extentRefsTaken
    modifies pool`runArrays, pool`runArraysTaken, pool`gatherBlocks, pool`gatherBlocksTaken
    modifies pool`gatherFreedByIssuer, pool`gatherFreedByCompletion
    ensures status == ReadStatus(v, f, r, c, old(IoStatusBlock(irp.ioStatus, irp.information)))
    ensures completeIrp <==> Classify(v, f, r, c.cached).Finish? || Classify(v, f, r, c.cached) == ToIoctl
    ensures completeIrp ==> irp.completions == old(irp.completions)
    ensures !completeIrp ==> irp.completions == old(irp.completions) + (if gather != null then [] else [ReadCompletion(v, f, r, c, old(IoStatusBlock(irp.ioStatus, irp.information)))])
    ensures gather != null <==> Outstanding(v, f, r, c)
    ensures gather != null ==> PendingGather(gather, irp, pool, r, c.nonCached)
    ensures IoStatusBlock(irp.ioStatus, irp.information) == ReadIo(v, f, r, c, old(IoStatusBlock(irp.ioStatus, irp.information)))
    ensures irp.pending == (old(irp.pending) || (Gathers(v, f, r, c) && !r.syncOperation))
    ensures irp.hasMdl == (old(irp.hasMdl) && !MdlCompleteHit(v, f, r))
    ensures irp.serviceMaps == old(irp.serviceMaps)
    ensures irp.serviceMapsTaken ==
              old(irp.serviceMapsTaken) + (if Classify(v, f, r, c.cached) == ToIoctl && r.length != 0 && c.ioctl.mapped then 1 else 0)
    ensures irp.buffer[..] ==
              if Classify(v, f, r, c.cached) == ToNonCached
              then NonCachedBuffer(old(irp.buffer[..]), v, f.fileSize, r, c.nonCached)
              else old(irp.buffer[..])
    ensures fo.currentByteOffset == ReadOffset(v, f, r, c, old(IoStatusBlock(irp.ioStatus, irp.information)), old(fo.currentByteOffset))
    ensures fcb.mainHeld == old(fcb.mainHeld) && fcb.pagingHeld == old(fcb.pagingHeld) && fcb.extentsHeld == old(fcb.extentsHeld)
    ensures fcb.mainTaken == old(fcb.mainTaken) + (if LockTaken(v, f, r) == MainLock then 1 else 0)
    ensures fcb.pagingTaken == old(fcb.pagingTaken) + (if LockTaken(v, f, r) == PagingLock then 1 else 0)
    ensures fcb.extentRefs == old(fcb.extentRefs)
    ensures fcb.extentRefsTaken ==
              old(fcb.extentRefsTaken) + (if Classify(v, f, r, c.cached) == ToNonCached && References(v, r, c.nonCached) then 1 else 0)
    ensures fcb.extentProcessId == if ReachesRouting(v, f, r) && !r.paging then c.process else old(fcb.extentProcessId)
    ensures pool.runArrays == old(pool.runArrays) && pool.gatherBlocks == old(pool.gatherBlocks) + (if gather != null then 1 else 0)
    ensures pool.runArraysTaken ==
              old(pool.runArraysTaken) + (if Classify(v, f, r, c.cached) == ToNonCached && TakesRunArray(v, r, c.nonCached) then 1 else 0)
    ensures pool.gatherBlocksTaken == old(pool.gatherBlocksTaken) + (if Gathers(v, f, r, c) then 1 else 0)
    ensures pool.gatherFreedByIssuer == old(pool.gatherFreedByIssuer) + (if Gathers(v, f, r, c) && r.syncOperation then 1 else 0)
    ensures pool.gatherFreedByCompletion == old(pool.gatherFreedByCompletion) + (if Gathers(v, f, r, c) && !r.syncOperation && gather == null then 1 else 0)
  {
    completeIrp, gather := true, null;
    if v.shutdown {
      status := TooLate;
    } else if f.node == OtherNode {
      status := InvalidParameter;
    } else if f.node == IoctlNode {
      status := IoctlRead(r, c.ioctl, irp, fcb);
    } else {
      status, completeIrp, gather := ReadFile(v, f, r, c, irp, fo, fcb, pool);
    }
  }

  /** `AFSCommonRead` on a file: the cache file must be open; an empty
      read succeeds at once, and an MDL completion hands the MDL back to the
      cache manager and succeeds; anything else is read under a resource. */
  method ReadFile(v: Volume, f: Fcb, r: Request, c: Calls, irp: Irp, fo: FileObject, fcb: FcbState, pool: Pool)
    returns (status: Status, completeIrp: bool, gather: GatherIo?)
    requires !v.shutdown && f.node == FileNode
    requires irp.buffer.Length == r.length
    requires ExtentLoop(c.nonCached.rounds) != Unsettled
    requires Balanced(c.nonCached.during) && |c.nonCached.after| == Net(c.nonCached.during)
    modifies irp`ioStatus, irp`information, irp`completions, irp`pending, irp.buffer, fo`currentByteOffset
    modifies fcb`extentProcessId, fcb`extentsHeld, fcb`extentRefs, fcb`extentRefsTaken
    modifies pool`runArrays, pool`runArraysTaken, pool`gatherBlocks, pool`gatherBlocksTaken
    modifies pool`gatherFreedByIssuer, pool`gatherFreedByCompletion
    modifies fcb`mainHeld, fcb`mainTaken, fcb`pagingHeld, fcb`pagingTaken, irp`hasMdl
    ensures completeIrp <==> Classify(v, f, r, c.cached).Finish?
    ensures status == ReadStatus(v, f, r, c, old(IoStatusBlock(irp.ioStatus, irp.information)))
    ensures completeIrp ==> irp.completions == old(irp.completions)
    ensures !completeIrp ==> irp.completions == old(irp.completions) + (if gather != null then [] else [ReadCompletion(v, f, r, c, old(IoStatusBlock(irp.ioStatus, irp.information)))])
    ensures gather != null <==> Outstanding(v, f, r, c)
    ensures gather != null ==> PendingGather(gather, irp, pool, r, c.nonCached)
    ensures IoStatusBlock(irp.ioStatus, irp.information) == ReadIo(v, f, r, c, old(IoStatusBlock(irp.ioStatus, irp.information)))
    ensures irp.pending == (old(irp.pending) || (Gathers(v, f, r, c) && !r.syncOperation))
    ensures irp.buffer[..] ==
              if Classify(v, f, r, c.cached) == ToNonCached
              then NonCachedBuffer(old(irp.buffer[..]), v, f.fileSize, r, c.nonCached)
              else old(irp.buffer[..])
    ensures fo.currentByteOffset == ReadOffset(v, f, r, c, old(IoStatusBlock(irp.ioStatus, irp.information)), old(fo.currentByteOffset))
    ensures fcb.extentsHeld == old(fcb.extentsHeld) && fcb.extentRefs == old(fcb.extentRefs)
    ensures fcb.extentRefsTaken ==
              old(fcb.extentRefsTaken) + (if Classify(v, f, r, c.cached) == ToNonCached && References(v, r, c.nonCached) then 1 else 0)
    ensures fcb.extentProcessId == if ReachesRouting(v, f, r) && !r.paging then c.process else old(fcb.extentProcessId)
    ensures pool.runArrays == old(pool.runArrays) && pool.gatherBlocks == old(pool.gatherBlocks) + (if gather != null then 1 else 0)
    ensures pool.runArraysTaken ==
              old(pool.runArraysTaken) + (if Classify(v, f, r, c.cached) == ToNonCached && TakesRunArray(v, r, c.nonCached) then 1 else 0)
    ensures pool.gatherBlocksTaken == old(pool.gatherBlocksTaken) + (if Gathers(v, f, r, c) then 1 else 0)
    ensures pool.gatherFreedByIssuer == old(pool.gatherFreedByIssuer) + (if Gathers(v, f, r, c) && r.syncOperation then 1 else 0)
    ensures pool.gatherFreedByCompletion == old(pool.gatherFreedByCompletion) + (if Gathers(v, f, r, c) && !r.syncOperation && gather == null then 1 else 0)
    ensures fcb.mainHeld == old(fcb.mainHeld) && fcb.pagingHeld == old(fcb.pagingHeld)
    ensures fcb.mainTaken == old(fcb.mainTaken) + (if LockTaken(v, f, r) == MainLock then 1 else 0)
    ensures fcb.pagingTaken == old(fcb.pagingTaken) + (if LockTaken(v, f, r) == PagingLock then 1 else 0)
    ensures irp.hasMdl == (old(irp.hasMdl) && !MdlCompleteHit(v, f, r))
  {
    completeIrp, gather := true, null;
    if !v.cacheFileOpen {
      status := TooLate;
    } else if r.length == 0 {
      status := Success;
    } else if r.mdlComplete {
      irp.hasMdl := false;
      status := Success;
    } else {
      status, completeIrp, gather := ReadLocked(v, f, r, c, irp, fo, fcb, pool);
    }
  }

  /** The part of `AFSCommonRead` that runs under a resource of the file
      control block: the paging resource for paging I/O, the main resource
      otherwise, taken before the checks and released at the exit.
      `completeIrp` says whether the dispatcher still has to complete the
      request. */
  method ReadLocked(v: Volume, f: Fcb, r: Request, c: Calls, irp: Irp, fo: FileObject, fcb: FcbState, pool: Pool)
    returns (status: Status, completeIrp: bool, gather: GatherIo?)
    requires ReachesLocks(v, f, r)
    requires irp.buffer.Length == r.length
    requires ExtentLoop(c.nonCached.rounds) != Unsettled
    requires Balanced(c.nonCached.during) && |c.nonCached.after| == Net(c.nonCached.during)
    modifies irp`ioStatus, irp`information, irp`completions, irp`pending, irp.buffer, fo`currentByteOffset
    modifies fcb`extentProcessId, fcb`extentsHeld, fcb`extentRefs, fcb`extentRefsTaken
    modifies pool`runArrays, pool`runArraysTaken, pool`gatherBlocks, pool`gatherBlocksTaken
    modifies pool`gatherFreedByIssuer, pool`gatherFreedByCompletion
    modifies fcb`mainHeld, fcb`mainTaken, fcb`pagingHeld, fcb`pagingTaken
    ensures completeIrp <==> Classify(v, f, r, c.cached).Finish?
    ensures status == ReadStatus(v, f, r, c, old(IoStatusBlock(irp.ioStatus, irp.information)))
    ensures completeIrp ==> irp.completions == old(irp.completions)
    ensures !completeIrp ==> irp.completions == old(irp.completions) + (if gather != null then [] else [ReadCompletion(v, f, r, c, old(IoStatusBlock(irp.ioStatus, irp.information)))])
    ensures gather != null <==> Outstanding(v, f, r, c)
    ensures gather != null ==> PendingGather(gather, irp, pool, r, c.nonCached)
    ensures IoStatusBlock(irp.ioStatus, irp.information) == ReadIo(v, f, r, c, old(IoStatusBlock(irp.ioStatus, irp.information)))
    ensures irp.pending == (old(irp.pending) || (Gathers(v, f, r, c) && !r.syncOperation))
    ensures irp.buffer[..] ==
              if Classify(v, f, r, c.cached) == ToNonCached
              then NonCachedBuffer(old(irp.buffer[..]), v, f.fileSize, r, c.nonCached)
              else old(irp.buffer[..])
    ensures fo.currentByteOffset == ReadOffset(v, f, r, c, old(IoStatusBlock(irp.ioStatus, irp.information)), old(fo.currentByteOffset))
    ensures fcb.extentsHeld == old(fcb.extentsHeld) && fcb.extentRefs == old(fcb.extentRefs)
    ensures fcb.extentRefsTaken ==
              old(fcb.extentRefsTaken) + (if Classify(v, f, r, c.cached) == ToNonCached && References(v, r, c.nonCached) then 1 else 0)
    ensures fcb.extentProcessId == if ReachesRouting(v, f, r) && !r.paging then c.process else old(fcb.extentProcessId)
    ensures pool.runArrays == old(pool.runArrays) && pool.gatherBlocks == old(pool.gatherBlocks) + (if gather != null then 1 else 0)
    ensures pool.runArraysTaken ==
              old(pool.runArraysTaken) + (if Classify(v, f, r, c.cached) == ToNonCached && TakesRunArray(v, r, c.nonCached) then 1 else 0)
    ensures pool.gatherBlocksTaken == old(pool.gatherBlocksTaken) + (if Gathers(v, f, r, c) then 1 else 0)
    ensures pool.gatherFreedByIssuer == old(pool.gatherFreedByIssuer) + (if Gathers(v, f, r, c) && r.syncOperation then 1 else 0)
    ensures pool.gatherFreedByCompletion == old(pool.gatherFreedByCompletion) + (if Gathers(v, f, r, c) && !r.syncOperation && gather == null then 1 else 0)
    ensures fcb.mainHeld == old(fcb.mainHeld) && fcb.pagingHeld == old(fcb.pagingHeld)
    ensures fcb.mainTaken == old(fcb.mainTaken) + (if r.paging then 0 else 1)
    ensures fcb.pagingTaken == old(fcb.pagingTaken) + (if r.paging then 1 else 0)
  {
    var releasePaging, releaseMain := false, false;
    if r.paging {
      fcb.pagingHeld := fcb.pagingHeld + 1;
      fcb.pagingTaken := fcb.pagingTaken + 1;
      releasePaging := true;
    } else {
      fcb.mainHeld := fcb.mainHeld + 1;
      fcb.mainTaken := fcb.mainTaken + 1;
      releaseMain := true;
    }
    status, completeIrp, gather := CheckAndRoute(v, f, r, c, irp, fo, fcb, pool);
    if releasePaging {
      fcb.pagingHeld := fcb.pagingHeld - 1;
    }
    if releaseMain {
      fcb.mainHeld := fcb.mainHeld - 1;
    }
  }

  /** The checks made under the resource: the byte-range lock (not for
      paging I/O), deleted, end of file; then the truncation at the end of
      the file, the invalid check (which also clears the byte count), the
      process id for a read that is not paging I/O, the cached path's
      preparation, and the hand-off. A non-cached read on a file with a
      data section is promoted to the cached path; the dispatcher decides
      this before taking the resource, and nothing in between depends on
      it. */
  method CheckAndRoute(v: Volume, f: Fcb, r: Request, c: Calls, irp: Irp, fo: FileObject, fcb: FcbState, pool: Pool)
    returns (status: Status, completeIrp: bool, gather: GatherIo?)
    requires ReachesLocks(v, f, r)
    requires irp.buffer.Length == r.length
    requires ExtentLoop(c.nonCached.rounds) != Unsettled
    requires Balanced(c.nonCached.during) && |c.nonCached.after| == Net(c.nonCached.during)
    modifies irp`ioStatus, irp`information, irp`completions, irp`pending, irp.buffer, fo`currentByteOffset
    modifies fcb`extentProcessId, fcb`extentsHeld, fcb`extentRefs, fcb`extentRefsTaken
    modifies pool`runArrays, pool`runArraysTaken, pool`gatherBlocks, pool`gatherBlocksTaken
    modifies pool`gatherFreedByIssuer, pool`gatherFreedByCompletion
    ensures completeIrp <==> Classify(v, f, r, c.cached).Finish?
    ensures status == ReadStatus(v, f, r, c, old(IoStatusBlock(irp.ioStatus, irp.information)))
    ensures completeIrp ==> irp.completions == old(irp.completions)
    ensures !completeIrp ==> irp.completions == old(irp.completions) + (if gather != null then [] else [ReadCompletion(v, f, r, c, old(IoStatusBlock(irp.ioStatus, irp.information)))])
    ensures gather != null <==> Outstanding(v, f, r, c)
    ensures gather != null ==> PendingGather(gather, irp, pool, r, c.nonCached)
    ensures IoStatusBlock(irp.ioStatus, irp.information) == ReadIo(v, f, r, c, old(IoStatusBlock(irp.ioStatus, irp.information)))
    ensures irp.pending == (old(irp.pending) || (Gathers(v, f, r, c) && !r.syncOperation))
    ensures irp.buffer[..] ==
              if Classify(v, f, r, c.cached) == ToNonCached
              then NonCachedBuffer(old(irp.buffer[..]), v, f.fileSize, r, c.nonCached)
              else old(irp.buffer[..])
    ensures fo.currentByteOffset == ReadOffset(v, f, r, c, old(IoStatusBlock(irp.ioStatus, irp.information)), old(fo.currentByteOffset))
    ensures fcb.extentsHeld == old(fcb.extentsHeld) && fcb.extentRefs == old(fcb.extentRefs)
    ensures fcb.extentRefsTaken ==
              old(fcb.extentRefsTaken) + (if Classify(v, f, r, c.cached) == ToNonCached && References(v, r, c.nonCached) then 1 else 0)
    ensures fcb.extentProcessId == if ReachesRouting(v, f, r) && !r.paging then c.process else old(fcb.extentProcessId)
    ensures pool.runArrays == old(pool.runArrays) && pool.gatherBlocks == old(pool.gatherBlocks) + (if gather != null then 1 else 0)
    ensures pool.runArraysTaken ==
              old(pool.runArraysTaken) + (if Classify(v, f, r, c.cached) == ToNonCached && TakesRunArray(v, r, c.nonCached) then 1 else 0)
    ensures pool.gatherBlocksTaken == old(pool.gatherBlocksTaken) + (if Gathers(v, f, r, c) then 1 else 0)
    ensures pool.gatherFreedByIssuer == old(pool.gatherFreedByIssuer) + (if Gathers(v, f, r, c) && r.syncOperation then 1 else 0)
    ensures pool.gatherFreedByCompletion == old(pool.gatherFreedByCompletion) + (if Gathers(v, f, r, c) && !r.syncOperation && gather == null then 1 else 0)
  {
    var nonCached := r.noCache;
    if f.dataSection && !r.paging {
      nonCached := false;
    }
    completeIrp, gather := true, null;
    if !r.paging && f.lockConflict {
      status := FileLockConflict;
    } else if f.deleted {
      status := FileDeleted;
    } else if r.start >= f.fileSize {
      status := EndOfFile;
    } else {
      var count: ULong := r.length;
      if r.start + count > f.fileSize {
        count := f.fileSize - r.start;
      }
      if f.invalid {
        irp.information := 0;
        status := FileDeleted;
      } else {
        if !r.paging {
          fcb.extentProcessId := c.process;
        }
        status := Success;
        var prepared := true;
        if !r.paging && !nonCached {
          status, prepared := PrepareCached(v, f, r, c.cached, irp);
        }
        if prepared {
          completeIrp := false;
          if !r.paging && !nonCached {
            status := CachedRead(r, count, c.cached, irp, fo);
          } else {
            status, gather := NonCachedRead(v, f.fileSize, r, c.nonCached, irp, fo, fcb, pool);
          }
        }
      }
    }
  }

  /** The cached path's preparation in the dispatcher: ask for the extents
      ahead of the read, set up the cache map if the file object has none
      (an exception there leaves its code as the status), and for an MDL
      read call `CcMdlRead`, which fills the request's status block unless
      it raises. Any failure finishes the read there. */
  method PrepareCached(v: Volume, f: Fcb, r: Request, cc: CachedCalls, irp: Irp) returns (status: Status, prepared: bool)
    requires ReachesRouting(v, f, r) && CachedIo(f, r)
    modifies irp`ioStatus, irp`information
    ensures prepared <==> Classify(v, f, r, cc).ToCached?
    ensures !prepared ==> Classify(v, f, r, cc) == Finish(status)
    ensures IoStatusBlock(irp.ioStatus, irp.information) == MdlIo(v, f, r, cc, old(IoStatusBlock(irp.ioStatus, irp.information)))
  {
    prepared := true;
    status := cc.requestExtents;
    if !NtSuccess(status) {
      prepared := false;
      return;
    }
    if !f.cacheMapped && !NtSuccess(cc.initCacheMap) {
      status := cc.initCacheMap;
      prepared := false;
      return;
    }
    if r.mdl {
      match cc.mdlRead {
        case Returned(_, io) =>
          irp.ioStatus, irp.information := io.status, io.information;
          status := io.status;
        case Raised(code) =>
          status := code;
      }
      if !NtSuccess(status) {
        prepared := false;
      }
    }
  }
}
