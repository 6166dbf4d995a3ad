/** The objects a read changes: the request packet, the file object, the
    file control block and the kernel pool. Locks, references and pool
    ownership are ghost counters; a release or a free of something not held
    cannot be written, because the counters are natural numbers. */
module ReadState {
  import opened NtStatus
  import opened ReadTypes

  /** The request packet (`IRP`). */
  class Irp {
    var ioStatus: Status                // IoStatus.Status
    var information: int                // IoStatus.Information
    ghost var completions: seq<Completion>
    var pending: bool                   // IoMarkIrpPending was called
    var hasMdl: bool                    // MdlAddress is set
    ghost var serviceMaps: nat          // AFSMapToService mappings not yet undone
    ghost var serviceMapsTaken: nat     // AFSMapToService calls that succeeded
    /** The caller's buffer, as the locked system buffer maps it. */
    const buffer: array<bv8>

    constructor (buffer: array<bv8>, hasMdl: bool)
      ensures this.buffer == buffer && this.hasMdl == hasMdl
      ensures completions == [] && !pending && ioStatus == Success && information == 0
      ensures serviceMaps == 0 && serviceMapsTaken == 0
    {
      this.buffer := buffer;
      this.hasMdl := hasMdl;
      completions := [];
      pending := false;
      ioStatus := Success;
      information := 0;
      serviceMaps := 0;
      serviceMapsTaken := 0;
    }

    /** `AFSCompleteRequest`, or the gather's completion of its master
        request: the request is handed back with a status. */
    ghost method Complete(party: Party, status: Status)
      modifies this`completions
      ensures completions == old(completions) + [Completion(party, status)]
    {
      completions := completions + [Completion(party, status)];
    }
  }

  /** The file object the request is on. */
  class FileObject {
    var currentByteOffset: int
    ghost var refs: nat                 // ObReferenceObject not yet undone

    constructor (offset: int)
      ensures currentByteOffset == offset && refs == 0
    {
      currentByteOffset := offset;
      refs := 0;
    }
  }

  /** The file control block's resources and extent references. */
  class FcbState {
    var extentProcessId: int
    ghost var mainHeld: nat             // shared holds of Resource
    ghost var pagingHeld: nat           // shared holds of PagingResource
    ghost var extentsHeld: nat          // shared holds of ExtentsResource
    ghost var mainTaken: nat            // acquisitions of Resource
    ghost var pagingTaken: nat          // acquisitions of PagingResource
    ghost var extentRefs: nat           // AFSReferenceExtents not yet undone
    ghost var extentRefsTaken: nat      // AFSReferenceExtents calls

    constructor (pid: int)
      ensures extentProcessId == pid
      ensures mainHeld == 0 && pagingHeld == 0 && extentsHeld == 0
      ensures mainTaken == 0 && pagingTaken == 0 && extentRefs == 0 && extentRefsTaken == 0
    {
      extentProcessId := pid;
      mainHeld, pagingHeld, extentsHeld := 0, 0, 0;
      mainTaken, pagingTaken := 0, 0;
      extentRefs, extentRefsTaken := 0, 0;
    }
  }

  /** Pool blocks the non-cached path allocates: heap run arrays and gather
      blocks, with who freed each gather block. */
  class Pool {
    ghost var runArrays: nat            // heap run arrays not yet freed
    ghost var runArraysTaken: nat
    ghost var gatherBlocks: nat         // gather blocks not yet freed
    ghost var gatherBlocksTaken: nat
    ghost var gatherFreedByIssuer: nat
    ghost var gatherFreedByCompletion: nat

    constructor ()
      ensures runArrays == 0 && runArraysTaken == 0 && gatherBlocks == 0 && gatherBlocksTaken == 0
      ensures gatherFreedByIssuer == 0 && gatherFreedByCompletion == 0
    {
      runArrays, runArraysTaken := 0, 0;
      gatherBlocks, gatherBlocksTaken := 0, 0;
      gatherFreedByIssuer, gatherFreedByCompletion := 0, 0;
    }
  }
}
