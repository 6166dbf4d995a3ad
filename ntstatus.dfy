/** The NT status values the read path returns. A status is a 32-bit
    value; it denotes success exactly when, read as a signed number, it is
    not negative. */
module NtStatus {
  newtype Status = x: int | 0 <= x < 0x1_0000_0000

  const Success: Status := 0x0000_0000
  const Pending: Status := 0x0000_0103
  const Unsuccessful: Status := 0xC000_0001
  const InvalidParameter: Status := 0xC000_000D
  const EndOfFile: Status := 0xC000_0011
  const FileLockConflict: Status := 0xC000_0054
  const InsufficientResources: Status := 0xC000_009A
  const FileDeleted: Status := 0xC000_0123
  const TooLate: Status := 0xC000_0189

  /** `NT_SUCCESS`: the sign bit is clear. */
  predicate NtSuccess(s: Status) {
    s < 0x8000_0000
  }

  /** The two success values the read path produces and each failure it
      names fall on the intended side of `NT_SUCCESS`. */
  lemma StatusClasses()
    ensures NtSuccess(Success) && NtSuccess(Pending)
    ensures !NtSuccess(Unsuccessful) && !NtSuccess(InvalidParameter) && !NtSuccess(EndOfFile)
    ensures !NtSuccess(FileLockConflict) && !NtSuccess(InsufficientResources)
    ensures !NtSuccess(FileDeleted) && !NtSuccess(TooLate)
  {
  }
}
