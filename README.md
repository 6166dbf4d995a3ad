# OpenAFS for Windows: the redirector's read path and the client's cell configuration

This project models, in Dafny, two parts of the OpenAFS Windows client and
proves properties of the models.

**The read path of the kernel redirector** (`AFSRead.cpp`). `AFSCommonRead`
is the dispatcher for `IRP_MJ_READ`. It refuses reads after shutdown and reads
on nodes that are neither files nor the pseudo-file for path ioctls. It passes
pseudo-file reads to `AFSIOCtlRead`. An empty read, or a `IRP_MN_COMPLETE`
read, succeeds at once. Otherwise it takes the paging resource (paging I/O)
or the main resource of the file control block. Under that resource it checks
the byte-range lock, the deleted flag, end of file and the invalid flag. It
cuts the count at end of file and prepares the cache (extents, cache map, MDL
read). Then it routes the request to `AFSCachedRead` or to
`AFSNonCachedRead`. The non-cached path:
- refuses transfers over the volume's maximum;
- zeroes the part of the buffer past end of file;
- loops until the extents are mapped;
- builds I/O runs, in an on-stack array or a heap array;
- sends sub-requests to the cache file through a gather block whose count
  starts at 1;
- then waits (synchronous) or returns `STATUS_PENDING`.

The request packet, file object, file control block, pool and gather block are
classes. Their fields are updated in place: the status block, the current
byte offset, the caller's buffer (an `array<bv8>`), ghost counters of locks
held and taken, references, pool blocks, and the list of completions of the
request. Each routine the path calls but does not define is an oracle value in
`ReadTypes.Calls`. Each method is proved equal to specification functions in
`ReadSpec`, and the promises of the source are lemmas about those functions.

**The cell configuration of the client service** (`cm_config.c`):
- `cm_ParsePair` splits a `left = right` configuration line;
- `IsWindowsModule` refuses names that look like `x.dll`;
- `cm_SearchCellFileEx` is the CellServDB state machine. It has two file
  handles, exact and looser (`cm_stricmp_utf8`) cell matches, a rewind to a
  looser match at end of file, and the return codes -2 to -6;
- the dotted-quad fallback parses `%u.%u.%u.%u` with 32-bit wrap-around and
  the `< 256` test;
- the registry lookup has its prefix-uniqueness rule and the rank clamp;
- `cm_GetConfigDir` and `cm_GetCellServDB` build the file name;
- `cm_AppendPrunedCellList` copies CellServDB without one cell's block.

Each file is a sequence of lines. The search and the prune classify every line
once, into a `Line` datatype. The loops are methods proved equal to recursive
functions, and the properties are lemmas about those functions.

The model follows the code where its behaviour is easy to misread:
- An empty read succeeds before the deleted, invalid and end-of-file checks.
  So an empty read of a deleted file succeeds (`AFSRead.cpp:729-738`).
- The non-cached path sets `IoStatus.Information` to the request's original
  length, not the length cut at end of file (`AFSRead.cpp:464`). Its byte
  offset also moves by the original length (`AFSRead.cpp:532-540`), while the
  cached path's moves by the cut count (`AFSRead.cpp:121-125`).
  `ReadSpec.OffsetsDiffer` states both.
- Suppose a looser match is followed, later in the file, by an exact match in
  the last block. That exact match does not clear the pending looser match, so
  at end of file the search rewinds, and it reports the servers of both
  blocks (`cm_config.c:164-178`). `CellSearchProps.SearchExactLastAfterLooser`
  states this.
- The `return (foundCell) ? 0 : -11` after the search loop cannot be reached
  (`cm_config.c:330`): the `while (1)` loop is left only through its
  `return` statements. This is a fact of the code's structure, and the model
  keeps it by having no path to -11. The `r.code != -11` clause of
  `CellSearchProps.SearchOutcome` only records it; it follows from the other
  clauses.
- An asynchronous non-cached read returns `STATUS_PENDING` while sub-requests
  may still be in flight (`AFSRead.cpp:512-519`). Before they complete, its
  exit drops the extent reference (`AFSRead.cpp:564-573`), and the dispatcher
  releases its resource (`AFSRead.cpp:1055-1065`). The model returns that
  gather block from the read. `ReadPath.CommonRead` states that at this
  point the request is not yet completed, the block is still allocated, and
  every extent reference and lock has been given back.
  `ReadPath.FinishGather` runs the rest of the completions on that state.

## Model

| member | source | states |
|---|---|---|
| ReadSpec.EarlyChecks | src/WINNT/afsrdr/kernel/AFSRead.cpp:652-727 | shutdown fails with STATUS_TOO_LATE and a node of another type with STATUS_INVALID_PARAMETER, both before any lock; a file read with the cache file closed fails with STATUS_TOO_LATE; the dispatcher completes the request itself exactly when it finishes the request or routes it to the pseudo-file |
| ReadSpec.ZeroLengthSucceedsUnlocked | src/WINNT/afsrdr/kernel/AFSRead.cpp:729-738 | an empty read that passes the first checks succeeds, takes no lock, is completed by the dispatcher and leaves the status block as it was |
| ReadSpec.EndOfFileIssuesNothing | src/WINNT/afsrdr/kernel/AFSRead.cpp:849-859 | a read starting at or after end of file (lock passed, not deleted) ends with STATUS_END_OF_FILE, and the lock was taken first |
| ReadSpec.TruncatedAtEndOfFile | src/WINNT/afsrdr/kernel/AFSRead.cpp:864-874 | the count given to the cached path is positive and at most the request's length; it ends exactly at end of file when the request crosses it, and it is the full length otherwise |
| ReadSpec.LockChoice | src/WINNT/afsrdr/kernel/AFSRead.cpp:789-832 | paging I/O takes the paging resource and only then; other reads take the main resource; only non-paging reads check the byte-range lock, and a conflict fails with STATUS_FILE_LOCK_CONFLICT |
| ReadSpec.Routing | src/WINNT/afsrdr/kernel/AFSRead.cpp:1025-1045 | paging I/O always goes to the non-cached path; a no-cache request on a file with a data section is not sent to the non-cached path; without one it is; the non-cached path is taken exactly when the request is not cached I/O |
| ReadSpec.TooLargeFails | src/WINNT/afsrdr/kernel/AFSRead.cpp:171-181 | a transfer over MaxIo fails with STATUS_UNSUCCESSFUL, is completed by the non-cached path, leaves the buffer untouched and takes no extent reference |
| ReadSpec.ZeroesPastEndOfFile | src/WINNT/afsrdr/kernel/AFSRead.cpp:197-217 | once the buffer is locked, every byte from end of file to the end of the buffer is zero and every byte before it is unchanged; the read count is the length cut at end of file and fits 32 bits |
| ReadSpec.Zeroed | src/WINNT/afsrdr/kernel/AFSRead.cpp:212 | the zeroed buffer has the same length, zero inside the range and the old bytes outside it |
| ReadSpec.ReferenceOnlyWhenMapped | src/WINNT/afsrdr/kernel/AFSRead.cpp:229-394 | an extent reference is taken exactly when the request fits MaxIo, the buffer locks and the extent loop ends mapped; a heap run array is taken only then, and only for more runs than fit on the stack |
| ReadSpec.NonCachedCompleter | src/WINNT/afsrdr/kernel/AFSRead.cpp:446-562 | the non-cached path completes the request itself exactly when it stops before the gather block is set up, and then with a failure status; otherwise the gather completes it with the gather status |
| ReadSpec.Settled | src/WINNT/afsrdr/kernel/AFSRead.cpp:489-519 | a synchronous issuer sees every completion before it returns (it waits); an asynchronous one at most those that come before its return |
| ReadSpec.InFlight | src/WINNT/afsrdr/kernel/AFSRead.cpp:512-519 | sub-requests are still in flight at the return exactly for an issued asynchronous read whose completions do not all come before it |
| ReadSpec.LateCompletionsFinish | src/WINNT/afsrdr/kernel/AFSRead.cpp:487-519 | folding the completions after the return into the status at the return gives the gather status of the whole read |
| ReadSpec.IssuedStatus | src/WINNT/afsrdr/kernel/AFSRead.cpp:488-519 | an asynchronous issued read returns STATUS_PENDING; a synchronous one returns the gather status when starting succeeded and the start status otherwise; a synchronous read succeeds exactly when every sub-request status and the start status succeed |
| ReadSpec.OffsetsDiffer | src/WINNT/afsrdr/kernel/AFSRead.cpp:532-540 | for a synchronous-file read crossing end of file, the cached path leaves the byte offset at end of file, while a successful non-paging non-cached read leaves it past end of file |
| Gather.CountOneCompletesOnce | src/WINNT/afsrdr/kernel/AFSRead.cpp:446-487 | with the count started at 1, no event before the last one brings it to zero, and the whole life of the gather brings it to zero exactly once |
| Gather.CountZeroCompletesEarly | src/WINNT/afsrdr/kernel/AFSRead.cpp:446 | with the count started at 0, a sub-request that completes before the next is issued completes the master request, and the next completes it a second time |
| Gather.FoldAllSuccess | src/WINNT/afsrdr/kernel/AFSRead.cpp:500-503 | the gather status succeeds exactly when every folded status succeeds, and otherwise it is one of the failures |
| Gather.GatherIo.constructor | src/WINNT/afsrdr/kernel/AFSRead.cpp:446-449 | a new gather block has count 1, status success and the issuer's synchronous flag |
| Gather.GatherIo.Issue | src/WINNT/afsrdr/kernel/AFSRead.cpp:466-471 | each sub-request started adds one to the count |
| Gather.GatherIo.CompleteIo | src/WINNT/afsrdr/kernel/AFSRead.cpp:487 | a completion takes one from the count and folds its status; the one that reaches zero completes the master request, sets the event when the issuer waits and otherwise frees the block |
| ReadState.Irp.Complete | src/WINNT/afsrdr/kernel/AFSRead.cpp:1067-1071 | completing the request appends the completing routine and the status to its completions |
| ReadPath.ZeroTail | src/WINNT/afsrdr/kernel/AFSRead.cpp:212 | the buffer after the loop is the old buffer zeroed over the range |
| ReadPath.MapExtents | src/WINNT/afsrdr/kernel/AFSRead.cpp:229-334 | the retry loop ends mapped exactly when the extent script says so, and it then holds the extents resource and one more extent reference |
| ReadPath.StartIos | src/WINNT/afsrdr/kernel/AFSRead.cpp:466-471 | while sub-requests start, the count is 1 plus the net issued and the status is the fold of their completions; the master request is not completed and the block is not freed |
| ReadPath.CompleteIos | src/WINNT/afsrdr/kernel/AFSRead.cpp:487 | each completion takes one from the count and folds its status in order; the master request is completed, with the folded status, exactly when the count reaches 0; then the issuer is signalled when it waits and the block is freed otherwise |
| ReadPath.RunGather | src/WINNT/afsrdr/kernel/AFSRead.cpp:466-498 | after the start, the issuer's completion and the first n later completions, the count is the number still in flight and the status is their fold; the master request is completed, and an asynchronous block freed, exactly when none is left |
| ReadPath.FinishGather | src/WINNT/afsrdr/kernel/AFSRead.cpp:487-519 | the completions after an asynchronous read has returned bring the count to 0, complete the master request once with the gather status of the whole read and free the block; they touch no lock and no extent reference |
| ReadPath.NonCachedRead | src/WINNT/afsrdr/kernel/AFSRead.cpp:140-576 | returns the non-cached status; adds the one completion unless sub-requests are still in flight, and then returns their gather block; sets Information and the pending mark, zeroes the buffer past end of file, moves the byte offset on success; gives back every extents hold and extent reference it takes, even while sub-requests are in flight; frees every run array, and every gather block none of whose sub-requests is still in flight |
| ReadPath.PinAndRead | src/WINNT/afsrdr/kernel/AFSRead.cpp:229-573 | from a locked buffer: the extent loop, then the rest of the path, with the same status, completions, in-flight gather and balance as the whole path |
| ReadPath.ReadExtents | src/WINNT/afsrdr/kernel/AFSRead.cpp:349-573 | from a mapped, locked and referenced range: the same status, completions, in-flight gather and Information as the whole path; drops the extents hold and the reference; frees the heap run array |
| ReadPath.IssueRuns | src/WINNT/afsrdr/kernel/AFSRead.cpp:396-573 | once the extents are listed and the runs have room: the same outcome; the heap run array is freed at the exit; the gather block is freed by the issuer only when synchronous |
| ReadPath.NonCachedExit | src/WINNT/afsrdr/kernel/AFSRead.cpp:524-573 | the exit moves the byte offset only on success of a non-paging read on a synchronous file; releases exactly what is held; completes the request with Information 0 when the path still owns it |
| ReadPath.IssueGather | src/WINNT/afsrdr/kernel/AFSRead.cpp:424-519 | the status is as in ReadSpec.IssuedStatus; Information is the request's length; asynchronous reads are marked pending; the gather completes the request with the gather status before the return unless sub-requests are still in flight, and then the block is returned, still allocated, with the count and status it has at the return |
| ReadPath.CachedRead | src/WINNT/afsrdr/kernel/AFSRead.cpp:42-136 | STATUS_INSUFFICIENT_RESOURCES without a buffer; otherwise the status CcCopyRead left in the status block, or the failure code it raised; on a synchronous file the byte offset moves by the count unless CcCopyRead returned FALSE or raised a failure; the request is completed once |
| ReadPath.IoctlRead | src/WINNT/afsrdr/kernel/AFSRead.cpp:1080-1220 | an empty read succeeds without the lock; otherwise it takes and releases the main resource, fails with STATUS_INSUFFICIENT_RESOURCES when the buffer cannot be mapped, and reports the service's byte count on success; every mapping is undone |
| ReadPath.CommonRead | src/WINNT/afsrdr/kernel/AFSRead.cpp:608-1077 | the status, the completion, the status block, the buffer, the byte offset and the extent process id are those of the specification functions; the request is completed once before the return unless sub-requests of its gather are still in flight, and then their gather block is returned; every lock, file-object reference, extent reference and run array taken is released, and every gather block except one still in flight; the MDL is dropped only for an MDL completion |
| ReadPath.Dispatch | src/WINNT/afsrdr/kernel/AFSRead.cpp:646-1045 | the dispatcher's checks in order; it leaves the completion to the caller exactly when it finishes the request or routes it to the pseudo-file, and otherwise the routed path completes it once unless sub-requests are still in flight |
| ReadPath.ReadFile | src/WINNT/afsrdr/kernel/AFSRead.cpp:718-1045 | for a file: the cache-file, empty-read and MDL-completion checks, then the locked part; the caller completes exactly the finished requests |
| ReadPath.ReadLocked | src/WINNT/afsrdr/kernel/AFSRead.cpp:789-1065 | takes the paging resource for paging I/O and the main one otherwise, and releases it on every path |
| ReadPath.CheckAndRoute | src/WINNT/afsrdr/kernel/AFSRead.cpp:821-1045 | the checks under the resource and the routing, with the outcome of the specification functions |
| ReadPath.PrepareCached | src/WINNT/afsrdr/kernel/AFSRead.cpp:907-1016 | the cached path is prepared exactly when the classification routes to it; otherwise the request finishes with the failing call's status; the status block is what CcMdlRead left |
| CellConfig.ParsePair | src/WINNT/afsd/cm_config.c:29-80 | returns 0 and the left and right parts the scan over the line defines |
| CellConfig.PairChar | src/WINNT/afsd/cm_config.c:41-72 | one pass of the loop: it stops exactly at a `#`, CR or LF outside brackets and then changes nothing; otherwise the flags and the character added to the left or right part are those of one scan step |
| CellConfig.PairAdvance | src/WINNT/afsd/cm_config.c:38-73 | the scan of the rest of the line, after one such step, continues the parts written so far |
| CellConfig.PairRightOnlyAfterEquals | src/WINNT/afsd/cm_config.c:61-72 | after an `=` nothing more goes to the left part |
| CellConfig.PairIsSubsequence | src/WINNT/afsd/cm_config.c:38-73 | the left part followed by the right part is a subsequence of the line |
| CellConfig.PairDropsSeparators | src/WINNT/afsd/cm_config.c:41-64 | neither part holds a space, tab, `=`, `[`, `#`, CR, LF or NUL |
| CellConfig.PairWithoutEquals | src/WINNT/afsd/cm_config.c:61-72 | a line without `=` has an empty right part |
| CellConfig.PairStopsAtComment | src/WINNT/afsd/cm_config.c:48-49 | the scan ends at `#`: what follows changes nothing |
| CellConfig.PairSkipsBracketBody | src/WINNT/afsd/cm_config.c:41-45 | inside brackets everything up to `]` is skipped |
| CellConfig.PairDropsBracketText | src/WINNT/afsd/cm_config.c:41-55 | a bracketed comment reads as if it were not there |
| CellConfig.PairSqueezes | src/WINNT/afsd/cm_config.c:58-72 | without stops or brackets, a part is the text with its spaces and tabs removed |
| CellConfig.PairSplitsAtEquals | src/WINNT/afsd/cm_config.c:61-72 | `a=b` splits into a and b, each without spaces or tabs |
| CellConfig.IsWindowsModule | src/WINNT/afsd/cm_config.c:82-104 | true exactly when the name has one dot and the text from it is `.dll`, `.exe`, `.ini`, `.db` or `.drv` with the letters A-Z in either case |
| CellConfig.TwoDotsNotModule | src/WINNT/afsd/cm_config.c:90-101 | a name with two dots is never a module |
| Address.ScanUnsigned | src/WINNT/afsd/cm_config.c:308 | a `%u` conversion skips white space, consumes at least one digit and yields a value below 2^32 |
| Address.ScanDigitRun | src/WINNT/afsd/cm_config.c:308 | a `%u` conversion yields the digits' value modulo 2^32 and stops at the first non-digit |
| Address.ScanDec | src/WINNT/afsd/cm_config.c:308 | a number below 2^32 written in decimal reads back as itself |
| Address.ParseFormat | src/WINNT/afsd/cm_config.c:308-323 | an address written in dotted-quad form parses back to the same four octets |
| Address.QuadText | src/WINNT/afsd/cm_config.c:308-310 | any four decimal texts of octets, leading zeros included, parse to those octets |
| Address.TripleText | src/WINNT/afsd/cm_config.c:308-310 | three components are refused: the conversion count is not 4 |
| Address.ThreeComponentsRejected | src/WINNT/afsd/cm_config.c:308-310 | `a.b.c` gives no address |
| Address.LargeComponentRejected | src/WINNT/afsd/cm_config.c:310 | a first component from 256 to 2^32-1 gives no address |
| Address.Rank | src/WINNT/afsd/cm_config.c:538-545 | a REG_DWORD rank is kept when it fits and is 65535 when it is larger; an absent value or one of another type gives 0 |
| Address.RankMonotone | src/WINNT/afsd/cm_config.c:541-542 | the clamp keeps the order of the ranks |
| RegistryLookup.FirstOpen | src/WINNT/afsd/cm_config.c:429-446 | the first key that is a prefix match and opens; no earlier key does both |
| RegistryLookup.ScanWhileOpen | src/WINNT/afsd/cm_config.c:433-439 | once a key is open, the scan fails exactly when another prefix match follows |
| RegistryLookup.PrefixScanMeaning | src/WINNT/afsd/cm_config.c:416-458 | the partial-match scan finds the first prefix match that opens and succeeds exactly when no prefix match follows it; it fails when none opens |
| RegistryLookup.FindPrefixCell | src/WINNT/afsd/cm_config.c:420-453 | the loop computes the partial-match scan |
| RegistryLookup.LookupCell | src/WINNT/afsd/cm_config.c:391-463 | an exact key wins, with the requested name cut and lowered; any name returned fits the buffer and is in lower case |
| CellSearch.TrimLine | src/WINNT/afsd/cm_config.c:187-191 | the line after the last CR and the last LF are cut holds no NUL |
| CellSearch.ParseHeader | src/WINNT/afsd/cm_config.c:208-222 | the cell name is the line's first word; the linked cell is a word not starting with `#`; both stop at the end of the line |
| CellSearch.LookupServer | src/WINNT/afsd/cm_config.c:268-325 | a server found is reported with the text after `#`, without leading or trailing blanks |
| CellConfig.BufferName | src/WINNT/afsd/cm_config.c:227-236 | a name copied into a cell-name buffer, a header's or a registry key's (cm_config.c:421-427), is at most CELL_MAXNAMELEN-1 characters and in lower case |
| CellSearch.Classify | src/WINNT/afsd/cm_config.c:193-273 | a server line holds a `#` |
| CellSearch.StepOf | src/WINNT/afsd/cm_config.c:159-327 | one pass of the loop keeps both handles inside the file, makes progress, and keeps "partial implies not tracking" |
| CellSearch.Advance | src/WINNT/afsd/cm_config.c:161-163 | reading a line moves the search handle by one, and the best handle too while tracking |
| CellSearch.HeaderStep | src/WINNT/afsd/cm_config.c:201-266 | a header line does not move the handles and keeps "partial implies not tracking" |
| CellSearch.ServerStep | src/WINNT/afsd/cm_config.c:267-326 | a server line never ends the search and changes neither the handles nor the flags |
| CellSearch.SearchCellFile | src/WINNT/afsd/cm_config.c:142-150 | -3 for a Windows module name, -2 when there is no path or the file does not open, and otherwise the search over the file's lines |
| CellSearch.SearchCellFileEx | src/WINNT/afsd/cm_config.c:126-331 | the method computes the search |
| CellSearch.SearchFile | src/WINNT/afsd/cm_config.c:159-330 | the loop over the two handles computes the search over the lines |
| CellSearch.SearchPass | src/WINNT/afsd/cm_config.c:159-327 | one loop pass computes one step |
| CellSearch.HeaderLine | src/WINNT/afsd/cm_config.c:201-266 | the header branch computes the header step |
| CellSearch.ServerLine | src/WINNT/afsd/cm_config.c:267-326 | the server branch computes the server step |
| CellSearchProps.HeaderStepSound | src/WINNT/afsd/cm_config.c:201-266 | a header line keeps the names and servers well formed, and any code it returns is one of 0, -5, -6 |
| CellSearchProps.ServerStepSound | src/WINNT/afsd/cm_config.c:267-326 | a server line keeps the names and servers well formed |
| CellSearchProps.StepSound | src/WINNT/afsd/cm_config.c:159-327 | every step keeps the state well formed, and any result it gives is well formed |
| CellSearchProps.RunOk | src/WINNT/afsd/cm_config.c:159-330 | the search ends with a well-formed result carrying one of its codes |
| CellSearchProps.SearchOutcome | src/WINNT/afsd/cm_config.c:126-331 | the result is -2 or well formed: one of 0, -3, -4, -5 and -6, with servers for 0 and none for -3, -5 and -6, and the names written together, lowered and cut to the buffer; the -11 of the unreachable last line has no counterpart |
| CellSearchProps.SearchNoMatch | src/WINNT/afsd/cm_config.c:164-183 | a file without a matching header ends with -3 and reports nothing |
| CellSearchProps.SearchMalformed | src/WINNT/afsd/cm_config.c:268-273 | a line without `#` before any match ends with -4 |
| CellSearchProps.SearchExactBlock | src/WINNT/afsd/cm_config.c:201-243 | an exact match followed by a header returns its block's servers, 0 when there are some and -6 otherwise, with the names from the matching header |
| CellSearchProps.SearchAmbiguous | src/WINNT/afsd/cm_config.c:244-250 | two looser matches end with -5 and report no servers |
| CellSearchProps.SearchRewind | src/WINNT/afsd/cm_config.c:164-178 | a single looser match is returned at end of file by rewinding to its block |
| CellSearchProps.SearchExactLastAfterLooser | src/WINNT/afsd/cm_config.c:164-178 | an exact match in the last block after a looser match reports the exact block's servers and then, after the rewind, the looser block's |
| CellSearchProps.EndAt | src/WINNT/afsd/cm_config.c:201-206 | a header inside the right cell ends the search with 0 when servers were found and -6 otherwise |
| CellSearchProps.ReadBlock | src/WINNT/afsd/cm_config.c:283-325 | reading a block in the right cell adds its servers in order |
| CellServDBPath.GetConfigDir | src/WINNT/afsd/cm_config.c:922-933 | the directory is the registry's, cut to the buffer, or empty when there is none |
| CellServDBPath.Cat | src/WINNT/afsd/cm_config.c:710-715 | an append bounded by the room left stays in the buffer and gives the joined text cut to the buffer |
| CellServDBPath.GetCellServDB | src/WINNT/afsd/cm_config.c:700-718 | the corrected builder writes inside the buffer and gives the intended file name cut to the buffer |
| CellServDBPath.Join | src/WINNT/afsd/cm_config.c:706-716 | the separator and file-name appends give the intended name cut to the buffer, inside the buffer |
| CellServDBPath.CellServDBPathShape | src/WINNT/afsd/cm_config.c:700-718 | the name fits the buffer; it is empty when the directory is; it is exactly the intended name when that fits |
| CellServDBPath.SameTextAsWritten | src/WINNT/afsd/cm_config.c:700-718 | the builder as written leaves the same text as the corrected one |
| CellServDBPath.AsWrittenInBoundsOnlyWhenItFits | src/WINNT/afsd/cm_config.c:706-716 | the builder as written stays inside the buffer exactly when the intended name fits |
| CellServDBPath.AsWrittenOverrunsBuffer | src/WINNT/afsd/cm_config.c:710-715 | a 259-character directory in a 260-character buffer makes the builder as written write at index 269 |
| CellPrune.StripLine | src/WINNT/afsd/cm_config.c:834-838 | the line after the first CR and the first LF are cut holds no NUL, CR or LF |
| CellPrune.CutHeader | src/WINNT/afsd/cm_config.c:846-853 | a header cut at its first space, tab and `#` keeps its `>`, holds none of them and is a prefix of the line |
| CellPrune.HeaderName | src/WINNT/afsd/cm_config.c:846-856 | the cell name compared is free of spaces, tabs and `#`, made of the line's characters, and the whole name when the line has none |
| CellPrune.AppendPrunedCellList | src/WINNT/afsd/cm_config.c:807-874 | the copy loop writes the lines and returns the code of the pruned copy |
| CellPrune.PruneCode | src/WINNT/afsd/cm_config.c:865-867 | the copy returns -2 exactly when some line is neither blank, nor a header, nor holds `#`, and returns 0 otherwise |
| CellPrune.PruneFailsOnMalformed | src/WINNT/afsd/cm_config.c:865-867 | the same, stated on the file's raw lines |
| CellPrune.PruneWritesClean | src/WINNT/afsd/cm_config.c:840-872 | every line written is blank, a header of another cell, or a server line |
| CellPrune.CleanLinesKept | src/WINNT/afsd/cm_config.c:840-872 | a file of such lines is copied unchanged |
| CellPrune.PruneIdempotent | src/WINNT/afsd/cm_config.c:807-874 | pruning an already pruned copy gives it back |
| CellPrune.PruneRemovesHeader | src/WINNT/afsd/cm_config.c:856-863 | the cell's own header is never written |
| CellPrune.PruneOtherCells | src/WINNT/afsd/cm_config.c:840-872 | a file without the cell is copied line for line, headers cut |
| CellPrune.PruneOtherPrefix | src/WINNT/afsd/cm_config.c:840-872 | lines of other cells ahead of the removed cell are copied line for line, headers cut, and the copy goes on outside the removed cell |
| CellPrune.PruneMiddleCell | src/WINNT/afsd/cm_config.c:840-872 | a cell that follows other cells: every line before it is copied, its header and server lines are dropped, its blank lines are written empty, and the rest is pruned as still inside that cell |
| CellPrune.PruneNeverGrows | src/WINNT/afsd/cm_config.c:824-873 | the copy writes at most one line per line read |
| CellPrune.PruneDropsBlock | src/WINNT/afsd/cm_config.c:865-871 | inside the cell, server lines are dropped and blank lines are kept |
| CellPrune.PruneLeadingCell | src/WINNT/afsd/cm_config.c:856-871 | a file starting with the cell loses its header and server lines, keeping its blank lines; the rest is pruned as still inside that cell, so it loses its server lines up to the next header |
| HeaderScan.StaleLinkedName | src/WINNT/afsd/cm_config.c:212-222 | as written: after a one-word header line over a longer earlier line, the scan takes a word of the stale text as the linked cell, where the line has none |
| HeaderScan.StaleLinkedNameExample | src/WINNT/afsd/cm_config.c:212-222 | as written: `>abc` without a line end, read over the server line `1.2.23.4 other #h`, yields the linked cell `other` |
| HeaderScan.StaleLinkedNameAfterLineEnd | src/WINNT/afsd/cm_config.c:187-222 | as written: `>abc` with its line end cut to a second NUL, read over the same server line, also yields the linked cell `other` |
| HeaderScan.ScanAt | src/WINNT/afsd/cm_config.c:212-222 | as written: the scan's cell name and linked cell are the NUL-terminated words where its loops stop |
| HeaderScan.ScanLeavesBuffer | src/WINNT/afsd/cm_config.c:212 | as written: a buffer without white space after `>` drives the scan past its end |
| HeaderScan.NameAgrees | src/WINNT/afsd/cm_config.c:212-225 | the cell name compared is the same in the scan as written and in the corrected parse |
| HeaderScan.HeaderNameOnly | src/WINNT/afsd/cm_config.c:196-222 | corrected: a header of one word has no linked cell |
| HeaderScan.HeaderWithComment | src/WINNT/afsd/cm_config.c:196-222 | corrected: a header whose next word starts with `#` has no linked cell |
| HeaderScan.HeaderWithLink | src/WINNT/afsd/cm_config.c:196-222 | corrected: `>name link` gives that name and that linked cell |

## Left out

- NT machinery is not modelled: IRP stack locations, `ObReferenceObject` (only its balance is kept), event waits, exceptions other than the cache-manager codes, Ob/Cc/Mm internals, tracing and read-ahead granularity.
- Concurrency is not modelled. Sub-request completions are a fixed interleaving given as input. Those that come before an asynchronous issuer returns are all placed just after its own `AFSCompleteIo`, before its exit code runs. Those that come after it returns are run by `ReadPath.FinishGather` on the state the read returned. Completions that interleave with the exit code itself are not told apart from the earlier ones: they touch only the gather block, the master request's completions and the pool's gather-block counters, none of which the exit code changes.
- The body of `AFSCompleteIo` is not part of this model. The gather block is taken to fold statuses as "latest failure wins", to complete the master request at count zero, and to signal (synchronous) or free the block (asynchronous).
- The extent, run and I/O routines are oracles: `AFSRequestExtents`, `AFSDoExtentsMapRegion`, `AFSWaitForExtentMapping`, `AFSGetExtents`, `AFSSetupIoRun`, `AFSStartIos`, `AFSLockSystemBuffer`, `AFSMapToService`, `AFSProcessRequest` and the cache-manager calls. The data that `AFSStartIos` reads into the buffer is not modelled. Only the zeroing past end of file is.
- ReadPath.MapExtents and every caller require that the extent script ends. The retry loop's termination rests on the extent service and is assumed.
- `AFS_MAX_STACK_IO_RUNS` is a parameter (`Volume.maxStackRuns`): its value is in a header that is not part of this model.
- The 64-bit offset arithmetic (`StartingByte + ByteCount`) is taken as unbounded. File sizes near 2^63 are not modelled.
- `OnBehalfOf` / `hCallingUser` are not modelled: they are computed and never used on this path.
- `PrivateCacheMap` and `MdlAddress` after `CcInitializeCacheMap` and `CcMdlRead` are not modelled; only the returned status and status block are.
- `Request.syncFile` and `Request.syncOperation` are independent inputs. `IoIsOperationSynchronous` is true for every non-paging request on a file object with FO_SYNCHRONOUS_IO, so the model also admits combinations the kernel never produces. One example is an asynchronous non-paging read on a synchronous file, whose CurrentByteOffset update (`AFSRead.cpp:532-540`) the model then runs while the read is pending. These combinations only widen the inputs the contracts cover.
- `AFSRead` (the entry point that calls `AFSCommonRead` with no `OnBehalfOf`) is not modelled separately.
- Registry enumeration and queries, `gethostbyname`, `fopen`/`fgets`/`fprintf`, `cm_SearchCellByDNS`, `cm_EnumerateCellRegistry`, `cm_WriteConfig*`, `cm_CloseCellFile` and `cm_GetRootCellName` are not modelled. Files are sequences of lines. Name resolution is a function parameter. Registry keys are a sequence read once.
- Lines longer than the `fgets` buffer (256 or 257 bytes), which `fgets` splits, are not modelled. Each line is taken whole, except in HeaderScan, which models the 257-byte buffer itself.
- `cm_stricmp_utf8` (the looser comparison) is a parameter. `stricmp` is the case-insensitive exact comparison.
- CellConfig.IsWindowsModule: the suffix comparison folds only the letters A-Z. `cm_stricmp_utf8N` compares UTF-8 text case-insensitively, so a suffix written with non-ASCII letters that fold to `dll` and the like is not modelled.
- CellSearch.SearchCellFile: the linked name comes from the corrected `CellSearch.ParseHeader`, not from the scan as written (`HeaderScan.ScanHeaderAsWritten`). On the stale-buffer input of the Findings table, the source reports stale text as the linked cell where the model reports none.
- `cm_SearchCellFileEx` opens CellServDB a second time for the rewind handle (`cm_config.c:152`) without checking the result. The model takes that second open to succeed whenever the first one did; a NULL handle reaching `fgets` while tracking is not modelled.
- In `cm_AppendPrunedCellList`, the -2 return leaves the input file open. Handles are not modelled.
- CELL_MAXNAMELEN is taken as 256 and AFS_CELLSERVDB as "CellServDB". Both come from headers that are not part of this model.
- The rest of `cm_SearchCellRegistry` is not modelled: the ForceDNS value, the host name and address value queries, and the final code. Only the prefix-uniqueness rule, the name copy, the rank clamp and the address fallback are modelled.

## Findings

| source | as written | input that shows it | evidently intended | confidence | as-written member | corrected member |
|---|---|---|---|---|---|---|
| src/WINNT/afsd/cm_config.c:700-718 | `strncat(cellNamep, ..., len)` bounds the characters appended by the whole buffer size, not by the room left | a configured directory of 259 characters with `len` 260: the `\` goes to index 259 and its NUL to index 260; `CellServDB` is then written up to index 269 | append at most `len - 1 - strlen(cellNamep)` characters | not executed; high (the bound follows from the strncat contract) | CellServDBPath.GetCellServDBAsWritten, CellServDBPath.AsWrittenOverrunsBuffer | CellServDBPath.GetCellServDB, CellServDBPath.CellServDBPathShape |
| src/WINNT/afsd/cm_config.c:212-222 | the header scan tests `tp && !isspace(*tp)`: `tp` is never NULL, and the scan does not stop at the NUL that ends the line | a one-word header line shorter than an earlier line, with or without a line end. `>abc` read after the server line `1.2.23.4 other #h` leaves `>abc`, a NUL, then `3.4 other #h` without a line end; with one, the cut line end leaves `>abc`, two NULs, then `.4 other #h`. The scan runs over the NULs and reports the linked cell `other` | stop both word scans at the end of the line | not executed; medium (needs a one-word header line after a longer line) | HeaderScan.StaleLinkedName, HeaderScan.StaleLinkedNameExample, HeaderScan.StaleLinkedNameAfterLineEnd | CellSearch.ParseHeader, HeaderScan.HeaderWithLink |
