# RRTO: a verified model of the device-code, checkpoint and launch paths

RRTO forwards CUDA calls from a client to a GPU server. Most of it is one remote call for one library
call. This project models the parts that compute something themselves, in Dafny, and proves what
they do for all inputs and all runs.

* **Device code.** `decompress` decodes blocks in the format of section "Compressed block format" of
  the LZ4 Block Format Description. The rewriter turns a fatbin with compressed sections into one
  with plain sections; the walker hands each section's device code on. Modules `Lz4Block` (the format
  and, independently, the decoder), `Lz4Laws`, `Lz4Acceptance`, `Decompressor`, `FatbinLayout`,
  `FatbinRewriter`, `FatbinMeaning`, `FatbinWalk`, `FatbinWalkLaws`, `FatbinExamples`; `Lz4Numbers` and
  `FatbinNumbers` tell the formats in bare numbers.
* **Checkpoint and restore.** The server logs the API calls; the log is dumped, read back, and
  replayed on a new server, whose resource managers translate the handles that clients still use.
  Modules `ApiLog`, `Replay` (records, device, handlers, the restore loop), `HandlerEffects` (what each
  procedure does, by its number), `ReplayLaws` (the simulation), `RestoredService` (what a restored
  server makes of further requests), `RepeatedCheckpoints` (any number of checkpoints).
* **Kernel parameters and launches.** The parameter table of a kernel is read from the bytes of its
  `.nv.info` section, or from the text `cuobjdump` prints; the client packs arguments by it, the
  server finds them again and translates pointers in place. Modules `KernelParams`,
  `KernelParamsLaws`, `Scanning` (the part of `sscanf` that is used), `KernelText`, `KernelTextLaws`,
  `KernelTextLines` (the very lines that are read), `LaunchArguments`, `LaunchLaws`, `LaunchNumbers`,
  `SpacedLaunches`, `RestoredMemory` (pointers into restored allocations), `KernelLaunch` (from
  the section to the launched kernel).
* **Transfer rounds.** Client and server count rounds of uploads and downloads separately; the server
  sends later uploads to the addresses of the first round. Module `TransferPhases`.
* **Containers.** `GrowableList` (`list.c`) and `ResourceManager` (`resource-mg.c`), which the others
  build on.

Code that changes things in place is modelled as classes and methods over arrays, each proved equal
to a specification function; the laws are lemmas about those functions. Throughout, `Undefined`
stands for behaviour C does not define (a read or write outside the memory a pointer refers to, or a
loop that does not end), `Failed` for an error the code reports, and a parameter `uninitialised` (or
`added`) for what freshly allocated memory happens to hold; the laws hold for all of it.

Formats, tables and texts that a writer and a reader share are also told once in literal numbers and
strings, in laws that do not name the shared definitions.

Where the code does not do what its comments or its purpose suggest, the model follows the code, and
a lemma says exactly when the two agree:

* the comment at `cpu-elf2.c:311-312` promises room for the padding of a section; for a region's first
  section there is none (`FatbinMeaning.FatbinRewritten`, `FatbinExamples.FitsOrNot`);
* `cpu-elf2.c:252` and `:305` compare up to eight bytes of padding with six zeros
  (`FatbinMeaning.FatbinRewritten`);
* `cpu-elf2.c:373` clears the start of the decompressed data where it means to pad its end
  (`FatbinWalkLaws.HandedOnData`, `HandedOnImage`, `FatbinExamples.DamagedImage`);
* `cpu-server-runtime.c:863` reads and rewrites eight bytes for every parameter, whatever its size and
  whether it is a pointer or a number (`LaunchLaws.LaunchedInBypass`, `MixedArgumentsExactly`,
  `AscendingArgumentsExactly`, `SpacedLaunches.SpacedArgumentsExactly`);
* `resource_mg_get` knows where an allocation starts, not how far it reaches, so a pointer into its middle
  is not translated (`RestoredMemory.PointerFollows`, `MiddlePointerStale`);
* a handle created after a restore may have the value of an older, translated one
  (`RestoredService.HistoryServed`, `ReusedHandle`, `HeldHandle`), until the next restore
  (`RepeatedCheckpoints.CheckpointsKeepHandles`, `ServiceAfterCheckpoints`);
* replayed handlers record themselves again, so each restore doubles the calls in the log
  (`RepeatedCheckpoints.RestoredLogDoublesCalls`, `MadeExactly`);
* `cpu_utils_read_pars` does not reset `param_size` (`KernelTextLaws.ReadersAgree`).

## Model

| member | source | states |
|---|---|---|
| `Lz4Laws.BlockDecodes` | RRTO/cpu/cpu-elf2.c:182-242 | decoding the encoding of any valid block (every offset at least 1 and at most the bytes produced so far), anywhere in a buffer, writes exactly the data the block stands for, returns its size, changes no other memory, and consumes the whole input |
| `Lz4Laws.BlockRead` | RRTO/cpu/cpu-elf2.c:182-242 | the same for a call told any sizes that stops after a valid block, also in its middle or before further input |
| `Lz4Laws.SequencesDecode` | RRTO/cpu/cpu-elf2.c:189-239 | the induction behind both: after any prefix of the sequences the memory holds the expansion of that prefix, and the rest of the loop adds the rest |
| `Lz4Acceptance.CallReturnsExactly` | RRTO/cpu/cpu-elf2.c:182-242 | for all inputs, sizes, and places in a buffer, a call consumes a given number of bytes and returns a given count if and only if its input starts with the encoding of a block of these two sizes after which the loop stops, and there is room for the data |
| `Lz4Acceptance.ExactSizeReturned` | RRTO/cpu/cpu-elf2.c:293-296 | the call both callers make, told the size of the data, returns that size if and only if its input starts with the encoding of a block of that size and, where the block ends in a match, the input ends in or right after that match, while after last literals, which begin before the input ends, more input may follow |
| `Lz4Acceptance.AcceptsExactlyBlocks` | RRTO/cpu/cpu-elf2.c:189-242 | with room for whatever the input can expand to, a run stays in range and stops exactly at the end of its input if and only if the input is the encoding of some block, for all bytes |
| `Lz4Acceptance.RunReadsABlock` | RRTO/cpu/cpu-elf2.c:189-239 | whatever a run that comes to an end has consumed is the encoding of a list of sequences, which the proof constructs from the run |
| `Lz4Acceptance.EncodingIsAccepted` | RRTO/cpu/cpu-elf2.c:189-239 | the converse: from every state of the loop, an encoding that lies ahead is read, and the run stops right after it |
| `Lz4Acceptance.ExpansionBound` | RRTO/cpu/cpu-elf2.c:189-239 | where a run from the start stops, it has written at most 255 bytes for each byte of input it moved past |
| `Lz4Block.Step` | RRTO/cpu/cpu-elf2.c:190-238 | one iteration moves forward in the input, adds at most 255 bytes of output for each byte of input, and keeps the size of the memory |
| `Lz4Block.ReadChain` | RRTO/cpu/cpu-elf2.c:192-196 | a length extension always consumes at least one byte and carries at most 255 for each |
| `Lz4Laws.CopyBackIsPeriodic` | RRTO/cpu/cpu-elf2.c:221-234 | byte i of a match is byte i modulo the offset of the bytes right before the match |
| `Lz4Laws.CopyBackIsSplice` | RRTO/cpu/cpu-elf2.c:221-222 | a match no longer than its offset is one block copy of bytes that lie entirely before it |
| `Lz4Laws.CopyBackIsRepeat` | RRTO/cpu/cpu-elf2.c:221-234 | the copy in memory extends the history as the format says: each byte repeats the one an offset before it |
| `Lz4Laws.CopyBackFrame` | RRTO/cpu/cpu-elf2.c:221-234 | a match copy changes no byte outside the match |
| `Decompressor.CopyWithin` | RRTO/cpu/cpu-elf2.c:222-230 | `memcpy` inside the output; its precondition, met at both calls, is that the two ranges do not overlap |
| `Decompressor.CopyMatch` | RRTO/cpu/cpu-elf2.c:221-234 | the copy in two ways equals copying one byte at a time |
| `Decompressor.CopyRest` | RRTO/cpu/cpu-elf2.c:231-233 | the byte loop completes a match of which the first `back_offset` bytes are in place |
| `Decompressor.AddChain` | RRTO/cpu/cpu-elf2.c:192-196 | the loop adds up the bytes as far as the first that is not 0xff, and says where it stopped |
| `Decompressor.DecodeLiterals` | RRTO/cpu/cpu-elf2.c:190-207 | token and literals: in-place writes, new positions, and every read or write out of range |
| `Decompressor.DecodeMatch` | RRTO/cpu/cpu-elf2.c:211-238 | offset, match length and match, likewise |
| `Decompressor.Decompress` | RRTO/cpu/cpu-elf2.c:182-242 | the whole loop over the array: count and final memory are those of the run that the laws above are about; invariant `opos <= 255 * ipos` |
| `Lz4Numbers.StepInNumbers` | RRTO/cpu/cpu-elf2.c:190-238 | one iteration told by the bytes alone: a token whose low nibble is n < 15 stands for a match of n + 4 bytes, 15 for 19 and the chain; the literals, how far back each byte of the match comes from, every other byte unchanged, and where it stops or runs out of range |
| `Lz4Numbers.ShortestMatch` | RRTO/cpu/cpu-elf2.c:191 | for every byte b, the input 10 b 01 00 (hexadecimal) gives five times b |
| `Lz4Numbers.SequenceBytes` | RRTO/cpu/cpu-elf2.c:190-219 | the encoding of any sequence, byte for byte |
| `Lz4Numbers.GroundedInNumbers` | RRTO/cpu/cpu-elf2.c:211-222 | the back offsets of a block are good if and only if each reaches at least one byte back and not before the first byte of the data |
| `Lz4Numbers.SequenceData` | RRTO/cpu/cpu-elf2.c:221-234 | the data of a sequence: its literals, and then each byte the one an offset before it |
| `FatbinMeaning.FatbinRewritten` | RRTO/cpu/cpu-elf2.c:390-443 | a well-formed compressed fatbin is rewritten to its plain form, byte for byte, if and only if every section starts 80 bytes before the end, takes at most six zeros of padding, and, when first in its region, has a decompressed size that is a multiple of 8; otherwise the rewriter fails or leaves defined behaviour. For all memory `realloc` may hand out |
| `FatbinMeaning.RegionsRewritten` | RRTO/cpu/cpu-elf2.c:407-433 | the outer loop, from any region on and after any output |
| `FatbinMeaning.SectionsRewritten` | RRTO/cpu/cpu-elf2.c:415-429 | the inner loop stops exactly at the end of its region and has appended all its sections, or some section does not fit |
| `FatbinMeaning.SectionRewritten` | RRTO/cpu/cpu-elf2.c:244-326 | one section: the plain header, the decompressed data, zeros up to a multiple of 8, the region's size kept equal to the bytes that follow its header; undefined exactly when the padding has no room |
| `FatbinExamples.LiteralFatbinFits` | RRTO/cpu/cpu-elf2.c:259-319 | for one section of literals, of any length, the exact lengths for which it is rewritten |
| `FatbinExamples.FitsOrNot` | RRTO/cpu/cpu-elf2.c:311-316 | nine bytes, well-formed, are not rewritten: the comment that there is always room for the padding does not hold; sixteen bytes are |
| `FatbinRewriter.OutputBuffer.Reserve` | RRTO/cpu/cpu-elf2.c:259-279 | growing the buffer, and writing the region's header before its first section |
| `FatbinRewriter.OutputBuffer.AppendHeader` | RRTO/cpu/cpu-elf2.c:278-291 | the header copied, made plain, and counted in the region's size |
| `FatbinRewriter.OutputBuffer.AppendData` | RRTO/cpu/cpu-elf2.c:293-299 | the decompressed data in place behind its header, or the error if its size is not the promised one |
| `FatbinRewriter.OutputBuffer.AppendPadding` | RRTO/cpu/cpu-elf2.c:313-319 | zeros, and both size fields grown by them |
| `FatbinRewriter.OutputBuffer.DecompressSection` | RRTO/cpu/cpu-elf2.c:244-326 | the state of the output buffer and the input consumed equal those of the specification the laws are about |
| `FatbinRewriter.OutputBuffer.DecompressRegion` | RRTO/cpu/cpu-elf2.c:408-429 | the same for the loop over a region |
| `FatbinRewriter.DecompressFatbin` | RRTO/cpu/cpu-elf2.c:390-443 | the same for the whole fatbin |
| `FatbinRewriter.RewriteSections` | RRTO/cpu/cpu-elf2.c:415-429 | every turn of the inner loop moves forward, and never beyond the data |
| `FatbinWalk.DecompressSingleSection` | RRTO/cpu/cpu-elf2.c:328-382 | returns the buffer as it is handed on, its size, and the input consumed |
| `FatbinWalk.VisitSection` | RRTO/cpu/cpu-elf2.c:477-513 | one turn of the walk |
| `FatbinWalk.GetFatbinInfo` | RRTO/cpu/cpu-elf2.c:445-527 | the walk over the region at any place of the data: what is handed on, in order, and the total size |
| `FatbinWalkLaws.ItemsVisited` | RRTO/cpu/cpu-elf2.c:474-514 | the walk visits every section of a well-formed region once and in order, hands on exactly the device code, and stops exactly at the end; it fails if and only if a header check or the reader of the device code does |
| `FatbinWalkLaws.RegionVisited` | RRTO/cpu/cpu-elf2.c:467-523 | the same from the region's header on, with the total size |
| `FatbinWalkLaws.HandedOnData` | RRTO/cpu/cpu-elf2.c:370-377 | decompressed data is handed on undamaged if and only if the bytes the padding is written over were zero (the padding is written over the start of the data, not behind it) |
| `FatbinWalkLaws.HandedOnImage` | RRTO/cpu/cpu-elf2.c:370-377 | so an image that starts with a non-zero byte survives if and only if its size is a multiple of 8 |
| `FatbinExamples.DamagedImage` | RRTO/cpu/cpu-elf2.c:370-377 | a well-formed region for every other size of image: the walk reports no error and hands on damaged data |
| `FatbinWalkLaws.RewrittenRegionVisited` | RRTO/cpu/cpu-elf2.c:474-523 | walking a rewritten region, wherever it lies, hands on, in order, exactly the data its compressed blocks stand for, padded with zeros; the total size is that of the region |
| `FatbinWalkLaws.RewrittenFatbinVisited` | RRTO/cpu/cpu-elf2.c:390-527 | rewriter and walker together: a compressed fatbin that fits is rewritten to regions that follow each other without gaps, and walking the rewritten bytes from any one of them, at any new address, hands on exactly its device code and tells its size, unless a header check or the reader of the device code fails |
| `FatbinWalkLaws.NewHeaderFields` | RRTO/cpu/cpu-elf2.c:285-289 | a rewritten header differs from the original in the four fields that are assigned, and in no other |
| `FatbinWalkLaws.NewSectionIsItem` | RRTO/cpu/cpu-elf2.c:285-319 | a rewritten section is a well-formed plain one for the walk |
| `FatbinNumbers.NewHeaderInNumbers` | RRTO/cpu/cpu-elf2.c:285-289 | every byte of a rewritten header: the size at 8, nothing at 16 and 56, of the flags at 40 only the bit 0x2000 cleared, and all bytes outside these the original ones |
| `FatbinNumbers.NewRegionInNumbers` | RRTO/cpu/cpu-elf2.c:268-280 | a rewritten region: the first eight bytes of its header as they were, then the size of what follows |
| `FatbinNumbers.FitsInNumbers` | RRTO/cpu/cpu-elf2.c:305-316 | the exact condition on a section, in numbers |
| `FatbinNumbers.RewriteNextInNumbers` | RRTO/cpu/cpu-elf2.c:244-326 | one turn of the rewriter: the output grows by header and padded data, and the input goes on at the next multiple of 8 behind the block, one to six zeros later |
| `FatbinNumbers.VisitInNumbers` | RRTO/cpu/cpu-elf2.c:477-513 | one turn of the walk: only kind 2 is handed on; after compressed data it goes on at the first multiple of 8, as an address, not before its end, and there are zeros up to there |
| `FatbinNumbers.WalkInNumbers` | RRTO/cpu/cpu-elf2.c:467-523 | the walk begins 16 bytes behind the region, ends where its size says or later, and tells that size and the header |
| `FatbinNumbers.RegionHeaderInNumbers` | RRTO/cpu/cpu-elf2.c:119-140 | the check of a region header passes exactly if it begins with the bytes 50 ED 55 BA 01 00 10 00 (hexadecimal) |
| `FatbinNumbers.SectionHeaderChecked` | RRTO/cpu/cpu-elf2.c:150-174 | and the check of a section header exactly if 64 bytes are said to be left; it looks at one byte behind the object name |
| `FatbinNumbers.SectionInNumbers` | RRTO/cpu/cpu-elf2.c:40-56 | which compressed sections are well-formed, member by member |
| `FatbinNumbers.RegionInNumbers` | RRTO/cpu/cpu-elf2.c:30-37 | and which regions |
| `ApiLog.LogReadBack` | RRTO/cpu/cr.c:617-627 | what was dumped is read back: all records of any log, in order, and no error; the extra element appended at the end of the file leaves no trace |
| `ApiLog.CutLogReadBack` | RRTO/cpu/cr.c:640-694 | from any prefix of a dumped log exactly the whole records in it are read, and no error is reported exactly when the cut lies at the start of a record or inside its `function` field |
| `ApiLog.WholeRecordsIsLargest` | RRTO/cpu/cr.c:854-867 | the records counted as whole are as many as the prefix has room for |
| `ApiLog.RecordReadBack` | RRTO/cpu/cr.c:636-696 | one record |
| `ApiLog.RecordCut` | RRTO/cpu/cr.c:640-694 | one record cut anywhere: end of file if the cut is in the first field, an error otherwise |
| `ApiLog.DumpApiRecord` | RRTO/cpu/cr.c:439-484 | appends the record's bytes, and nothing else, to the file |
| `ApiLog.Dump` | RRTO/cpu/cr.c:596-634 | appends the bytes of all records of the list in order |
| `ApiLog.RestoreApiRecord` | RRTO/cpu/cr.c:636-696 | for every file content: the result code; the record and the position after it, or the end of the file reached and noticed |
| `ApiLog.DumpedInNumbers` | RRTO/cpu/cr.c:444-480 | where the parts of a dumped record lie, in numbers |
| `ApiLog.ReadInNumbers` | RRTO/cpu/cr.c:640-694 | what is read from any bytes, in the same numbers, and when the file has ended or is broken |
| `Replay.Server.HandleCall` | RRTO/cpu/cpu-server-runtime.c:708-719 | a handler on existing handles: its record, with the client's handles, and the device call with the translated ones |
| `Replay.Server.Serve` | RRTO/cpu/cpu-server-runtime.c:515-719 | serving a request: new objects and calls, each recorded; copies to the device recorded, copies from it not, launches in the first round only |
| `Replay.Server.RestoreResources` | RRTO/cpu/cr.c:718-779 | the log, the maps and the device after one restored record |
| `Replay.Server.Restore` | RRTO/cpu/cr.c:831-874 | the loop of the restore over any file content, including the element it appends and removes at the end |
| `HandlerEffects.OneHandleCall` | RRTO/cpu/cpu-server-runtime.c:613-622 | what the handlers of `cudaStreamSynchronize`, `cudaEventQuery` and `cudaEventSynchronize` do, told by procedure number and the bytes of the arguments: the manager that translates the handle, the call on the device, which keeps all its objects, and the record with the client's handle |
| `HandlerEffects.TwoHandleCall` | RRTO/cpu/cpu-server-runtime.c:708-719 | likewise `cudaEventRecord` (event, then stream), `cudaStreamCopyAttributes`, and setting the stream of a cuSOLVER or cuBLAS handle |
| `HandlerEffects.CallWithFlags` | RRTO/cpu/cpu-server-runtime.c:624-637 | likewise `cudaStreamWaitEvent` (stream, then event) and `cudaEventRecordWithFlags`, with the four bytes of flags |
| `HandlerEffects.SetWorkspace` | RRTO/cpu/cpu-server-cublas.c:107-127 | likewise `cublasSetWorkspace` |
| `HandlerEffects.SetMathMode` | RRTO/cpu/cpu-server-cublas.c:144-157 | likewise `cublasSetMathMode` |
| `HandlerEffects.CallWithoutHandles` | RRTO/cpu/cpu-server-runtime.c:335-401 | likewise `cudaDeviceSynchronize`, `cudaSetDevice` and `cudaSetDeviceFlags` |
| `HandlerEffects.ObjectDestroyed` | RRTO/cpu/cpu-server-runtime.c:558-566 | the five procedures that destroy: that object, and no other, is gone |
| `HandlerEffects.UnknownHandle` | RRTO/cpu/cpu-server-runtime.c:708-719 | a handle that leads to nothing, at any place where one of the procedures takes one: the device stays as it is, and the record has an error |
| `HandlerEffects.ObjectMade` | RRTO/cpu/cpu-server-runtime.c:515-556 | the eight procedures that make an object: its kind, flags, priority or size, and the handle in the record |
| `HandlerEffects.ObjectRestored` | RRTO/cpu/cr.c:202-362 | restored, it has the same flags, priority or size, and the old handle leads to the new one |
| `HandlerEffects.CallRestored` | RRTO/cpu/cr.c:770-774 | restoring the record of any other modelled call is serving it once more |
| `HandlerEffects.TransfersAndLaunches` | RRTO/cpu/cr.c:727-731 | copies and launches are recorded (or not) and change no handle, and restoring them does nothing |
| `HandlerEffects.CallSucceeds` | RRTO/cpu/cpu-server-runtime.c:335-735 | which calls the histories above may hold: exactly those whose handles the clients know, and whose object is live if they destroy it |
| `HandlerEffects.OthersSucceed` | RRTO/cpu/cpu-server-runtime.c:515-556 | and which creating calls, transfers and launches |
| `RestoredService.CheckpointIsTransparent` | RRTO/cpu/cr.c:831-874 | from start to finish: a server that serves some requests, is checkpointed, restored on a new device (which gives every restored object a free handle) and serves more, ends in the state a single server would have reached, up to the names of the objects on the device, if and only if no handle made since the restore is translated to another; it is only assumed that the calls succeed and that the device gives no new object the handle of a live one, while a client may well be given a handle it still holds |
| `ReplayLaws.CheckpointRestored` | RRTO/cpu/cr.c:854-874 | for every history of successful calls, restoring its dumped log succeeds and simulates the original server; the log afterwards is the dumped one with one extra record after each replayed call; no object is lost if no client was given a handle it still held |
| `ReplayLaws.CutCheckpointRestored` | RRTO/cpu/cr.c:854-874 | restoring a dump cut anywhere simulates exactly the requests whose records are whole if the cut lies at the start of a record or inside its `function` field, and fails everywhere else |
| `ReplayLaws.LogReplayed` | RRTO/cpu/cr.c:854-874 | the induction: replaying a log from any simulating state |
| `ReplayLaws.RequestReplayed` | RRTO/cpu/cr.c:718-779 | one record: the device makes the same object or does the same call on the same objects |
| `ReplayLaws.CallSimulated` | RRTO/cpu/cr.c:700-716 | a call on handles that works for the clients works with the translated handles, on the same objects, and keeps the simulation |
| `ReplayLaws.RestoredObjectSimulated` | RRTO/cpu/cr.c:202-301 | an object made again under another handle keeps the simulation |
| `ReplayLaws.NewObjectSimulated` | RRTO/cpu/resource-mg.c:41-108 | an object made after a restore keeps the simulation if and only if its handle is not translated to another |
| `RestoredService.ReusedHandle` | RRTO/cpu/resource-mg.c:64-77 | a run that fails so, for every handle: a stream is made, restored under another handle, destroyed, and a new stream gets the old handle |
| `ReplayLaws.RestoringIsReplaying` | RRTO/cpu/cr.c:854-874 | reading and replaying record by record is reading the whole log and then replaying it, and fails where a record is broken |
| `RestoredService.HistoryServed` | RRTO/cpu/cpu-server-runtime.c:708-719 | a server that simulates the clients' view still does so after any history of successful calls, on a device that gives out no live handle, if and only if none of the handles made on the way is translated to another: the first one is never made good again; otherwise no client is given a handle it still holds, and no object is lost |
| `RestoredService.OriginalUnambiguous` | RRTO/cpu/cpu-server-runtime.c:71-78 | in bypass mode no handle is ambiguous, and, as long as no object is lost, the handles new to the clients are exactly those free on the device |
| `RestoredService.OriginalServed` | RRTO/cpu/cpu-server-runtime.c:71-78 | a server in bypass mode makes of any history of successful calls exactly the device the clients know, and its log is that of the history |
| `RestoredService.HeldHandle` | RRTO/cpu/resource-mg.c:64-77 | a run that fails while the client still holds the handle: the restored stream has another handle, so the device may give out the old one again, and the client then has one handle for two streams |
| `RepeatedCheckpoints.RestoredLogDoublesCalls` | RRTO/cpu/api-recorder.h:18-31 | a restored log has twice the calls of the dumped one, and is longer by exactly their number |
| `RepeatedCheckpoints.CheckpointsKeepHandles` | RRTO/cpu/cr.c:831-874 | any number of checkpoints, with any successful requests served before and between them, where each restore gives its objects free handles: every restore succeeds, and after the last one every handle of the clients leads to its object, made in the same way and order as without checkpoints, even if a server in between has given out an ambiguous handle; the device is the one on which each request was made a known number of times |
| `RepeatedCheckpoints.MadeExactly` | RRTO/cpu/cr.c:770-774 | that number: a call served before k + 1 checkpoints has been made exactly 2 to the power k times on the last device, a recorded request of another kind once |
| `RepeatedCheckpoints.ServiceAfterCheckpoints` | RRTO/cpu/cr.c:831-874 | and what is served after any number of checkpoints: the server goes on to simulate the clients' device if and only if no handle made since the last restore is translated to another, on a device that gives out no live handle |
| `RepeatedCheckpoints.OneServed` | RRTO/cpu/cpu-server-runtime.c:708-719 | a server records a request that succeeds for the clients with the clients' names, whatever its own device makes of it |
| `RepeatedCheckpoints.RoundsUphold` | RRTO/cpu/cr.c:831-874 | the induction over the checkpoints, from any server that upholds the clients' handles |
| `RepeatedCheckpoints.SecondCheckpointRestored` | RRTO/cpu/cr.c:770-774 | in particular a checkpoint of a restored server, where every call has been made exactly twice |
| `RepeatedCheckpoints.RepeatedLogReplayed` | RRTO/cpu/cr.c:770-774 | replaying any log in which every call of a history has one or more records: the server simulates the device on which each was made as often, and its new log has twice as many records of each |
| `RepeatedCheckpoints.TimesKeepsHandles` | RRTO/cpu/cr.c:770-774 | making a call any number of times changes no object and no name |
| `LaunchArguments.PackArguments` | RRTO/cpu/cpu-client-runtime.c:1015-1027 | the block the client builds in place, for any table and arguments, or undefined behaviour |
| `LaunchArguments.UnpackArguments` | RRTO/cpu/cpu-server-runtime.c:856-865 | the argument pointers and the block as rewritten in place, for any block, through the binary search of the resource manager |
| `LaunchLaws.ArgumentsPacked` | RRTO/cpu/cpu-client-runtime.c:1015-1027 | the packed block starts with the number of parameters and the offsets, and holds every argument in its place |
| `LaunchNumbers.PackedInNumbers` | RRTO/cpu/cpu-client-runtime.c:1015-1027 | the same in numbers: eight bytes of count, two for each offset, the arguments at their offsets behind them |
| `LaunchNumbers.UnpackedInNumbers` | RRTO/cpu/cpu-server-runtime.c:856-865 | for any bytes the server gets: where its pointers lie, and exactly when it reads beyond the block |
| `LaunchNumbers.TurnInNumbers` | RRTO/cpu/cpu-server-runtime.c:863 | a turn of the loop replaces an address in eight bytes and leaves all others |
| `LaunchLaws.LoopDefined` | RRTO/cpu/cpu-server-runtime.c:861-865 | the server's loop stays in the block if and only if eight bytes can be read at every offset, whatever the parameter's size; its pointers are then those of the table |
| `LaunchLaws.LaunchedInBypass` | RRTO/cpu/cpu-server-runtime.c:858-865 | in bypass mode, every argument pointer addresses exactly the bytes the client passed, and the block is unchanged, if and only if eight bytes fit at every offset |
| `LaunchLaws.PointersTranslated` | RRTO/cpu/cpu-server-runtime.c:861-865 | restored mode, eight-byte parameters in any order of offsets: argument i is the translation of the client's argument i, whether it is a pointer or not |
| `LaunchLaws.EightByteArgumentsExactly` | RRTO/cpu/cpu-server-runtime.c:861-865 | so all arguments of such a kernel arrive as the map has them, pointers looked up in it and numbers unchanged, if and only if the map changes none of the numbers the client passes that are no pointers |
| `SpacedLaunches.SpacedArgumentsExactly` | RRTO/cpu/cpu-server-runtime.c:861-865 | parameters of any sizes, in any order, each with at least eight bytes to itself, and any map: all arguments arrive, pointers as the map has them, if and only if, for each parameter that is no pointer, translating the eight bytes that start at it changes none of its bytes |
| `RestoredMemory.TranslatedIsRelocated` | RRTO/cpu/resource-mg.c:41-77 | the manager leads an address of the client to the restored memory it means if and only if the map, which knows only where allocations start, moves it as far as the start of its allocation |
| `RestoredMemory.PointerFollows` | RRTO/cpu/resource-mg.c:41-77 | so the start of an allocation is always found, and an address in its middle (unless something freed started there) if and only if the allocation has not moved |
| `RestoredMemory.SpacedArgumentsAsMeant` | RRTO/cpu/cpu-server-runtime.c:861-865 | such a kernel finds the memory and the numbers the client means if and only if each pointer it is passed follows its allocation and no other parameter is changed by translating what starts there |
| `RestoredMemory.MixedArgumentsAsMeant` | RRTO/cpu/cpu-server-runtime.c:861-865 | the same for parameters of any sizes in ascending order, under the conditions of `MixedArgumentsExactly` |
| `RestoredMemory.MiddlePointerStale` | RRTO/cpu/cpu-server-runtime.c:861-865 | a kernel passed a pointer into the middle of any allocation that has moved finds the old address |
| `LaunchLaws.MixedArgumentsTranslated` | RRTO/cpu/cpu-server-runtime.c:861-865 | restored mode, any sizes, ascending offsets, any set of parameters that are pointers: these are translated and the rest, of eight bytes or not, is the client's, if no eight bytes that start at a parameter which is no pointer are an address that has moved |
| `LaunchLaws.MixedArgumentsExactly` | RRTO/cpu/cpu-server-runtime.c:861-865 | the same as an if-and-only-if, for maps where an address that has moved differs in those of its bytes that would lie in a parameter which is no pointer |
| `LaunchLaws.AscendingArgumentsExactly` | RRTO/cpu/cpu-server-runtime.c:861-865 | for all maps, with the offsets ascending: every argument arrives if and only if each is right as soon as its own turn of the loop is over; later turns neither harm nor repair it |
| `LaunchLaws.LaunchedWithMap` | RRTO/cpu/cpu-server-runtime.c:861-865 | the same for any order of parameters, the condition stated on the block as the loop has left it |
| `LaunchLaws.SmallKernelUndefined` | RRTO/cpu/cpu-server-runtime.c:863 | a kernel with one parameter of four bytes, which the server reads beyond |
| `LaunchLaws.ScalarMistaken` | RRTO/cpu/cpu-server-runtime.c:861-865 | two scalars that together read as a mapped address: after the whole loop the kernel finds the first changed |
| `LaunchLaws.LongScalarMistaken` | RRTO/cpu/cpu-server-runtime.c:861-865 | a number of eight bytes that equals a mapped address does not arrive |
| `KernelParams.KernelRecord.GetParameters` | RRTO/cpu/cpu-elf2.c:647-752 | the loop over the section, with arrays grown by `realloc`, leaves the record as the specification says, for all bytes |
| `KernelParams.KernelRecord.StoreParameter` | RRTO/cpu/cpu-elf2.c:712-720 | the arrays grow up to the ordinal, old entries are kept, and the new one is assigned; arrays of the record are its own or fresh |
| `KernelParamsLaws.ListParsed` | RRTO/cpu/cpu-elf2.c:698-743 | the section that encodes a list of entries is read completely and gives the table of the list |
| `KernelParamsLaws.EntriesParsed` | RRTO/cpu/cpu-elf2.c:698-743 | the entries at the front of any section are applied one after another, from any table |
| `KernelParamsLaws.AttributeParsed` | RRTO/cpu/cpu-elf2.c:701-742 | one entry: what it changes and how far it advances, including the 14-bit size |
| `KernelParamsLaws.ParameterBytes` | RRTO/cpu/cpu-elf2.c:656-723 | the sixteen bytes of a parameter entry: which are its ordinal, offset and size |
| `KernelParamsLaws.AreaBytes` | RRTO/cpu/cpu-elf2.c:725-731 | the four bytes of the entry with the size of the area |
| `KernelParamsLaws.OtherBytes` | RRTO/cpu/cpu-elf2.c:698-743 | how many bytes of any other entry are passed over |
| `KernelParamsLaws.StoredAt` | RRTO/cpu/cpu-elf2.c:712-720 | a parameter is stored at its ordinal, and the other slots stay |
| `KernelParamsLaws.AppliedIsTable` | RRTO/cpu/cpu-elf2.c:712-723 | the table has one more slot than the largest ordinal, each slot is that of the last entry for its ordinal, and the area size is the last one given |
| `KernelParamsLaws.SlotIsLast` | RRTO/cpu/cpu-elf2.c:719-720 | the slot of an ordinal is the offset and size of the last entry that has it |
| `KernelParamsLaws.TableDefined` | RRTO/cpu/cpu-elf2.c:712-720 | the table is independent of what `realloc` left in its arrays if and only if every ordinal up to the largest occurs |
| `KernelParamsLaws.OrderIrrelevant` | RRTO/cpu/cpu-elf2.c:698-743 | all orders of the entries give the same table if and only if no two entries disagree about the same ordinal or about the area size |
| `KernelParamsLaws.SameEntriesSameTable` | RRTO/cpu/cpu-elf2.c:698-743 | lists with the same entries, in any order and any number, give the same table if no two of them disagree |
| `KernelParamsLaws.AcceptedIsEncoded` | RRTO/cpu/cpu-elf2.c:698-743 | conversely, every section read without an error is the encoding of a list of entries, of which the last may reach beyond the end, and the result is the table of that list |
| `KernelParamsLaws.RefusedExactly` | RRTO/cpu/cpu-elf2.c:703-707 | a section is refused if and only if, after some well-formed entries, a parameter entry does not have a value of twelve bytes |
| `KernelLaunch.LaunchedFromSection` | RRTO/cpu/cpu-elf2.c:698-743 | reader, client and server together: with the table read from the encoded entries, the pointer of every parameter entry's ordinal addresses the bytes passed for it, if and only if eight bytes fit at every offset |
| `KernelText.ReadParameters` | RRTO/cpu/cpu-utils.c:108-205 | the line loop with its state, blank lines, errors and in-place table, for all lines; and which lines are left in the file |
| `KernelText.FindState` | RRTO/cpu/cpu-utils.c:151-157 | the state is the index of the attribute's name, or the one for other attributes |
| `KernelTextLaws.ReadersAgree` | RRTO/cpu/cpu-utils.c:129-199 | on the bytes and on any text that shows the same entries, both readers succeed and build the same slots; the tables are equal if and only if some entry gives the area size or the text reader's record happened to hold 0 |
| `KernelTextLaws.TextRead` | RRTO/cpu/cpu-utils.c:129-199 | text that shows a list of entries is read up to its end, from any state and any table, and the entries are applied in order |
| `KernelTextLaws.EveryListHasText` | RRTO/cpu/cpu-utils.c:129-199 | such text exists for every list of entries |
| `KernelTextLaws.LineScanned` | RRTO/cpu/cpu-utils.c:131-135 | key, value and final newline of a line are taken apart |
| `KernelTextLines.ParameterLines` | RRTO/cpu/cpu-utils.c:149-181 | the two lines of a parameter, spelled out as `cuobjdump` prints them, with any numbers of 64 bits: ordinal, offset and size are stored, cut to 16 bits |
| `KernelTextLines.ParameterValue` | RRTO/cpu/cpu-utils.c:164 | the value of such a line, for the attribute EIATTR_KPARAM_INFO |
| `KernelTextLines.SizeValue` | RRTO/cpu/cpu-utils.c:183 | likewise for EIATTR_CBANK_PARAM_SIZE |
| `KernelTextLines.BankValue` | RRTO/cpu/cpu-utils.c:189 | likewise for EIATTR_PARAM_CBANK, whose two numbers are not used |
| `KernelTextLines.OtherValue` | RRTO/cpu/cpu-utils.c:195-197 | values after any other name, and before the first, are passed over |
| `KernelTextLines.OddValue` | RRTO/cpu/cpu-utils.c:164-192 | values that begin otherwise are errors |
| `KernelTextLines.LineInNumbers` | RRTO/cpu/cpu-utils.c:131-135 | the key of any line is its first word, cut at 31 characters, the value what follows, cut at 255, without its last character |
| `KernelTextLines.QuietLines` | RRTO/cpu/cpu-utils.c:136-148 | lines with another key, or a key alone, change nothing, and what is blank |
| `KernelTextLines.NumberScanned` | RRTO/cpu/cpu-utils.c:164 | numbers with and without sign and prefix, and numbers too large for 64 bits |
| `KernelTextLines.NothingScanned` | RRTO/cpu/cpu-utils.c:164 | and what is no number: a sign or a prefix alone, and text that begins otherwise |
| `KernelTextLaws.QuietRead` | RRTO/cpu/cpu-utils.c:136-148 | lines with other keys, or only a key, and single blank lines do not change the outcome |
| `Scanning.ScanPrinted` | RRTO/cpu/cpu-utils.c:164 | scanning with a format what was printed by it gives back the values that are stored, for every format and any white space |
| `Scanning.HexRoundTrip` | RRTO/cpu/cpu-utils.c:164 | the value of a number's hexadecimal digits is the number |
| `Scanning.PrintedPrints` | RRTO/cpu/cpu-utils.c:164 | the canonical printing by a format is one of the texts it scans |
| `TransferPhases.TransferServer.MemcpyHtod` | RRTO/cpu/cpu-server-runtime.c:1417-1428 | the counters, the table and the address used, for any state; undefined beyond a hundred uploads |
| `TransferPhases.TransferServer.MemcpyDtoh` | RRTO/cpu/cpu-server-runtime.c:1673-1679 | the counters after a download |
| `TransferPhases.TransferClient.Memcpy` | RRTO/cpu/cpu-client-runtime.c:1605-1610 | the counters of the client |
| `TransferPhases.UploadsPinned` | RRTO/cpu/cpu-server-runtime.c:1421-1428 | over every run, the k-th upload of any later round goes to the address of the k-th upload of the first round |
| `TransferPhases.UploadAddress` | RRTO/cpu/cpu-server-runtime.c:1421-1428 | the exact address every upload of every run goes to, including address 0 where a later round has more uploads than the first |
| `TransferPhases.RunTold` | RRTO/cpu/cpu-server-runtime.c:1417-1428 | over every run, the counters are the numbers of rounds begun and closed, and the table holds the addresses of the first round |
| `TransferPhases.PhaseInvariant` | RRTO/cpu/cpu-server-runtime.c:1675-1679 | `output_times <= input_times <= output_times + 1` always, and `input_count` is 0 exactly when they are equal |
| `TransferPhases.RunDefined` | RRTO/cpu/cpu-server-runtime.c:1417-1428 | a run stays in the table if and only if no round has more than a hundred uploads |
| `TransferPhases.CountersAgree` | RRTO/cpu/cpu-client-runtime.c:1606-1665 | over every sequence of copies and symbol copies, by the two RPCs or another way: the counters of client and server are equal after every call if and only if no call that begins or ends a round is counted on one side only |
| `TransferPhases.CountersTold` | RRTO/cpu/cpu-client-runtime.c:1605-1610 | over every sequence of calls, the counters of each side are the rounds begun and closed in what that side sees |
| `TransferPhases.RpcsAgree` | RRTO/cpu/cpu-client-runtime.c:1606-1665 | so always, when all copies go by the two RPCs and no symbol copy does |
| `GrowableList.List.constructor` | RRTO/cpu/list.c:11-31 | an empty list |
| `GrowableList.List.AppendSlot` | RRTO/cpu/list.c:57-78 | one more element, its contents unset; the others as they were |
| `GrowableList.List.Append` | RRTO/cpu/list.c:80-90 | the sequence with the element at its end |
| `GrowableList.List.At` | RRTO/cpu/list.c:92-106 | the element, or an error exactly when the index is out of bounds |
| `GrowableList.List.Insert` | RRTO/cpu/list.c:112-138 | insertion into the sequence, in place, or an error exactly when the index is out of bounds |
| `GrowableList.List.MoveUp` | RRTO/cpu/list.c:130 | the elements from an index on move up by one, the others stay |
| `GrowableList.List.Remove` | RRTO/cpu/list.c:140-155 | removal from the sequence, in place, or an error exactly when the index is out of bounds |
| `GrowableList.InsertThenRemove` | RRTO/cpu/list.c:112-155 | insert, then remove at the same index, is the identity on the contents |
| `GrowableList.AppendsAreAmortised` | RRTO/cpu/list.c:64-72 | over any number of appends, the elements copied are the capacity less 4 and fewer than two for each append |
| `ResourceManager.Manager.Get` | RRTO/cpu/resource-mg.c:41-108 | the binary search is lookup in a map, the address itself when absent or in bypass mode |
| `ResourceManager.Manager.Search` | RRTO/cpu/resource-mg.c:132-149 | the binary search finds the key, or the one place where it belongs |
| `ResourceManager.Manager.AddSorted` | RRTO/cpu/resource-mg.c:111-158 | update of the map, which stays sorted; an error in bypass mode |
| `ResourceManager.Manager.Overwrite` | RRTO/cpu/resource-mg.c:144-148 | a key that is there gets the new value |
| `ResourceManager.Manager.Create` | RRTO/cpu/resource-mg.c:32-39 | the list of new resources grows; the map does not change |
| `ResourceManager.InsertedEntry` | RRTO/cpu/resource-mg.c:150-157 | inserting where a key belongs keeps the list sorted and updates the map it stands for |
| `ResourceManager.ReplacedEntry` | RRTO/cpu/resource-mg.c:144-148 | replacing a value in place does the same |

## Left out

- Decompressor.Decompress: offset 0 is followed as the code does it (the bytes stay as they are), but is no part of a valid block.
- Decompressor.DecodeLiterals: the loop body of `decompress` is two methods, one for each half; likewise `decompress_section` and its loops are split into the methods of `OutputBuffer`.
- FatbinMeaning.FatbinRewritten: the fatbin is entirely compressed, as the rewriter takes it to be, and neither input nor output exceeds what a 64-bit size can tell.
- FatbinRewriter.OutputBuffer.DecompressSection: failures of `realloc`, sums of sizes beyond 64 bits, and freeing the buffer after an error.
- FatbinWalk.GetFatbinInfo: `elf2_parameter_info` and libelf are the parameter `accepts`; the struct that points to the fatbin, and its magic number, are taken to be right; a section without any bytes before the end of the region, which the walk visits for ever, is `Undefined`, and so is a pointer beyond the data.
- FatbinLayout: of the check of the object name in `get_text_header` only the byte it reads is modelled, as it decides nothing but a message.
- ApiLog.RestoreApiRecord: read errors other than the end of the file, and failures of `malloc`; on a broken file the code reports an error and leaves the partial record in the log.
- Replay.Server.Restore: `cr_launch_kernel`, which runs the last launch again, and the return code after a failed resource; the model ends before them.
- Replay.Server.RestoreResources: arrays (the guard at `cr.c:157-158` is always true, so nothing is restored), cuDNN handles (no case restores them), the procedures not listed in `ClassOf`, and the contents of device memory.
- Replay.Server.Serve: calls that create an object and fail; calls that are forwarded without a record, except copies from the device. That a launch comes in the server's first round, which decides whether it is recorded, is part of the request, not computed from the transfers before it; transfers and launches have no effect on the handles.
- Replay.Server.HandleCall: the bytes between the members of an argument struct are taken over unchanged when a replayed handler records itself.
- RestoredService.HistoryServed: assumes that the device does not give a new object the handle of a live one; so do the lemmas about restores, of the device on which they restore.
- ReplayLaws.CheckpointRestored: the histories are those whose calls succeed for the clients, who may be given a handle again at any time.
- RepeatedCheckpoints.CheckpointsKeepHandles: what a server that has given out an ambiguous handle does with its own device until the next restore.
- LaunchArguments.UnpackArguments: looking up the kernel, and the launch itself.
- LaunchLaws.LaunchedWithMap: its condition, and that of `MixedArgumentsTranslated`, goes one way: a moved address that is mistaken may change only bytes that lie outside its parameter, where they may be padding, or belong to a later parameter and be changed again. `AscendingArgumentsExactly` and `SpacedArgumentsExactly` go both ways for all maps.
- LaunchLaws.MixedArgumentsExactly: `cudaMalloc` aligns addresses to 256 bytes, so a move keeps the lowest byte and may well keep the lowest four; the lemma then says nothing of kernels with parameters that small which are no pointers. `AscendingArgumentsExactly` does, in terms of the loop's turns, and `SpacedArgumentsExactly` where each has eight bytes to itself, in terms of the client's block alone.
- LaunchLaws.EightByteArgumentsExactly: which parameters are pointers is a parameter of this lemma and the others about launches, as neither the table nor the server knows it.
- RestoredMemory.MixedArgumentsAsMeant: has the limits of `MixedArgumentsExactly`.
- `cuda_launch_cooperative_kernel_1_svc` (`cpu-server-runtime.c:802-836`): on a restored server it translates the kernel and the stream, but none of the kernel's arguments.
- KernelParams.KernelRecord.GetParameters: finding the section by the kernel's name, which is libelf's work; failures of `realloc`; the table after an error, which callers do not use.
- KernelText.ReadParameters: launching `cuobjdump` and finding the kernel's lines in its output; lines hold no NUL character; numbers are scanned as the C standard says, so a prefix 0x without digits is not a number.
- TransferPhases.TransferServer.MemcpyHtod: the counters are unbounded; they are of type int in the code, and the model does not wrap them around.
- TransferPhases.CountersAgree: of the other ways to copy (several threads, shared memory, InfiniBand) only that the server does not count them; whether a symbol copy reaches the upload RPC (it does not for page-locked memory or an unknown symbol) is part of the call.
- GrowableList.List.Insert: inserting NULL, which leaves the new element as it was; NULL lists, failures of `realloc` and `list_free`.
- ResourceManager.Manager.Get: addresses are natural numbers; a bypassed manager has an empty map list here, where the code has none.
- Forwarding stubs for cuBLAS, cuBLASLt, cuSOLVER, cuDNN, NVML, and the driver and runtime getters: one call each into libraries that are not part of the repository.
- The arrays that record and replay kernels and `operator_count`: the server never advances the counter, and `cpu-server-runtime.c:928` is not valid C.
- The schedulers (`gsched_none.c`): `elem` is not reset when no id matches, so mutual exclusion and round robin do not hold as one would state them.
- `utils_search_info` and `get_kernel_section_from_kernel_name`: a linear search and a string concatenation, which would only add easy members.
- Sockets, InfiniBand, shared memory, the copy by several threads, logging and debug output.
