# A verified model of the media server modules

This project models the parts of the nginx media modules that move bytes about with hand-written state
machines, and proves what they promise. Each Dafny module covers one component:

- **Resumable uploads.** `Ranges` merges a segment's range into a sorted list with gaps. `RangeHeader`
  reads a range from a request header, `RangeText` reads and merges the state file character by
  character, and `RangeFile` rewrites that file in place through a split buffer. `RangeTextProofs` shows that
  the reader is the merge of lists, `RangeFileProofs` when the loop over the file is, `RangeFileCodes` which
  code it returns. What the loop does otherwise is in `RangeFileSeen` (which text it reads), `RangeFileSkips` (what a skip loses),
  `RangeFileCuts` (what a cut number does), `RangeFileLines` (files of which whole lines are read),
  `RangeFileClaims` and `RangeFileCutClaims` (which bytes are claimed then) and `RangeFileExamples`.
  `UploadSession` runs many segments, some of which fail or overlap, against one output file and the text of
  one state file; `CarefulUploads` says which merges are safe, `EarlyFinish` is a run that is not.
- **Multipart bodies.** `Matcher` is the boundary matcher, `PartHeader` the header lines, `Multipart` and
  `UploadParser` the parser on values and in place, `RawInput` the variant for a body that is one file.
  `FileParts` says what a file part comes out as, `MultipartEdges` what may stand around parts and lines.
  `PartInvariant` says what every part of every stream satisfies, `OutputBuffer` and
  `SizeIndependence` when the size of the output buffer does not matter, `SizeDependence` when it does,
  `SizeCondition` the exact condition; `FileSizes` is the limit on files.
  `FieldPrinter` and `OutputChain` print the body that is passed on,
  `RoundTrip` and `Forwarding` show that printer and parser undo each other and that a body passed on
  means what the request meant. `BodyReader` is the loop that receives a request body, `Reception` the same
  with the parser as its handler.
- **AMF 0** (Action Message Format AMF 0, sections 2.2 to 2.5, 2.7 and 2.10 to 2.12). `Amf` holds values and
  their encoding, `AmfReader` the schema-driven reader on bytes, `AmfChain` the same over fragmented
  buffers, `AmfWriter` the writer into allocated buffers; `AmfBinding` and `AmfRoundTrip` relate them for one
  value, `AmfLists` for the list of a command, `AmfEdges` beyond whole values.
- **HTTP-FLV.** `SharedBufs` copies chains, `FlvStream` frames messages as FLV tags in HTTP chunks,
  `ChunkClient` is a decoder written from section 4.1 of RFC 7230, `FlvReader` walks a stored file,
  `FlvTrailers` reads a stream from its end.
  `OutQueue` is the ring of messages of one session, `SharedMessages` the reference counts over all.
- **Codec headers.** `Bits`, `BitReader` and `BitFields` are the bit reader and the codes of ITU-T H.264
  section 9.1; `AvcHeader` and `AacHeader` parse the two configuration records.
- **Smaller parts.** `ProgressTree` and `ProgressIndex` are the upload progress index, `Eval` is the string
  interpolator, `Listening` groups listen addresses into sockets, `ListenRuns` reads whole configurations.
  `Bytes`, `Sequences` and `Wrappers` are helpers.

Code that works step by step is a class or a method with loops, proved equal to a function or to a stated
property; the main results are lemmas about these functions.

## Where the code does not do what it seems meant to

Each of these is a theorem; where the members named are not equivalences they are the failing family and
the condition under which the code does what it should.

- A segment of a single byte is accepted from the header (`PrintedRangeParses`) but refused in the state
  file: recorded alone, it ends the session (`IsolatedByteJams`, `MergeText`).
- `upload_merge_buffer_size` may be set so small that there is no room to read (`SmallestBuffer`).
- The number being read is reset when a buffer begins, so that a buffer which ends behind a digit shortens a
  number (`ResumeLosesDigits`). A state file of two buffers is then merged as if it held that number, or
  refused; it comes out right exactly in the cases of `CutRightIff`. It claims bytes that were neither recorded
  nor sent now exactly if a start is cut, such a byte stands between the start that is read and the true one,
  and the line is not dropped (`CutClaimsIff`); `CutMadeGood` is a cut start that does no harm. The merge then
  reports a complete file falsely exactly under the further condition of `FalselyCompleteIff`
  (`CompleteTooEarly`), and an upload of three honest segments is declared finished with bytes missing
  (`FinishedTooEarly`). The default size is no protection: it only takes a file of two buffers.
- Writing moves the file offset on, which the finish handler relies on
  (`ngx_media_other/ngx_media_upload_module.c:1579`) and the loop of the merger does not expect: as much text
  as is written before the end of the file is skipped. No write reaches unread text, and the loop does what
  one buffer with the remaining text would do (`StateFileIsSeen`). The whole file is read exactly if no buffer
  ends behind a digit and no buffer before the last two prints (`ReadWhole`); then the merge is right
  (`StateFileMerged`). A skip to the end of the file loses its tail for certain (`SkippedTailLost`,
  `FirstBufferPrints`, `MergedIffSilent`). A skip of whole lines loses lines, but claims nothing that was not
  sent (`OrderlyMerge`, `OrderlyClaims`, `OrderlyRightIff`); one that begins or ends inside a line can claim
  such bytes (`SkipInsideLine`). In general the merge is that of the lines read (`MergedAsRead`), and whether it
  claims a byte falsely depends on these alone (`NoFalseClaimIff`): an upload is genuine as long as its merges
  are honest in this sense (`UploadIsGenuine`, `HonestIff`).
- A state file that is refused in its second buffer has been overwritten already (`RefusedAfterWrite`).
- With `upload_max_output_body_len` the size of the output buffer matters: data of a refused field stays
  charged up to the last flush that was accepted, and aborting the part does not give it back, so that a
  small buffer can make a later field or the whole request fail (`SizeMatters`, `SizeDecides`). It matters to
  no request exactly if there is no such limit, or one that leaves no room for any field (`SizesAgreeIff`);
  and not to a request on which no field outgrows a body that was not full (`RoomySizes`), as is every request
  that a buffer of one byte lets pass (`SmallestDecides`).
- After a part that ended with a bare LF the matcher keeps the CR of the next delimiter in the body, unless
  the body holds a line feed (`BodyHit`).
- A field name that ends in `filename=` is printed in a form that is not read back (`PrintParse`); in front of a
  file name it is taken for the beginning of that name (`FileLineParsed`).
- Of a file name that starts with its only separator nothing is cut off (`FileLineParsed`). If directories are
  cut off the name of an attachment, the uncut name becomes its field name (`AttachmentParsed`).
- A first delimiter right behind a dash is missed (`DelimiterBehindDash`).
- The dummy field is appended after the size test (`ClosedBodyFits`); that it does not fit is answered 500
  (`CloseAnswers`).
- A request with more than its content length in the header buffer hands all of it on (`ReadBody`).
- The FLV reader moves its reference timestamp on for tags it does not send, so that a dropped or oversized
  tag shifts the clock of the peer (`PeerClock`).
- Cropping offsets are taken in units of two, which is wrong for interlaced video and for chroma formats
  other than 4:2:0 (`DimensionsRight`); the chroma fields of five profiles are not expected (`ProfilesRead`); a
  parameter set with another NAL header than 0x67 is passed over
  (`ParseAvcHeader`).
- The flags for spectral band replication and parametric stereo are never cleared (`ParseAacHeader`).
- An upload id of 256 bytes or more is registered but never found again (`RegisteredIsFound`).

## Model

| member | source | states |
|---|---|---|
| Ranges.MergeIsUnion | ngx_media_other/ngx_media_upload_module.c:1896-2045 | merging a range into a sorted list with gaps gives a sorted list with gaps that records exactly the old bytes and the new ones |
| Ranges.CompleteIffWhole | ngx_media_other/ngx_media_upload_module.c:2024-2038 | `complete_ranges` is set if and only if every byte of [0, total) is recorded |
| Ranges.Canonical | ngx_media_other/ngx_media_upload_module.c:1962-2000 | a list with gaps is determined by the bytes it records |
| Ranges.MergeAllIsUnion | ngx_media_other/ngx_media_upload_module.c:1896-2045 | successive list merges of any arrivals record exactly their bytes |
| Ranges.OrderIrrelevant | ngx_media_other/ngx_media_upload_module.c:1896-2045 | successive list merges in any order and with any repetition leave the same list |
| RangeHeader.ParseRange | ngx_media_other/ngx_media_upload_module.c:4074-4128 | the loop over the header value gives the range its characters spell, or refuses it; a total that is missing behind the slash is what the structure held before |
| RangeHeader.ReadNumbers | ngx_media_other/ngx_media_upload_module.c:4083-4115 | the three numbers and the separators between them, read one by one |
| RangeHeader.PrintedRangeParses | ngx_media_other/ngx_media_upload_module.c:4117-4128 | a printed range is accepted if and only if 0 <= start <= end < total, a single byte included |
| RangeText.Merger.BufMergeRange | ngx_media_other/ngx_media_upload_module.c:1896-2045 | one call on a buffer does what reading its characters one after the other does, output buffer and flags included, or fails where that fails |
| RangeText.Merger.EndLine | ngx_media_other/ngx_media_upload_module.c:1935-2003 | the end of a line: refuse it, copy it, put the new range before it, or absorb it |
| RangeText.FoldAppend | ngx_media_other/ngx_media_upload_module.c:1903-2016 | reading in two parts is reading at once |
| RangeTextProofs.FoldLine | ngx_media_other/ngx_media_upload_module.c:1876-1893 | the printed form of a range reads back as that range |
| RangeTextProofs.FoldText | ngx_media_other/ngx_media_upload_module.c:1896-2045 | reading the printed lines of a list makes the merge pass over the list, unless a line fails the reader |
| RangeTextProofs.MergeText | ngx_media_other/ngx_media_upload_module.c:1896-2045 | a state file read in one buffer becomes the text of the merged list, and is refused if and only if it holds a range of one byte |
| RangeTextProofs.IsolatedByteJams | ngx_media_other/ngx_media_upload_module.c:1941-1951 | a segment of one byte that touches no other is recorded and makes every later merge of the session fail |
| RangeTextProofs.ResumeLosesDigits | ngx_media_other/ngx_media_upload_module.c:1905 | digits read before a buffer ends are lost, and the number comes out right if and only if they were worth 0 |
| RangeFile.SmallestBuffer | ngx_media_other/ngx_media_upload_module.c:2084-2088 | in_buf has room if and only if merge_buffer_size is at least 127; below 125 out_buf ends behind the allocation |
| RangeFile.MergeRanges | ngx_media_other/ngx_media_upload_module.c:2047-2158 | the loop over the file does, buffer by buffer, what the functional rewriting does: same file, same return code |
| RangeFile.Turn | ngx_media_other/ngx_media_upload_module.c:2100-2137 | one turn: read, write what the turn before printed, parse |
| RangeFile.CloseFile | ngx_media_other/ngx_media_upload_module.c:2139-2157 | the last write and the truncation, then NGX_OK if the ranges are complete and NGX_AGAIN otherwise |
| RangeFileProofs.NeverAhead | ngx_media_other/ngx_media_upload_module.c:2088-2137 | whatever part of the file was read, the output is at most one line longer |
| RangeFileProofs.PrintedPerBuffer | ngx_media_other/ngx_media_upload_module.c:2088-2098 | one buffer of input prints at most its own length and two lines |
| RangeFileProofs.OutputFits | ngx_media_other/ngx_media_upload_module.c:2084-2098 | out_buf has room for what a full in_buf prints, for every merge_buffer_size that leaves room for reading |
| RangeFileProofs.InPlaceIsCopy | ngx_media_other/ngx_media_upload_module.c:2100-2137 | rewriting in place gives what copying to another file would give, as long as nothing is written while there is more to read than the buffer at hand |
| RangeFileProofs.CopyIsWhole | ngx_media_other/ngx_media_upload_module.c:1896-2045 | read in buffers that do not end behind a digit, the text gives what it gives read at once |
| RangeFileProofs.StateFileMerged | ngx_media_other/ngx_media_upload_module.c:2047-2158 | the rewritten file is the text of the merged list: for files of any length of which no buffer before the last two prints, as a write moves the file offset, and for all if it did not |
| RangeFileCodes.MergedCode | ngx_media_other/ngx_media_upload_module.c:2150 | on such a file the answer is NGX_OK if every byte of [0, total) was recorded or is new, and NGX_AGAIN otherwise |
| RangeFileCodes.OneBufferCode | ngx_media_other/ngx_media_upload_module.c:2128-2150 | on any file of one buffer it is NGX_ERROR if a range of one byte is recorded, else NGX_OK if every byte is there, else NGX_AGAIN |
| RangeFileCodes.RefusedIff | ngx_media_other/ngx_media_upload_module.c:2128-2133 | on any text it is NGX_ERROR if and only if the reader refuses what the loop has seen of it |
| RangeFileCodes.MergeStored | ngx_media_other/ngx_media_upload_module.c:2047-2158 | merge_ranges on a state file that holds a list: which of the three codes it returns, if and only if |
| RangeFileSeen.InPlaceReads | ngx_media_other/ngx_media_upload_module.c:2100-2157 | no write ever reaches text that is still to be read, on any text: the offset moves on by everything that is written |
| RangeFileSeen.StateFileIsSeen | ngx_media_other/ngx_media_upload_module.c:2047-2158 | for every text, new range and buffer size the loop leaves what one buffer with the text it has seen would leave, the text without skipped parts and without digits before a cut, and fails where that fails |
| RangeFileSkips.ReadWhole | ngx_media_other/ngx_media_upload_module.c:2100-2137 | the whole file is read, to its end, if and only if no buffer ends behind a digit and no buffer before the last two prints |
| RangeFileSkips.SkippedTailLost | ngx_media_other/ngx_media_upload_module.c:2105-2137 | if the first write made while there is more to read moves the offset to the end of the file, its last line and whatever the skip covers are lost, the call asks for more, and the file is never the merged list |
| RangeFileSkips.FirstBufferPrints | ngx_media_other/ngx_media_upload_module.c:2105-2137 | so it is with every file longer than two buffers of which the first prints at least what stands behind the second |
| RangeFileSkips.MergedIffSilent | ngx_media_other/ngx_media_upload_module.c:2047-2158 | among files cut between numbers whose first skip, if there is one, reaches the end: merged right if and only if no buffer before the last two prints |
| RangeFileCuts.CutPlace | ngx_media_other/ngx_media_upload_module.c:2100-2111 | every cut behind a digit falls into one number of one line |
| RangeFileCuts.CutNumber | ngx_media_other/ngx_media_upload_module.c:1903-1905 | a file of two buffers cut inside a number is merged as if that number began behind the cut, or refused by the line test; a total that is cut is always refused |
| RangeFileCuts.TextInjective | ngx_media_other/ngx_media_upload_module.c:1876-1893 | the text of a list tells the list |
| RangeFileCuts.CutRightIff | ngx_media_other/ngx_media_upload_module.c:1903-1905 | a file of two buffers cut behind a digit is merged right if and only if the list with the shortened number is readable and merges to the same list |
| RangeFileExamples.CompleteTooEarly | ngx_media_other/ngx_media_upload_module.c:1903-1905 | 0-9 and 100-200 of 1000 recorded, 201-999 arriving, an in_buf of 11: NGX_OK although bytes 10 to 99 were never sent |
| RangeFileExamples.CutMadeGood | ngx_media_other/ngx_media_upload_module.c:1903-1905 | the same file and buffer with 10-99 arriving: the cut number does no harm |
| RangeFileExamples.SkipInsideLine | ngx_media_other/ngx_media_upload_module.c:2105-2137 | a skip that begins and ends inside lines joins two ranges to one and claims bytes that were never sent |
| RangeFileExamples.RefusedAfterWrite | ngx_media_other/ngx_media_upload_module.c:2117-2137 | a file of two buffers refused in the second is left with the output of the first written over its beginning |
| RangeFileLines.OrderlyMerge | ngx_media_other/ngx_media_upload_module.c:2047-2158 | a file of which only whole lines are skipped and no number is cut is merged as the list of the lines read, or refused for a range of one byte |
| RangeFileLines.OrderlyClaims | ngx_media_other/ngx_media_upload_module.c:2047-2158 | such a merge claims no byte that was neither recorded nor new, and reports completeness only if these are the whole file |
| RangeFileLines.OrderlyRightIff | ngx_media_other/ngx_media_upload_module.c:2047-2158 | such a merge leaves the merged list if and only if the end of the file is noticed and the new range makes up for the lines missed |
| RangeFileLines.WholeIsOrderly | ngx_media_other/ngx_media_upload_module.c:2100-2137 | files of at most two buffers not cut behind a digit, and longer ones of which no buffer before the last two prints, are of that kind |
| RangeFileClaims.MergedAsRead | ngx_media_other/ngx_media_upload_module.c:2047-2158 | any file is merged as the list of the lines the reader comes to the end of, or refused |
| RangeFileClaims.ClaimsOf | ngx_media_other/ngx_media_upload_module.c:1962-2003 | after the pass over any list a byte that is not new is claimed if and only if it stands in a line that is not dropped: absorbed when the new range was written already, or will not be |
| RangeFileClaims.NoFalseClaimIff | ngx_media_other/ngx_media_upload_module.c:2047-2158 | for every file, new range and buffer size, unless refused: no byte is claimed that was neither recorded nor new if and only if every line read and not dropped lies within these; completeness is reported only if all bytes are claimed |
| RangeFileCutClaims.CutClaimsIff | ngx_media_other/ngx_media_upload_module.c:1903-1905 | a file of two buffers cut behind a digit and accepted claims a byte neither recorded nor new if and only if the cut falls into a start, a byte from the start read to the true one is missing, and the line is not dropped |
| RangeFileCutClaims.FalselyCompleteIff | ngx_media_other/ngx_media_upload_module.c:2024-2038 | it is declared complete with a byte missing if and only if besides the line is absorbed before the new range was written and every byte from there on is there |
| RangeFileCutClaims.HarmlessCut | ngx_media_other/ngx_media_upload_module.c:1903-2003 | after a cut that claims nothing falsely the file is again the text of a list with gaps |
| UploadSession.StepInv | ngx_media_other/ngx_media_upload_module.c:1204-1757 | every step of a session whose merge is honest keeps it that the state file is the text of a list and the recorded bytes are those of the file and lie in the output file |
| UploadSession.FinishedFileIsGenuine | ngx_media_other/ngx_media_upload_module.c:1549-1672 | the same over whole runs of starts, writes, finishes and aborts of overlapping segments, each finish rewriting the state file through the buffers |
| UploadSession.UploadIsGenuine | ngx_media_other/ngx_media_upload_module.c:1579-1626 | in a run with honest merges, when the upload is declared finished, which the code NGX_OK decides, every byte of [0, total) of the output file is the byte of the file |
| UploadSession.HonestIff | ngx_media_other/ngx_media_upload_module.c:2047-2158 | a merge that is not refused is honest if and only if the new state file claims no byte that was neither recorded nor in the new range |
| UploadSession.FlushWrites | ngx_media_other/ngx_media_upload_module.c:1717-1757 | a flush writes every byte that lies in the range of its segment, at its place, and touches no other byte |
| UploadSession.SegmentAfter | ngx_media_other/ngx_media_upload_module.c:1204-1757 | a segment moves on by what it wrote itself and is closed by its own end only |
| UploadSession.RecordKept | ngx_media_other/ngx_media_upload_module.c:1579-1592 | a segment that was not received in full leaves state file and verdict alone |
| CarefulUploads.CarefulIsHonest | ngx_media_other/ngx_media_upload_module.c:2047-2158 | files of which whole lines are skipped, and files of two buffers with a harmless cut, are merged honestly and stay lists with gaps |
| CarefulUploads.CarefulIffHonest | ngx_media_other/ngx_media_upload_module.c:2047-2158 | for files of two buffers at most that are not refused these are all the honest merges |
| CarefulUploads.CarefulUpload | ngx_media_other/ngx_media_upload_module.c:1579-1626 | in a run of such merges the upload is genuine and the state file a list with gaps throughout |
| CarefulUploads.SmallFileIsCareful | ngx_media_other/ngx_media_upload_module.c:2100-2137 | a merge is of that kind if the state file has at most two buffers and is not cut behind a digit, the second only if its lines are accepted |
| CarefulUploads.FinishRecords | ngx_media_other/ngx_media_upload_module.c:1593-1626 | a merge that reads the whole file records exactly the old bytes and the new ones, and finishes the upload if and only if they are the whole file |
| EarlyFinish.FinishedTooEarly | ngx_media_other/ngx_media_upload_module.c:1593-1626 | three honest segments after which the upload is declared finished with bytes 10 to 99 never received, merge_buffer_size being 148 |
| Matcher.AdvanceConserves | ngx_media_other/ngx_media_upload_module.c:4233-4272 | a byte is either output or still matched: consumed bytes are output bytes followed by boundary[boundary_start..boundary_pos) |
| Matcher.AdvanceTracks | ngx_media_other/ngx_media_upload_module.c:4233-4272 | the restart of the matcher misses no delimiter: a delimiter that has begun is the one being matched |
| Matcher.BodyOpen | ngx_media_other/ngx_media_upload_module.c:4233-4272 | as long as LF -- boundary has not occurred the part goes on |
| Matcher.BodyHit | ngx_media_other/ngx_media_upload_module.c:4233-4272 | the part ends with the first LF -- boundary, and its body is what stands before, without the CR that belongs to the delimiter unless the matcher still expects a bare LF |
| Matcher.BodyStops | ngx_media_other/ngx_media_upload_module.c:4233-4272 | the same in any longer stream: what follows is not looked at |
| UploadParser.UploadCtx.ProcessBuf | ngx_media_other/ngx_media_upload_module.c:4141-4282 | a buffer changes the context as its bytes do one by one, the byte that is read again included; an empty buffer asks for the verdict |
| UploadParser.UploadCtx.DataStep | ngx_media_other/ngx_media_upload_module.c:4233-4272 | one byte in the data state, with the lump that is replayed and the second reading of the byte |
| UploadParser.UploadCtx.ProcessByte | ngx_media_other/ngx_media_upload_module.c:4152-4277 | the switch over the five states |
| UploadParser.UploadCtx.PutMatched | ngx_media_other/ngx_media_upload_module.c:4250-4256 | the partially matched delimiter goes to the sinks byte by byte |
| UploadParser.UploadCtx.FlushOutputBuffer | ngx_media_other/ngx_media_upload_module.c:3764-3773 | a filled output buffer goes to the handler, whose refusal makes the part one to discard |
| Multipart.FeedAppend | ngx_media_other/ngx_media_upload_module.c:4141-4282 | the cut of the stream in buffers changes nothing |
| Multipart.PutAllAppend | ngx_media_other/ngx_media_upload_module.c:4130-4139 | the sinks take two pieces as they take one |
| Multipart.FeedFinished | ngx_media_other/ngx_media_upload_module.c:4274-4276 | nothing is looked at behind the closing delimiter |
| OutputBuffer.BufferSizeIrrelevant | ngx_media_other/ngx_media_upload_module.c:4130-4139 | for sinks that do not judge the data, any two output buffer sizes give the same parts, state and verdict on every stream |
| SizeIndependence.RegularIff | ngx_media_other/ngx_media_upload_module.c:1717-1794 | the handlers of the module are such sinks if and only if there is neither max_output_body_len nor max_file_size and no write to a file fails |
| SizeIndependence.UnlimitedSizes | ngx_media_other/ngx_media_upload_module.c:4130-4139 | with these handlers any two sizes give the same parts and verdict |
| SizeIndependence.RoomySizes | ngx_media_other/ngx_media_upload_module.c:1717-1794 | with the handlers of the module, any max_output_body_len and any max_file_size: whether a field outgrows a body that was not full does not depend on the buffer size, and if none does any two sizes give the same parts, verdict and body passed on |
| SizeDependence.SizeMatters | ngx_media_other/ngx_media_upload_module.c:1702-1794 | a first field outgrows the limit: with a buffer of one byte it is charged up to the limit and the second field is refused, with a large one the second field is passed on |
| SizeDependence.SizeDecides | ngx_media_other/ngx_media_upload_module.c:1088-1091 | for every limit with room for the head of a field and the closing delimiter there is a request answered 413 with one size and passed on with another |
| SizeCondition.SizesAgreeIff | ngx_media_other/ngx_media_upload_module.c:1717-1794 | any two sizes agree on every request if and only if there is no limit on the body or it leaves no room for the head of any field passed on and the closing delimiter |
| SizeCondition.SmallestDecides | ngx_media_other/ngx_media_upload_module.c:1759-1763 | a request that is passed on with a buffer of one byte comes to the same with any other |
| FileSizes.FilesFit | ngx_media_other/ngx_media_upload_module.c:1745-1748 | a file that is finished is within max_file_size, on every stream and with every buffer size |
| PartInvariant.PutAllEmits | ngx_media_other/ngx_media_upload_module.c:4130-4139 | as long as no flush is refused the sinks take every byte in order |
| PartInvariant.StepInv | ngx_media_other/ngx_media_upload_module.c:4141-4282 | what every byte keeps: names without quotes and line ends, data without the delimiter |
| PartInvariant.PartsAreClean | ngx_media_other/ngx_media_upload_module.c:4141-4282 | every finished part of every stream has a printable name and data in which LF -- boundary does not occur |
| PartInvariant.ParsedNameClean | ngx_media_other/ngx_media_upload_module.c:3595-3671 | a name taken from a header line holds no quote, line end or NUL |
| PartHeader.Find | ngx_media_other/ngx_media_upload_module.c:3609-3640 | the first occurrence of an attribute, or none |
| PartHeader.Until | ngx_media_other/ngx_media_upload_module.c:3612-3654 | the place of the closing quote |
| FileParts.FileLineParsed | ngx_media_other/ngx_media_upload_module.c:3595-3671 | a header line with a field name and a file name gives both: of the file name what stands behind the last separator, or all of it if the only separator comes first; a field name that ends in `filename=` spoils it |
| FileParts.AttachmentParsed | ngx_media_other/ngx_media_upload_module.c:3609-3660 | a line with a file name alone gives no field name, unless directories were cut off: then the uncut name becomes the field name |
| FileParts.TypeLineParsed | ngx_media_other/ngx_media_upload_module.c:3692-3711 | a Content-Type line adds the type behind the spaces and changes nothing else; an empty one is malformed |
| FileParts.PaddedAt | ngx_media_other/ngx_media_upload_module.c:3703-3711 | a type with a NUL in it is NULs from there on |
| FileParts.AnyCase | ngx_media_other/ngx_media_upload_module.c:3602-3605 | header names and disposition types are compared without regard to the case of ASCII letters |
| FileParts.ReadLines | ngx_media_other/ngx_media_upload_module.c:4188-4231 | header lines are parsed in order, and the first one that is malformed or too long for the buffer ends the request |
| FileParts.ReadPart | ngx_media_other/ngx_media_upload_module.c:4152-4277 | a part behind a delimiter is finished with the attributes its header lines give and all of its data, or refused |
| FileParts.ReadFilePart | ngx_media_other/ngx_media_upload_module.c:4152-4277 | a whole file part comes out with its field name, file name, type and data if and only if its header lines fit the buffer |
| MultipartEdges.DelimiterBehindPreamble | ngx_media_other/ngx_media_upload_module.c:4156-4168 | text without a dash in front of the first delimiter is skipped |
| MultipartEdges.DelimiterBehindDash | ngx_media_other/ngx_media_upload_module.c:4156-4168 | a first delimiter right behind a dash is missed, as the search does not look again at the character that failed |
| MultipartEdges.PaddingIgnored | ngx_media_other/ngx_media_upload_module.c:4169-4180 | what follows a delimiter on its line is ignored |
| MultipartEdges.BareLineFeed | ngx_media_other/ngx_media_upload_module.c:4185-4224 | a header line may end with a line feed alone |
| MultipartEdges.OtherHeader | ngx_media_other/ngx_media_upload_module.c:3673-3714 | a header of another name says nothing of the part |
| FieldPrinter.PrintedLine | ngx_media_other/ngx_media_upload_module.c:3595-3711 | the header line that append_field prints gives back the name, if and only if the name does not end in `filename=` |
| RoundTrip.ReadValue | ngx_media_other/ngx_media_upload_module.c:4233-4272 | a printed value is the data of its part |
| RoundTrip.ReadHeaders | ngx_media_other/ngx_media_upload_module.c:4188-4231 | a printed header opens a part of that name if the name is readable, and is refused otherwise |
| RoundTrip.ParsePrinted | ngx_media_other/ngx_media_upload_module.c:4141-4282 | parsing a printed body of clean fields: all parts and `finish`, or a malformed body if a name is not readable |
| RoundTrip.PrintParse | ngx_media_other/ngx_media_upload_module.c:1824-1874 | printing a list of fields with the closing delimiter and parsing the result gives exactly these parts in order if and only if every field is printable |
| RawInput.RawCtx.ProcessRawBuf | ngx_media_other/ngx_media_upload_module.c:4284-4313 | a raw body: the start at the first buffer, a flush for each, the end |
| RawInput.WholeBodyIsOnePart | ngx_media_other/ngx_media_upload_module.c:4284-4313 | for any cut in buffers a raw body becomes one finished part with all its bytes if and only if its start and each of its buffers are accepted |
| RawInput.DiscardedIff | ngx_media_other/ngx_media_upload_module.c:4295-4309 | the sinks are told the start and each buffer once, in order, and the part is one to discard if and only if one of these calls was not accepted |
| RawInput.StartRefused | ngx_media_other/ngx_media_upload_module.c:4295-4302 | a refused start leaves the part unstarted and no part finished |
| OutputChain.OutputBody.AppendFormField | ngx_media_other/ngx_media_upload_module.c:1824-1874 | the links, the double charge of the length and the 413, in place |
| OutputChain.OutputBody.StartHandler | ngx_media_other/ngx_media_upload_module.c:1501-1543 | a field that is passed on is opened in the chain, another one discarded |
| OutputChain.OutputBody.FlushHandler | ngx_media_other/ngx_media_upload_module.c:1717-1794 | field data goes into the chain within the limit |
| Forwarding.FinishBuilds | ngx_media_other/ngx_media_upload_module.c:1666-1668 | a finished part moves the checkpoint so that what is committed is the print of the finished fields with this one |
| OutputChain.OutputBody.AbortHandler | ngx_media_other/ngx_media_upload_module.c:1702-1715 | the chain returns to the checkpoint; without one it is empty and the next field is the first |
| OutputChain.OutputBody.BodyHandler | ngx_media_other/ngx_media_upload_module.c:1088-1134 | the closing delimiter, the dummy field and the last size test: 413 if and only if the closing delimiter does not fit, 500 if and only if only the dummy does not |
| OutputChain.CloseAnswers | ngx_media_other/ngx_media_upload_module.c:1088-1099 | 413 if and only if the closing delimiter does not fit, 500 if and only if it does but the dummy field of a request without fields does not |
| Forwarding.StepLink | ngx_media_other/ngx_media_upload_module.c:1204-1794 | every byte keeps it that the chain is the print of what finished parts appended and the part begun, and that the first field is the one without CR LF |
| Forwarding.RunLink | ngx_media_other/ngx_media_upload_module.c:1204-1794 | the same over whole requests, aborted parts included |
| Forwarding.ClosedIsPrinted | ngx_media_other/ngx_media_upload_module.c:1088-1134 | the closed body is the print of the fields of the finished parts, in order |
| Forwarding.ForwardedBodyMeansTheSame | ngx_media_other/ngx_media_upload_module.c:1088-1134 | the body passed on parses to exactly the fields that were taken from the request, if and only if their names are readable |
| Forwarding.ChainFits | ngx_media_other/ngx_media_upload_module.c:1796-1874 | the chain never exceeds max_output_body_len |
| Forwarding.ClosedBodyFits | ngx_media_other/ngx_media_upload_module.c:1088-1134 | with the closing delimiter it stays within the limit if and only if no dummy field was needed or that one fits too |
| BodyReader.Body.ReadBody | ngx_media_other/ngx_media_upload_module.c:3195-3360 | every byte of what was preread and received is handed on once and in order; with the whole body preread nothing is received, and otherwise the answer is that of DoRead |
| BodyReader.Body.DoRead | ngx_media_other/ngx_media_upload_module.c:3417-3564 | for any sizes of recv nothing is lost between two events; 400 for want of data if and only if a recv of this call found the connection closed or broken, the next event is awaited if and only if the last recv found nothing, or something with room left and no more ready; a refusal becomes 400, 413, 503 or 500; completion means the whole body was handed on, with the end signalled once for raw input |
| BodyReader.Body.Round | ngx_media_other/ngx_media_upload_module.c:3433-3540 | one turn of the loop: at most one recv, and which of its results ends the call |
| BodyReader.Body.Fill | ngx_media_other/ngx_media_upload_module.c:3455-3507 | a recv never asks for more than is still expected |
| BodyReader.Body.Flush | ngx_media_other/ngx_media_upload_module.c:3435-3453 | a full buffer is handed on and starts again |
| BodyReader.Body.ProcessBody | ngx_media_other/ngx_media_upload_module.c:3566-3593 | all buffers to the handler, then the end if nothing more is expected |
| BodyReader.Body.Prepare | ngx_media_other/ngx_media_upload_module.c:3268-3357 | where the rest of the body goes, and that nothing is lost or too small whichever buffer is chosen |
| BodyReader.Connection.Recv | ngx_media_other/ngx_media_upload_module.c:3479-3500 | recv gives the next bytes of the stream, at most as many as there is room for |
| BodyReader.Handler.Data | ngx_media_other/ngx_media_upload_module.c:3571-3579 | the handler is never given an empty buffer, nor anything after the end |
| Reception.Serve | ngx_media_other/ngx_media_upload_module.c:4141-4282 | the parser as data handler: after each buffer it stands where it would after all bytes so far, and answers its verdict on them |
| Reception.Receive | ngx_media_other/ngx_media_upload_module.c:3195-3360 | whatever recv returns and whatever buffers are chosen: the answer to a request is the verdict of the parser on its body; without one the next event is awaited, or 400 is the answer to a recv that found the connection closed or broken |
| Reception.Resume | ngx_media_other/ngx_media_upload_module.c:3417-3564 | the same for every later event |
| AmfChain.ReadCtx.Get | ngx_media_rtmp/ngx_rtmp_amf.c:68-114 | n bytes across buffer ends, or nothing if the input is too short, whatever the fragmentation |
| AmfChain.ReadCtx.Collect | ngx_media_rtmp/ngx_rtmp_amf.c:78-107 | the loop over the links |
| AmfChain.ReadCtx.ReadElts | ngx_media_rtmp/ngx_rtmp_amf.c:311-468 | reading from a fragmented chain is reading from the bytes in one piece |
| AmfChain.ReadCtx.ReadOneInto | ngx_media_rtmp/ngx_rtmp_amf.c:323-360 | one element: its marker, the elements that are refused for their flags, skipped, kept in context or read |
| AmfChain.ReadCtx.ReadBodyInto | ngx_media_rtmp/ngx_rtmp_amf.c:362-463 | the switch over the types |
| AmfChain.ReadCtx.ReadStringInto | ngx_media_rtmp/ngx_rtmp_amf.c:379-405 | a string is cut to the buffer and ended with a NUL, and the rest of it is skipped |
| AmfChain.ReadCtx.ReadObjectInto | ngx_media_rtmp/ngx_rtmp_amf.c:174-247 | fields up to the empty key, for any order of keys and elements |
| AmfChain.ReadCtx.ReadArrayInto | ngx_media_rtmp/ngx_rtmp_amf.c:251-270 | the items of a strict array |
| AmfChain.ReadCtx.ReadVariantInto | ngx_media_rtmp/ngx_rtmp_amf.c:274-298 | the alternative of the marker, the last one if several have it |
| AmfChain.ReadCtx.ReadKey | ngx_media_rtmp/ngx_rtmp_amf.c:196-226 | a key, read in full or as far as the longest name reaches, finds the first element of that name |
| AmfReader.ReadObject | ngx_media_rtmp/ngx_rtmp_amf.c:174-247 | reading an object terminates: every field consumes bytes |
| AmfReader.ReadOne | ngx_media_rtmp/ngx_rtmp_amf.c:323-360 | one element never gives back bytes it has consumed |
| AmfBinding.ReadOneBinds | ngx_media_rtmp/ngx_rtmp_amf.c:311-468 | reading a well-formed value with any schema consumes exactly its bytes and binds it: skipped, incompatible, reordered or variant elements included |
| AmfBinding.ReadBodyBinds | ngx_media_rtmp/ngx_rtmp_amf.c:362-463 | the same for what follows the marker |
| AmfBinding.ReadFieldsBinds | ngx_media_rtmp/ngx_rtmp_amf.c:174-247 | each field goes to the first element of its name, if there is one |
| AmfBinding.ReadItemsBinds | ngx_media_rtmp/ngx_rtmp_amf.c:251-270 | each item goes to the element of its index |
| AmfBinding.ReadVariantBinds | ngx_media_rtmp/ngx_rtmp_amf.c:274-298 | a value goes to the alternative of its type and to no other |
| AmfRoundTrip.SlotAfterFields | ngx_media_rtmp/ngx_rtmp_amf.c:174-247 | after an object each element is what the last field of its name with a value it takes made of it, and unchanged if there is none |
| AmfRoundTrip.CellAfterFields | ngx_media_rtmp/ngx_rtmp_amf.c:174-247 | a scalar element holds what that last field alone stores |
| AmfRoundTrip.LastFieldWins | ngx_media_rtmp/ngx_rtmp_amf.c:229-240 | the fields are bound in order: one more field is bound behind all others, at the place where its value stands |
| AmfRoundTrip.ShadowedNeverFilled | ngx_media_rtmp/ngx_rtmp_amf.c:220-233 | an element whose name an earlier one matches is never filled |
| AmfRoundTrip.ObjectsAlike | ngx_media_rtmp/ngx_rtmp_amf.c:302-308 | an element for objects is filled from a mixed array as from an object |
| AmfReader.CutFits | ngx_media_rtmp/ngx_rtmp_amf.c:379-396 | of a string as much is stored as fits in front of the NUL |
| AmfLists.ListBinds | ngx_media_rtmp/ngx_rtmp_amf.c:323-468 | as many values as elements: all are consumed, and each element holds what the value of its own index makes of it, with the place of that value |
| AmfLists.ListEnds | ngx_media_rtmp/ngx_rtmp_amf.c:334-342 | input that ends before an element: an early NGX_OK if that element is optional, which leaves it and all later ones unchanged, an error otherwise |
| AmfEdges.CutBetweenFields | ngx_media_rtmp/ngx_rtmp_amf.c:200-204 | an object cut short between two fields, or one byte into a length, is accepted with the fields before |
| AmfEdges.IntegerRead | ngx_media_rtmp/ngx_rtmp_amf.c:435-453 | integers of one, two and four bytes are read without a marker and stored in the order of the host |
| AmfEdges.PlaceLeadsToBody | ngx_media_rtmp/ngx_rtmp_amf.c:353-358 | an element that asks for context gets the place behind the marker, from which the value can be read; the reading goes on behind the value |
| AmfLists.EncodedComesBack | ngx_media_rtmp/ngx_rtmp_amf.c:311-468 | a list of encoded values read with its schemas is consumed exactly and each value comes back whole, wherever the list stands |
| AmfWriter.WriteCtx.Put | ngx_media_rtmp/ngx_rtmp_amf.c:118-170 | all bytes, in as many buffers as it takes, each filled to the size it was allocated with before the next, unless memory runs out |
| AmfWriter.WriteCtx.Write | ngx_media_rtmp/ngx_rtmp_amf.c:534-652 | one value with its marker, for any buffer sizes |
| AmfWriter.WriteCtx.WriteBody | ngx_media_rtmp/ngx_rtmp_amf.c:553-648 | the switch over the types |
| AmfWriter.WriteCtx.WriteFields | ngx_media_rtmp/ngx_rtmp_amf.c:472-504 | the fields, the empty key and the end marker |
| AmfWriter.WriteCtx.WriteArray | ngx_media_rtmp/ngx_rtmp_amf.c:508-530 | the count and the items |
| AmfWriter.WriteCtx.WriteItems | ngx_media_rtmp/ngx_rtmp_amf.c:534-652 | all values of a list, in order |
| AmfWriter.WriteThenRead | ngx_media_rtmp/ngx_rtmp_amf.c:534-652 | a list of values written into buffers of any sizes and read back from any other cut of the same bytes fills every schema |
| Amf.Specimen | ngx_media_rtmp/ngx_rtmp_amf.c:534-652 | markers and lengths byte by byte: scalars |
| Amf.FieldSpecimen | ngx_media_rtmp/ngx_rtmp_amf.c:472-504 | objects and mixed arrays |
| Amf.ArraySpecimen | ngx_media_rtmp/ngx_rtmp_amf.c:508-530 | strict arrays |
| SharedBufs.CopyChain | ngx_media_rtmp/ngx_rtmp_shared.c:79-126 | all buffers of the copy but the last are full, and all are of one size |
| SharedBufs.AppendSharedBufs | ngx_media_rtmp/ngx_rtmp_shared.c:79-126 | a chain copied into shared buffers keeps its bytes, and no buffer stays empty if there is a byte |
| FlvStream.AppendSharedTag | ngx_media_rtmp/ngx_http_flv_live_module.c:2249-2381 | the copied message with tag header, size trailer and chunk framing, in buffers that are never empty |
| FlvStream.CopyTag | ngx_media_rtmp/ngx_http_flv_live_module.c:2262-2304 | the header goes before the first buffer, the trailer behind the last |
| FlvStream.AddChunk | ngx_media_rtmp/ngx_http_flv_live_module.c:2324-2377 | the chunk line before the tag, and CRLF into the last buffer or one of its own |
| FlvStream.ChunkSpecimen | ngx_media_rtmp/ngx_http_flv_live_module.c:2324-2377 | size line, line ends and last chunk byte by byte |
| FlvTrailers.StreamReadsBack | ngx_media_rtmp/ngx_http_flv_live_module.c:2262-2304 | from the end of a stream the sizes behind the tags lead back to the start of every tag |
| FlvTrailers.HeaderSays | ngx_media_rtmp/ngx_http_flv_live_module.c:482-503 | the header has signature, version, one flag each for audio and video, its own length and no tag before the first |
| ChunkClient.DecodeMore | ngx_media_rtmp/ngx_http_flv_live_module.c:2324-2377 | an RFC 7230 client that sees more of a stream has at least as much of the body, and a verdict stays |
| ChunkClient.DecodeChunk | ngx_media_rtmp/ngx_http_flv_live_module.c:2324-2331 | a chunk is decoded to its data |
| ChunkClient.ClientGetsFlv | ngx_media_rtmp/ngx_http_flv_live_module.c:482-503 | header chunk, tag chunks and tail decode to the FLV header and all tags; the body is complete if and only if the tail was sent |
| ChunkClient.ClientNeverMisled | ngx_media_rtmp/ngx_http_flv_live_module.c:946-967 | from any prefix of the response a client has a prefix of the FLV stream and finds nothing malformed |
| ChunkClient.PeerNeverMisled | ngx_media_rtmp/ngx_http_flv_live_module.c:1682-1760 | however much of the response was accepted and whatever part of it the session has sent, its peer has the HTTP header and a prefix of the FLV stream, and sees the end only when all of it is there |
| FlvReader.Reader.Send | ngx_media_rtmp/ngx_rtmp_flv_module.c:398-552 | one call: the fields of the tag, the new offset, the timestamps kept for the next message |
| FlvReader.FirstTag | ngx_media_rtmp/ngx_rtmp_flv_module.c:434-453 | the visit of a tag gives type, timestamp and payload if and only if the type fits five bits and the size 24 |
| FlvReader.WalkFindsAll | ngx_media_rtmp/ngx_rtmp_flv_module.c:427-503 | the walk over a stream visits every message in order if and only if all of them fit |
| FlvReader.StoredStreamIsFound | ngx_media_rtmp/ngx_rtmp_flv_module.c:427-503 | the same from the FLV header on |
| FlvReader.TrackFollows | ngx_media_rtmp/ngx_rtmp_flv_module.c:455-475 | last_audio, last_video and the message mask are the history of the visits |
| FlvReader.PeerClock | ngx_media_rtmp/ngx_rtmp_handler.c:609-621 | relative timestamps reach the peer right if and only if no tag with a new timestamp was dropped or skipped between two that were sent |
| OutQueue.DropRule | ngx_media_rtmp/ngx_http_flv_live_module.c:976-990 | the modular slot count is the number of queued messages plus one, so that the test is the drop rule |
| OutQueue.AcceptsMonotone | ngx_media_rtmp/ngx_http_flv_live_module.c:978-990 | a message accepted at one priority is accepted at any higher one and in any emptier ring, and one slot stays free |
| OutQueue.FreeQuarters | ngx_media_rtmp/ngx_http_flv_live_module.c:978-990 | a message is accepted if and only if the slots left free behind it are more than a quarter of the ring for each level of its priority, up to three |
| OutQueue.RingPush | ngx_media_rtmp/ngx_http_flv_live_module.c:992-993 | a slot filled at `out_last` is the last of the queue |
| OutQueue.Session.SendMessage | ngx_media_rtmp/ngx_http_flv_live_module.c:971-1010 | accepted if and only if the drop rule allows it; then queued last, with one reference more; the write handler runs, with an outcome of its own, if and only if the message is accepted, no write event is pending, and it is urgent, output is not buffered or enough messages wait |
| OutQueue.Session.WriteHandler | ngx_media_rtmp/ngx_http_flv_live_module.c:1682-1760 | for any results of send: what went out and what is queued is what was accepted, in order, and each finished message is released once; a send that would block leaves the session waiting, one that fails or a timeout ends it, and otherwise everything accepted is out, each if and only if |
| OutQueue.NeverRefused | ngx_media_rtmp/ngx_http_flv_live_module.c:1700-1731 | a handler whose sends are never refused gets everything out |
| OutQueue.Session.Transmit | ngx_media_rtmp/ngx_http_flv_live_module.c:1717-1752 | one send: bytes leave the front of the queue, and a message is released with its last byte |
| OutQueue.Session.Advance | ngx_media_rtmp/ngx_http_flv_live_module.c:1733-1752 | the move to the next buffer, the next message or the end |
| OutQueue.Session.Close | ngx_media_rtmp/ngx_http_flv_live_module.c:2424-2429 | each queued message is released once |
| OutQueue.AdvanceSound | ngx_media_rtmp/ngx_http_flv_live_module.c:1717-1752 | a partial send keeps it that wire and queue together are the accepted messages |
| OutQueue.EnqueueSound | ngx_media_rtmp/ngx_http_flv_live_module.c:992-995 | so does an accepted message |
| SharedMessages.StepBalanced | ngx_media_rtmp/ngx_rtmp_shared.c:60-75 | every count is its outside holders plus its slots over all sessions, after each step of any of them |
| SharedMessages.QueuedIsAlive | ngx_media_rtmp/ngx_rtmp_shared.c:60-75 | no queued message is on the free list |
| SharedMessages.AlwaysBalanced | ngx_media_rtmp/ngx_rtmp_shared.c:13-75 | the same after every run |
| SharedMessages.AllFreed | ngx_media_rtmp/ngx_http_flv_live_module.c:2424-2429 | when all sessions are closed and all holders let go, each chain was freed as often as it was taken |
| SharedMessages.LeavesRun | ngx_media_rtmp/ngx_http_flv_live_module.c:2424-2429 | messages that are gone from the head of a queue left it one by one, each with its reference |
| SharedMessages.SendIsRun | ngx_media_rtmp/ngx_http_flv_live_module.c:971-1010 | an accepted message and those that went out are one Accept and as many Leave events, and every count is as they leave it |
| SharedMessages.Send | ngx_media_rtmp/ngx_http_flv_live_module.c:971-1010 | send_message on a session of a balanced hub is such a run of it, or none |
| SharedMessages.Write | ngx_media_rtmp/ngx_http_flv_live_module.c:1682-1760 | the write handler is a run of Leave events |
| SharedMessages.Close | ngx_media_rtmp/ngx_http_flv_live_module.c:2424-2429 | closing a session is the run in which all its messages leave |
| Bits.ExtractIsVal | ngx_media_rtmp/ngx_rtmp_bitop.c:40 | shift and mask on a byte give the number its d bits spell |
| Bits.Accumulate | ngx_media_rtmp/ngx_rtmp_bitop.c:39-40 | so does the shifted and added accumulator, in 64-bit arithmetic |
| BitReader.Reader.Read | ngx_media_rtmp/ngx_rtmp_bitop.c:23-52 | the next n bits as a big-endian number and the position after them, or 0 and a sticky error |
| BitReader.Reader.ReadGolombCode | ngx_media_rtmp/ngx_rtmp_bitop.c:56-63 | zeros, the one bit and as many bits again, on every input |
| BitReader.ReadsCompose | ngx_media_rtmp/ngx_rtmp_bitop.c:23-52 | two reads in a row read what one read of both lengths reads |
| BitReader.ReadsFixed | ngx_media_rtmp/ngx_rtmp_bitop.c:23-52 | reading inverts u(n) for n up to 64 |
| BitReader.ReadsUe | ngx_media_rtmp/ngx_rtmp_bitop.c:56-63 | reading inverts ue(v) for every v below 2^64 - 1 and consumes exactly its 2k + 1 bits |
| AvcHeader.CodecCtx.ParseAvcHeader | ngx_media_rtmp/ngx_rtmp_codec_module.c:664-839 | a configuration written by section 7.3.2.1.1 of ITU-T H.264 gives back profile, level, sizes and reference frames; one without a set, or with another NAL header than 0x67, changes no size |
| AvcHeader.CodecCtx.ParseSps | ngx_media_rtmp/ngx_rtmp_codec_module.c:700-830 | the parameter set, high profiles and all picture order types included |
| AvcHeader.SkipChroma | ngx_media_rtmp/ngx_rtmp_codec_module.c:714-752 | the fields of the high profiles take exactly their bits |
| AvcHeader.SkipOrder | ngx_media_rtmp/ngx_rtmp_codec_module.c:757-785 | so do those of each picture order type |
| AvcHeader.ProfilesRead | ngx_media_rtmp/ngx_rtmp_codec_module.c:716-718 | the sets the code reads are those of section 7.3.2.1.1 if and only if the profile is none of 128, 134, 135, 138 and 139 |
| AvcHeader.DimensionsRight | ngx_media_rtmp/ngx_rtmp_codec_module.c:828-830 | parsed width and height are those of section 7.4.2.1.1 if and only if nothing is cropped or the cropping unit is two |
| AacHeader.CodecCtx.ParseAacHeader | ngx_media_rtmp/ngx_rtmp_codec_module.c:578-660 | a written AudioSpecificConfig gives back type, rate and channels, escapes and extensions included; the extension flags are never cleared |
| AacHeader.ReadRate | ngx_media_rtmp/ngx_rtmp_codec_module.c:605-610 | an index or an explicit rate |
| AacHeader.RateFamilies | ngx_media_rtmp/ngx_rtmp_codec_module.c:584-588 | the table of rates: three families of halves, a sixth of 44.1 kHz and three reserved indices |
| AacHeader.ReadType | ngx_media_rtmp/ngx_rtmp_codec_module.c:600-603 | an object type with its escape |
| ProgressTree.FindNode | ngx_media_other/ngx_media_upload_progress_module.c:360-407 | a node is returned if and only if one of that hash and id is in the tree, for every shape whose sequence is sorted |
| ProgressTree.InsertKeepsOrder | ngx_media_other/ngx_media_upload_progress_module.c:900-956 | a new node comes to stand in the sequence, which stays sorted |
| ProgressIndex.Index.Track | ngx_media_other/ngx_media_upload_progress_module.c:811-897 | 500 for an id that the search finds or without a cleanup record, 503 without memory; else the node is in tree and list and the request is live, whether or not the context is allocated |
| ProgressIndex.Index.TrackError | ngx_media_other/ngx_media_upload_progress_module.c:1161-1205 | the status goes into the node of the id, or into a new one |
| ProgressIndex.Index.Finish | ngx_media_other/ngx_media_upload_progress_module.c:1032-1066 | the node is marked done and keeps its place |
| ProgressIndex.Index.CleanOld | ngx_media_other/ngx_media_upload_progress_module.c:960-1024 | outside shutdown exactly the done and expired nodes go, in list and tree, and no live one |
| ProgressIndex.KeptUntil | ngx_media_other/ngx_media_upload_progress_module.c:995 | a finished node stays until its time is over, a live one always |
| ProgressIndex.InsertSound | ngx_media_other/ngx_media_upload_progress_module.c:811-865 | tree and list hold the same nodes, and no id shorter than 256 bytes is stored twice |
| ProgressIndex.RemoveSound | ngx_media_other/ngx_media_upload_progress_module.c:994-1006 | removal keeps that |
| ProgressIndex.RegisteredIsFound | ngx_media_other/ngx_media_upload_progress_module.c:841 | a registered upload is found under its id if and only if the id is shorter than 256 bytes |
| ProgressIndex.FoundIfShort | ngx_media_other/ngx_media_upload_progress_module.c:392 | the search compares one byte of length: a longer id matches no node |
| Eval.Evaluate | ngx_media_rtmp/ngx_rtmp_eval.c:105-196 | the state machine computes the meaning of the string, construct by construct |
| Eval.EscapedIsLiteral | ngx_media_rtmp/ngx_rtmp_eval.c:167-175 | a string with every dollar sign and backslash escaped evaluates to itself |
| Eval.MeaningAppends | ngx_media_rtmp/ngx_rtmp_eval.c:119-180 | a string that ends between two constructs evaluates alike in front of any other |
| Eval.Buffer.Append | ngx_media_rtmp/ngx_rtmp_eval.c:62-80 | growing loses and reorders nothing |
| Eval.AppendVar | ngx_media_rtmp/ngx_rtmp_eval.c:84-101 | every match in every table, one after the other |
| Eval.FoundOnce | ngx_media_rtmp/ngx_rtmp_eval.c:84-101 | a name that one entry of all tables has stands for the value of that entry |
| Eval.BracedReference | ngx_media_rtmp/ngx_rtmp_eval.c:119-165 | a reference in braces stands for the value of its name, in front of any string |
| Eval.PlainReference | ngx_media_rtmp/ngx_rtmp_eval.c:119-165 | one without braces ends with the letters |
| Listening.Port.AddListen | ngx_media_rtmp/ngx_rtmp_core_module.c:773-972 | an address is listed once, each server once per address, and options merge as the directives say |
| ListenRuns.ListenRun | ngx_media_rtmp/ngx_rtmp_core_module.c:773-972 | listen directives are accepted if and only if no two for one address name the same server, both give options or both claim the default; then every address is listed once with its servers in order, the default one is the one that claims to be, or else the first |
| ListenRuns.ReadListens | ngx_media_rtmp/ngx_rtmp_core_module.c:773-972 | the same of directives read one by one |
| Listening.InitListening | ngx_media_rtmp/ngx_rtmp.c:715-791 | the groups concatenate to the whole list, each is bound to its last address, and only a wildcard serves implicit addresses |
| Listening.BoundOrder | ngx_media_rtmp/ngx_rtmp.c:1025-1055 | sorting leaves explicit addresses, implicit ones and the wildcard in this order |

## Left out

- I/O failures appear only as an aborted segment, a failed recv or send, or a handler that refuses; file names,
  suffixes, digests, templates, scripts and the forwarding of the request are not part of this model.
- Integers are unbounded where the source uses `off_t` or `size_t` for positions and numbers in text; 32-bit and
  64-bit wrap-around is modelled where sizes and timestamps are framed and where bits are read.
- RangeFile.MergeRanges: requires room for reading, which merge_buffer_size below 127 does not leave (SmallestBuffer).
- RangeFileCodes.MergedCode: for files as in StateFileMerged; for all others the code is that of MergedAsRead.
- RangeFileCodes.MergeStored: the same, and any file of one buffer.
- RangeFileProofs.OutputFits: speaks of sizes that leave room for reading; below 125 out_buf exceeds the allocation.
- RangeFileProofs.InPlaceIsCopy: files of which an earlier buffer prints are the subject of StateFileIsSeen.
- RangeFileProofs.StateFileMerged: files cut behind a digit, longer files of which an earlier buffer prints, and one-byte
  ranges are the subject of CutNumber, SkippedTailLost, OrderlyMerge and MergeText; OFF_T_LEN bounds the printed
  numbers to 64 bits.
- RangeFileCuts.CutNumber: says what one cut does to a file of two buffers; longer files are the subject of
  RangeFileClaims.MergedAsRead.
- RangeFileCuts.CutRightIff: the same; what a longer file claims is the subject of NoFalseClaimIff.
- RangeFileLines.OrderlyMerge: files that are cut or skipped inside a line are the subject of MergedAsRead.
- RangeFileLines.OrderlyClaims: for all files see NoFalseClaimIff.
- RangeFileLines.OrderlyRightIff: files that are cut or skipped inside a line are not compared with the merged list.
- UploadSession.UploadIsGenuine: a merge that is not honest is excluded: the state file then claims a byte that was
  neither recorded nor sent (HonestIff), as in FinishedTooEarly; so is a refusal after a first buffer, which leaves a
  spoilt file.
- An upload session is a state machine over handler calls: the output file is a map from offsets to bytes, and the
  requests of a session write what the client's file holds at these places.
- The characters of a multipart body are bytes, written as `char`.
- `range_header_buffer` formatting, aggregate fields and the regular expression of a field filter: the filter is any
  test on the name.
- BodyReader.Body.DoRead: the rate limit and the timers are left out: recv and the events decide what arrives and when.
- BodyReader.Body.Fill: the rate limit on the size of one recv is left out.
- OutputChain.OutputBody.StartHandler: the template fields that a file part appends, and the failures of opening its file,
  are left out.
- Forwarding.StepLink: the template and aggregate fields that a file part appends are left out.
- Forwarding.RunLink: the template and aggregate fields that a file part appends are left out.
- Forwarding.ForwardedBodyMeansTheSame: the template and aggregate fields that a file part appends are left out.
- FileParts.FileLineParsed: names with a quote, a line end or a NUL, which end the value or the line, are excluded.
- MultipartEdges.DelimiterBehindPreamble: a dash in front of the delimiter is the subject of DelimiterBehindDash.
- MultipartEdges.DelimiterBehindDash: a boundary with a dash in it may be found again in its own tail.
- RawInput.WholeBodyIsOnePart: a refused start is the subject of StartRefused; the caller then ends the request.
- OutputBuffer.BufferSizeIrrelevant: excludes sinks that judge the data, for which it fails (SizeMatters); SizeIndependence
  says which of the handlers of the module do.
- SizeIndependence.RoomySizes: writes to the output file that fail are excluded, because when they do may depend on how
  the data is cut.
- SizeCondition.SizesAgreeIff: the room of a limit is judged by names that a printed header can carry.
- FileSizes.FilesFit: for files that are sent whole; a segment of a resumable upload has no such limit.
- Reception.Receive: for multipart bodies longer than what was read with the header; a raw body and an overlong one are
  in ReadBody.
- AmfChain.ReadCtx.ReadElts: destinations are values, so that two elements that share one destination, and bytes that a
  failing read had copied before it failed, are not modelled; a string buffer of size zero counts as a failed read.
- AmfChain.ReadCtx.ReadStringInto: a string buffer of size zero is a clean failure, where the source copies with a wrapped
  length.
- AmfBinding.ReadOneBinds: for schemas whose untyped elements are variants and whose string buffers are not empty; an
  untyped scalar would read the marker of a value as its first byte, and an extended kind needs that flag.
- AmfBinding.ReadBodyBinds: the same schemas, for nested elements.
- AmfBinding.ReadFieldsBinds: the same schemas, among the elements of an object.
- AmfBinding.ReadItemsBinds: the same schemas, among the elements of an array.
- AmfBinding.ReadVariantBinds: the same schemas, as alternatives of a variant.
- AmfLists.ListBinds: the same schemas, for the elements of a command.
- AmfLists.ListEnds: the same schemas; a value that is cut short is not a well-formed value.
- AmfEdges.CutBetweenFields: the same schemas; input that ends inside a key or a value is an error.
- AmfWriter.WriteCtx.WriteBody: the 8-, 16- and 32-bit integers, which have no marker.
- AmfWriter.WriteCtx.Write: writes values rather than elements; the 8-, 16- and 32-bit integers without a marker
  and the length taken from a terminated string are not written.
- AMF numbers are their eight bytes.
- SharedBufs.AppendSharedBufs: the copy starts a new chain, and memory does not run out while it is made.
- FlvStream.AppendSharedTag: memory does not run out while a tag is framed.
- The HTTP header of the FLV response, and the index and keyframe seek of the FLV reader.
- FlvReader.Reader.Send: a session that failed on a torn tag is at its end, so the kept timestamps are not stated for it.
- OutQueue.Session.WriteHandler: a sent slot keeps its old content until it is filled again, where the source
  clears it; the event of a blocked send can be registered; the session being finalized is the outcome `Finalized` only.
- AvcHeader.CodecCtx.ParseAvcHeader: scaling lists and emulation prevention bytes, which the parser does not handle, are
  not in the written configurations; on other input nothing is stated.
- AvcHeader.CodecCtx.ParseSps: scaling lists and emulation prevention bytes are not in the written sets.
- AvcHeader.ProfilesRead: for the five profiles named nothing is stated about the sizes found.
- FlvTrailers.StreamReadsBack: a tag of 4 GB and more does not fit its size field.
- AvcHeader.SkipChroma: the flag for scaling lists is written as 0.
- AacHeader.CodecCtx.ParseAacHeader: on input that is no written configuration nothing is stated.
- BitReader.Reader.ReadGolombCode: for 64 leading zeros and more the C shift is undefined; the model takes the count
  modulo 64.
- The combined sequence headers in a keyframe (parse_avc_header_in_keyframe).
- The links of the progress tree and list are a tree value and a sequence; rotations and deletions of the tree library are
  any functions that keep the sequence, or take one node out of it. During shutdown nodes of live requests are freed.
- The tracking id, the report of a progress request and the hash function, which may be any.
- Allocation failures of the interpolator's buffer, which lose text silently.
- The sort of the addresses itself, the virtual server names and IPv6; addresses are compared as a whole.
- RTMP chunk streams, HLS, DASH, MP4, relays, statistics, licences, snapshots, access rules and command dispatch.
