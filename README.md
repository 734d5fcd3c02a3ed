# hpprojectsearch scan engine, modelled in Dafny

This project models the native search engine of the `hpprojectsearch` plugin
(`plugins/hpprojectsearch/native.c`). A search is created with a thread count, a pattern
and a mode (`plain` or `insensitive`). The host then feeds it file paths, one `find` at a
time. Workers claim the paths in order. Each worker reads its file in 16384-byte chunks,
compares the pattern at every position of the safe prefix of each chunk, and appends one
match record per hit. A record holds the file index, the line, the column and a context
snippet of at most 256 bytes. Between calls the host drains the records through its
callback. After `join`, the host polls `joink` until every worker has finished, and then
the threads are joined.

The model is organised by the program's own structure:

- `Arith`: `imax` and `imin`.
- `Bytes`: bytes, `tolower` and C strings.
- `Config`: the mode check, the prepared pattern and the per-position match predicate.
- `Lines`: the `line` and `col` counters in closed form.
- `Context`: the snippet, both as a specification and as the two loops that compute it.
- `Schedule`: which bytes each read brings in and how many positions each pass scans.
  This depends only on the file length and the pattern length.
- `Hits`: what a scan reports, as functions of the file bytes.
- `Growable`: the realloc-doubling record arrays (`matches` and `entries`), as a class
  over an `array`.
- `Scanner` and `FileScan`: the chunked read, scan and carry-over loops, on a real
  `array<byte>` chunk buffer. They are proved against `Hits` and `Schedule`.
- `HitText`: what `strncpy` leaves in a record's 256-byte text slot, and what
  `lua_pushstring` then reads from it.
- `Job`: `search_state_t` as a class with `init`, `find`, the drain, the worker loop,
  `join` and `joink`.

Where the intended behaviour and the code disagree, the model follows the code, with one
exception. The text a drained record hands to the callback is the intended snippet, not
the bytes that `strncpy` leaves in a reused 256-byte slot. That bug is logged under
"## Findings", and `HitText` models the slot as written. A second logged bug, the last
`joink` call dropping the records appended since the previous drain, is modelled both as
written (`Job.SearchState.JoinK`) and as intended (`Job.SearchState.JoinKDrained`).

The places where the model follows the code against the intended behaviour are:

- **Columns.** The recorded column is `col - 1`. `col` is reset to 1 on the newline
  itself and then advanced once more. So a hit's column is its byte offset from the line
  start on the first line, and one more than that on every later line
  (`Lines.ColumnFromLineStart`). The records keep this column, since it is what the host
  receives. The intended column, the same offset on every line, is logged under
  "## Findings" (`Lines.IntendedColumn`).
- **The unscanned tail.** The last pass scans only `max(total - m - 80, m)` positions,
  where `m` is the pattern length. When the last pass holds at least `2m + 80` bytes,
  occurrences starting in the final `m + 80` bytes of a file are therefore not reported
  (`Schedule.TailNotScanned`). A shorter last pass scans `m` positions instead. Example: in `"hello\nworld hello\n"`
  only position 0 is scanned, so the second `hello` is missed (`Hits.TwoLinesOneReport`).
- **Stale bytes.** When the bound falls back to `m`, the comparison can read chunk bytes
  past the end of the file. The chunk buffer is a local array that is never initialised
  (line 158). Bytes there that no earlier read of this worker wrote are uninitialised;
  the others are stale bytes from an earlier file or from an earlier read of this one.
  The worker's result is therefore stated over a ghost *view*: the file followed by
  whatever the buffer held past its end (`FileScan.ScanFile`). It
  depends on the file alone when no such read occurs
  (`Hits.ScanIgnoresBytesPastEnd`).
- **Snippet limit and negative snippet length.** The snippet length is
  `min(256, length_read - start)`. It uses the last read's count `length_read` as a chunk
  index, not the number of bytes held. After a full read the next pass begins with `m + 80`
  carried bytes, so chunk index `length_read` lies `m + 80` bytes before the end of the
  bytes held, and a snippet may start in the carried bytes. On every pass after the first,
  that index is no later than the pass's bound (`Schedule.LaterPassesCutAtBound`). A hit
  near the end of such a pass therefore gets a snippet cut at or before the bound, possibly
  in the middle of the match (`Context.ContextShape`). The length is negative when the
  snippet would start past chunk index `length_read`. The model keeps that case as
  `Context.UndefinedCopy`, and the drain hands on no defined text for it.

## Model

| member | source | states |
|---|---|---|
| Arith.IMax | plugins/hpprojectsearch/native.c:28 | the result is at least both arguments and is one of them |
| Arith.IMin | plugins/hpprojectsearch/native.c:29 | the result is at most both arguments and is one of them |
| Bytes.ToLower | plugins/hpprojectsearch/native.c:195 | `tolower` changes only `A`..`Z` (by +32); never yields an upper-case letter; keeps NUL and newline |
| Bytes.CString | plugins/hpprojectsearch/native.c:159 | the C string is the prefix of the buffer before its first NUL and holds no NUL |
| Bytes.CStringOfTerminated | plugins/hpprojectsearch/native.c:289 | a NUL-free run followed by a NUL reads back as exactly that run |
| Config.ParseMode | plugins/hpprojectsearch/native.c:274-279 | accepts exactly the names "plain" and "insensitive" (compared as C strings); rejects every other name |
| Config.ParseModeName | plugins/hpprojectsearch/native.c:274-277 | each mode's name parses back to that mode |
| Config.PreparePattern | plugins/hpprojectsearch/native.c:289-293 | the pattern is the host string cut at its first NUL and at 255 bytes; in insensitive mode each byte is lowercased; it holds no NUL |
| Config.MatchAt | plugins/hpprojectsearch/native.c:186-201 | the match predicate; `Config.PlainMatchIsEquality`, `Config.InsensitiveIgnoresCase` and `Config.InsensitiveFindsAnyCase` state what it decides in each mode, and `Scanner.MatchesAt` proves the two C loops decide it |
| Config.PlainMatchIsEquality | plugins/hpprojectsearch/native.c:188-192 | a plain match at p holds if and only if the bytes at p are the pattern |
| Config.InsensitiveIgnoresCase | plugins/hpprojectsearch/native.c:193-200 | two windows that agree up to ASCII case match alike in insensitive mode |
| Config.InsensitiveFindsAnyCase | plugins/hpprojectsearch/native.c:193-200 | with the prepared pattern, insensitive mode matches at p if and only if the bytes at p equal the host's pattern, cut to 255 bytes, up to ASCII case |
| Config.PlainIsCaseSensitive | plugins/hpprojectsearch/native.c:187-200 | "abc" does not match "ABC" in plain mode; it matches "ABC" and "aBc" in insensitive mode |
| Config.LowercaseInPlace | plugins/hpprojectsearch/native.c:290-293 | lowercases every byte before the first NUL, in place; `strlen` is unchanged; the bytes after are untouched |
| Context.ContextStart | plugins/hpprojectsearch/native.c:211-217 | the snippet start lies between max(i-80, 0) and i+1 |
| Context.ContextStartIsLineStart | plugins/hpprojectsearch/native.c:211-217 | the snippet starts just after a newline, or at max(i-80, 0); no newline lies between its start and the hit |
| Context.CutLengthIsFirstNewline | plugins/hpprojectsearch/native.c:218-224 | the forward cut stops at the first newline, or at its limit |
| Context.ContextOf | plugins/hpprojectsearch/native.c:211-225 | the snippet a hit records; `Context.ContextShape` states its shape and `Context.ContextAt` proves the two loops compute it |
| Context.ContextShape | plugins/hpprojectsearch/native.c:211-225 | the copy is undefined exactly when the start lies past chunk index `length_read`; otherwise the snippet is the chunk run from the start, of at most 256 bytes, with no newline, ending by chunk index `length_read`, and cut only by a newline, 256 bytes or that index |
| Context.ContextOfPrefix | plugins/hpprojectsearch/native.c:211-224 | the snippet depends only on the chunk bytes up to the last read |
| Context.WalkBack | plugins/hpprojectsearch/native.c:211-217 | the backward loop computes the snippet start |
| Context.CutForward | plugins/hpprojectsearch/native.c:218-224 | the forward loop computes min(256, length_read - start) cut at the first newline; it returns the negative value unchanged |
| Context.ContextAt | plugins/hpprojectsearch/native.c:211-225 | the snippet computed on the chunk array is the specified snippet |
| Lines.LineBeforeCounts | plugins/hpprojectsearch/native.c:169 | `line` at position p is 1 plus the number of newlines before p |
| Lines.ColBeforeFromLastNewline | plugins/hpprojectsearch/native.c:170 | `col` at p is p+1 on the first line, and p minus the last newline's index plus 1 after it |
| Lines.ColBefore | plugins/hpprojectsearch/native.c:170-185 | `col` is at least 1 at every position |
| Lines.LineOf | plugins/hpprojectsearch/native.c:209 | the recorded line is 1 plus the number of newlines up to and including the hit |
| Lines.ColumnOf | plugins/hpprojectsearch/native.c:210 | the recorded column is never negative; `Lines.ColumnFromLineStart` gives it in closed form |
| Lines.CountersFrame | plugins/hpprojectsearch/native.c:181-185 | the counters at p depend only on the bytes before p |
| Lines.ColumnFromLineStart | plugins/hpprojectsearch/native.c:210 | the recorded column is the offset from the line start on line 1, and that plus one on later lines |
| Lines.IntendedColumn | plugins/hpprojectsearch/native.c:184 | as intended: the hit's offset from the start of its line, with no newline between that start and the hit and a newline just before it unless it is the file's start |
| Lines.ColumnOffByOne | plugins/hpprojectsearch/native.c:181-210 | as written, a hit that is not a newline gets the intended column on line 1 and the intended column plus one on every later line |
| Lines.ColumnsDifferAcrossLines | plugins/hpprojectsearch/native.c:181-210 | in "a\na" both hits start a line, yet are recorded at columns 0 and 1; the intended column is 0 for both |
| Lines.CountNewlinesAppend | plugins/hpprojectsearch/native.c:182-184 | counting newlines across two runs adds up |
| Schedule.Bound | plugins/hpprojectsearch/native.c:180 | the number of positions scanned is the larger of total - m - 80 and m |
| Schedule.Windows | plugins/hpprojectsearch/native.c:172-236 | the passes made from a loop state; `Schedule.WindowsWellFormed` states their shape, chaining and ends |
| Schedule.FileWindows | plugins/hpprojectsearch/native.c:168-236 | the passes of a whole file; `Schedule.ScanEndBounds`, `Schedule.TailNotScanned` and `Schedule.ReadsPastEndOnlyAtLastPass` state where they stop and what they read |
| Schedule.FullReadCarry | plugins/hpprojectsearch/native.c:230-234 | after a full read the bound is 16384 - m - 80, and the carried tail is no longer than the scanned part (the `memcpy` regions do not overlap) |
| Schedule.WindowsUnfold | plugins/hpprojectsearch/native.c:172-236 | a full read makes one pass, then continues with the schedule after its carry-over |
| Schedule.WindowsShort | plugins/hpprojectsearch/native.c:173-179 | when the rest of the file fits the buffer there is no pass, or exactly one after a short read |
| Schedule.WindowsChained | plugins/hpprojectsearch/native.c:233-234 | each pass starts where the previous one stopped scanning |
| Schedule.WindowsShaped | plugins/hpprojectsearch/native.c:177-180 | every pass holds at least m bytes, has bound = max(total - m - 80, m) no larger than the bytes held, and lies in the file |
| Schedule.WindowsEnds | plugins/hpprojectsearch/native.c:173-174 | the first read fills the free space; the last pass ends at the end of the file |
| Schedule.WindowsFull | plugins/hpprojectsearch/native.c:230-235 | every pass but the last reads a full buffer and compares only file bytes; later passes carry m + 80 bytes |
| Schedule.WindowsWellFormed | plugins/hpprojectsearch/native.c:172-236 | all of the above for any starting state |
| Schedule.ScanEndBounds | plugins/hpprojectsearch/native.c:178-180 | a file that is empty or shorter than the pattern is not scanned; otherwise the scan ends at max(n - m - 80, last pass start + m), within the file |
| Schedule.TailNotScanned | plugins/hpprojectsearch/native.c:180 | when the last pass holds at least 2m + 80 bytes, the last m + 80 positions are never scanned |
| Schedule.LaterPassesCutAtBound | plugins/hpprojectsearch/native.c:218-234 | on every pass after the first, chunk index `length_read` lies m + 80 before the end of the bytes held and no later than the bound |
| Schedule.ReadsPastEndOnlyAtLastPass | plugins/hpprojectsearch/native.c:180-195 | only the last pass can compare bytes past the end of the file, and only when its bound fell back to m |
| Schedule.ShortFileReadsPastEnd | plugins/hpprojectsearch/native.c:180-195 | a 3-byte file with a 3-byte pattern scans 3 positions and compares 2 bytes past the end |
| Hits.HitsIn | plugins/hpprojectsearch/native.c:181-202 | every listed hit lies in the range; `Hits.HitsInMembers` and `Hits.HitsInIncreasing` state it lists exactly the matching positions, in order |
| Hits.HitsInMembers | plugins/hpprojectsearch/native.c:181-202 | the hits of a range are exactly its matching positions |
| Hits.HitsInIncreasing | plugins/hpprojectsearch/native.c:181 | hits are listed in increasing order, each once |
| Hits.HitsInSplit | plugins/hpprojectsearch/native.c:181 | the hits of two adjacent ranges concatenate to those of their union |
| Hits.PassRecordsStep | plugins/hpprojectsearch/native.c:202-226 | one more position appends its record exactly when the pattern matches there |
| Hits.PassFrame | plugins/hpprojectsearch/native.c:181-225 | a pass's hits and records depend only on the bytes it reads |
| Hits.ScanFrame | plugins/hpprojectsearch/native.c:172-236 | what the passes report depends only on the bytes they read |
| Hits.ScanPositions | plugins/hpprojectsearch/native.c:172-236 | chained passes from position 0 report the matching positions below the end of the scan, in order |
| Hits.RecordAt | plugins/hpprojectsearch/native.c:208-225 | the record of a hit; `Hits.RecordAtShape` states its fields and `Hits.RecordAtFrame` that it depends only on the bytes of its pass |
| Hits.RecordAtShape | plugins/hpprojectsearch/native.c:208-225 | a record holds the file index, the hit's line and column, and a snippet of at most 256 bytes with no newline |
| Hits.ScanRecords | plugins/hpprojectsearch/native.c:172-236 | the records of a file's passes; `Hits.ScanRecordsShape` states there is one per hit, in hit order |
| Hits.ScanRecordsShape | plugins/hpprojectsearch/native.c:202-226 | there is one record per hit, in hit order |
| Hits.FileWindowsFit | plugins/hpprojectsearch/native.c:172-236 | every pass of a file fits a view holding the file |
| Hits.FileHits | plugins/hpprojectsearch/native.c:168-236 | a file's scan reports each matching position below the end of the scan exactly once, in file order, with one well-shaped record each |
| Hits.TwoLinesSchedule | plugins/hpprojectsearch/native.c:172-180 | an 18-byte file with a 5-byte pattern is one short read whose pass scans 5 positions |
| Hits.TwoLinesMatches | plugins/hpprojectsearch/native.c:186-192 | "hello" matches at 0 and at 12, and at no other of positions 0..4 |
| Hits.TwoLinesRecords | plugins/hpprojectsearch/native.c:202-226 | that pass reports exactly the record of the hit at 0 |
| Hits.FirstByteRecord | plugins/hpprojectsearch/native.c:169-185 | a hit at the first byte, which is not a newline, is recorded on line 1, column 0 |
| Hits.TwoLinesOneReport | plugins/hpprojectsearch/native.c:168-236 | "hello\nworld hello\n" reports only line 1 column 0; the occurrence at 12 is missed |
| Hits.ScanIgnoresBytesPastEnd | plugins/hpprojectsearch/native.c:180-195 | when no pass reads past the end of the file, the report depends on the file alone |
| Growable.Vec.constructor | plugins/hpprojectsearch/native.c:283 | the zeroed state: no records, capacity 0 |
| Growable.Vec.Push | plugins/hpprojectsearch/native.c:204-209 | appends the record at the old count; when full, the capacity becomes max(1, 2 * capacity) and the old records are kept |
| Growable.Vec.Get | plugins/hpprojectsearch/native.c:254 | reads record k |
| Growable.Vec.Clear | plugins/hpprojectsearch/native.c:262 | forgets every record and keeps the capacity |
| Scanner.MatchesAt | plugins/hpprojectsearch/native.c:186-201 | the `strncmp` and `tolower` loops decide exactly the match predicate at position i |
| Scanner.Read | plugins/hpprojectsearch/native.c:173-174 | `fread` delivers min(free space, bytes left) at the offset and leaves the rest of the buffer untouched |
| Scanner.CarryOver | plugins/hpprojectsearch/native.c:233-234 | the `memcpy` moves chunk[bound..] to the front and leaves the rest as it was |
| Scanner.MakeRecord | plugins/hpprojectsearch/native.c:208-225 | the record is the file index, `line`, `col - 1` and the snippet cut from the chunk |
| Scanner.CountersStep | plugins/hpprojectsearch/native.c:181-185 | the counters move on over one byte as the loop moves them |
| Scanner.PositionStep | plugins/hpprojectsearch/native.c:181-228 | at chunk position i, the chunk comparison is the file comparison, and the record built from the chunk is the next record of the pass |
| Scanner.ScanPosition | plugins/hpprojectsearch/native.c:181-229 | one iteration appends the record exactly on a hit and advances the counters |
| Scanner.ScanPass | plugins/hpprojectsearch/native.c:181-229 | a pass appends the records of its hits in position order and leaves the counters at the end of the pass |
| FileScan.ReadStep | plugins/hpprojectsearch/native.c:173-180 | a read leads to no pass, to a last pass or to a full pass and its carry-over |
| FileScan.BetweenStep | plugins/hpprojectsearch/native.c:230-235 | a full pass joins the passes made, and the schedule continues bound bytes further on |
| FileScan.ReadLoads | plugins/hpprojectsearch/native.c:173-174 | the read at stream position start + offset appends the file bytes after the carried ones |
| FileScan.NoPass | plugins/hpprojectsearch/native.c:175-179 | an empty read, or fewer bytes held than the pattern, ends the file with the records complete |
| FileScan.LastSetup | plugins/hpprojectsearch/native.c:177-180 | after a short read the buffer shows the file's end followed by stale bytes, and this is the last pass |
| FileScan.LastFinish | plugins/hpprojectsearch/native.c:230-231 | after the last pass the records are those of the whole schedule |
| FileScan.ScanLast | plugins/hpprojectsearch/native.c:180-231 | the pass after a short read completes the file's records over the view |
| FileScan.FullSetup | plugins/hpprojectsearch/native.c:173-180 | after a full read the buffer holds 16384 file bytes |
| FileScan.FullRecords | plugins/hpprojectsearch/native.c:202-229 | a full pass extends the records by its own |
| FileScan.FullBetween | plugins/hpprojectsearch/native.c:230-235 | after a full read the schedule goes on bound bytes further on |
| FileScan.CarryResumes | plugins/hpprojectsearch/native.c:233-234 | the carry-over restores the loop state bound bytes further on |
| FileScan.FullPass | plugins/hpprojectsearch/native.c:180-229 | the pass after a full read extends the records by that pass and moves the counters on by bound |
| FileScan.ScanFull | plugins/hpprojectsearch/native.c:180-235 | a full pass and its carry-over bring the loop back to its head, bound bytes further on |
| FileScan.ReadChunk | plugins/hpprojectsearch/native.c:173-174 | the read loads the next bytes behind the carried ones |
| FileScan.ScanRead | plugins/hpprojectsearch/native.c:175-235 | one loop turn either ends the file with its records complete, or continues strictly further on |
| FileScan.ScanFile | plugins/hpprojectsearch/native.c:168-236 | the records appended for a file are those of every pass of its schedule, over the file followed by what the buffer held past its end |
| HitText.Strncpy | plugins/hpprojectsearch/native.c:225 | `strncpy` writes the C string of the first n source bytes, then NUL padding, and leaves the slot from n on as it was |
| HitText.Shown | plugins/hpprojectsearch/native.c:259 | `lua_pushstring` reads the buffer's C string, and reads no defined string when the buffer has no NUL |
| HitText.ShownText | plugins/hpprojectsearch/native.c:259 | the intended text is the snippet up to its first NUL; there is none for an undefined copy |
| HitText.StaleTailShown | plugins/hpprojectsearch/native.c:225 | as written, a NUL-free snippet copied over a slot with a non-NUL byte right after it shows more than the snippet |
| HitText.SlotShowsSnippetIff | plugins/hpprojectsearch/native.c:225 | as written, the drain shows exactly the snippet if and only if the snippet holds a NUL or the slot's old byte right after it is a NUL |
| HitText.HelloWorldSlot | plugins/hpprojectsearch/native.c:225 | after "hello world" is copied into a fresh slot, index 2 holds 'l' |
| HitText.HilloWorld | plugins/hpprojectsearch/native.c:225 | "hi" copied over "hello world" does not show "hi" |
| HitText.FullSnippetUnterminated | plugins/hpprojectsearch/native.c:225 | a NUL-free 256-byte snippet leaves the slot with no terminator |
| HitText.StrncpyTerminated | plugins/hpprojectsearch/native.c:225 | the corrected copy keeps the slot length |
| HitText.TerminatedShowsSnippet | plugins/hpprojectsearch/native.c:225 | with a 257-byte slot and a NUL after the copy, the drain shows exactly the intended text, whatever the slot held |
| Job.Open | plugins/hpprojectsearch/native.c:167-168 | a file opens exactly when its path is in the file system |
| Job.Dispatch | plugins/hpprojectsearch/native.c:253-261 | one callback call per record, in record order, each with the record's path, line, column and text |
| Job.LiveSlots | plugins/hpprojectsearch/native.c:321-326 | the slots joined are exactly the slots still holding a thread, in increasing order |
| Job.NoSlotJoinedTwice | plugins/hpprojectsearch/native.c:322-324 | once every slot is nulled, nothing is joined again |
| Job.AllExtendSnoc | plugins/hpprojectsearch/native.c:160-238 | a run's views keep extending their files when one entry is added |
| Job.RunRecordsSnoc | plugins/hpprojectsearch/native.c:160-238 | a run's records are those of the earlier entries followed by those of the next |
| Job.RunStep | plugins/hpprojectsearch/native.c:160-238 | scanning the next claimed entry extends the run state by that entry |
| Job.EntryRecordsIndex | plugins/hpprojectsearch/native.c:208 | every record of an entry's scan names that entry |
| Job.CopyPattern | plugins/hpprojectsearch/native.c:289 | `strncpy(search_string, pattern, 255)`: the C string cut to 255 bytes, then NUL padding; byte 255 is kept |
| Job.CopiedPattern | plugins/hpprojectsearch/native.c:283-289 | after the copy into the zeroed buffer, its C string is the plain prepared pattern |
| Job.LoweredPattern | plugins/hpprojectsearch/native.c:290-293 | lowercasing the buffer's C string gives the insensitive prepared pattern |
| Job.SearchString | plugins/hpprojectsearch/native.c:283-293 | the search buffer is 256 bytes, NUL at 255, and its C string is the prepared pattern for the mode |
| Job.SearchState.Pattern | plugins/hpprojectsearch/native.c:159 | the pattern the workers compare holds no NUL and is at most 255 bytes |
| Job.SearchState.constructor | plugins/hpprojectsearch/native.c:282-296 | a zeroed state with the mode, the prepared pattern, the thread count and one live slot per thread |
| Job.SearchState.Claim | plugins/hpprojectsearch/native.c:160-165 | hands out entry_start and advances it when an entry is left, and -1 otherwise; entries are handed out once each, in order |
| Job.SearchState.Update | plugins/hpprojectsearch/native.c:248-266 | calls the callback once per record in order, then empties the records and keeps the capacity |
| Job.SearchState.Find | plugins/hpprojectsearch/native.c:300-316 | a path longer than `MAX_PATH` (Linux's 4096) fails with nothing changed; otherwise the records are drained and the path's C string is appended, growing the capacity to max(1, 2 * capacity) when full |
| Job.SearchState.WorkStep | plugins/hpprojectsearch/native.c:160-238 | one turn claims the next entry and appends exactly its file's records, or does nothing when none is left |
| Job.SearchState.Work | plugins/hpprojectsearch/native.c:160-242 | after join, a worker scans every remaining entry in order, and the records appended are those of each entry's file in turn |
| Job.SearchState.FinishWorker | plugins/hpprojectsearch/native.c:243-245 | a finishing worker adds one to threads_complete |
| Job.SearchState.Join | plugins/hpprojectsearch/native.c:334-338 | sets is_done |
| Job.SearchState.JoinK | plugins/hpprojectsearch/native.c:318-332 | when every worker is complete, joins and nulls each live slot and drains nothing; otherwise drains the records and joins nothing |
| Job.SearchState.JoinSlots | plugins/hpprojectsearch/native.c:321-326 | joins and nulls exactly the slots still holding a thread, in increasing order |
| Job.SearchState.JoinKDrained | plugins/hpprojectsearch/native.c:318-332 | as intended: every call delivers every pending record and empties the records; when every worker is complete it also joins and nulls each live slot |
| Job.OneRecordAfterLastDrain | plugins/hpprojectsearch/native.c:202-245 | a one-worker search after `join` whose worker appended one record since the last drain and then completed |
| Job.FinalJoinDropsRecords | plugins/hpprojectsearch/native.c:318-328 | as written, the final `joink` delivers nothing and leaves the record pending; as intended, it delivers that record |
| Job.Init | plugins/hpprojectsearch/native.c:269-298 | fails exactly on an unknown mode name; otherwise a fresh valid search with that mode, the prepared pattern, no entries and no records |

## Left out

- Threads and the mutex are not modelled. Workers run one after the other, and every
  critical section is atomic. `Work` requires that `join` has already been called: the
  idle loop that polls with `msleep(1)` while `is_done` is unset (lines 239-241) is not
  modelled.
- Interleaving between workers and the host is not modelled: one worker's records are
  never mixed with another's or with a drain.
- File I/O is modelled as a map from path to file bytes. `fopen` succeeds exactly for the
  paths in the map. `fread` returns min(requested, bytes left); read errors and short
  reads before end of file are not modelled. `fclose` is not modelled.
- The Lua glue is not modelled:
  - the callback is represented by the list of calls it would receive (`Delivery`);
  - `luaL_error` is the `None` or `PathTooLong` result;
  - `luaL_ref`, `luaL_checktype` of the callback and the userdata/metatable plumbing are
    not modelled;
  - the `lua_yieldk` continuation is one call of `JoinK`;
  - `f_search_gc` and the module registration are not modelled.
- `line` and `col` are unbounded integers; 32-bit overflow on files with more than 2^31
  lines or columns is not modelled.
- The thread count is an unbounded integer: the truncation of the 64-bit
  `luaL_checkinteger` result to `int` (line 270) is not modelled.
- The capacities grow as unbounded integers: the `int` overflow of
  `match_capacity * 2` and `entry_capacity * 2` (lines 206 and 309) is not modelled.
- Failure of `malloc` and `realloc` is not modelled: every allocation succeeds.
- `Job.SearchState.Find`: `MAX_PATH` is fixed at Linux's 4096; the Windows value (260,
  from `windows.h`) and the macOS value of `PATH_MAX` (1024) are not modelled.
- `tolower` is applied to the byte values 0..255 with ASCII folding. The undefined
  behaviour of passing a negative `char` is not modelled.
- A negative thread count is modelled as zero thread slots. The C `malloc` of a negative
  size is not modelled.
- `Context.UndefinedCopy` stands for the `strncpy` with a negative length: the model
  records that it happens, not what memory it overwrites.
- `Job.Dispatch`: hands on the intended text of each record (`HitText.ShownText`), not
  what `lua_pushstring` reads from the record's reused slot as written. The two agree
  exactly when `HitText.SlotShowsSnippetIff` says so.
- `Job.SearchState.Update`: the text it delivers is that of `Job.Dispatch`, for the same
  reason. The slot's stale bytes are not tracked in the records.
- `Job.SearchState.Find`: the drain it performs delivers the text of `Job.Dispatch`.
- `Job.SearchState.JoinK`: the drain it performs delivers the text of `Job.Dispatch`.
- `FileScan.ScanFile`: the stale bytes the last pass may compare are an unconstrained
  ghost view, not the concrete bytes of earlier reads.
- `Job.SearchState.Work`: states only the run from the current `entry_start` to the end
  of the entries, for one worker that runs alone once `join` has been called.

## Findings

| source | as written | input that shows it | evidently intended | confidence | as-written member | corrected member |
|---|---|---|---|---|---|---|
| plugins/hpprojectsearch/native.c:225 | `strncpy(text, &chunk[start], max_length)` into a reused 256-byte slot writes no NUL after a snippet without one, so the drain's `lua_pushstring` reads the older contents that follow (or runs past the slot when the snippet is 256 bytes) | a record with text "hello world" is drained, then a hit with snippet "hi" reuses the slot; the callback receives "hillo world" | the callback receives exactly the snippet: a slot of 257 bytes with a NUL written after the copy | not executed | HitText.HilloWorld | HitText.TerminatedShowsSnippet |
| plugins/hpprojectsearch/native.c:320-328 | the `joink` call that finds every worker complete joins the threads and returns without calling `f_search_update`; the module exports no update, so only a later `find` (line 305) would drain the records appended since the previous drain | one worker appends a record after the last drain and completes; the next `joink` returns with the record still pending, and the callback receives it only if the host calls `find` again | every record reaches the callback: the final call drains before it joins | not executed | Job.FinalJoinDropsRecords | Job.SearchState.JoinKDrained |
| plugins/hpprojectsearch/native.c:184 | `col = 1` on the newline, followed by the loop's `++col`, puts the first byte after a newline at `col` 2, so `col - 1` is the offset plus one on every line but the first | in "a\na" the hits at 0 and at 2 both start a line, and are recorded at columns 0 and 1 | the same column for the same offset on every line: the hit's offset from the start of its line | not executed; the host may compensate | Lines.ColumnsDifferAcrossLines | Lines.IntendedColumn |
