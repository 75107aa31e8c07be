# Verified model of the KCN database, its wire protocol and its clients

This project models, in Dafny 4.11, the parts of KCN that store and answer network statistics:
the two files of a `kcndbd` table and the index between them, the cursor buffer and the file layer
below it, the message codec and the receive loops, the connection state machine with its output
queue, the server and client halves of a query, the bulk loader of `kcndbctl`, and the URI builder.
`dafny verify dfyconfig.toml` checks all of it.

| file | contents |
|---|---|
| `Bytes.dfy` | machine integers, big-endian conversions, splices, named characters |
| `Buf.dfy` | `kcn_buf` over a fixed array; every C assertion is a precondition |
| `DbFile.dfy` | a descriptor with its own buffer on a file several threads share |
| `LocIndex.dfy` | the locator file: what its bytes represent, and what an add does to them |
| `Records.dfy` | record bytes, the query condition, what a scan selects |
| `Table.dfy` | the table class: locator add and lookup, record read, add and search |
| `Store.dfy` | the table as a log of rows; whole runs; exact conditions for single adds |
| `Sessions.dfy` | any number of workers making calls on the byte files in lock order, repaired and as written |
| `Threads.dfy` | any number of threads and record buffers under the read-write lock, interleaved between any two appends or links |
| `Msg.dfy`, `Framing.dfy` | codec; receive loops against arbitrary splits of the stream |
| `Net.dfy` | connection states, event arming, output queue |
| `Server.dfy`, `Client.dfy`, `EndToEnd.dfy` | the two loops; a query from encoder to result list, an add from encoder to row, and both in turn |
| `BulkLoad.dfy`, `Uri.dfy` | incremental line parser; percent-encoded query strings |

## How the pieces fit

The mutable parts of the C code are classes (`Buf`, `File`, `Table`, `Net`, `Server`, `Client`,
`Loader`, `Uri`) whose methods follow the C functions. Each is proved against functions on values,
and the system properties are lemmas about those functions: over every run of calls, every
interleaving, every event sequence, every split of a byte stream.

What a search hands over, what a query is answered with, what an add stores, when a connection
lives and when its queue empties, and what a file of rows loads as, are told on the bytes and
integers a caller sees (`Table.Table.Search`, `EndToEnd.QueryEndToEnd`, `EndToEnd.AddThenQuery`,
`Net.WriteOutcome`, `Net.QueueDrains`, `BulkLoad.LoadRows`), without the functions that compute
them.

Three places of `kcndbd/kcndb_db.c` depart from their evident intent, and `Table.Rules` selects for
each the code as written or the repaired code:

* line 300 computes the field to link without the base of the last entry (`addBase`);
* line 507 returns from a successful search without unlocking (`unlockOnSuccess`);
* lines 365-374 read the last record behind bytes still in the buffer (`resetBeforeLast`).

With all three repaired every run answers as a plain list of rows would, whichever worker makes a
call (`Sessions.Session`). As written, `Sessions.SessionWritten` shows that calls are served in the
same way up to the first whose fate is another one, and `Sessions.FateNext` tells that fate from the
calls all workers have made so far and their replies:

* an add after a search of any worker that found something waits for ever, because that search kept
  its read lock; over all interleavings, an idle table lets an add in if and only if no finished
  search has found anything (`Threads.IdleLockFree`, with an input in `Threads.FirstSearchBlocks`);
* an acceptable add that finds the lock free and a table with rows ends in the assertion of
  `kcn_buf_append` exactly when n + m is 169 modulo 170 (`Sessions.AbortsExact`). Both count the
  worker that makes the add, for each has its own record buffer: n is 0 after its start or its own
  accepted add, and the number of rows the table had at its own last search, when that found
  nothing; m is the number of its own refused adds since then (on a table with rows). What other
  workers do resets nothing: one search that finds nothing in a table of 169 rows is enough, even
  with an accepted add of another worker in between (`Sessions.SearchThenAbort`). Every record read
  moves the window of the buffer by 24 bytes, and nothing resets it before the last record is read;
* an accepted add of a new locator loses it from the index exactly when its bucket is occupied
  (`LocIndex.LinkAsWrittenExact`, with an input in `LocIndex.LinkAsWrittenLoses`). The misplaced
  link spares every entry, and so every later search, when the last locator of the bucket has at
  most 2038 bytes, and of the slots all but those its eight bytes lie in
  (`LocIndex.LostLinkSpares`).

Over every interleaving of threads with their buffers, both files, the log, the lock and all answers
stay consistent if and only if no step does one of three things (`Threads.RunExact`): link into an
occupied bucket without the base, accept an add older than the last row because of left bytes, or
append left bytes behind a record. As written, every record buffer is empty whenever the lock is
free (`Threads.FreeLockEmptyBuffers`), so only the first can happen (`Threads.HarmIsLoss`), while
callbacks succeed. With line 507 alone repaired the others can (`Threads.HalfRepaired`). A search
leaves exactly what `Table.Buffered` says (`Table.Table.Search`), nothing if and only if it asked
for no record or the rows before the last one did not give it its quota (`Table.SearchEmpties`);
`Store.AddExact` says when an add goes right behind any left bytes, under any of the rules, and
`Store.StaleRows` what the bytes a search leaves do to it.

Further findings, stated as lemmas with the input or the exact condition:

* `strncmp` stops at a NUL: an accepted add is reported with other bytes than it was given if and
  only if its bucket has an entry of the same length that agrees with it through a NUL and differs
  after it (`Store.AddAppendsRow`, with an input in `Store.NulAliases`), and the rows of a whole run
  are those of the plain list if and only if that never happens (`Store.RunMatchesLog`);
* an empty stored locator ends a query's answer early, because its response is the terminator
  (`Client.ReadsAnswer`);
* the early-timeout workaround of `lib/kcn_net.c:288-295` leaves queued output with no write event
  armed (`Net.EarlyTimeoutExact`);
* a query message of the wrong length is answered with EINVAL but its body stays in the buffer and
  is read as the next header; the loop stays in step if and only if the length is right or there is
  no body (`Server.WrongLengthQuery`, `Server.InStepExact`, with an input in `Server.StrayByte`);
* loading a file that holds no more than the beginning of a line, the empty file among them, ends
  in the assertion of `kcn_buf_read` (`BulkLoad.Load`);
* a line longer than 4096 bytes is sent or ends the program depending on the reads: one that a turn
  finds incomplete is refused at the next turn if and only if its first field was complete, because
  the separator behind it has become a NUL (`BulkLoad.Rescan`, `BulkLoad.LongLine`).

Assumptions: a read of a database file delivers as much as fits or what is left; writes eventually
succeed, in pieces of any size; offsets stay within `off_t`; locators given to a table fit an entry
in a 4096-byte buffer (`Msg.CapacityAcrossFiles` shows that every decoded add does).

## Model

| member | source | states |
|---|---|---|
| Bytes.Be64 | lib/kcn_buf.c:301-314 | eight big-endian bytes that read back as the value |
| Bytes.Be64Bytes | lib/kcn_buf.c:306-313 | the eight shift-and-mask bytes are that image, for every 64-bit value |
| Bytes.De64Bytes | lib/kcn_buf.c:262-269 | the eight-term sum is the big-endian value |
| Bytes.Be64De64 | lib/kcn_buf.c:256-314 | encoding undoes decoding for every eight bytes |
| Bytes.SignedRoundTrip | lib/kcn_msg.c:83-84 | a signed time survives the unsigned 64-bit field |
| Buffer.Buf.TrimHead | lib/kcn_buf.c:160-168 | drops exactly the first bytes held and moves the cursor out of them |
| Buffer.Buf.Realign | lib/kcn_buf.c:170-180 | the window moves to the front with its bytes and its relative cursor |
| Buffer.Buf.Put | lib/kcn_buf.c:212-222 | overwrites at the cursor and extends the window by what does not fit |
| Buffer.Buf.Get64 | lib/kcn_buf.c:256-271 | the big-endian value at the cursor, which moves past it |
| Buffer.Buf.Read | lib/kcn_buf.c:395-414 | one read: input goes behind what is held, also across a realignment |
| DbFile.File.Ensure | kcndbd/kcndb_file.c:109-126 | true exactly when enough bytes are to be had; buffered plus unread bytes never change; when the window moves |
| DbFile.File.Write | kcndbd/kcndb_file.c:149-162 | for every way the kernel cuts the write, the held bytes land at the offset and nowhere else |
| DbFile.File.AppendAll | kcndbd/kcndb_file.c:164-177 | exactly the held bytes are appended |
| LocIndex.StrHash | lib/kcn_str.c:49-59 | the wrapping loop computes the djb2 hash of the whole locator |
| LocIndex.HashClosed | lib/kcn_str.c:49-59 | for every length the hash is one sum: 5381 and then the bytes as digits in base 33, modulo 2^32, folded by five bits, modulo 256 |
| LocIndex.SameIsEqual | kcndbd/kcndb_db.c:294-295 | the length and strncmp test is equality of bytes when either side has no NUL |
| LocIndex.SameExact | kcndbd/kcndb_db.c:294-295 | in general it takes for equal exactly the equal locators and those of one length that agree through a NUL |
| LocIndex.AppendKeepsRep | kcndbd/kcndb_db.c:302-309 | after the first write the file is the old one plus a complete entry with a null next field that nothing points to |
| LocIndex.LinkKeepsRep | kcndbd/kcndb_db.c:311-313 | writing the entry's offset over the pointer that ended its bucket makes it reachable and changes no other entry or slot |
| LocIndex.LinkedPointer | kcndbd/kcndb_db.c:284-298 | linking changes exactly the pointers that ended that bucket |
| LocIndex.TailMissesEntry | kcndbd/kcndb_db.c:300-313 | the eight bytes written lie in no entry but the next field of the bucket's last one |
| LocIndex.NextIsLater | kcndbd/kcndb_db.c:285-298 | every next pointer is null or beyond its own entry, so walks terminate |
| LocIndex.ChainsWellFormed | kcndbd/kcndb_db.c:284-298 | read off the raw bytes from any slot: whole entries, rising offsets, only that bucket's hash, no locator twice, every linked one, a null at the end |
| LocIndex.RepUnique | kcndbd/kcndb_db.c:253-264 | the list of entries determines every byte of the file |
| LocIndex.LinkAsWrittenExact | kcndbd/kcndb_db.c:300-313 | with the offset as written, the locator joins the index if and only if its bucket was empty |
| LocIndex.LinkAsWrittenLoses | kcndbd/kcndb_db.c:300 | the locators "a" and "gk" share a bucket and the second add is lost |
| LocIndex.LostLinkSpares | kcndbd/kcndb_db.c:300-313 | with a last locator of at most 2038 bytes the misplaced link hits no entry, and only the slots its eight bytes lie in |
| LocIndex.Find | kcndbd/kcndb_db.c:285-298 | the first entry of the bucket that compares equal, or none |
| LocIndex.ItemAt | kcndbd/kcndb_db.c:320-341 | the entry that starts at an offset, if any |
| Table.Table.Init | kcndbd/kcndb_db.c:95-110 | recorded sizes become the file sizes; an empty locator file becomes 256 null slots, any other is untouched |
| Table.ZerosRep | kcndbd/kcndb_db.c:253-260 | 2048 zero bytes represent the empty index |
| Table.Table.WalkBucket | kcndbd/kcndb_db.c:276-300 | the walk over the bytes finds the entry that compares equal, or the field to link as computed at line 300 |
| Table.Table.AppendEntry | kcndbd/kcndb_db.c:301-309 | one complete entry appended, the recorded size kept equal to the file's |
| Table.Table.WriteLink | kcndbd/kcndb_db.c:311-313 | one 8-byte field overwritten, nothing else |
| Table.Table.LocAdd | kcndbd/kcndb_db.c:266-318 | a known locator returns its old index and changes no byte; a new one gets the end of the file; the index stays well formed exactly under `IndexKept` |
| Table.Table.LocLookup | kcndbd/kcndb_db.c:320-341 | an index past the end is ENXIO; the index of an entry gives back its locator's bytes |
| Table.LinkOutcome | kcndbd/kcndb_db.c:300-313 | both writes together leave a well-formed index if and only if the base is added or the bucket was empty |
| Table.Table.RecordRead | kcndbd/kcndb_db.c:343-357 | the next 24 bytes of the stream across realignments, or end of file; where the window goes in either case; that reads fill the buffer |
| Table.Table.ReadLast | kcndbd/kcndb_db.c:359-375 | the 24 bytes behind whatever the buffer still holds, taken as the last record, and what the buffer holds then |
| Table.Table.AppendRecord | kcndbd/kcndb_db.c:403-406 | the record laid over the window, and all of the window appended |
| Table.Table.RecordAdd | kcndbd/kcndb_db.c:377-424 | accepted, refused or aborted, the whole new state of files, entries, records and buffer in each case, and the write lock released unless the process died holding it |
| Table.Table.ScanStep | kcndbd/kcndb_db.c:445-491 | one record taken, tested on its time and value, and its locator looked up, or end of table; where the window goes in either case |
| Table.Table.SearchLocked | kcndbd/kcndb_db.c:438-497 | the callback gets the locators of exactly the first matching records, in order, up to one it fails on; which bytes the buffer is left with, and where its window is |
| Table.Table.Search | kcndbd/kcndb_db.c:426-511 | handed over are the locators of exactly the records at the places `picks`: all inside the window whose value is below, at most, equal to, above or at least the asked one, in table order, up to the quota; ESRCH when there are none, the callback's error when it fails, and the read lock kept exactly on success as written |
| Table.FirstRecord | kcndbd/kcndb_db.c:348-355 | 24 bytes of the table file are one record, the rest the others |
| Records.RecRoundTrip | kcndbd/kcndb_db.c:352-354 | a record reads back from its 24 bytes |
| Records.RecLayout | kcndbd/kcndb_db.c:352-354 | on disk a record is time, value and locator offset, eight big-endian bytes each |
| Records.TabFrom | kcndbd/kcndb_db.c:371-372 | offset 24 i of the file starts record i |
| Records.ScanTakesFirst | kcndbd/kcndb_db.c:444-497 | the scan that stops at its quota takes the first of all matches |
| Records.ScanGives | kcndbd/kcndb_db.c:458-485 | the same told on integers and by place: which records a scan takes, in both directions |
| Records.OperatorLaws | kcndbd/kcndb_db.c:461-485 | LT and GE split what the window holds, and so do LE and GT; the open end admits every later time |
| Records.EqualIsBoth | kcndbd/kcndb_db.c:461-485 | EQ selects what LE and GE select together |
| Table.SearchEmpties | kcndbd/kcndb_db.c:444-497 | a search leaves no bytes if and only if it asks for no record, the table is empty, or the rows before the last one do not give it its quota |
| Store.AddKeepsInv | kcndbd/kcndb_db.c:391-408 | every add keeps locators distinct, records naming linked entries, and times sorted |
| Store.AddAppendsRow | kcndbd/kcndb_db.c:394-408 | an accepted add appends one row and changes none; the row reports its locator byte for byte if and only if no linked entry of its bucket agrees with it through a NUL and differs after it |
| Store.NulAliases | kcndbd/kcndb_db.c:294-296 | a concrete pair of locators with a NUL that share one entry |
| Store.FoundExact | kcndbd/kcndb_db.c:285-298 | the entry an add finds has other bytes exactly when the bucket has such an entry |
| Store.SearchIsMatching | kcndbd/kcndb_db.c:444-497 | what a search hands over is the first k rows of the log that meet window and operator |
| Store.SearchGives | lib/kcn_eq.c:97-105 | which rows of a log those are, on their integers and by place, in both directions: inside the window, in the asked relation, the first k |
| Store.StaleBytesExact | kcndbd/kcndb_db.c:365-374 | for arbitrary left bytes: reading the last record and appending the next is right for every table if and only if there are none |
| Store.StaleRows | kcndbd/kcndb_db.c:365-374 | behind what a search left after i rows the first unread row's time passes for the last one's, and the append is right if and only if at most two rows' bytes are left |
| Store.AddAbortsExact | lib/kcn_buf.c:212-222 | with an empty buffer, the window starts for which an accepted add hits the assertion |
| Store.WindowCycles | kcndbd/kcndb_db.c:343-357 | the window start after any number of records read since the last reset |
| Store.IntendedAdd | kcndbd/kcndb_db.c:377-424 | repaired, an add does to the bytes what it does to the view, and never aborts |
| Store.AddExact | kcndbd/kcndb_db.c:377-424 | repaired or as written, and for any left bytes, exactly when an add answers and does to both files what it should |
| Store.RunMatchesLog | kcndbd/kcndb_db.c:377-511 | for every run of adds and searches the rows are those of a plain list if and only if no add met a NUL twin, and then so are all replies |
| Sessions.Session | kcndbd/kcndb_db.c:377-511 | for every run of any number of workers the methods on the byte files give those replies, those of the plain list under that condition or without NULs, and keep both files well formed |
| Sessions.Serve | kcndbd/kcndb_db.c:377-511 | repaired, one call on the byte files acts as one step on the view |
| Sessions.DriftOutcome | kcndbd/kcndb_db.c:391-406 | the decision on an add, and where a refusal leaves the window, from the records its worker has read since the reset |
| Sessions.AddWritten | kcndbd/kcndb_db.c:377-424 | as written: an add is served, waits, aborts or is lost exactly as its fate says, with the whole new state |
| Sessions.ServeWritten | kcndbd/kcndb_db.c:377-511 | the same for any call; the lock is held exactly after a successful search, and while it is free the worker's record buffer is empty and its window known |
| Sessions.TurnWritten | kcndbd/kcndb_db.c:377-511 | the same for one of several workers after any past of the table; the others' buffers stay as their own pasts tell |
| Sessions.SessionWritten | kcndbd/kcndb_db.c:377-511 | as written, for every run of any number of workers up to a lost add: the repaired replies up to the first call with another fate, and both files right if and only if there is none |
| Sessions.AbortsExact | kcndbd/kcndb_db.c:391-406 | as written, with any number of workers: an acceptable add that finds the lock free aborts if and only if n + m is 169 modulo 170, n the rows at that worker's last search if it found nothing and else 0, m its own refused adds since |
| Sessions.SearchThenAbort | kcndbd/kcndb_db.c:441-457 | one search that finds nothing in a table of 169 rows makes the worker's next acceptable add abort, also after another worker's accepted add |
| Threads.StepOk | kcndbd/kcndb_db.c:386-411 | whatever step any thread takes, under any of the rules, lock, files, sizes, log, readers and answers stay consistent if and only if the step loses no link, accepts no old add by left bytes and appends none of them |
| Threads.RunExact | kcndbd/kcndb_db.c:386-411 | every state of an interleaving is consistent if and only if no step does one of the three |
| Threads.RunOk | kcndbd/kcndb_db.c:386-411 | without such a step the same over every interleaving |
| Threads.BufsRun | kcndbd/kcndb_db.c:343-375 | over every interleaving what each thread's record buffer holds |
| Threads.FreeLockEmptyBuffers | kcndbd/kcndb_db.c:499-510 | as written, every thread's record buffer is empty whenever the lock is free |
| Threads.HarmIsLoss | kcndbd/kcndb_db.c:365-374 | as written, or with the last record read from a reset buffer, lost links are the only harm |
| Threads.HalfRepaired | kcndbd/kcndb_db.c:365-374 | with line 507 alone repaired, a search and then an add between two rows in time are accepted out of order |
| Threads.WellFormedAnywhere | kcndbd/kcndb_db.c:300-313 | without harm, so in every run of the repaired code and in every run as written that loses no link: between any two appends or links both files are well formed, every record names a whole linked entry, acknowledged adds appear once each in lock order, times are sorted, finished searches are right |
| Threads.LinkExact | kcndbd/kcndb_db.c:300-313 | linking under the lock keeps rows, answers, distinctness and both files if and only if the base is added or the bucket was empty |
| Threads.RecordExact | kcndbd/kcndb_db.c:403-408 | where the process does not die, the record is written only once its locator is linked, its time the largest, and both files stay right if and only if no more than a record's worth of bytes was held |
| Threads.LeakBlocksAdds | kcndbd/kcndb_db.c:499-510 | while a read lock is kept no add is acknowledged, in any continuation |
| Threads.SuccessBlocksAdds | kcndbd/kcndb_db.c:499-510 | as written, once a search has found something no add is acknowledged again, over every interleaving |
| Threads.FirstSearchBlocks | kcndbd/kcndb_db.c:499-510 | one search for one row with a matching first row is such an input |
| Threads.IdleLockFree | kcndbd/kcndb_db.c:388-390 | over every run, an idle table lets an add in if and only if successful searches unlock or no finished search found anything |
| Threads.LeakCount | kcndbd/kcndb_db.c:507-510 | over every run the read locks kept are as many as the finished searches that found something, and none when success unlocks |
| Threads.LockRun | kcndbd/kcndb_db.c:140-179 | over every run there is at most one writer and no reader with it, and the lock counts the readers and the kept holds |
| Threads.AloneAdds | kcndbd/kcndb_db.c:386-411 | run undisturbed, the separate steps of one add do exactly what the one-call add does, under any of the rules: outcome, files, entries, records, the thread's buffer, and the process dead where the call aborts |
| Threads.AloneSearches | kcndbd/kcndb_db.c:435-511 | run undisturbed, the steps of one search do what the one-call search does: answer, what the buffer is left with, and whether the lock is kept |
| Msg.DecodeHeader | lib/kcn_msg.c:34-70 | a recognised message lies wholly in the buffer within the size limit; a partial one is shorter than the buffer |
| Msg.FrameDecodes | lib/kcn_msg.c:23-70 | an encoded message followed by anything is recognised with exactly its body |
| Msg.PrefixIsPartial | lib/kcn_msg.c:38-65 | no strict prefix of a message is recognised or rejected |
| Msg.QueryRoundTrip | lib/kcn_msg.c:72-119 | decoding undoes encoding for queries, signed times included |
| Msg.ResponseRoundTrip | lib/kcn_msg.c:131-166 | the same for responses, an absent locator being the empty one |
| Msg.AddRoundTrip | lib/kcn_msg.c:168-199 | the same for adds |
| Msg.CapacityAcrossFiles | lib/kcn_msg.h:3-9 | a locator from any decoded add fits an entry length, a file buffer and a response |
| Msg.WireLayout | lib/kcn_msg.c:23-32 | every message byte by byte: version 1, type 1, 2 or 3, 16-bit length, and the fields in their order |
| Msg.HeaderEncode | lib/kcn_msg.c:23-32 | the header goes into the space in front, giving exactly the framed message |
| Msg.QueryEncode | lib/kcn_msg.c:72-86 | the buffer holds exactly the framed query |
| Msg.ResponseEncode | lib/kcn_msg.c:131-141 | the buffer holds exactly the framed response |
| Msg.AddEncode | lib/kcn_msg.c:168-178 | the buffer holds exactly the framed add |
| Msg.HeaderDecode | lib/kcn_msg.c:34-70 | consumes the header on success and nothing otherwise |
| Msg.QueryDecode | lib/kcn_msg.c:88-119 | a wrong length consumes nothing, a wrong locator type the whole body |
| Msg.ResponseDecode | lib/kcn_msg.c:143-166 | consumes exactly the body and returns its fields |
| Msg.AddDecode | lib/kcn_msg.c:180-199 | consumes exactly the body and returns its fields |
| Framing.DrainAppend | kcndbd/kcndb_server.c:199-236 | later input changes nothing already decided |
| Framing.FeedIsDrain | kcndbd/kcndb_server.c:199-236 | for every split into reads: same messages, same first hard error, exactly the unparsed suffix kept |
| Framing.DrainSettles | lib/kcn_buf.c:401-404 | what is kept cannot be parsed further and is shorter than the buffer |
| Framing.BadHeaderStops | lib/kcn_msg.c:38-66 | a short header waits; another version, or a length beyond 4092, stops the loop with nothing taken |
| Framing.DrainFrame | kcndbd/kcndb_server.c:208-229 | a message at the head is handled with its own body |
| Framing.DrainTurn | lib/kcn_client.c:73-107 | one turn of a receive loop: wait, stop, or go on behind what the handler took |
| Net.DrainQueue | lib/kcn_net.c:299-312 | the drain loop terminates on queued bytes for every script of write results and neither loses nor reorders a byte |
| Net.DrainTrace | lib/kcn_net.c:299-312 | the loop write by write: each takes bytes off the front message, and it ends empty, on EAGAIN, or on a write that failed otherwise or took nothing |
| Net.WriteOutcome | lib/kcn_net.c:279-313 | after a ready write event the connection is closed if and only if some write before the queue emptied failed otherwise than by EAGAIN or took nothing; else it is up, with a write armed if and only if something is left |
| Net.ReadOutcome | lib/kcn_net.c:235-259 | a read event closes the connection if and only if it is a timeout, the read failed hard, or the callback returned neither 0 nor EAGAIN; the read is armed again exactly on EAGAIN |
| Net.TimeoutOutcome | lib/kcn_net.c:288-297 | a timeout of the write event closes the connection, but for the workaround on one that is pending |
| Net.AskedReadArms | lib/kcn_net.c:181-193 | a read asked for at any time is armed at once or by the next ready write event that keeps the connection |
| Net.QueueDrains | lib/kcn_net.c:299-312 | progress: as many ready write events as there are bytes queued, each taking at least one and failing only with EAGAIN, empty the queue |
| Net.RunDrains | lib/kcn_net.c:261-313 | behind any run that leaves the connection live, they send everything that was accepted |
| Net.RunOk | lib/kcn_net.c:127-313 | over every event sequence: unconnected implies write armed, read armed implies established, queued output on a live connection implies write armed, disconnected has nothing armed |
| Net.DisconnectedStays | lib/kcn_net.c:202-212 | disconnected is absorbing |
| Net.PendingReadKept | lib/kcn_net.c:138-142 | a read asked for before the connection is up is armed when it comes up |
| Net.RunConserves | lib/kcn_net.c:261-313 | bytes sent then bytes queued are all accepted messages in order, in every run |
| Net.EarlyTimeoutExact | lib/kcn_net.c:288-295 | the workaround keeps the invariants if and only if nothing was queued |
| Net.Net.WriteCb | lib/kcn_net.c:279-313 | the callback acts as the write step of the state machine, whose outcome `Net.WriteOutcome` and `Net.TimeoutOutcome` give |
| Net.Net.ReadCb | lib/kcn_net.c:235-254 | input reaches the callback exactly on a ready event with data; otherwise the read step's outcome |
| Net.Net.ReadDone | lib/kcn_net.c:255-259 | arms the read again, disconnects, or does nothing |
| Net.Net.Write | lib/kcn_net.c:261-277 | queues a copy and arms the write unless disconnected |
| Net.Net.ReadEnable | lib/kcn_net.c:181-193 | arms the read or remembers it as pending |
| Server.Server.QueryProcess | kcndbd/kcndb_server.c:159-174 | queues the responses and the terminator that `EndToEnd.AnsweredExact` gives byte by byte; what is consumed in each error case |
| Server.Server.AddProcess | kcndbd/kcndb_server.c:176-197 | clock substitution and the table update that `EndToEnd.AddEndToEnd` gives row by row; each error with what is consumed |
| Server.Server.Recv | kcndbd/kcndb_server.c:199-236 | the loop acts as the framing function with the message handler, and output stays armed |
| Server.Server.OnReadable | lib/kcn_net.c:235-259 | after any input either the read is armed with room left in the buffer or the connection is closed |
| Server.StopIsHard | kcndbd/kcndb_server.c:224-235 | the loop never stops with a status that keeps reading |
| Server.WrongLengthQuery | lib/kcn_msg.c:93-97 | a query of the wrong length queues EINVAL and the loop goes on at its body |
| Server.Refusals | kcndbd/kcndb_server.c:176-229 | the messages that end a connection, and what is left unread: an unknown type, a short add, an unknown table, a failed clock |
| Server.InStepExact | kcndbd/kcndb_server.c:159-174 | after a query the loop is behind it if and only if the query has the right length or no body |
| Server.StrayByte | kcndbd/kcndb_server.c:208-229 | a concrete stream on which one stray byte loses the good query behind it |
| Server.AddKeepsSmall | lib/kcn_msg.c:194 | every stored locator fits a response |
| Client.NeverOverruns | lib/kcn_client.c:97-103 | for arbitrary input the result array is never overrun |
| Client.Client.Take | lib/kcn_client.c:85-103 | one response: stored, end of answer, or error |
| Client.Client.Read | lib/kcn_client.c:73-107 | the loop acts as the framing function with the client's handler |
| Client.ReadsReply | lib/kcn_client.c:82-104 | responses become results one for one, in order |
| Client.ReadsAnswer | lib/kcn_client.c:92-96 | the whole answer: results up to the first empty locator, all of them if and only if there is none, and the status |
| Client.TooMany | lib/kcn_client.c:97-103 | more locators than asked for: the first ones are kept, and the next one ends the answer with ETOOMANYREFS |
| Client.Invalid | lib/kcn_client.c:80-91 | another message type, or a response shorter than two bytes, is EINVAL with its body unread |
| EndToEnd.DeliveredReachable | lib/kcn_net.c:261-313 | every list of non-empty messages can be delivered: any such write events, at least as many as it has bytes, and any cut into reads |
| EndToEnd.AnsweredExact | kcndbd/kcndb_server.c:134-174 | for every query message and state: locator types other than 0 and 1 get EINVAL, unknown tables and operator bytes have no answer, and any other query gets one response for each of the first rows it asks for and the status, byte by byte |
| EndToEnd.QueryEndToEnd | lib/kcn_client.c:131-165 | for every cut of both streams the client ends with the first n rows' locators whose time and value stand as the bytes of its query ask, in table order, or ESRCH |
| EndToEnd.RefusedEndToEnd | lib/kcn_msg.c:108-116 | a wrong locator type brings the client EINVAL and no locator |
| EndToEnd.AddEndToEnd | kcndbd/kcndb_server.c:176-197 | an add message stops with ERANGE and unchanged tables if and only if the last row is newer; else its time (or the clock's, used up only then), value and locator are one new last row, and nothing else changes |
| EndToEnd.AddThenQuery | kcndbd/kcndb_db.c:377-511 | an add over one connection, then a query over another: the client gets the rows asked for of the log with the new row, which comes last unless the answer was full before it |
| BulkLoad.FieldEnd | kcndbctl/kcndbctl_file.c:59-77 | a field is printable up to the first white space |
| BulkLoad.LineGrows | kcndbctl/kcndbctl_file.c:138-146 | a line that is parsed, or refused, is so whatever follows it |
| BulkLoad.Loader.Forward | kcndbctl/kcndbctl_file.c:59-77 | finds that field end, or reports a cut or malformed field |
| BulkLoad.Loader.Get64 | kcndbctl/kcndbctl_file.c:95-110 | the field's number; the separator becomes NUL and the input ahead is unchanged |
| BulkLoad.Loader.GetStr | kcndbctl/kcndbctl_file.c:79-93 | the field's bytes, or E2BIG |
| BulkLoad.Loader.SendLine | kcndbctl/kcndbctl_file.c:138-152 | for any buffer: the line at the front is sent and removed, waited for, or refused; a line waited for leaves a NUL behind its first field if that is complete and else nothing changed |
| BulkLoad.Loader.ReadFile | kcndbctl/kcndbctl_file.c:121-166 | one callback: whole lines sent in order, the size field equal to unread plus buffered bytes, a refused line reported only when all lines before it are sent |
| BulkLoad.Load | kcndbctl/kcndbctl_file.c:168-203 | for every cut of the file each of its lines is sent exactly once, in order, and nothing else; an unterminated tail is not sent, a malformed one ends the program, a file that is no more than the beginning of a line meets the buffer assertion |
| BulkLoad.StrtoullDigits | lib/kcn_str.c:10-34 | a number written in base 10 is read as that number, up to the largest signed one; with a sign as its negative, down to the smallest |
| BulkLoad.NaNExact | lib/kcn_str.c:20-24 | exactly the fields that are refused as numbers |
| BulkLoad.LoadRows | kcndbctl/kcndbctl_file.c:94-203 | a file written row by row is sent as exactly those rows, for every cut and any white space between fields; an unfinished line behind them is not sent, and one with a bad byte or number ends the program |
| BulkLoad.Rescan | kcndbctl/kcndbctl_file.c:101-104 | a line found incomplete is refused at a later turn if and only if its first field was complete, whatever has come in between |
| BulkLoad.LongLine | kcndbctl/kcndbctl_file.c:137-147 | a line found incomplete once is sent at a later turn if and only if not even its first field was there |
| Uri.StrLen | lib/kcn_uri.c:29-42 | predicts exactly the bytes that will be written |
| Uri.Uri.EncPuts | lib/kcn_uri.c:114-138 | appends the encoding and keeps the terminator at the end |
| Uri.Uri.ParamPuts | lib/kcn_uri.c:153-166 | appends `&name=value`, or nothing for a null value |
| Uri.Uri.Resize | lib/kcn_uri.c:105-112 | cutting back to an earlier length restores the earlier text |
| Uri.Request | lib/kcn_google.c:193-207 | any sequence of parameters put behind a base reads back as those with a value, and the cut restores the base |
| Uri.DecEnc | lib/kcn_uri.c:125-135 | decoding (section 2.1 of RFC 3986, '+' for space) recovers every value |
| Uri.EncAlphabet | lib/kcn_uri.c:19-27 | an encoded value holds only letters, digits, '.', '-', '_', '+', and '%' followed by two upper-case hexadecimal digits |
| Uri.EncParts | lib/kcn_uri.c:125-135 | what each byte becomes |
| Uri.ParseBuild | lib/kcn_uri.c:153-166 | any list of parameters whose names contain no '&' or '=' reads back uniquely |

## Left out

- Sockets, accept loop, libevent internals, daemon start-up, logging and `errno` texts: a read, a write, a clock or an event is an argument that may take any value.
- Allocation failure and failed or torn disk writes.
- Table types outside 1..7 and operators outside LT..GE: the source has no defined behaviour for them; the server model stops with `UNDEFINED`.
- The seven tables are independent; one is modelled, and the server holds a map of them.
- What happens to an index after a link as written has gone wrong: methods start from a well-formed index, and `Threads.RunExact` says up to which step there is one.
- Server.Server.Recv: acts on tables at their view (`Store.View`), as the repaired byte-level table does (`Sessions.Serve`); the fates of `Sessions.FateOf` are not followed into the connection.
- Server.Server.QueryProcess: the same; a lock kept by its search is not seen there.
- Server.Server.AddProcess: the same; an add that waits, aborts or is lost is not seen there.
- EndToEnd.AddEndToEnd: the same; `EndToEnd.AddThenQuery` and `EndToEnd.QueryEndToEnd` follow tables at their view.
- Table.Table.Search: returns what the callback was handed instead of calling it inside the scan; the callback is given by how many records it accepts and the error it then sets.
- Sessions.Session: searches whose callback does not fail; the server's fails only when memory runs out. The same holds of the searches of `Threads.Step`.
- Sessions.SessionWritten: the same, and up to the first lost add.
- Threads.RunExact: an append is one step; what the files hold between two pieces of one is not stated.
- The linked-list form of the output queue: it is a sequence of the bytes still to be sent.
- `kf_size` of a database file, which is written and never read.
- Table.Table.LocLookup: an offset inside the file at which no entry starts; no record has one.
- BulkLoad.LoadRows: rows longer than 4096 bytes, as in the next line.
- BulkLoad.Load: a file whose first line that is not well formed is longer than 4096 bytes; what becomes of the file then depends on how the reads cut it (`BulkLoad.LongLine`).
- Google search, HTTP, keyword scoring, name tables and address conversion.
