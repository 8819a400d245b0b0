# single_fs: a verified model

A Dafny model of the file-synchronisation engine of `single_fs`, of its network
layer and of two small stores beside it, with proofs of what they do and of
exactly when that is what they are for.

* **rdiff** (`single_fs/librsync`): an old file is described block by block in a
  signature file; a new file is scanned against it with a rolling checksum; what
  matches becomes copies and the rest literals in a delta file; the old file and
  the delta give the new file back. The theorem at the top is `Rdiff.EndToEnd`,
  and `Rdiff.Run` for the three programs run one after the other.
* **simple_rsync** (`single_fs/simple_rsync`): the client fetches the chunk list
  of a source file, finds chunks in its own copy, and writes the source again.
  The theorem at the top is `FileRebuilds.GetFile`; `RsyncServices.ScanFindsIff`
  is about the other, complete scan.
* **net.v1** (`single_fs/depends/net.v1`): length-prefixed frames, sent in
  whatever pieces the socket takes and cut again out of whatever `recv` returns
  (`StreamSockets.Fragmentation`, `StreamSenders.Carry`), and what that means
  for the chunk list (`MetaFrames.ReplyArrivesIff`).
* **the linked list** of `net.v1` and **the extent store** of
  `single_fs/depends/fs`.

Run `dafny verify dfyconfig.toml` to check it all.

## How it is modelled

Objects whose methods update fields are classes with those fields, buffers are
arrays, and each method is proved against a function of its inputs or of the old
state. A file is a sequence of bytes. The chunk size, the character offset and
the buffer sizes are the parameters `Params`. The strong sum is a parameter of
which nothing is known but that it is a function of the bytes; where a theorem
needs it to tell blocks apart it says so: about every window of the new or local
file and the blocks in question (`NoCollision`, `Unconfused`, `TailApart`), or
about what the read buffer can hold where the file ends (`StaleApart`,
`TailNotStale`), and about no other bytes.

The code is modelled as it stands. Where it falls short of its purpose, there is
an input that shows it and the exact condition under which it works:

* *Resume point.* Accepting a window in the rolling loop leaves `curr` on the
  last byte of that window (`rsync_core.cpp:365` skips the increment of line
  369), so the next round can accept a window that starts one byte before the
  end of the copy. The delta then holds a literal of length -1: for every chunk
  size, a run of equal bytes does it (`StepsBackOnRuns`). It never happens when
  the new file nowhere holds one old block at the last byte of another
  (`NoOverlapNeverStepsBack`), and so not when no block of the old file ends
  with the byte that a block begins with (`EndsDifferNoOverlap`).
* *End of the file.* The rolling loop runs to the chunk size even where fewer
  bytes are left to map (`rsync_core.cpp:347`, `rsync_service.cpp:177`). Behind
  the last byte it meets what an earlier mapping left in the read buffer, and
  judges windows that end beyond the file by such bytes (`PastFrom`). What these
  are follows from the file and from how the buffer was filled when it was opened
  (`BehindFrom`); for a file shorter than the buffer they are known (`BehindIs`).
  Accepting such a window makes the delta stand for too many bytes: for every
  chunk size from 3 on, a one-chunk file that begins and ends with a byte,
  against the file with the first one moved to the end, comes out one byte longer
  (`RunsPastOnEnds`). It never happens when no block of the old file begins with
  the last bytes of the new one, however many below a chunk
  (`TailFreeNeverRunsPast`).
* The nodes tile the new file if and only if neither happens (`ScanTilesIff`).
  When only the second does, the delta is written all the same and the patched
  file is too long; so it is the new file if and only if the scan did not run
  past the end (`Rdiff.EndToEnd`, `Rdiff.Run`). In `simple_rsync` the same
  acceptance makes the client read a block from beyond its local file. The
  result then has the length of the source, and is the source if and only if the
  buffer, by then, happens to hold the rest of that block
  (`Relocations.LocatedIff`, `FileRebuilds.GetFile`); for every chunk size from
  3 on there are files with which it does not (`MisreadOnEnds`).
* *Literal runs.* A run longer than the write buffer overruns it. The delta can
  be written if and only if the scan neither steps back nor meets more bytes
  than the buffer holds between two matches (`DeltaIff`). Before the scan one
  can tell for an old file shorter than a chunk, where it means a new file no
  longer than the buffer (`ShortOriginIff`); for a new file no longer than the
  buffer that passes the two checks above; and for an unchanged file of any
  size, whose delta takes nine bytes a block (`UnchangedDelta`). The last two
  always come through (`ChecksSuffice`, and the last clause of `Rdiff.Run`).
* *Skipped windows.* A round looks at the windows up to a chunk behind its start
  and the next one begins two chunks on (`RoundSkips`). The first window that has
  a weak sum of the list and both sums of a chunk is found if it starts at most a
  chunk behind the start of a round (`FindsFirst`, `RelocatesFirst`), and the
  windows between are never looked at.
* *Weak-hit rebind.* After a weak hit that the strong sum refutes, the read
  pointer stands for another place (`rsync_core.cpp:353`) and later bytes enter
  the window from there; what is found then is `ReboundFinds`. It costs matches,
  not correctness.
* *Circular buffer.* `Realloc` keeps the queue if and only if the queue is
  unwrapped and fits the new buffer, or the size stays the same
  (`ReallocKeepsIff`). General use leaves that region, and the next push then
  reads outside the old buffer (`WrappedAndFull`); the checksums never do
  (`DisciplineKept`).
* *Power table.* The polynomial hash builds its table once, for the first length
  it meets. An update is right if and only if the table removes the first byte
  exactly (`Checksum2.Update`). One object given two bytes and then one rolls
  wrong (`Checksum2s.StaleTable`).
* *Receive buffer.* A frame whose length passes the size check but whose eight
  extra bytes do not fit is never delivered, and the full buffer closes the
  connection, whatever fitting packets came before (`TightStalls`). A stream of
  any packets arrives if and only if every frame fits (`ArrivesIff`). A frame no
  shorter than the buffer is thrown away with its first eight bytes, as is one
  with a wrong first word; the packets before it are delivered and the connection
  goes on (`OversizeDropped`, `RefusedDropped`, `ResumesBehind`). So the reply
  with a chunk list of n entries arrives if and only if 44 n + 39 bytes fit
  (`ReplyArrivesIff`), about 195 MB of source at the chunk size and buffer size
  in the code.
* *Short last block.* `simple_rsync` describes it with weak sum 0 and a strong
  sum over the wrong bytes (`TailDigested`). That alone does not spoil the
  rebuild, provided no window of the local file has that strong sum
  (`TailApart`).
* *Extent store.* The data file is opened for appending, so a write after
  opening the store without a saved index goes elsewhere than its recorded
  offset (`LostWrite`); it reads back what it wrote if and only if the extents
  reach the end of the file (`ReadsBackIff`).

## Model

| member | source | states |
|---|---|---|
| Bytes.BigEndian | single_fs/librsync/rsync_core.cpp:20-27 | the four bytes of a word, most significant first |
| Bytes.Be32OfFromBe32 | single_fs/depends/net.v1/stream_socket_context.cpp:279-285 | reading a big-endian word and writing it again gives the same four bytes |
| Bytes.WordAt | single_fs/librsync/rsync_core.cpp:20-27 | a word written with `htonl` behind any prefix is read back at its position with `ntohl`, and what follows it starts four bytes later |
| WeakSums.S2IsWeighted | single_fs/librsync/checksum3.cpp:24-27 | the high sum is the sum of the bytes weighted by their distance from the end of the window |
| WeakSums.UnrolledStep | single_fs/librsync/checksum3.cpp:19-23 | four bytes at once add to both sums what four single steps add |
| WeakSums.UnrolledWords | single_fs/librsync/checksum3.cpp:19-23 | the same under 32-bit wrap-around |
| WeakSums.RollSums | single_fs/librsync/checksum3.cpp:57-60 | over the integers, dropping the first byte and adding one at the end changes both sums as the update computes |
| WeakSums.RolledIsWeak | single_fs/librsync/checksum3.cpp:51-64 | the update's 32-bit arithmetic, with the length masked to 16 bits, turns the checksum of any window into that of the slid window, for any character offset |
| Checksum3s.Checksum3.Sum1 | single_fs/librsync/checksum3.cpp:12-29 | for every length the unrolled loop and its tail give, in the low half, the sum of the bytes and, in the high half, the sum of the bytes weighted by their distance from the end, each modulo 2^16 |
| Checksum3s.Checksum3.Init | single_fs/librsync/checksum3.cpp:30-40 | the queue holds the window and `tmp_sum_` is its checksum |
| Checksum3s.Checksum3.Update | single_fs/librsync/checksum3.cpp:51-64 | the window slides by one byte, `tmp_sum_` is still its checksum, and the queue stays where a resize is safe |
| Checksum3s.Checksum3.WindowBytes | single_fs/librsync/checksum3.cpp:73-77 | with no buffer given, the bytes digested are the window, none before the first `Init`, and the object rolls on unchanged |
| PolyHashes.HeadPoly | single_fs/librsync/checksum2.cpp:31-39 | the first byte's share of the polynomial is the byte times the prime to the length less one |
| PolyHashes.RollHash | single_fs/librsync/checksum2.cpp:73-81 | the 32-bit update gives the hash of the slid window if and only if the table entry is congruent to the first byte's share |
| Checksum2s.Checksum2.Sum1 | single_fs/librsync/checksum2.cpp:31-39 | the loop computes the polynomial modulo 2^32 |
| Checksum2s.Checksum2.BuildPowers | single_fs/librsync/checksum2.cpp:43-52 | every entry is its byte times the prime to the current length, modulo 2^32 |
| Checksum2s.Checksum2.Fill | single_fs/librsync/checksum2.cpp:53-61 | the bytes fill the cleared queue and their hash is computed along the way |
| Checksum2s.Checksum2.Init | single_fs/librsync/checksum2.cpp:40-62 | the queue holds the window, `tmp_sum_` is its hash, and the table keeps the length it was first built for |
| Checksum2s.Checksum2.Update | single_fs/librsync/checksum2.cpp:73-81 | the window slides; the hash follows it if and only if the table removes the first byte, and always when it was built for this length |
| Checksum2s.StaleTable | single_fs/librsync/checksum2.cpp:40-81 | one object, initialised with two bytes and then with one: the update returns a hash that is not that of the window |
| CircleQueues.ReallocKeepsIff | single_fs/include/circle_queue.h:41-58 | the moves keep the queued values if and only if the queue is unwrapped and fits the new buffer, or the size does not change, for every state and new size |
| CircleQueues.WrappedAndFull | single_fs/include/circle_queue.h:64-91 | pushes and pops alone lead to a wrapped queue that the next push must grow, and the growth reads beyond the old buffer |
| CircleQueues.CircleQueue.Realloc | single_fs/include/circle_queue.h:41-58 | in the faithful cases the contents, oldest first, survive into the new buffer |
| CircleQueues.CircleQueue.Push | single_fs/include/circle_queue.h:64-77 | the value joins at the end; when and to what the buffer grows |
| CircleQueues.CircleQueue.Pop | single_fs/include/circle_queue.h:78-91 | the oldest value leaves, an empty queue stays empty; when the buffer is halved and where the front then is |
| CircleQueues.CircleQueue.Front | single_fs/include/circle_queue.h:92-96 | it is the oldest value |
| CircleQueues.CircleQueue.GetData | single_fs/include/circle_queue.h:114-119 | the contents in order from the start of the returned buffer, wrapped or not |
| WindowDiscipline.DisciplineKept | single_fs/include/circle_queue.h:64-91 | one push and one pop on a rolling window resize only while it is unwrapped, and leave a state from which that holds again |
| WindowDiscipline.ResizingStops | single_fs/include/circle_queue.h:64-91 | after finitely many updates, bounded by the capacity, the capacity changes no more |
| WindowDiscipline.SettledStays | single_fs/include/circle_queue.h:64-91 | a capacity that one update keeps is kept by all later ones |
| FileMaps.FileMap.constructor | single_fs/librsync/file_map.h:15-29 | the window holds the first bytes of the file; its length may be left unset, within the buffer, when the file fills it |
| FileMaps.FileMap.MapFileContent | single_fs/librsync/file_map.cpp:7-23 | whether cached or read again, the returned place holds the file's bytes from the offset on, as many as the buffer and the file allow; NULL exactly beyond the end; no 32-bit overflow; and what the whole buffer holds afterwards, stale bytes included |
| FileMaps.FileMap.Refill | single_fs/librsync/file_map.cpp:15-22 | the window moves to the offset and is cut at the end of the file |
| ReadWindows.MapEnd | single_fs/librsync/file_map.cpp:13-22 | a request that reaches the end of the file is always read again, to the start of the buffer; what the file does not fill stays as it was |
| ReadWindows.ReadRange | single_fs/librsync/file_map.cpp:7-23 | for a request inside the file and no longer than the window the bytes are exactly the file's |
| ReadWindows.ReadWord | single_fs/librsync/rsync_core.cpp:113-115 | the word mapped at a position is the big-endian word of the file there |
| WriteFileMaps.WriteFileMap.constructor | single_fs/librsync/write_file_map.h:13-21 | nothing has been appended |
| WriteFileMaps.WriteFileMap.Flush | single_fs/librsync/write_file_map.cpp:10-16 | everything appended is in the file and the buffer is empty |
| WriteFileMaps.WriteFileMap.AppendData | single_fs/librsync/write_file_map.cpp:21-28 | file and buffer together hold all data appended, in order, and the buffer never overflows |
| WriteFileMaps.WriteFileMap.Close | single_fs/librsync/write_file_map.h:42-47 | the file left behind is everything appended |
| Chunks.Lookup | single_fs/librsync/rsync_core.cpp:301-305 | the last chunk with a weak sum, or none |
| Chunks.BuildTable | single_fs/librsync/rsync_core.cpp:298-305 | the table finds the last chunk of each weak sum and the filter passes all of them |
| Chunks.Find | single_fs/librsync/rsync_core.cpp:321-324 | the filter in front of the table hides no chunk |
| Signatures.GenerateMetaList | single_fs/librsync/rsync_core.cpp:212-246 | one description per whole block, with its place, length and both sums; none for a shorter last block |
| Signatures.DescribeBlocks | single_fs/librsync/rsync_core.cpp:222-232 | the loop describes every whole block and leaves its read pointer on the last one, or NULL |
| Signatures.GenerateSigFile | single_fs/librsync/rsync_core.cpp:14-52 | the file is the encoding of that list, through the write buffer |
| Signatures.SigLayout | single_fs/librsync/rsync_core.cpp:20-48 | where a signature file holds its magic number, the chunk size, its count and its entries |
| Signatures.EntryLayout | single_fs/librsync/rsync_core.cpp:28-47 | the 45 bytes of an entry: a flag, three words and the strong sum |
| Signatures.EntryAt | single_fs/librsync/rsync_core.cpp:28-47 | entry k follows the k entries before it |
| Signatures.DecodeOfEncodeEntry | single_fs/librsync/rsync_core.cpp:28-47 | the five fields of an entry are read back as they were, negative offsets and both flags included |
| Signatures.DecodeOfEncodeSig | single_fs/librsync/rsync_core.cpp:255-293 | parsing inverts generating, for every list of descriptions |
| Signatures.ParseMetaList | single_fs/librsync/rsync_core.cpp:255-293 | the list the file encodes, in new objects; none exactly for a wrong magic number |
| Scans.RollFrom | single_fs/librsync/rsync_core.cpp:342-370 | over the mapped bytes: an accepted position lies in the range rolled over and its window has the strong sum of the chunk named |
| Scans.PastFrom | single_fs/librsync/rsync_core.cpp:347-370 | behind them: a window accepted there ends beyond the file |
| Scans.RoundAt | single_fs/librsync/rsync_core.cpp:315-371 | a round ends the scan exactly when less than a chunk is left, and otherwise moves on by at least a chunk: by two chunks without a match, to the end of a window accepted first, or to the last byte of one accepted in the rolling loop; or it accepts a window that ends beyond the file |
| Scans.SignatureTrusted | single_fs/librsync/rsync_core.cpp:351-355 | without collisions, an accepted window equals the block of the old file at the chunk's offset |
| Scans.TilesFound | single_fs/librsync/rsync_core.cpp:328-338 | the literal and the copy of an accepted window cover the file exactly up to the window's end |
| Scans.ScanTilesIff | single_fs/librsync/rsync_core.cpp:295-378 | the nodes cover the new file in order without gap, overlap or empty node, copies standing for equal bytes, if and only if the scan neither steps back nor accepts a window that ends beyond the file |
| Scans.SteppedBackFails | single_fs/librsync/rsync_core.cpp:328-336 | a step back emits a literal of length -1 |
| ScanEnds.StepsBackOnRuns | single_fs/librsync/rsync_core.cpp:363-369 | it happens for every chunk size and character offset: an old file of one block of equal bytes, and a new file of one other byte and then one byte less than two such blocks |
| ScanEnds.NoOverlapNeverStepsBack | single_fs/librsync/rsync_core.cpp:363-369 | it does not when the new file nowhere holds an old block at the last byte of another |
| ScanEnds.EndsDifferNoOverlap | single_fs/librsync/rsync_core.cpp:363-369 | which is so for every new file when no block of the old file begins with the byte a block ends with |
| ScanEnds.RunsPastOnEnds | single_fs/librsync/rsync_core.cpp:342-370 | for every chunk size from 3 on and whatever the buffer held: a file of one chunk that begins and ends with a byte, against the file in which the first one has moved to the end, is scanned to a literal byte and a copy of the whole old file, one byte too many |
| ScanEnds.NeverRunsPast | single_fs/librsync/rsync_core.cpp:347-370 | the scan does not accept such a window if no bytes that the buffer can then hold have the strong sum of a chunk |
| ScanEnds.TailFreeNeverRunsPast | single_fs/librsync/rsync_core.cpp:347-370 | which is so, without collisions, when no block of the old file begins with the last bytes of the new file, for any number of them below a chunk |
| ScanEnds.UnchangedScan | single_fs/librsync/rsync_core.cpp:315-340 | against its own signature a file of any size is scanned without a step back or a run past the end, and its only gap is what follows the last whole block |
| Scans.TilesRebuild | single_fs/librsync/rsync_core.cpp:313-376 | nodes that tile the file stand for exactly its bytes |
| ScanFinds.RoundFinds | single_fs/librsync/rsync_core.cpp:347-370 | a round finds the first window with both sums of a chunk, up to a chunk behind its start, if no window before it has a weak sum of the list |
| ScanFinds.RoundSkips | single_fs/librsync/rsync_core.cpp:315-371 | away from the end, a round that meets no weak sum of the list in these windows goes on two chunks further |
| ScanFinds.RoundRebinds | single_fs/librsync/rsync_core.cpp:352-355 | after a refuted weak hit the loop goes on from that window with the bytes behind its place |
| ScanFinds.ReboundFinds | single_fs/librsync/rsync_core.cpp:347-370 | what it then finds: the first of the windows so formed with a weak sum of the list, if the file's window there has the strong sum; nothing, if none has one |
| ScanFinds.RoundFindsPast | single_fs/librsync/rsync_core.cpp:347-370 | where a round meets the end it accepts the first window of file and buffer with a weak sum of the list, if the bytes then mapped have the strong sum |
| ScanFinds.RoundMissesPast | single_fs/librsync/rsync_core.cpp:347-370 | and nothing, if none has a weak sum of the list |
| ScanFinds.FindsFirst | single_fs/librsync/rsync_core.cpp:314-371 | over any number of rounds: the first window with a weak sum of the list, if it has both sums of a chunk and starts at most a chunk behind the start of a round, becomes a copy behind the literal before it |
| ScanWindows.RoundViewInside | single_fs/librsync/rsync_core.cpp:315-371 | a round that maps nothing up to the end of a file held in the buffer leaves the buffer as it is |
| ScanWindows.RoundViewEnd | single_fs/librsync/rsync_core.cpp:342-370 | the round that meets the end of such a file leaves at the start of the buffer the rest of the file and then the file's own first bytes, or a window mapped again |
| ScanWindows.BehindIs | single_fs/librsync/rsync_core.cpp:295-371 | for a file shorter than the buffer, what the scan meets behind its end, whatever happened before |
| ScanWindows.BehindOfFile | single_fs/librsync/file_map.cpp:13-22 | for every file it is bytes of the file, if the buffer was filled when it was opened |
| ScanWindows.LeftOfShort | single_fs/librsync/file_map.h:15-29 | a file shorter than the buffer is opened in one way only, so these bytes follow from signature and file |
| ScanNewFiles.Roll | single_fs/librsync/rsync_core.cpp:342-370 | over the mapped bytes the inner loop, with checksum object, filter, table and read window, finds what the function of the file says, and leaves the buffer as the requests it makes do |
| ScanNewFiles.JudgePast | single_fs/librsync/rsync_core.cpp:353-355 | a window that ends beyond the file is judged by the rest of the file and the stale bytes behind it |
| ScanNewFiles.RollPast | single_fs/librsync/rsync_core.cpp:347-370 | behind the mapped bytes the same loop finds what the function of the file and the buffer says |
| ScanNewFiles.RollMapped | single_fs/librsync/rsync_core.cpp:342-370 | the loop up to the end of the mapped bytes, and what the buffer then begins with |
| ScanNewFiles.RollOn | single_fs/librsync/rsync_core.cpp:342-371 | the whole loop finds what the function of the file and of these bytes says; with nothing left to map they are the window the round began with |
| ScanNewFiles.ScanRound | single_fs/librsync/rsync_core.cpp:315-371 | so does one round, and the buffer is left as its requests leave it |
| ScanNewFiles.ScanTurn | single_fs/librsync/rsync_core.cpp:315-371 | a round appends its nodes and advances, so the scan ends |
| ScanNewFiles.ScanNewFile | single_fs/librsync/rsync_core.cpp:295-378 | the node list is a function of the signature, the new file and what the read buffer begins with where the loop meets the end of the file, which follows from the two and from the buffer as it was opened |
| Deltas.DeltaLayout | single_fs/librsync/rsync_core.cpp:74-79 | where a delta file holds its magic number, its count and its operations |
| Deltas.OpLayout | single_fs/librsync/rsync_core.cpp:80-98 | the fields of a copy and of a literal, tag first |
| Deltas.ParseOfEncodeDelta | single_fs/librsync/rsync_core.cpp:74-99 | reading a delta file gives back its operations and ends at its last byte |
| Deltas.CopyRun | single_fs/librsync/rsync_core.cpp:149-166 | pieces and remainder append exactly the run, nothing for a negative length |
| Patches.PatchOp | single_fs/librsync/rsync_core.cpp:133-202 | one operation appends the bytes it stands for and leaves the offset behind it; it fails exactly on an unknown tag |
| Patches.PatchOps | single_fs/librsync/rsync_core.cpp:132-203 | the loop appends the meaning of all operations up to an unknown tag |
| Patches.PatchFile | single_fs/librsync/rsync_core.cpp:105-210 | the result is the concatenation of old-file runs and literals the delta lists; what happens for a wrong magic number or tag |
| ScanNodes.ScanSound | single_fs/librsync/rsync_core.cpp:328-336 | every node of the scan can be read from its file if its length can be written |
| ScanNodes.PositiveIff | single_fs/librsync/rsync_core.cpp:357-369 | every literal has a positive length if and only if the scan never steps back, for any signature and file and with no assumption on the strong sum |
| ScanNodes.BoundedIff | single_fs/librsync/rsync_core.cpp:330-334 | no literal outgrows the buffer if and only if the scan meets no such gap, for any signature and file |
| ScanNodes.DeltaIff | single_fs/librsync/rsync_core.cpp:79-99 | a delta can be written if and only if the scan never steps back and never meets more bytes than the buffer holds between two matches, before the first or after the last |
| ScanNodes.PastTooLong | single_fs/librsync/rsync_core.cpp:356-366 | after a window accepted beyond the end, the nodes stand for more bytes than the file has |
| ScanNodes.ScanCount | single_fs/librsync/rsync_core.cpp:77-78 | there are no more nodes than bytes and one, so the count fits its field, and the operations take at most eighteen bytes for each of at most so many chunks as the file has, and eighteen more, beside the file's bytes |
| DeltaGeneration.AppendNode | single_fs/librsync/rsync_core.cpp:80-98 | the fields of a node are appended as the operation it encodes |
| DeltaGeneration.AppendNodes | single_fs/librsync/rsync_core.cpp:79-99 | the nodes are appended in order, up to the first one the buffer cannot take |
| DeltaGeneration.GenerateDeltaFile | single_fs/librsync/rsync_core.cpp:53-104 | stops exactly for a wrong magic number, no delta exactly for a new file shorter than a chunk; otherwise the encoding of the nodes, exactly when every literal fits the buffer |
| Rdiff.ShortOriginIff | single_fs/librsync/rsync_core.cpp:53-104 | against an old file shorter than a chunk, if and only if the new file fits the buffer |
| Rdiff.MeaningIsRebuild | single_fs/librsync/rsync_core.cpp:79-99 | the operations written mean the bytes the nodes stand for |
| Rdiff.OpsSize | single_fs/librsync/rsync_core.cpp:79-99 | the operations of a list of nodes take five bytes and its length for a literal, and nine for a copy |
| Rdiff.RebuildIff | single_fs/librsync/rsync_core.cpp:295-378 | when the literals fit, the nodes stand for the new file if and only if the scan did not run past its end, and otherwise for more bytes |
| Rdiff.EndToEnd | single_fs/librsync/rsync_core.cpp:14-210 | whenever a delta can be written, the one generated against the old file's signature is whole and at most eighteen bytes a chunk and twenty-six longer than the new file; applied to the old file it means exactly the new file if and only if the scan did not run past the end, and otherwise a longer one |
| Rdiff.ChecksSuffice | single_fs/librsync/rsync_core.cpp:295-378 | for a new file no longer than the write buffer, without overlaps and with a free tail, or the old file again, the scan does nothing wrong |
| Rdiff.UnchangedDelta | single_fs/librsync/rsync_core.cpp:53-104 | the delta of an unchanged file of any size takes exactly eight bytes, nine a block, and five more and the rest where one follows the last block |
| Rdiff.Run | single_fs/librsync/rdiff.cpp:8-29 | signature, delta and patch give a result exactly when the scan neither steps back nor meets a long gap, and it is the new file exactly when the scan did not run past the end; for files that can be checked beforehand it always is; for a new file shorter than the read buffer all of this follows from the two files |
| RsyncServices.ScannedOne | single_fs/simple_rsync/rsync_service.cpp:106-125 | one more window relocates the chunk that owns its weak sum if the strong sum agrees, and no other |
| RsyncServices.LastAt | single_fs/simple_rsync/rsync_service.cpp:112-123 | the last window at which a chunk occurs, or none |
| RsyncServices.ScanFindsIff | single_fs/simple_rsync/rsync_service.cpp:65-129 | sound and complete: a chunk that owns its weak sum comes from the destination if and only if its block occurs there at any offset, and then its offset is that of an occurrence |
| RsyncServices.ScanBuffer | single_fs/simple_rsync/rsync_service.cpp:100-127 | every byte of a buffer, read from the start of the current window, ends a window that is considered at its place in the file |
| RsyncServices.ScanFile | single_fs/simple_rsync/rsync_service.cpp:65-129 | after the scan every chunk is where its last occurrence puts it |
| FileRebuilds.GenerateMetaList | single_fs/simple_rsync/rsync_service.cpp:24-57 | the whole blocks and then the shorter last one, its strong sum taken from wherever the read pointer was left |
| FileRebuilds.DigestTail | single_fs/simple_rsync/rsync_service.cpp:45-54 | the bytes digested for the shorter last block are as many, but begin where the last whole block does; nothing is digested when there is no whole block |
| FileRebuilds.ScanTurn1 | single_fs/simple_rsync/rsync_service.cpp:148-199 | a round relocates what it finds, beyond the end of the file as well, and advances |
| FileRebuilds.ScanFile1 | single_fs/simple_rsync/rsync_service.cpp:131-201 | the chunks end as the rounds over the destination relocate them, the sums untouched; what the buffer holds at the end follows as for the new file |
| Relocations.RelocatesFirst | single_fs/simple_rsync/rsync_service.cpp:148-199 | over any number of rounds: the first window with a weak sum of the list, if it has both sums of a chunk and starts at most a chunk behind the start of a round, relocates that chunk |
| Relocations.TailEntry | single_fs/simple_rsync/rsync_service.cpp:45-54 | the shorter last block is listed behind the whole ones with weak sum 0, its place and its length, and not at all when there is none |
| Relocations.FullSignatureTrusted | single_fs/simple_rsync/rsync_service.cpp:161-167 | an accepted window equals the source block of the chunk it is given to, and is never given to the shorter last block |
| Relocations.FullSignatureFaithful | single_fs/simple_rsync/rsync_service.cpp:24-57 | the fresh list denotes the source, block by block and to its end |
| Relocations.RelocatedFaithful | single_fs/simple_rsync/rsync_service.cpp:148-199 | however often entries are relocated, each keeps denoting its own block, but for the one whose window ends beyond the file |
| Relocations.TakenFaithful | single_fs/simple_rsync/client.cpp:62-75 | an entry that denotes a block is written as that block, whatever the read buffer holds |
| Relocations.WrittenIff | single_fs/simple_rsync/client.cpp:53-77 | with one entry that need not denote its block, the file written has the length of the source, and is the source if and only if that entry is read as its block |
| Relocations.LocatedIff | single_fs/simple_rsync/rsync_service.cpp:148-199 | so after the client's scan: the source if and only if the scan did not run past the end of the local file or the buffer makes up for it |
| Relocations.LocatedInside | single_fs/simple_rsync/rsync_service.cpp:177-196 | it did not when no block of the source begins with the last bytes of the local file |
| Relocations.MisreadOnEnds | single_fs/simple_rsync/client.cpp:71-74 | for every chunk size from 3 on: a source of two blocks, the second ending in a byte twice, and a local file in which one of the two has moved to the front of that block; the result ends with the last byte of the first block instead |
| FileRebuilds.ReadEntry | single_fs/simple_rsync/client.cpp:62-75 | the bytes of an entry, from the source or from where it is mapped, stale bytes included |
| FileRebuilds.ConstructFile | single_fs/simple_rsync/client.cpp:53-77 | the file that the entries give, for any entries that can be read; when the read buffer holds the whole local file, a function of the entries and the two files |
| FileRebuilds.GetMeta | single_fs/simple_rsync/client.cpp:83-136 | the list read out of the server's reply is the description of the source, the shorter last block included; none exactly for a missing source |
| FileRebuilds.GetFile | single_fs/simple_rsync/client.cpp:40-52 | with the list as it comes through the server's reply, the result is the source without a local file and for one with a free tail; for any local file it has the length of the source, and is the source exactly when the scan did not run past the end or the buffer makes up for it; it stops exactly for a missing source |
| Frames.Frame | single_fs/depends/net.v1/stream_socket_context.cpp:84-107 | a frame is eight bytes longer than its length field says |
| Frames.HeadWords | single_fs/depends/net.v1/stream_socket_context.cpp:279-285 | the two length words can be read from any prefix of at least eight bytes |
| Frames.PacketOfFrame | single_fs/depends/net.v1/stream_socket_context.cpp:297-317 | a whole frame is read back as its packet, and what follows it is left |
| Frames.CutOfPrefix | single_fs/depends/net.v1/stream_socket_context.cpp:276-327 | cutting any prefix of a stream of packets that fit finds exactly its whole packets and leaves the rest |
| Frames.CutOfRefused | single_fs/depends/net.v1/stream_socket_context.cpp:278-291 | behind packets that fit, fewer than eight bytes wait and refused ones are thrown away |
| StreamSockets.LeftShort | single_fs/depends/net.v1/stream_socket_context.cpp:287-295 | what is left is shorter than the next frame and than the buffer, and the packets found followed by it are the bytes received |
| StreamSockets.FeedStanding | single_fs/depends/net.v1/stream_socket_context.cpp:261-265 | one more `recv` result leads from where the stream stands to where it stands with those bytes |
| StreamSockets.Fragmentation | single_fs/depends/net.v1/stream_socket_context.cpp:256-327 | delivery does not depend on fragmentation: always the maximal prefix of whole packets, in order; nothing lost; room for more; the connection open |
| StreamSockets.SplitReaches | single_fs/depends/net.v1/stream_socket_context.cpp:256-327 | every split of a stream of packets that fit, into pieces the buffer has room for, can be received and leads to where its bytes stand |
| StreamSockets.HandlerDelivers | single_fs/depends/net.v1/stream_socket_context.cpp:256-274 | over any mix of bytes, retries and would-block answers the handler ends where the bytes taken stand, and only an orderly close ends the connection |
| StreamSockets.AfterReaches | single_fs/depends/net.v1/stream_socket_context.cpp:256-274 | a run of the handler continues the fragmentation it started from |
| StreamSockets.TightStalls | single_fs/depends/net.v1/stream_socket_context.cpp:287-295 | after any packets that fit, a frame that passes the size check but does not fit is never delivered: its bytes stay buffered behind the packets, and once the buffer is full the next `recv` closes the connection |
| StreamSockets.ArrivesIff | single_fs/depends/net.v1/stream_socket_context.cpp:287-295 | for any stream of packets, however split: when all its bytes have come, exactly its packets have been delivered if and only if every frame fits the buffer |
| StreamSockets.OversizeDropped | single_fs/depends/net.v1/stream_socket_context.cpp:287-291 | after any packets that fit, the `recv` that brings the eighth byte of a frame no shorter than the buffer empties the buffer; the packets have been delivered and the connection is open |
| StreamSockets.RefusedDropped | single_fs/depends/net.v1/stream_socket_context.cpp:278-291 | the same for any bytes with a first word other than 1 or a length the buffer has no room for |
| StreamSockets.ResumesBehind | single_fs/depends/net.v1/stream_socket_context.cpp:280-291 | packets that fit and come after that arrive as in a new connection |
| StreamSockets.TakesAll | single_fs/depends/net.v1/stream_socket_context.cpp:256-274 | errors that are tried again cost nothing; what comes after a close, or when nothing is left for now, is not taken |
| StreamSockets.DeliveredFits | single_fs/depends/net.v1/stream_socket_context.cpp:276-327 | whatever bytes come, no packet is delivered whose frame would not fit the buffer |
| StreamSockets.Receiver.Chunking | single_fs/depends/net.v1/stream_socket_context.cpp:276-327 | the recursion in the buffer hands over and keeps what cutting its contents says, and terminates |
| StreamSockets.Receiver.Examine | single_fs/depends/net.v1/stream_socket_context.cpp:278-295 | waits, drops or delivers on the two length words |
| StreamSockets.Receiver.HandOver | single_fs/depends/net.v1/stream_socket_context.cpp:297-323 | delivers the first packet and shifts its frame out of the buffer |
| StreamSockets.Receiver.Receive | single_fs/depends/net.v1/stream_socket_context.cpp:261-269 | one `recv` into the free space, which with a full buffer closes the connection |
| StreamSockets.Receiver.HandleInput | single_fs/depends/net.v1/stream_socket_context.cpp:256-274 | the loop over `recv` answers reaches the state they describe |
| StreamSenders.OfferIsSum | single_fs/depends/net.v1/stream_socket_context.cpp:123-127 | what a list of `send` answers is good for: their sum when they are small, 4096 bytes each when they are large, nothing for errors |
| StreamSenders.OfferAtLeast | single_fs/depends/net.v1/stream_socket_context.cpp:122-140 | every answer above 0 is good for a byte, and no more of them are used up than there are bytes |
| StreamSenders.FlowSends | single_fs/depends/net.v1/stream_socket_context.cpp:116-141 | fields sent one after the other go out in order, up to where the answers end; every answer above 0 puts at least a byte on the wire |
| StreamSenders.OutSends | single_fs/depends/net.v1/stream_socket_context.cpp:74-114 | the queued packets put a prefix of their stream on the wire, all of it when as many answers as it has bytes let a byte through |
| StreamSenders.Sender.Send | single_fs/depends/net.v1/stream_socket_context.cpp:116-141 | exactly as many bytes as the answers are good for go on the wire, at most all; it is done exactly when they suffice |
| StreamSenders.Sender.SendPacket | single_fs/depends/net.v1/stream_socket_context.cpp:84-107 | the six fields of a frame, each sent with the answers it needs |
| StreamSenders.Sender.HandleOutput | single_fs/depends/net.v1/stream_socket_context.cpp:74-114 | the queued packets go out as the stream of their frames, in order, and all of them when enough answers let a byte through |
| StreamSenders.Carry | single_fs/depends/net.v1/stream_socket_context.cpp:74-327 | sender and receiver joined: for any answers of `send` and any split of the wire, the packets delivered are the queued ones whose bytes have all come, in order; all of them when enough answers let a byte through and all that is on the wire is taken |
| Packages.HostRoundTrip | single_fs/depends/net.v1/package.cpp:57-77 | a word put into memory by the host lies there least significant byte first and is read back |
| Packages.SwapIsNetworkOrder | single_fs/simple_rsync/server_processor.cpp:109-111 | a word swapped before it is stored lies in memory most significant byte first, and swapping again gives it back |
| Packages.Package.constructor | single_fs/depends/net.v1/package.cpp:87-93 | the cursor is at the start with everything left |
| Packages.Package.GetUint32 | single_fs/depends/net.v1/package.cpp:57-66 | the next word and the cursor behind it, or 0 and no move |
| Packages.Package.GetInt32 | single_fs/depends/net.v1/package.cpp:11-20 | the next word, signed, and the cursor behind it, or 0 and no move |
| Packages.Package.SetUint32 | single_fs/depends/net.v1/package.cpp:67-77 | the word behind all written before, or nothing past the end |
| Packages.Package.SetInt32 | single_fs/depends/net.v1/package.cpp:21-31 | the signed word behind all written before, or nothing past the end |
| Packages.Package.GetString | single_fs/depends/net.v1/package.cpp:33-42 | the next bytes and the cursor behind them; NULL exactly when fewer are left |
| Packages.Package.SetString | single_fs/depends/net.v1/package.cpp:47-55 | the bytes behind all written before, or nothing past the end |
| MetaReplies.RecordFields | single_fs/simple_rsync/server_processor.cpp:109-112 | the fields of a record where the reply holds it |
| MetaReplies.RecordAt | single_fs/simple_rsync/server_processor.cpp:104-113 | record k follows the k records before it |
| MetaReplies.ReadOfRecords | single_fs/simple_rsync/client.cpp:120-131 | reading the records of any list of chunks of a source file gives the list |
| MetaReplies.PutRecord | single_fs/simple_rsync/server_processor.cpp:109-112 | four sets advance the cursor by one record |
| MetaReplies.Serialise | single_fs/simple_rsync/server_processor.cpp:101-114 | the reply's data starts with the records of the list |
| MetaReplies.SerialiseHead | single_fs/simple_rsync/server_processor.cpp:79-98 | the head's three words are 1, the count and 1 |
| MetaReplies.SerialiseMissing | single_fs/simple_rsync/server_processor.cpp:63-78 | the head of the reply for a missing file is the word -1, four bytes 255 |
| MetaReplies.ParseReply | single_fs/simple_rsync/client.cpp:107-135 | the announced records, or no list exactly for a negative code |
| MetaReplies.Exchange | single_fs/simple_rsync/server_processor.cpp:57-119 | through both cursors, the client's list is the server's, and there is none exactly when the file is missing |
| MetaFrames.Reply | single_fs/simple_rsync/server_processor.cpp:79-119 | the packet queued for a list holds its head and its records, with one byte and ten bytes unused |
| MetaFrames.ReplyArrivesIff | single_fs/depends/net.v1/stream_socket_context.cpp:256-327 | however the stream is split: when all of the reply has come, it has been delivered if and only if 44 bytes an entry and 39 more fit the receive buffer, and then the client reads the server's list from it |
| SimpleLists.SimpleList.PushBack | single_fs/depends/net.v1/simple_list.h:60-77 | the new node becomes the last one, all links consistent |
| SimpleLists.SimpleList.RemoveNode | single_fs/depends/net.v1/simple_list.h:78-85 | the node leaves and its neighbours meet; a sentinel is left alone |
| SimpleLists.SimpleList.HandleEveryNode | single_fs/depends/net.v1/simple_list.h:86-97 | every node is acted on once, in order, though the action may unlink it; those it does not unlink remain |
| SimpleLists.SimpleList.Destroy | single_fs/depends/net.v1/simple_list.h:36-59 | the destructor's action empties the list |
| SimpleLists.SimpleList.WalksAgree | single_fs/depends/net.v1/simple_list.h:60-85 | the forward and the backward walk meet the same nodes |
| ExtentStores.NothingStored | single_fs/depends/fs/ifs.cpp:14-25 | a store over no files keeps the invariant |
| ExtentStores.WriteKeeps | single_fs/depends/fs/ifs.cpp:51-71 | a write returns the next id, unused before, and every earlier extent keeps its bytes |
| ExtentStores.ReadsBack | single_fs/depends/fs/ifs.cpp:83-107 | reading an id gives the bytes of the write that returned it |
| ExtentStores.Disjoint | single_fs/depends/fs/ifs.cpp:51-71 | an extent ends before any later one starts |
| ExtentStores.LoadedLists | single_fs/depends/fs/ifs.cpp:31-38 | loading a listing of the extents, in any order, gives the map |
| ExtentStores.MaxOfListing | single_fs/depends/fs/ifs.cpp:30-36 | the largest id loaded is the last one given out |
| ExtentStores.SaveIsCurrent | single_fs/depends/fs/ifs.cpp:108-128 | after a save the index lists the extents, also over an older, longer index |
| ExtentStores.ReopenKeeps | single_fs/depends/fs/ifs.cpp:19-49 | opening a saved store restores its extents and the latest one |
| ExtentStores.RunKeeps | single_fs/depends/fs/ifs.cpp:19-128 | over any run of writes, saves and openings after a save, ids stay consecutive, extents contiguous, and every id reads back what was written under it |
| ExtentStores.ReadsBackIff | single_fs/depends/fs/ifs.cpp:53-66 | the next write reads back, whatever its bytes, if and only if the extents reach the end of the data file |
| ExtentStores.LostWrite | single_fs/depends/fs/ifs.cpp:51-71 | opening again without a save reuses an id and reads older bytes under it |
| ExtentStores.Ifs.Init | single_fs/depends/fs/ifs.cpp:19-49 | the loop over the index adds its extents to the map and finds the one with the largest id; on a new object that is the store opened again |
| ExtentStores.Ifs.Write | single_fs/depends/fs/ifs.cpp:51-71 | the data file, the map and the latest extent after a write |
| ExtentStores.Ifs.GetLength | single_fs/depends/fs/ifs.cpp:73-81 | for a store that keeps the invariant, the number of bytes written under the id, and -1 exactly when none were |
| ExtentStores.Ifs.Read | single_fs/depends/fs/ifs.cpp:83-107 | fails exactly without a data file or for an unknown id; for a store that keeps the invariant the bytes are those written under the id |
| ExtentStores.Ifs.SaveMetadata | single_fs/depends/fs/ifs.cpp:108-128 | the index holds every extent once, in the order the map gives them |

## Left out

- Rdiff.EndToEnd: assumes that the strong sum tells the windows of the new file from the blocks of the old one.
- FileRebuilds.GetFile: assumes the same of source and local file, and that no window of the local file has the strong sum listed for the short last block; the list and the chunks are handed over without frames, and `MetaFrames.ReplyArrivesIff` says when the list comes through them. `single_fs/simple_rsync` compiles against the headers in `single_fs/include`, which declare an older codec.
- Rdiff.Run: takes new files whose delta, at most eighteen bytes a chunk and twenty-six longer, still fits the `int32_t` sizes together with the read window; and signatures the code itself wrote.
- Rdiff.ChecksSuffice: the check for a free tail also assumes that the strong sum tells the blocks of the old file from what the read buffer can hold where the new file ends; the same for Relocations.LocatedInside.
- Signatures.ParseMetaList: does not model a signature shorter than it announces, whose missing entries the code reads beyond its buffer; the same for DeltaGeneration.GenerateDeltaFile.
- Patches.PatchFile: does not model a delta that ends inside an operation, or copies from outside the old file.
- ScanFinds.FindsFirst: speaks of the first window with a weak sum of the list; no completeness is claimed beyond it, since this scan skips windows. The complete scan is `RsyncServices.ScanFile`.
- ScanWindows.BehindIs: for a file no shorter than the read buffer `BehindFrom` computes what lies behind its end, and no closed form is given.
- RsyncServices.ScanFile: takes destinations of at least one chunk; the code reads its first window without checking.
- FileMaps.FileMap.constructor: for a file that fills the buffer the source reads `length_` before setting it; any value inside the buffer is covered, others would read outside it.
- StreamSockets.Receiver.Chunking: excludes frames with inner lengths that leave the frame, which the sender never writes and the code copies from outside its buffer.
- StreamSockets.ArrivesIff: for a stream with a frame that is dropped, covers the splits after which the bytes left over, read as frames, do not leave the buffer.
- MetaReplies.ParseReply: excludes replies with less data than their count announces, for which the code follows a NULL string.
- SimpleLists.SimpleList.HandleEveryNode: covers actions that look at their node or unlink it, and none that insert nodes or unlink others.
- Packages.Package.GetUint32: models a little-endian host.
- SimpleLists.SimpleList.RemoveNode: does not model freeing the node.
- ExtentStores.RunKeeps: openings without a current index are outside the run; `ReadsBackIff` and `LostWrite` say what they do.
- ExtentStores.Ifs.Init: does not model an index shorter than its count, nor file ids of 2^31 and more, which the comparison truncates.
- CircleQueues.CircleQueue.Push: does not model the 32-bit limit of the capacity.
- MD4 and its hexadecimal form: the strong sum is a parameter of 32 characters.
- Missing paths, failing opens, short reads and full disks.
- Sockets, epoll, threads, waiting, logging and timing; `recv` and `send` are sequences of answers.
- The request side of the exchange, `need_ack_` and the ids of the older protocol in `stream_socket_context.cpp`.
- The older codec in `single_fs/depends/net`, and the three `http_server` trees.
- `TaskQueue`, `Singleton` and `UserConnection`.
- `Checksum`, `Checksum1`, `cp.cpp` and `scan.cpp`, which repeat what is modelled here.
- Memory freeing, and the empty stubs such as `MapToFile`, `PutFile` and `SetChar`.
