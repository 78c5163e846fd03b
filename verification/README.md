# Verified model of Magisk's native core

A Dafny 4.11 model of the three parts of Magisk's native code that carry the most state, with proofs of what they are
for:

* the bundled bzip2 library (`native/jni/external/bzip2`), from the block sorts to the two stream interfaces;
* the overlay tree of module mounting (`native/jni/core/module.cpp`);
* the ramdisk archive and its backup and restore (`native/jni/utils/cpio.cpp`, `native/jni/magiskboot/ramdisk.cpp`).

`dafny verify dfyconfig.toml` checks everything.

## What is modelled

**bzip2, encoding.** `FallbackQSort` and `FallbackSort` are one way of sorting the rotations of a block;
`MainSimpleSort`, `MainQSort`, `BucketCopy`, `Quadrants` and `MainSort` are the other (`Rotations`, `BurrowsWheeler`
say what is sorted and why it can be undone). `MoveToFront` and
`GenerateMtf` are the move-to-front stage with its run-length coded zeros. `HuffmanHeap`, `HuffmanTree`,
`OptimalCode` and `HuffmanLengths` build code lengths, `PrefixCode` turns lengths into codes and decoding tables.
`Bits`, `SendMtf` and `WriteBlock` write a block, `CompressBlock` puts the stages together, and `Compress` is the
stream object with its modes.

**bzip2, decoding.** `Decoder` is the suspended decoder as a state machine, one state for each group of `GET_BITS`
labels. `SymbolReader` and `TwoLevelMtf` hold the same symbol loop in the arrays that the source keeps.
`InverseTransform` and `BlockReader` undo the sort, in the fast and in the small form; `UnRle` undoes the first
run-length stage; `Decompress` is the stream object. `ReadBlock`, `Streams` and `RoundTrip` join both sides.
`StreamFormat` writes the markers out and says what is refused, `Crc` and `Alterations` say what the CRCs are and find.

**Files.** `BzStreams` is the client of both sides (`native/jni/magiskboot/compress.cpp`): files compressed and
decompressed chunk by chunk. `BrokenOff` says what a stream that breaks off is worth.

**Overlay tree.** `Overlay` collects module directories into a tree, injects the binaries, moves partitions and
prepares the tree for mounting. `OverlayPaths` tells, path by path, whose file is there in the end, and `OverlayKinds`
as what kind of node.

**Ramdisk.** `Cpio` writes and loads the archive; `Ramdisk` is `rm`, `backup` and `restore` on it; `Names` is the
order of names and the walk over an ordered map that is changed on the way. `MarkedRamdisk` adds what the installer
puts in after the backup. `CpioFormat` and `RamdiskContents` write the format and the names out.

Code that changes arrays or fields is written as methods over arrays and as classes, and each method is proved
against a function or a state predicate; the lemmas are about those. `Base`, `Counting` and `Rearrange` hold what the
stages share.

## Findings

Places where the code does not keep what it promises, or keeps it only under a condition. Each is stated exactly.

1. **The fast decompressor can store bytes that it does not report.** When a block breaks off inside a run (four equal
   bytes and no count), `unRLE_obuf_to_output_FAST` leaves before it saves its local copies
   (`native/jni/external/bzip2/bzlib.c:632-634`). So what is reported depends on how the output room was split.
   `Decompress.DecompressInPieces` proves that something is lost if and only if the form is fast and the stream breaks
   off in this way, and how much; `BrokenBlock.SplitDecides` shows one stream and two splits. The small form never
   loses anything.
2. **Restoring a backed-up ramdisk can go on from an erased entry.** The walk steps its iterator on and then moves the
   backup to its old name, and `cpio_rw::mv` erases what is there; when the iterator already stands on that entry,
   the walk continues from an entry that is gone (`native/jni/magiskboot/ramdisk.cpp:139-145`,
   `native/jni/utils/cpio.cpp:201-209`). `Ramdisk.BackupRestore` proves that the stock files come back if and only if
   the greatest name backed up is not adjacent to its backup; `Ramdisk.OneFileDangles` is a ramdisk with one changed
   file. The model has no value for such a run (`None`). With the configuration that the installer adds after the backup
   the condition changes: `MarkedRamdisk.MarkedRestore`.
3. **Not every entry map survives an archive.** Names that are `.`, `..` or the trailer's, and names with a NUL, do
   not come back (`native/jni/utils/cpio.cpp:223-245`). `Cpio.ArchiveRoundTrip` is an if-and-only-if. A name that occurs
   twice in a buffer leaves the map with a key whose string is freed (`native/jni/utils/cpio.cpp:241`); the model has
   no value for that (`None`).
4. **Assertion 1007 of the main sort.** Its first half fails exactly on blocks that repeat one byte, and then its
   second half holds (`native/jni/external/bzip2/blocksort.c:937-944`): `BucketCopy.CopyStep`.
5. **A module whose `system/bin` is no plain directory.** `inject_magisk_bins` takes whatever child is named `bin` for
   an intermediate directory, without looking at its kind (`native/jni/core/module.cpp:137`, `522-527`).
   `OverlayPaths.WrongBin` proves that it is none if and only if some module that opens reaches an entry `bin` that is
   a file or a replaced directory; an entry behind a replace marker does no harm. `Overlay.FileAsBin` is such a module.
   The model names this outcome `Wrong` and goes on with the other trees.
6. **A later module can take away files of earlier ones.** A replace marker that is reached in a directory which is
   still intermediate turns the directory into a module node and drops its children, whoever laid them; so does a file
   in the place of a directory (`native/jni/core/module.cpp:286-300`, `316-331`, `430-442`).
   `OverlayPaths.KeptExactly` is an if-and-only-if, `OverlayPaths.LaterTakesAway` an example.
7. **Two modules with files in one new directory.** When the directory does not exist on the device, preparing makes it
   a module node of the module that laid it first, and drops its children
   (`native/jni/core/module.cpp:170`, `406-411`): files of the second module are never mounted.
   `OverlayPaths.FilesMounted` proves exactly when every file is served by its own module;
   `OverlayPaths.SecondModuleHidden` is the example.
8. **Compressing and decompressing give up on output that fits the buffer exactly.** `bz_strm::write` calls the library
   once more whenever the output buffer of 0x40000 bytes has been filled (`native/jni/magiskboot/compress.cpp:150-167`).
   If nothing is left to do, that call answers an error: BZ_PARAM_ERROR while compressing, BZ_SEQUENCE_ERROR after the
   end of the stream. The write fails and the program stops, though nothing is wrong and all bytes are written.
   `BzStreams.CompressFile` and `BzStreams.DecompressFile` say exactly when; of a stream of up to 4096 bytes it is when
   the text is a positive multiple of 0x40000 bytes long. The decoder also gives up on a chunk that follows the end.
9. **Decompressing accepts a stream that is cut off.** `decompress` never asks whether the stream has ended
   (`native/jni/magiskboot/compress.cpp:565-602`): what there is is written and no error reported
   (`BzStreams.DecompressFile`, the case BZ_OK).
10. **A module decides the file type of the own binaries.** `merge_node` gives the new node the type of the old one
   (`native/jni/core/module.cpp:286-289`), so what a module lays as `bin/magisk`, a link or a directory, makes
   `create_and_mount` treat the binary as one (`Overlay.OwnBinaries`).

## Model

| member | source | states |
|---|---|---|
| `RoundTrip.AlwaysBack` | native/jni/external/bzip2/bzlib.c:407-464 | every input, in every block size, comes back whole and ends with BZ_STREAM_END: compressed with any room per call, cut into any pieces, decompressed in either form with any room per call, if only the last call has more room than the input needs |
| `RoundTrip.ThereAndBack` | native/jni/external/bzip2/bzlib.c:808-858 | the same for arbitrary compressor calls (run, flush, finish in any order, any room): once a call ended the stream, decompressing never errs, gives beginnings of the input only, and all of it at BZ_STREAM_END or when room is left; running calls and then one that finishes end the stream unless the last call has too little room |
| `RoundTrip.CompressAll` | native/jni/external/bzip2/bzlib.c:441-461 | calls that finish, with any room at all, come to an end, and the output means exactly the input |
| `RoundTrip.OutputMeansInput` | native/jni/external/bzip2/bzlib.c:434-461 | whatever calls led to the idle mode, the bytes put out, read as a stream, mean the bytes taken in |
| `RoundTrip.CompressInCalls` | native/jni/external/bzip2/bzlib.c:407-464 | over any sequence of calls: if one answers BZ_STREAM_END, the output of all means the input of all; one does if the calls run and the last one finishes with enough room |
| `BrokenOff.OutputBegins` | native/jni/external/bzip2/bzlib.c:407-464 | in every mode, at any moment, what has been put out is the beginning of a whole stream that means a beginning of the input taken in: its closed blocks |
| `BzStreams.FileThereAndBack` | native/jni/magiskboot/compress.cpp:558-651 | a file that `compress` reads in chunks and hands over by running calls, and that `decompress` reads back in chunks, is written out again in full, unless compressing gave up, and when it does |
| `BzStreams.CompressFile` | native/jni/magiskboot/compress.cpp:637-646 | compressing a file chunk by chunk: what is written means the file; it gives up if and only if the bytes that came out for one chunk fill buffers of 0x40000 to the end, and has then written the beginning of a stream that means a beginning of the file |
| `BzStreams.WriteRun` | native/jni/magiskboot/compress.cpp:146-169 | one chunk: all of it is taken in, the loop ends, and the answer is an error exactly when the bytes fill whole buffers |
| `BzStreams.WriteEnd` | native/jni/magiskboot/compress.cpp:112-122 | the last write ends the stream, whatever it answers |
| `BzStreams.DecompressFile` | native/jni/magiskboot/compress.cpp:558-608 | decompressing chunk by chunk: a wrong stream is given up, one that is cut off is not, a whole one is written in full but given up if and only if a chunk follows its end or its last bytes fill whole buffers |
| `BzStreams.WriteDecode` | native/jni/magiskboot/compress.cpp:146-169 | one chunk for the decoder: it waits for more, or has written all there is, or the stream is wrong; the answer in each case |
| `Crc.CrcIsRemainder` | native/jni/external/bzip2/bzlib_private.h:157-172 | for a table of remainders, the CRC of any text is all ones divided bit by bit by the polynomial 0x04c11db7 over the bits of the text, and complemented |
| `Crc.ByteDivides` | native/jni/external/bzip2/bzlib_private.h:167-172 | one step by the table is eight steps of the division |
| `Crc.TableWords` | native/jni/external/bzip2/crctable.c:31-99 | a table of remainders holds these eight words at the powers of two |
| `Crc.TableLinear` | native/jni/external/bzip2/crctable.c:31-99 | and every other word is the exclusive or of those for the bits of its place |
| `Crc.ChangeFound` | native/jni/external/bzip2/bzlib_private.h:167-172 | two texts that differ in up to four bytes in a row have different CRCs, whatever stands before and after |
| `Crc.CombineBits` | native/jni/external/bzip2/bzlib.c:832-835 | every bit of the combined CRC: the bit below it, or the top one, against the bit of the block's CRC |
| `Crc.BlockChangeFound` | native/jni/external/bzip2/bzlib.c:832-835 | another CRC of one block gives another combined CRC, whatever the other blocks |
| `Crc.OrderFound` | native/jni/external/bzip2/bzlib.c:832-835 | two blocks that change places go unnoticed if and only if their CRCs are the same or complements |
| `Alterations.AlteredBlock` | native/jni/external/bzip2/bzlib.c:825-831 | a block that comes out with up to four bytes in a row altered ends the stream with BZ_DATA_ERROR |
| `Alterations.AlteredTrailer` | native/jni/external/bzip2/bzlib.c:832-848 | closed blocks with a different CRC in one place ask for different combined CRCs in the trailer |
| `StreamFormat.StreamMarkers` | native/jni/external/bzip2/compress.c:617-664 | a written stream is "BZh" and a digit, the blocks, the digits of the square root of pi and the combined CRC |
| `StreamFormat.BlockMarker` | native/jni/external/bzip2/compress.c:628-646 | a written block is the digits of pi, its CRC, a zero bit, the row and the body |
| `StreamFormat.NoBlocks` | native/jni/external/bzip2/compress.c:617-664 | the stream of no input, all fourteen bytes of it |
| `StreamFormat.MagicRead` | native/jni/external/bzip2/decompress.c:197-209 | of any four bytes at the start only "BZh" and a digit from 1 to 9 are taken; the rest is BZ_DATA_ERROR_MAGIC |
| `StreamFormat.MarkerRead` | native/jni/external/bzip2/decompress.c:222-235 | of any six bytes where a block may begin: a block, the end, or BZ_DATA_ERROR |
| `StreamFormat.RowRead` | native/jni/external/bzip2/decompress.c:261-264 | a row above 10 + 100000 times the block size is BZ_DATA_ERROR |
| `StreamFormat.NoneInUse` | native/jni/external/bzip2/decompress.c:266-284 | a block that uses no byte is BZ_DATA_ERROR |
| `StreamFormat.TablesRead` | native/jni/external/bzip2/decompress.c:287-288 | any number of tables but two to six is BZ_DATA_ERROR |
| `StreamFormat.SelectorsRead` | native/jni/external/bzip2/decompress.c:289-290 | no selectors at all is BZ_DATA_ERROR |
| `StreamFormat.LengthRead` | native/jni/external/bzip2/decompress.c:318-321 | a first code length outside one to twenty is BZ_DATA_ERROR |
| `Decompress.DecompressInPieces` | native/jni/external/bzip2/bzlib.c:808-858 | resumability: output and return code of any split into calls are those of the whole input at once, but for what the fast form loses, which is nothing if and only if the form is small or no block breaks off inside a run; the number of lost bytes is given |
| `Decompress.Decompressor.BzDecompress` | native/jni/external/bzip2/bzlib.c:808-858 | one call: what it gives out followed by what the stream means afterwards is what the stream meant before, for all bits still to come; both CRC checks; BZ_OK only when room or input is used up; sequence error exactly after the end |
| `Decompress.Decompressor.GetBits` | native/jni/external/bzip2/decompress.c:43-65 | takes exactly the next n bits across byte boundaries, or is suspended with nothing consumed from the bit stream |
| `Decompress.Decompressor.Decode` | native/jni/external/bzip2/decompress.c:106-641 | goes on from the saved label to output, end, error or the end of the input, without changing what the stream means |
| `Decompress.Decompressor.StartOutput` | native/jni/external/bzip2/decompress.c:518-576 | a decoded block is set up for output with its first byte fetched |
| `Decompress.Decompressor.GiveOut` | native/jni/external/bzip2/bzlib.c:819-826 | what is given out and what remains are together what was there; what is lost, and when |
| `Decompress.Decompressor.FinishBlock` | native/jni/external/bzip2/bzlib.c:827-841 | the block CRC passes and is folded in, or the stream means a data error |
| `BrokenBlock.BrokenStream` | native/jni/external/bzip2/bzlib.c:632-634 | a concrete stream, whatever the CRC table, whose block of four sevens breaks off inside a run |
| `BrokenBlock.SplitDecides` | native/jni/external/bzip2/bzlib.c:632-634 | on that stream the fast form reports no byte when there is room for all at once, and four when the first call has room for four |
| `UnRle.UnRleFast` | native/jni/external/bzip2/bzlib.c:591-681 | the cached-locals loop gives out the text of the rest of the block as far as the room goes, with its CRC; corrupt exactly when the rest breaks off and fits the room, and then the fields are those of before and the stored bytes are lost |
| `UnRle.UnRleSmall` | native/jni/external/bzip2/bzlib.c:761-803 | the same for the small form, where nothing is lost |
| `Compress.Compressor.BzCompress` | native/jni/external/bzip2/bzlib.c:407-464 | the protocol, case by case: a call out of order does nothing and answers an error; a call in order goes on until input or room is used up; a running call with room fails only if there was nothing to take in or copy out, and a flush never; idle is final; a finished flush leaves nothing outside closed blocks; each finishing call comes nearer to the end |
| `Compress.Compressor.HandleCompress` | native/jni/external/bzip2/bzlib.c:361-403 | the loop between copying output and input keeps the history of the stream and rests only when room or input is used up; progress is told exactly |
| `Compress.Compressor.CopyInput` | native/jni/external/bzip2/bzlib.c:289-329 | what is taken in joins the runs of the open block; no more is read than fits or was announced |
| `Compress.Compressor.CopyOutput` | native/jni/external/bzip2/bzlib.c:334-356 | copies out until the room or the waiting bytes are used up |
| `Compress.Compressor.AddCharToBlock` | native/jni/external/bzip2/bzlib.c:260-284 | one byte joins the run under way or closes it; runs, text, CRC and marks agree with everything accepted |
| `Compress.Compressor.AddPairToBlock` | native/jni/external/bzip2/bzlib.c:216-247 | a run goes into the block as one to five bytes |
| `Compress.Compressor.FlushRL` | native/jni/external/bzip2/bzlib.c:252-256 | the run under way is closed |
| `Compress.Compressor.PrepareNewBlock` | native/jni/external/bzip2/bzlib.c:117-126 | an empty block after all bytes of the last are out |
| `Compress.Compressor.CompressBlock` | native/jni/external/bzip2/compress.c:602-667 | header, block, CRCs and, at the end, trailer: what has been written is a stream of the closed blocks |
| `Compress.Compressor.CloseBlock` | native/jni/external/bzip2/compress.c:607-648 | a block that holds something is written and its CRC combined |
| `Compress.Compressor.WriteTrailer` | native/jni/external/bzip2/compress.c:652-666 | end marker, combined CRC, and the output is a whole stream |
| `Compress.Compressor.FromOutput` | native/jni/external/bzip2/bzlib.c:370-380 | bytes out first; the next block only when all are out |
| `Compress.Compressor.FromInput` | native/jni/external/bzip2/bzlib.c:382-398 | a block is compressed exactly when it is full or the last one to flush or finish; finishing without input ends the stream |
| `Compress.IdleIsComplete` | native/jni/external/bzip2/bzlib.c:453-459 | in the idle mode the output is a whole stream with its trailer and its blocks spell all accepted input |
| `Compress.FinishUp` | native/jni/external/bzip2/bzlib.c:447-461 | finishing calls with room for one byte each end the stream after finitely many |
| `Streams.StreamMeans` | native/jni/external/bzip2/bzlib.c:808-858 | the bits of any closed blocks, whatever follows them, mean the texts of the blocks in order and then the end of the stream; both CRC checks pass |
| `RunLength.ExpandPack` | native/jni/external/bzip2/bzlib.c:216-247 | expanding packed runs gives the text that was packed, and is never called corrupt, whatever two bytes follow |
| `ReadBlock.BlockRoundTrip` | native/jni/external/bzip2/decompress.c:222-492 | from the label before a block, the written block brings the decoder to output with exactly the column, CRC and row that were written, and every later bit unread |
| `ReadBlock.ReadTables` | native/jni/external/bzip2/decompress.c:316-329 | the delta-coded lengths of all tables are read back, and decoding goes on to the symbols |
| `ReadBlock.ReadSymbols` | native/jni/external/bzip2/decompress.c:373-486 | from any symbol on: the codes written lead the decoder to what the move-to-front stage makes of the symbols |
| `ReadBlock.ReadMapping` | native/jni/external/bzip2/decompress.c:266-284 | the two-level map of used bytes is read back |
| `SymbolReaders.SymbolReader.Arrive` | native/jni/external/bzip2/decompress.c:74-102 | the symbol loop on limit, base, perm, `mtfa`, `mtfbase` and `tt` takes the same step as the machine on every arrival of bits; in particular the list never yields a number past the bytes in use |
| `SymbolReaders.SymbolReader.constructor` | native/jni/external/bzip2/decompress.c:331-373 | tables, list and counters start where the machine starts the symbols |
| `SymbolReaders.SymbolReader.OnMtf` | native/jni/external/bzip2/decompress.c:375-486 | one symbol, run or move, on the arrays: list, column and run are those of the plain list |
| `SymbolReaders.SymbolReader.EndRun` | native/jni/external/bzip2/decompress.c:398-415 | a run is put into the column byte by byte; it fails exactly when the block would be too long |
| `SymbolReaders.ReadSymbols` | native/jni/external/bzip2/decompress.c:375-492 | all symbols of a block from any bits: the outcome and the bits used are those of the machine |
| `TwoLevelMtf.MoveToFrontOf` | native/jni/external/bzip2/decompress.c:423-475 | sixteen drifting windows do what one list does, for every position and every sequence of calls |
| `TwoLevelMtf.Repack` | native/jni/external/bzip2/decompress.c:463-472 | rebuilding the windows in place, over themselves, keeps the list |
| `TwoLevelMtf.Init` | native/jni/external/bzip2/decompress.c:358-370 | the windows start as the identity list |
| `BurrowsWheeler.Inversion` | native/jni/external/bzip2/decompress.c:559-573 | for every block, periodic ones too, and any order of equal rotations, following T from origPtr spells the block |
| `BlockReaders.ReaderSpellsBlock` | native/jni/external/bzip2/bzlib_private.h:444-479 | the reader of a last column, in either form, yields the block that was transformed |
| `BlockReaders.BlockReader.Get` | native/jni/external/bzip2/bzlib_private.h:444-479 | each call yields the next byte of the walk, in both forms |
| `BlockReaders.FastTable` | native/jni/external/bzip2/decompress.c:501-564 | counts, first places and T of a decoded column |
| `BlockReaders.SmallTable` | native/jni/external/bzip2/decompress.c:501-545 | the packed table of the small form holds T on the rows that the walk visits |
| `InverseTransform.MakeCftab` | native/jni/external/bzip2/decompress.c:501-503 | cumulated counts are the first places of every byte value |
| `InverseTransform.BuildFast` | native/jni/external/bzip2/decompress.c:559-564 | one in-place loop leaves in every word its row's byte and, above it, T |
| `InverseTransform.BuildPlaces` | native/jni/external/bzip2/decompress.c:526-534 | the first loop of the small form replaces every byte by its place, in 20-bit packed storage |
| `InverseTransform.ReverseCycle` | native/jni/external/bzip2/decompress.c:536-545 | pointer reversal inverts the one cycle through origPtr, in place, and ends |
| `InverseTransform.SetLL` | native/jni/external/bzip2/bzlib_private.h:458-470 | writing one 20-bit entry changes that entry only, the other nibble of the byte included |
| `InverseTransform.IndexIntoF` | native/jni/external/bzip2/bzlib.c:687-698 | bisection finds the byte value whose band holds the row |
| `FallbackSort.FallbackSort` | native/jni/external/bzip2/blocksort.c:212-329 | sorts the rotations of every block, rebuilds the block from the order alone, and ends by doubling |
| `FallbackSort.RefineBuckets` | native/jni/external/bzip2/blocksort.c:273-306 | one pass turns buckets by h bytes into buckets by 2h bytes, and counts zero undone only when all are single |
| `FallbackSort.RadixPass` | native/jni/external/bzip2/blocksort.c:231-241 | counting, cumulating and placing bucket the rows by first byte |
| `FallbackSort.NextBucket` | native/jni/external/bzip2/blocksort.c:277-292 | the bit scan finds the next bucket of two rows or more, and passes over nothing else |
| `FallbackSort.SortBucket` | native/jni/external/bzip2/blocksort.c:294-305 | sorting one bucket by label and marking it refines that bucket only |
| `FallbackSort.Relabel` | native/jni/external/bzip2/blocksort.c:266-271 | every position gets the bucket header of the rotation h bytes on |
| `FallbackSort.RebuildBlock` | native/jni/external/bzip2/blocksort.c:315-328 | dealing the sorted bytes back restores the block |
| `FallbackQSort.FallbackQSort3` | native/jni/external/bzip2/blocksort.c:93-180 | sorts the interval by class and permutes it; the stack of a hundred entries never overflows |
| `FallbackQSort.Partition` | native/jni/external/bzip2/blocksort.c:132-162 | the four regions of the three-way scan, with every element kept |
| `FallbackQSort.SplitInterval` | native/jni/external/bzip2/blocksort.c:126-170 | less, equal, greater, each in its place, by swapping the equal ends inwards |
| `FallbackQSort.InsertionPass` | native/jni/external/bzip2/blocksort.c:40-58 | one stride keeps the elements; stride one sorts |
| `FallbackQSort.FallbackSimpleSort` | native/jni/external/bzip2/blocksort.c:32-59 | both insertion passes, the stride of four included, sort the interval |
| `BucketCopy.CopyStep` | native/jni/external/bzip2/blocksort.c:918-946 | scanning big bucket ss sorts every open bucket [t, ss], and [ss, ss] too, without comparing; assertion 1007 holds, its first half unless the block repeats one byte |
| `BucketCopy.CopyLeft` | native/jni/external/bzip2/blocksort.c:923-928 | the scan upwards, bounded by the cursor it moves itself |
| `BucketCopy.CopyRight` | native/jni/external/bzip2/blocksort.c:929-934 | the scan downwards |
| `BucketCopy.ScansMeet` | native/jni/external/bzip2/blocksort.c:923-944 | both scans done: the open buckets are in order, and when the two cursors meet |
| `BucketCopy.AllFound` | native/jni/external/bzip2/blocksort.c:923-928 | a scan that has caught up with its own writing has read every falling position of the bucket |
| `BucketCopy.FallingFirst` | native/jni/external/bzip2/blocksort.c:911-917 | in bucket [ss, ss] what falls precedes what rises, whatever the lengths of the runs |
| `MainSort.MainSort` | native/jni/external/bzip2/blocksort.c:751-1011 | for every block longer than 34 bytes, with no sorting assumed: the rotations of the block end up sorted, or the budget runs out, and that only if some twelve bytes occur twice in the block |
| `MainSort.OneTurn` | native/jni/external/bzip2/blocksort.c:868-1004 | one big bucket: what is marked stays sorted, its own row gets finished, assertion 1006 holds, and but for the last turn its places are numbered in the quadrants |
| `MainSort.SortRow` | native/jni/external/bzip2/blocksort.c:886-907 | step 1 sorts the unmarked small buckets by multikey quicksort and leaves the marked ones alone; given up only with a budget below 0 |
| `MainSort.BucketSort` | native/jni/external/bzip2/blocksort.c:769-830 | the two-byte radix sort puts every position into the bucket of its first two bytes; `ftab` holds the first places |
| `MainSort.CountPairs` | native/jni/external/bzip2/blocksort.c:770-792 | how often each pair of bytes occurs, the pair shifted along |
| `MainSort.PlacePairs` | native/jni/external/bzip2/blocksort.c:803-830 | every position is placed in its bucket |
| `MainSort.RunningOrder` | native/jni/external/bzip2/blocksort.c:837-860 | the Shell sort lists every byte value exactly once, smallest big bucket first |
| `MainQSort.MainQSort3` | native/jni/external/bzip2/blocksort.c:621-717 | multikey quicksort: an interval whose rotations share a number of bytes is permuted and, unless the budget runs out, sorted by whole rotations; it ends, and the stack of a hundred entries never holds more than 41 |
| `MainQSort.Med3` | native/jni/external/bzip2/blocksort.c:583-592 | the median is one of the three, and not outside the other two |
| `MainSimpleSort.MainSimpleSort` | native/jni/external/bzip2/blocksort.c:491-555 | the Shell sort permutes the interval and, unless the budget runs out, sorts it by the rotations from a given byte on |
| `MainSimpleSort.MainGtU` | native/jni/external/bzip2/blocksort.c:347-469 | comparing by bytes and quadrants, unrolled rounds and wrapped positions included, answers by the order of whole rotations, reads nothing past the 34 repeated bytes, and draws on the budget only if twelve bytes agree |
| `Quadrants.UpdateQuadrants` | native/jni/external/bzip2/blocksort.c:987-1004 | step 3: the numbers of a finished big bucket, cut down to 16 bits, keep the meaning of the quadrants (a lower one never belongs to a later rotation of the same byte), in the repeated part too; assertion 1002 holds |
| `Quadrants.NumberedOrder` | native/jni/external/bzip2/blocksort.c:958-976 | of two positions of the finished byte the one with the lower quadrant does not come later |
| `CompressBlock.BlockSort` | native/jni/external/bzip2/blocksort.c:1031-1089 | either sort, by length and work factor, with the fallback when the budget is used up: rotations sorted, block unchanged, origPtr found |
| `CompressBlock.BudgetInit` | native/jni/external/bzip2/blocksort.c:1063-1066 | no budget up to work factor 1, a third of one less than the factor for every byte of the block, rounded down, and no more from 100 on |
| `CompressBlock.FindOrigPtr` | native/jni/external/bzip2/blocksort.c:1083-1088 | the row of the original block is there and is found: assertion 1003 |
| `CompressBlock.WriteClosed` | native/jni/external/bzip2/compress.c:602-667 | a block of packed runs is sorted, transformed, coded and written: the bits appended are those of a valid block with its CRC |
| `CompressBlock.SendMtfValues` | native/jni/external/bzip2/compress.c:239-598 | appends exactly the body of a valid block for the given column |
| `GenerateMtf.GenerateMtfValues` | native/jni/external/bzip2/compress.c:120-231 | the symbols written are those of the last column, with their frequencies; writing never overtakes reading |
| `GenerateMtf.EncodeByte` | native/jni/external/bzip2/compress.c:170-209 | one byte: a zero more, or the run and a position written |
| `GenerateMtf.PutRun` | native/jni/external/bzip2/compress.c:174-188 | the digits of a run, counted |
| `GenerateMtf.MakeMapsE` | native/jni/external/bzip2/compress.c:106-115 | every byte in use gets its rank among those in use |
| `GenerateMtf.BlockSymbolsDecode` | native/jni/external/bzip2/decompress.c:373-486 | the decoder, fed the symbols of a column, recovers the column |
| `MoveToFront.FeedSymbols` | native/jni/external/bzip2/compress.c:163-228 | the same from any state: list, pending zeros and bytes so far |
| `MoveToFront.RunValueOfDigits` | native/jni/external/bzip2/compress.c:174-188 | the digits written for a run have the run's length as their value |
| `MoveToFront.RunDigitsOfValue` | native/jni/external/bzip2/decompress.c:381-398 | every digit string is the one written for its value |
| `HuffmanLengths.MakeCodeLengths` | native/jni/external/bzip2/huffman.c:63-148 | terminates; lengths are 1 to maxLen with Kraft's sum exactly one; no prefix code writes the weights of the last round in fewer bits; no halving while the frequencies add up to less than a Fibonacci number |
| `HuffmanLengths.BuildTree` | native/jni/external/bzip2/huffman.c:84-111 | heap and parents grow into one tree that always joined the two lightest roots |
| `HuffmanLengths.ReadLengths` | native/jni/external/bzip2/huffman.c:114-121 | every length is the depth of its leaf; too long exactly when some leaf lies too deep |
| `HuffmanLengths.Rescale` | native/jni/external/bzip2/huffman.c:142-146 | every weight j becomes 1 + j / 2 |
| `HuffmanLengths.TooLongMeansHeavy` | native/jni/external/bzip2/huffman.c:123-146 | a code is too long only while some weight exceeds two, so halving gets somewhere |
| `OptimalCode.TreeIsShortest` | native/jni/external/bzip2/huffman.c:100-121 | the depths of a tree that always joined the two lightest roots make the shortest prefix code there is |
| `OptimalCode.KraftInequality` | native/jni/external/bzip2/huffman.c:63-148 | words none of which begins another have shares that add up to one at most |
| `OptimalCode.Balance` | native/jni/external/bzip2/huffman.c:100-121 | at no higher price the two lightest roots can have codes of one length |
| `HuffmanTree.JoinKeeps` | native/jni/external/bzip2/huffman.c:100-110 | joining keeps the forest and its bound of heights by Fibonacci numbers, so heights fit eight bits |
| `HuffmanHeap.TakeLightest` | native/jni/external/bzip2/huffman.c:101-102 | takes the lightest node off the heap and keeps the rest |
| `HuffmanHeap.UpHeap` | native/jni/external/bzip2/huffman.c:33-42 | restores the heap order from below and permutes |
| `HuffmanHeap.DownHeap` | native/jni/external/bzip2/huffman.c:44-59 | restores the heap order from above and permutes |
| `PrefixCode.AssignCodes` | native/jni/external/bzip2/huffman.c:152-166 | every symbol gets its canonical code |
| `PrefixCode.PrefixFree` | native/jni/external/bzip2/huffman.c:152-166 | no canonical code begins another when Kraft's sum is at most one |
| `PrefixCode.CodeDecodes` | native/jni/external/bzip2/decompress.c:89-101 | the limit/base loop stops on a code exactly at its length and names its symbol |
| `PrefixCode.CreateDecodeTables` | native/jni/external/bzip2/huffman.c:170-200 | limit, base and perm are those of the canonical code |
| `SendMtf.ChooseTables` | native/jni/external/bzip2/compress.c:279-451 | the number of tables by the number of symbols; from the initial tables four rounds, in each of which every group takes the table that is best for it and every table is then made a complete prefix code, the shortest one for the symbols of the groups that took it while they are fewer than 6765; every symbol has a code in the table of its group |
| `SendMtf.InitialTables` | native/jni/external/bzip2/compress.c:279-318 | the first tables are cheap on consecutive ranges of symbols; none is cheap twice, and every one is cheap once if the frequencies are those of the symbols to be coded |
| `SendMtf.Recompute` | native/jni/external/bzip2/compress.c:444-451 | a table fitted to its frequencies is a complete prefix code, and the shortest one while they add up to less than 6765 |
| `SendMtf.Pass` | native/jni/external/bzip2/compress.c:345-442 | every group takes the first of the tables that write it in the fewest bits, and each count is the number of times its symbol occurs in the groups that took its table |
| `SendMtf.BestTable` | native/jni/external/bzip2/compress.c:352-405 | no table writes the group in fewer bits than the one chosen, and none before it in as few |
| `WriteBlock.SendMapping` | native/jni/external/bzip2/compress.c:494-515 | appends the two-level map of used bytes |
| `WriteBlock.CodeSelectors` | native/jni/external/bzip2/compress.c:461-478 | the selectors as positions in a list moved to front |
| `WriteBlock.SendSelectors` | native/jni/external/bzip2/compress.c:517-525 | appends both counts and every position in unary |
| `WriteBlock.SendTables` | native/jni/external/bzip2/compress.c:528-541 | appends the delta-coded lengths |
| `WriteBlock.SendSymbols` | native/jni/external/bzip2/compress.c:544-595 | appends the codes, fifty symbols to a selector |
| `Bits.BitSink.W` | native/jni/external/bzip2/compress.c:73-78 | appends the low n bits, whatever is pending in the 32-bit buffer |
| `Bits.BitSink.PutUInt32` | native/jni/external/bzip2/compress.c:83-89 | appends all 32 bits, highest first |
| `Bits.BitSink.FinishWrite` | native/jni/external/bzip2/compress.c:46-54 | the bytes are the bits and fewer than eight zero bits |
| `Overlay.RootPrepared` | native/jni/core/module.cpp:395-421 | on any file system and loaded tree: after preparing, everything stands where it can be mounted and ranks only rose |
| `OverlayKinds.PreparedAt` | native/jni/core/module.cpp:379-421 | the prepared tree at any path, places told by full paths on the device: whether what was laid there stays, with which kind, type and mark of existence; what was not laid mirrors what is there; what is missing, or a symbolic link on either side, hangs under a skeleton |
| `OverlayKinds.KindAt` | native/jni/core/module.cpp:395-421 | an intermediate directory ends as its module's node if and only if it cannot be mounted in its place, else as a skeleton if and only if it holds such a thing or hangs below a listed skeleton |
| `OverlayKinds.StaysAt` | native/jni/core/module.cpp:398-404 | what was laid is gone if and only if it, or a directory above it, is right below a root and cannot be mounted, or a directory above it became a module node |
| `OverlayKinds.OthersMirror` | native/jni/core/module.cpp:357-367 | names that were not laid are there as mirrors of the first entry of that name, with its type |
| `OverlayKinds.PreparedMarks` | native/jni/core/module.cpp:379-393 | a skeleton bears the mark of existence if its mirror opens, all else that was laid if its place exists |
| `OverlayKinds.LinkOnDevice` | native/jni/core/module.cpp:379-393 | one module with `system/bin/ls`: `bin` becomes a skeleton if and only if `/system/bin/ls` is missing or a symbolic link |
| `Overlay.Prepare` | native/jni/core/module.cpp:395-421 | the walk that erases and replaces children on the way does what the definition by parts says, and asks for a skeleton exactly when needed; what that comes to is `OverlayKinds.PreparedAt` |
| `Overlay.PreparedAfter` | native/jni/core/module.cpp:379-421 | every node below has the final kind that its surroundings demand, stays or goes accordingly |
| `Overlay.AfterHangs` | native/jni/core/module.cpp:468-493 | in the prepared tree everything that does not exist yet, or is a symbolic link on either side, hangs under a skeleton, and no directory is left intermediate right below a skeleton with a mirror |
| `Overlay.MakeSkeleton` | native/jni/core/module.cpp:357-377 | mirrors of everything there, and skeletons instead of all intermediate children |
| `Overlay.InsertOrGet` | native/jni/core/module.cpp:316-345 | the rule of ranks: refused exactly by a higher rank; nothing else changes |
| `Overlay.CollectFiles` | native/jni/core/module.cpp:423-446 | the loop over a directory, stopped by a replace marker |
| `Overlay.CollectCovers` | native/jni/core/module.cpp:423-446 | one module directory: old names and new ones, every entry has its own effect whatever the order of the listing, the rest is untouched |
| `Overlay.CollectLoaded` | native/jni/core/module.cpp:423-446 | collecting keeps the tree one that can be prepared, and only raises it |
| `Overlay.OnlyRaised` | native/jni/core/module.cpp:550-576 | further modules only raise the tree: no name that is left has a lower rank, or another module at the same rank |
| `OverlayPaths.FileAt` | native/jni/core/module.cpp:316-345 | which module a path belongs to after all modules: the first that takes it over, and nobody when a directory above it has been taken over |
| `OverlayPaths.KeptExactly` | native/jni/core/module.cpp:423-446 | what an earlier module laid stays if and only if no later module takes over a directory above it, with a replace marker reached in it or a file of that name |
| `OverlayPaths.LaterTakesAway` | native/jni/core/module.cpp:429-441 | a file `d/f` of one module is gone after another whose `d` is a file or holds `.replace` |
| `OverlayPaths.FilesMounted` | native/jni/core/module.cpp:395-421 | after preparing, every file laid is served by its own module if and only if no directory that becomes a module node holds files of another module and none is dropped |
| `OverlayPaths.ProviderPlanned` | native/jni/core/module.cpp:395-421 | which module serves a path of the prepared tree, told from the tree before |
| `OverlayPaths.SecondModuleHidden` | native/jni/core/module.cpp:406-411 | two modules with a file each in a directory that does not exist yet: the second file is hidden |
| `Overlay.AssembledLoaded` | native/jni/core/module.cpp:544-595 | the tree put together from any modules, binaries and partitions can be prepared |
| `Overlay.OwnBinaries` | native/jni/core/module.cpp:529-537 | whatever modules put into `bin`: both binaries are there, no applet is, and nothing else is touched; the file type of a binary is that of what a module laid under its name |
| `Overlay.InjectBinaries` | native/jni/core/module.cpp:522-538 | the injection step by step, and when `bin` is no directory |
| `OverlayPaths.WrongBin` | native/jni/core/module.cpp:522-527 | `bin` is taken for what it is not if and only if some opened module reaches an entry `bin` that is a file or a replaced directory, and the binaries do not go to `/sbin` |
| `Overlay.FileAsBin` | native/jni/core/module.cpp:522-527 | one module with a file `system/bin` for which that happens |
| `Overlay.MovePartitions` | native/jni/core/module.cpp:586-595 | partitions that are directories of their own become children of the root, as `Overlay.Partitioned` says |
| `Overlay.PartitionsMoved` | native/jni/core/module.cpp:586-595 | a partition that moves leaves `system` and is a root of its own with the children it had; every other name stays where it was |
| `Overlay.MagicMount` | native/jni/core/module.cpp:540-597 | the whole way to the tree that is mounted |
| `Cpio.ArchiveRoundTrip` | native/jni/utils/cpio.cpp:113-149 | an entry map comes back from its archive if and only if all names are ones the format can carry |
| `Cpio.DumpAndLoad` | native/jni/utils/cpio.cpp:223-245 | the same for the two loops |
| `Cpio.Dump` | native/jni/utils/cpio.cpp:113-149 | writes header, name and data of every entry in the order of names, aligned, then the trailer |
| `CpioFormat.ArchiveFormat` | native/jni/utils/cpio.cpp:113-149 | the whole archive by places: records in increasing order of names, at multiples of four, with the magic 070701, thirteen numbers in small hexadecimal digits counted from inode 300000, name, NULs and data; then the trailer, and nothing else |
| `CpioFormat.EmptyArchive` | native/jni/utils/cpio.cpp:138-147 | the archive of no entries, character by character |
| `CpioFormat.HexPrints` | native/jni/utils/cpio.cpp:118-134 | a number as its last eight digits, in small letters |
| `Cpio.Load` | native/jni/utils/cpio.cpp:223-245 | the loading loop, on any buffer; None where the source has no defined result |
| `Cpio.LoadsPlain` | native/jni/utils/cpio.cpp:230-236 | whatever the buffer, only names that the format can carry are loaded |
| `Cpio.X8u` | native/jni/utils/cpio.cpp:29-44 | eight hexadecimal digits read as that number; None when they are not |
| `Cpio.HexReads` | native/jni/utils/cpio.cpp:29-44 | reading inverts writing for every number that fits |
| `CpioFormat.HexJoined` | native/jni/utils/cpio.cpp:29-44 | reading goes by place: digits in front count sixteen times as much for every digit behind |
| `CpioFormat.DigitValues` | native/jni/utils/cpio.cpp:36-40 | the digits in small and in capital letters have their values, and no other character has one |
| `Names.LessMeans` | native/jni/utils/include/cpio.hpp:38 | the order of names: where two first differ the smaller character decides, and beginnings come first |
| `Ramdisk.BackupRestore` | native/jni/magiskboot/ramdisk.cpp:129-232 | patched, backed up and restored: stock names and contents come back if and only if the greatest name backed up is not adjacent to its backup |
| `Ramdisk.OneFileDangles` | native/jni/magiskboot/ramdisk.cpp:129-155 | one changed file for which restoring has no defined end |
| `Ramdisk.BackupAndRestore` | native/jni/magiskboot/ramdisk.cpp:129-232 | the same for the loops |
| `MarkedRamdisk.MarkedRestore` | scripts/boot_patch.sh:161-170 | patched, backed up, `.backup/.magisk` put in, and restored: the stock files and nothing else come back if and only if the greatest name backed up is not adjacent to its backup, or the configuration stands in between |
| `MarkedRamdisk.WalkMarked` | native/jni/magiskboot/ramdisk.cpp:139-154 | the restoring walk from any point, with the installer's own entries in it |
| `MarkedRamdisk.InstallAndRestore` | scripts/boot_patch.sh:161-170 | the same for the loops |
| `Ramdisk.WalkRestores` | native/jni/magiskboot/ramdisk.cpp:139-154 | from any point of the restoring walk: where it ends, or that it dangles |
| `Ramdisk.NewNamesRemoved` | native/jni/magiskboot/ramdisk.cpp:132-137 | the list that backup writes makes restore remove exactly the names that patching added |
| `Ramdisk.Backup` | native/jni/magiskboot/ramdisk.cpp:157-232 | both archives without old backups compared, backups and list put in |
| `Ramdisk.CompareEntries` | native/jni/magiskboot/ramdisk.cpp:172-220 | the merge walk over both archives finds what differs and what is new |
| `Ramdisk.Restore` | native/jni/magiskboot/ramdisk.cpp:129-155 | list, then walk, with entries moved and erased on the way |
| `Ramdisk.Rm` | native/jni/utils/cpio.cpp:59-72 | removes a name, or with recursion everything below it |
| `RamdiskContents.RmTakes` | native/jni/utils/cpio.cpp:59-72 | exactly the name itself goes and, recursively, the names that continue it after a slash |
| `RamdiskContents.NotBelow` | native/jni/utils/cpio.cpp:59-72 | "overlay.d/x" stays when "overlay" goes |
| `RamdiskContents.RestoreRids` | native/jni/magiskboot/ramdisk.cpp:139-154 | restoring an archive without backups takes out exactly the names that begin with "magisk" and the three known ones |
| `RamdiskContents.BackupHolds` | native/jni/magiskboot/ramdisk.cpp:157-232 | what a backup holds under every name: the patched entry; else the directory, the sorted list of new names, or below ".backup/" the stock entry that differs |

## Left out

bzip2:

- The work budget is an unbounded integer; how fast it falls is not part of the contracts, only when it does not fall.
- BzStreams.DecompressFile: for streams of more than 4096 bytes, which chunk the stream ends in is told by the run only;
  recognising the format, reading and writing files that fail; a stream that ends the model in `Unspecified` counts as
  wrong.
- MainSort.MainSort: the block with its repeated beginning, and the quadrants, are read as sequences by the comparing
  code; only `Quadrants` writes quadrants, in place.
- Bitmap words (`bhtab`, `ftab` masks) are arrays of booleans or arithmetic on disjoint parts; loops unrolled by four
  or eight are plain loops; `|` of disjoint words is `+`.
- `arr1`, `arr2` and their aliases (`ptr`, `mtfv`, `block`, `zbits`) are separate arrays or sequences; that writing
  `mtfv` never overtakes `ptr` is kept as an invariant.
- FallbackSort.FallbackSort: arrays are exactly as long as the block.
- Randomised blocks, more selectors than the arrays hold, and places of `perm` that a table does not fill end the
  model in `Unspecified`.
- Calls after an error return; allocation, verbosity and parameter checks of the Init and End functions; the 64-bit
  counters `total_in` and `total_out`; a caller that takes back input it has offered.
- The 256 words of the CRC table are not listed: the table is a parameter, the round trips hold for any table, and what
  `Crc` proves holds for the table of remainders, of which it gives the eight words that make up the others.
- The packed cost words of six tables, which add up the same costs.
- HuffmanLengths.MakeCodeLengths: for limits of 12 to 20 bits and frequencies below 2^23 in all, so that weight and
  height share a 32-bit word; blocks and the limit of 17 in use keep within that.
- `unzftab` and `cftab` range checks, which cannot fail on a decoded block; `tt`, `ll16`, `ll4` are made for each block.
- SymbolReaders.ReadSymbols: reads one block from bits that are there; suspension inside the symbol loop is the
  state machine's.
- File and buffer interfaces (`BZ2_bzRead`, `BZ2_bzWrite`, `BZ2_bzBuffToBuff...`).

Overlay:

- The node tree is an immutable value: parent pointers, the cached `_node_path`, `_root` and object identity are not
  part of this model; paths are handed down instead. Nothing is said about the `_parent` updates of `merge_node`.
- Mounting itself, attribute cloning, applet links; directory listings and `lstat` answers are parameters.
- Overlay.MagicMount: says nothing about the tree after a `bin` that is no intermediate directory (`Wrong`).

Ramdisk:

- Bytes are characters; extraction, `add`, `mkdir`, `ln`, the `patch`, `test` and `sha1` commands and XZ compression.
- Cpio.Load: malformed headers, reads past the buffer and names that occur twice are `None`.
- Cpio.X8u: signs and blanks before the digits, and `0x` after one of these, are `None`, though `sscanf` takes them;
  so are fewer than eight digits, which the source reports as a bad header.
- Ramdisk.Restore: an iterator on an erased entry is `None`; what then happens is not part of this model.
