# XCopy Standalone: verified models

XCopy Standalone is an Amiga floppy copier: a Teensy board with a drive, an SD card, a flash chip, a small screen, a console and a web page. This project models the parts of its firmware and tools whose correctness is not visible from reading one function, and proves what they promise, for every input and every run. `dafny verify dfyconfig.toml` checks all of it.

## The parts

**The file store on NOR flash** (`Bytes`, `Chip`, `Layout`, `Updates`, `Effects`, `Scan`, `Creation`, `Store`, `StoreRuns`). `Chip` is an array of bytes in which programming can only clear bits, stays inside a 256-byte page and is logged image by image; erasing works on blocks or dies. A stacked part is erased die by die, each started by a poll, and the next die is kept in two bits. A call that only waits clears the busy mark, after which the next poll says ready and the rest stays unerased; a write sets it again, so that the polls go on and erase over what was written; and the index that is left makes the next erase begin where this one stopped, so that nothing but polls is no promise either. `Chip.ErasedWhenReady` and `Chip.BlankWhenReady` give the exact conditions among all calls and from any index, and `Chip.Chip.EraseAmong` ties them to the methods. `Layout` says when an image holds a directory: header, hash slots, ten-byte info records, names. `Scan`, `Creation` and `Store` are the code's own loops over the chip. The store refines a map from names to bytes (`Store.View`): opening finds exactly the live names whatever their hashes, listing gives exactly the live files in creation order, a new file has the length that was asked for, at the first place its unit allows, a write or an erase of one file changes no other and no byte of the directory, and during a create every single image of the flash, up to the last program, still opens as the old directory does. `StoreRuns` follows any sequence of operations from a blank chip on, next to an ideal store of entries and files.
The allocator checks only that the end of a new file fits the chip. `Updates.PlacementExact` shows when that is enough: exactly when none of its three 32-bit sums wraps; `Updates.WrappedPlacementOverlaps` is an accepted request after which the next file is placed inside another, and `Updates.LaidExactly` says of every create that passes all checks when the directory stays sound. A create that was cut short leaves its name and record behind, and the next one is programmed over them: `Creation.CreatedExactly` says exactly when it is sound all the same, and `Store.CreateSpoiled` is one that reports success and is not. A read or a write clips its range with a 32-bit sum that a seek can make wrap: `Store.ClipExactly` says exactly when it stays in the file, and `Store.NeighbourWritten` writes into the file before. Beyond that a create, a read or a write asks of its caller only what it takes to address the chip: positive lengths, and ranges on the chip; `StoreRuns` takes the runs in which every create and every write meets those conditions.

**CRCs** (`Registers`, `Crc`, `CrcChecks`, `Slicing`, `FastCrc`, `Bursts`). Registers are strings of bits. The table-driven engines (alignment prologue, four lookups a word, byte tail; a byte-swapped register for the CRCs that shift left) equal the bit-at-a-time definition on every string, seed and alignment, and a message can be cut into calls anywhere. A reflected CRC is, back to front, the CRC that shifts left of the bytes turned round (`CrcChecks.MirrorReflected`), and all eight algorithms and the CRC-8 give the check values that the source states for the string "123456789". The tables are the recurrences that `Slicing.SliceRecurrence` states; the source repeats one loop for eight algorithms, here the algorithm is a parameter and `FastCrc` lists the eight. The bitwise CRC-16 of the live link is the same CRC as the engine's, and two messages of one length that differ only within 16 consecutive bits never have the same one. CRC-32 is the one of section 8 of RFC 1952.

**Live-link records** (`LiveRecords`, `LiveLink`). The host's reader refines a pure scanner of the whole stream: the records that come out, and how many candidates fail their CRC, do not depend on how the stream is cut into reads or on how often the reader gives up waiting; a stream of encoded records comes back exactly, with no resync and no bad CRC; an intact record is lost only if a record with a good CRC of its own ran over its start, or as long as the reader still waits for an earlier candidate to be complete, which is never further back than the longest record.

**MD5** (`Md5Digest`, `Md5`, `Words`, `Md5Checks`). `Md5Digest` is the digest as sections 3.1 to 3.5 of RFC 1321 define it. Any split of a message into updates gives that digest: the buffer holds the tail that fills no block, the two counters hold the number of bytes modulo and divided by 2^29, and the padding takes one block or two. The schedule of the 64 steps is the one the source writes out, which the formulas of the RFC give (`Md5.ScheduleAgrees`), and the digest of the alphabet is the one in appendix A.5 of the RFC (`Md5Checks.AlphabetDigest`).

**The file listing** (`Listing`, `Directory`). A doubly linked list on the heap. Adding entries is a stable sort by name, where the first byte that differs decides; the directories-first loop is a stable partition that loses and doubles nothing; the cursor is always on the entry its index counts to; and whenever the two-row redraw says that it was enough, the screen is what a full redraw would show.

**The Amiga directory walk** (`AdfWalk`). Hash chains are followed until one of two faults is noticed; a cycle of blocks that are not heads is not noticed. A chain ends exactly if it never comes to the same block twice, and the walk exactly if no chain that it comes to does; following a chain as far as there are blocks tells. On a volume without doubled heads and doubly linked entries the walk ends and visits every block that can be reached exactly once, with one warning for every link that was cut.

**Console** (`Options`, `Strings`, `ConsoleTokens`, `Completion`, `WireStrings`). Completing a token leaves all earlier tokens alone, whatever stands right of the cursor. The completed one reads back as the longest common prefix of the matching candidates, in whatever order they were offered, a single directory with its slash, exactly if quoting can carry it and the line does not run on from it: a value that is finished is closed, but a directory or a common prefix is left open, so in the middle of a word it takes in the rest of that word (`Completion.RunsOn`). Matching ignores case and folding does not, so what was typed can get shorter; `Completion.WordKept` says when. The command strings for a capture and a disk survey parse back to the fields they were printed from, whatever the path holds. A capture command always says that a range was given, also when the operator gave none: that is what the code does.

**Buttons and sound** (`Debounce`, `Navigation`, `Dac`). On a millisecond clock that wraps, and is read anew wherever the code reads it, a debounced change means that every reading of at least the interval agreed, a switch that reads the same for that long does change, and no two changes are closer. A button counts as pressed exactly while its debounced pin, having changed at all, is low; a repeat comes only for a held direction whose pin has been low since the hold began, never with an edge, never early, and does come when due. The duration reported with an edge is always zero, since the change that makes the edge has just cleared the held mark: a long press is never reported as one. The two-slot store between the mixer and the sound interrupt is a queue of two: under every interleaving blocks leave in their order, each is given back exactly once, only the oldest is ever dropped and only for a third one, and `Dac.DropsExactly` says which runs drop nothing.

**Flux samples** (`Flux`, `Sequences`). Intervals written as 16-bit samples and accumulated again come back, but that a multiple of 65536 ticks gains one tick; buffer boundaries make no difference. The format is version 2.5 of the SuperCard Pro image file specification.

## Model

| member | source | states |
|---|---|---|
| Chip.DiesTileTheChip | lib/SerialFlash/SerialFlashChip.cpp:224-233 | the dies of a stacked part cover its capacity exactly |
| Chip.ProgramBlank | lib/SerialFlash/SerialFlashDirectory.cpp:314-318 | programming over blank bytes stores exactly the bytes that were meant and changes no others |
| Chip.StaysInside | lib/SerialFlash/SerialFlashChip.cpp:192-193 | a piece that ends before the next multiple of a size crosses no multiple of it |
| Chip.BarrierParts | lib/SerialFlash/SerialFlashChip.cpp:359-380 | the parts with a barrier are those of the maker 0x20 whose capacity code is over 16 MByte |
| Chip.Chip.Read | lib/SerialFlash/SerialFlashChip.cpp:81-166 | a read split at the 32 MByte barrier returns the flat range; on a part of the maker 0x20 with more than 16 MByte no single command crosses the barrier; the busy mark goes when the operation is over or cannot be suspended, and stays otherwise |
| Chip.Chip.ProgramPage | lib/SerialFlash/SerialFlashChip.cpp:194-213 | one command, inside one page, ANDs the data into the cells, logs one image and leaves the chip busy with it |
| Chip.Chip.Write | lib/SerialFlash/SerialFlashChip.cpp:181-216 | a write split at pages is one bytewise AND over the range; every intermediate image is unchanged outside it; the chip is busy with it afterwards |
| Chip.Chip.EraseBlock | lib/SerialFlash/SerialFlashChip.cpp:267-288 | blanks exactly the block that holds the address, and leaves the chip busy with it |
| Chip.Chip.ReadId | lib/SerialFlash/SerialFlashChip.cpp:418-450 | waits for the operation in progress, which clears the busy mark; `readSerialNumber` and `sleep` do the same |
| Chip.Chip.Begin | lib/SerialFlash/SerialFlashChip.cpp:343-397 | waits likewise, and forgets the die index |
| Chip.Chip.EraseAll | lib/SerialFlash/SerialFlashChip.cpp:218-265 | blanks the chip, or the die of a stacked part that the index names, and moves the index on; with the index past the last die, erases nothing and clears it |
| Chip.Chip.Ready | lib/SerialFlash/SerialFlashChip.cpp:291-322 | says ready exactly when nothing is in progress or the last command is over; a poll that finds a die erased starts the next one |
| Chip.Chip.EraseWholeChip | lib/SerialFlash/SerialFlashChip.cpp:218-322 | starting an erase with the die index anywhere and only polling until ready blanks all from that die on; the whole chip is blank if and only if what lies below was |
| Chip.EraseGoesOn | lib/SerialFlash/SerialFlashChip.cpp:81-450 | among any other calls, until a poll says ready: where an erase stands that a waiting call has halted, that `begin` has made forget its dies, or that goes on die by die |
| Chip.ErasedWhenReady | lib/SerialFlash/SerialFlashChip.cpp:81-450 | at the first poll that says ready every die from the first one on has had its erase command if and only if the erase was not cut short: by `begin` before the last die, or by a waiting call before it with no write or block erase since |
| Chip.BlankWhenReady | lib/SerialFlash/SerialFlashChip.cpp:81-450 | if no write or block erase came either, the whole chip is blank if and only if what lies below the first die was, and what lies above the last one reached; which is the end of the chip if and only if the erase was not cut short |
| Chip.ReadCutsShort | lib/SerialFlash/SerialFlashChip.cpp:89-141 | one read after the start: every stacked part is called ready with one die erased |
| Chip.WriteResumes | lib/SerialFlash/SerialFlashChip.cpp:181-322 | after that a write makes the polls go on with the erase, and what was written into the second die is gone |
| Chip.Chip.FirstDiePassedOver | lib/SerialFlash/SerialFlashChip.cpp:218-322 | the index that is left makes the next erase begin at the second die: it is called ready with the first die as it was, though nothing but polls came |
| Chip.Chip.EraseAmong | lib/SerialFlash/SerialFlashChip.cpp:81-450 | the chip's own methods, called in any order after an erase was started with the index anywhere, leave mark, index and cells as that account says, up to the first poll that says ready |
| Bytes.AndBlank | lib/SerialFlash/SerialFlashDirectory.cpp:314-331 | a blank byte programmed with a value holds that value |
| Bytes.AndInverted | lib/SerialFlash/SerialFlashDirectory.cpp:199-200 | a byte programmed with its own complement is zero |
| Registers.BitwiseBytes | lib/SerialFlash/SerialFlashDirectory.cpp:86-98 | AND and XOR of bytes, bit for bit |
| Layout.FilenameHash | lib/SerialFlash/SerialFlashDirectory.cpp:86-98 | a stored hash is never the mark of a deleted or of an unused slot |
| Layout.FnvValues | lib/SerialFlash/SerialFlashDirectory.cpp:86-98 | the published FNV-1a values of nothing and of "a" |
| Layout.RangesDisjoint | lib/SerialFlash/SerialFlashDirectory.cpp:256-331 | all ranges ever handed out, of live and deleted files, are aligned, above the names, inside the chip and disjoint, and so are their names |
| Layout.FindLive | lib/SerialFlash/SerialFlashDirectory.cpp:128-176 | live names differ, so a live entry is the one its name finds |
| Layout.CommittedFrame | lib/SerialFlash/SerialFlashDirectory.cpp:48-63 | a directory survives every change that spares its header, slots, records and names |
| Updates.DivideMultiply | lib/SerialFlash/SerialFlashDirectory.cpp:289-295 | dividing and multiplying again is rounding down to a multiple |
| Updates.PlacementExact | lib/SerialFlash/SerialFlashDirectory.cpp:286-312 | an accepted placement is sound if and only if none of its sums wraps in 32 bits |
| Updates.WrappedPlacementOverlaps | lib/SerialFlash/SerialFlashDirectory.cpp:283-315 | with one file on the chip, a request that passes the capacity check, whose entry leaves the chip, and after which the next file is placed inside the first one |
| Updates.PlacementAligned | lib/SerialFlash/SerialFlashDirectory.cpp:286-304 | every placement is aligned to the caller's unit, or to a page |
| Updates.NewEntryNext | lib/SerialFlash/SerialFlashDirectory.cpp:275-312 | a new entry goes past the names and the data of all before it, and the whole stays laid out |
| Updates.NewEntryAsAsked | lib/SerialFlash/SerialFlashDirectory.cpp:275-320 | where no sum wraps, a new entry is exactly as long as was asked, or up to a whole number of units; lies at the first multiple of the unit, or of a page, after all data; and has its name at the first word after all names |
| Updates.NoWrapNear | lib/SerialFlash/SerialFlashDirectory.cpp:286-312 | no sum wraps unless end and length, with a unit to spare for each, come near 2^32 |
| Updates.LaidExactly | lib/SerialFlash/SerialFlashDirectory.cpp:275-320 | a create that passes all checks keeps the directory laid out and hands out what was asked for if and only if there is room for the name and no sum wraps |
| Updates.HashStored | lib/SerialFlash/SerialFlashDirectory.cpp:326-329 | programming the hash slot commits the entry and nothing else |
| Effects.FilesFind | lib/SerialFlash/SerialFlashDirectory.cpp:128-182 | the map holds exactly the names that can be found, with their entries' bytes |
| Effects.FilesCreated | lib/SerialFlash/SerialFlashDirectory.cpp:256-331 | a create adds one name and leaves every other file as it was |
| Effects.FilesRemoved | lib/SerialFlash/SerialFlashDirectory.cpp:190-210 | a removal takes one name away and leaves every other file as it was |
| Effects.FilesWritten | lib/SerialFlash/SerialFlash.h:92-101 | a change of one entry's bytes changes that file only |
| Effects.SlotZeroed | lib/SerialFlash/SerialFlashDirectory.cpp:190-210 | zeroing a hash slot is all it takes to delete an entry |
| Effects.DataChanged | lib/SerialFlash/SerialFlash.h:92-101 | a change inside one entry's range touches no part of the directory |
| Effects.OthersKept | lib/SerialFlash/SerialFlash.h:92-101 | and no byte of any other entry |
| Scan.HeaderStored | lib/SerialFlash/SerialFlashDirectory.cpp:75-81 | the header written on a blank chip makes it an empty directory |
| Scan.HashName | lib/SerialFlash/SerialFlashDirectory.cpp:86-98 | the hash loop computes 32-bit FNV-1a, folded into the usable range |
| Scan.FilenameCompare | lib/SerialFlash/SerialFlashDirectory.cpp:100-114 | comparing sixteen bytes at a time tells whether the stored name is the given one |
| Scan.StringLength | lib/SerialFlash/SerialFlashDirectory.cpp:229-243 | the length of a stored name, terminator included |
| Scan.Search | lib/SerialFlash/SerialFlashDirectory.cpp:136-175 | the search over hash slots finds a live entry of the name or shows that there is none, collisions and deleted slots included |
| Scan.FindUnallocated | lib/SerialFlash/SerialFlashDirectory.cpp:212-227 | the first unused slot is the number of entries ever created |
| Scan.NextFree | lib/SerialFlash/SerialFlashDirectory.cpp:273-285 | where the next name and the next data begin |
| Scan.SkipDeleted | lib/SerialFlash/SerialFlashDirectory.cpp:343-350 | the index stops at a live entry or at the end, and no live entry was skipped |
| Scan.CopyName | lib/SerialFlash/SerialFlashDirectory.cpp:360-378 | the name comes back whole if it fits with its terminator, and otherwise cut to one byte less than the buffer |
| Creation.Plan | lib/SerialFlash/SerialFlashDirectory.cpp:273-320 | if the capacity check lets it through, the place and the info record of the new entry, which is as was asked where no sum wraps |
| Creation.UnusedChanged | lib/SerialFlash/SerialFlashDirectory.cpp:314-320 | bytes that belong to no committed entry can change without the directory noticing |
| Creation.WrittenCommits | lib/SerialFlash/SerialFlashDirectory.cpp:314-329 | where the chip takes name and record, the three programs leave the directory with the new entry |
| Creation.WrittenNeeds | lib/SerialFlash/SerialFlashDirectory.cpp:314-329 | and only there |
| Creation.CreatedExactly | lib/SerialFlash/SerialFlashDirectory.cpp:256-331 | a create that passes all checks, over whatever was left behind: the directory has the new entry, as long as was asked for, if and only if there is room for the name, no sum wraps, and no bit is asked for that is clear already |
| Creation.WrittenFiles | lib/SerialFlash/SerialFlashDirectory.cpp:314-329 | the three programs touch the bytes of no file, and the new one holds what was in its range |
| Creation.WrittenSpare | lib/SerialFlash/SerialFlashDirectory.cpp:314-329 | where everything was blank the chip takes what is programmed, and what the next create needs stays blank |
| Creation.ProgramUnseen | lib/SerialFlash/SerialFlashDirectory.cpp:314-320 | name and record are each ANDed in; every image still reads as the old directory |
| Creation.ProgramHash | lib/SerialFlash/SerialFlashDirectory.cpp:326-329 | the hash slot is programmed in one command |
| Creation.AddEntry | lib/SerialFlash/SerialFlashDirectory.cpp:314-330 | the three programs in their order, over whatever was left behind; every image before the last one reads as the old directory |
| Store.Store.constructor | lib/SerialFlash/SerialFlashDirectory.cpp:30-63 | a blank chip is a valid, empty store |
| Store.Store.CheckSignature | lib/SerialFlash/SerialFlashDirectory.cpp:68-84 | gives the header word, formatting a blank chip first; 0 and no change on a chip that holds something else |
| Store.Store.Open | lib/SerialFlash/SerialFlashDirectory.cpp:128-176 | finds the live entry of the name or returns a null handle, also in the middle of a create |
| Store.Store.Exists | lib/SerialFlash/SerialFlashDirectory.cpp:178-182 | true exactly for the names in the map, which stays as it is |
| Store.CreateMeans | lib/SerialFlash/SerialFlashDirectory.cpp:256-331 | what a create that passes all checks comes to: when it is sound, and then which files there are |
| Store.Store.Create | lib/SerialFlash/SerialFlashDirectory.cpp:256-331 | succeeds exactly when the name is new, a slot is free and the range fits; until its last program the flash reads as before; where no sum wraps the new entry has the length asked for and the first place its unit allows; afterwards the directory can be read, with the length asked for, if and only if name and sums fit and leftovers of a create that was cut short take what is programmed; then there is one more file, blank if the store was in order, and the others are kept |
| Store.LeftoverSpoils | lib/SerialFlash/SerialFlashDirectory.cpp:314-329 | the name "a" over a leftover "b" is neither |
| Store.CreateSpoiled | lib/SerialFlash/SerialFlashDirectory.cpp:256-331 | such a create reports success and leaves no directory that can be read |
| Store.EveryImageOpens | lib/SerialFlash/SerialFlashDirectory.cpp:314-330 | from every image the flash holds before a create's last program, the old directory opens |
| Store.Store.CreateErasable | lib/SerialFlash/SerialFlash.h:56-58 | succeeds when a create of whole blocks does, adds one blank file of the length asked for, up to whole blocks, at the first block after all data, and keeps all others |
| Store.Store.Remove | lib/SerialFlash/SerialFlashDirectory.cpp:184-188 | takes the name out of the map, and says whether it was there |
| Store.Store.RemoveFile | lib/SerialFlash/SerialFlashDirectory.cpp:190-210 | deletes the entry of an open file and clears the handle; nothing for a null one |
| Store.Store.Readdir | lib/SerialFlash/SerialFlashDirectory.cpp:333-379 | one step of a listing: the first live entry from the index on, with its name cut to the buffer and its size, or false if there is none |
| Store.Store.List | lib/SerialFlash/SerialFlashDirectory.cpp:333-379 | a whole listing: strictly increasing places that are exactly those of the live entries, and for each the name of its entry, cut to the buffer |
| Store.ClipExactly | lib/SerialFlash/SerialFlash.h:84-100 | what the clip of a read or a write lets through lies in the file if and only if the 32-bit sum of offset and length does not wrap back into the file |
| Store.Store.ReadFile | lib/SerialFlash/SerialFlash.h:84-91 | the bytes at the wrapped address, as many as the clip lets through; the file's own bytes from the offset on, unless the sum wraps back into it |
| Store.Store.WriteFile | lib/SerialFlash/SerialFlash.h:92-100 | ANDs in, at the wrapped address, what the clip lets through; that changes this file and no other, unless the sum wraps back into it |
| Store.NeighbourWritten | lib/SerialFlash/SerialFlash.h:92-103 | after a seek to 16 below 2^32 a write of 32 bytes ANDs its first half into the end of the file before |
| Store.Store.SeekFile | lib/SerialFlash/SerialFlash.h:101-103 | sets the offset |
| Store.Store.AvailableIn | lib/SerialFlash/SerialFlash.h:110-113 | what is left from the offset to the end, which is what a read of the whole length would yield if its sum does not wrap |
| Store.Store.EraseFile | lib/SerialFlash/SerialFlashDirectory.cpp:382-392 | blanks a file made of whole blocks, and does nothing to any other |
| StoreRuns.Run | lib/SerialFlash/SerialFlashDirectory.cpp:184-331 | any sequence of creates, removals, writes and erases leaves the entries and the files that the ideal store has, laid out as they must be |
| StoreRuns.RunFromBlank | lib/SerialFlash/SerialFlashDirectory.cpp:68-331 | and so from a blank chip on |
| StoreRuns.StepCreates | lib/SerialFlash/SerialFlashDirectory.cpp:256-331 | a create that succeeds in such a run adds one entry, as was asked, and one blank file of its length, and changes no other |
| Crc.ReflectedAppend | src/FastCRC/FastCRCsw.cpp:180-205 | a reflected CRC can be carried from one string on to the next |
| Crc.StraightAppend | src/FastCRC/FastCRCsw.cpp:139-164 | and so can one that shifts left |
| CrcChecks.MirrorReflected | src/FastCRC/FastCRCsw.cpp:139-205 | the reflected register of a string, back to front, is the left-shifting register of its bytes turned round, with polynomial and seed turned round |
| CrcChecks.PolynomialsMirrored | src/FastCRC/FastCRCsw.cpp:166-505 | the polynomials of the reflected algorithms are those the source documents, back to front: 0x1021, 0x8005 and 0x04C11DB7 |
| Slicing.SliceRecurrence | src/FastCRC/FastCRC_tables.h:147-1326 | the first table from the bitwise definition, each other one from the table before it, a byte later |
| Slicing.SliceLinear | src/FastCRC/FastCRCsw.cpp:127-131 | mixing two bytes mixes their table entries |
| Slicing.FourLookups | src/FastCRC/FastCRCsw.cpp:127-131 | four lookups in four tables are four steps of one lookup, for 16-bit registers that take the word's low half only |
| Slicing.FastByteReflected | src/FastCRC/FastCRCsw.cpp:183-186 | one lookup is eight shifts to the right |
| Slicing.FastByteStraight | src/FastCRC/FastCRCsw.cpp:143-146 | one lookup on the byte-swapped register is eight shifts to the left |
| FastCrc.BytewiseReflected | src/FastCRC/FastCRCsw.cpp:180-205 | a lookup a byte is the reflected CRC |
| FastCrc.BytewiseStraight | src/FastCRC/FastCRCsw.cpp:139-164 | a lookup a byte is, byte-swapped, the CRC that shifts left |
| FastCrc.UptoWord | src/FastCRC/FastCRCsw.cpp:387-391 | a word of the body counts as its four bytes |
| FastCrc.ResultOfSeed | src/FastCRC/FastCRCsw.cpp:159-171 | the swap and the inversion at the end turn the seed into the CRC by definition |
| FastCrc.Resumed | src/FastCRC/FastCRCsw.cpp:139-171 | starting with one part and going on with another gives the CRC of both together |
| FastCrc.CatalogueValid | src/FastCRC/FastCRCsw.cpp:166-505 | the eight algorithms have registers of 16 or 32 bits and initial values that swapping bytes leaves alone |
| CrcChecks.CcittCheck | src/FastCRC/FastCRCsw.cpp:168 | ccitt gives 0x29B1 for the string "123456789" |
| CrcChecks.Mcrf4xxCheck | src/FastCRC/FastCRCsw.cpp:209 | mcrf4xx gives 0x6F91 for the string "123456789" |
| CrcChecks.ModbusCheck | src/FastCRC/FastCRCsw.cpp:249 | modbus gives 0x4B37 for the string "123456789" |
| CrcChecks.KermitCheck | src/FastCRC/FastCRCsw.cpp:289 | kermit gives 0x2189 for the string "123456789" |
| CrcChecks.XmodemCheck | src/FastCRC/FastCRCsw.cpp:331 | xmodem gives 0x31C3 for the string "123456789" |
| CrcChecks.X25Check | src/FastCRC/FastCRCsw.cpp:373 | x25 gives 0x906E for the string "123456789" |
| CrcChecks.Crc32Check | src/FastCRC/FastCRCsw.cpp:449 | crc32 gives 0xCBF43926 for the string "123456789" |
| CrcChecks.CksumCheck | src/FastCRC/FastCRCsw.cpp:502 | cksum gives 0x765E7680 for the string "123456789" |
| CrcChecks.Crc8Check | src/FastCRC/FastCRCsw.cpp:94 | the CRC-8 with polynomial 0x07 gives 0xF4 for the string "123456789" |
| FastCrc.Run | src/FastCRC/FastCRCsw.cpp:411-439 | prologue, body and tail compute the CRC register of the whole string, whatever its alignment |
| FastCrc.FastCRC.Update | src/FastCRC/FastCRCsw.cpp:139-164 | whatever message the seed stands for, the result is the CRC of that message with the new bytes |
| FastCrc.FastCRC.Start | src/FastCRC/FastCRCsw.cpp:166-171 | the result is the CRC of the string, bit by bit |
| FastCrc.ShiftIn | shared/XCopyLiveProtocol.h:470-476 | a byte mixed in and shifted eight times |
| FastCrc.XclCrc16 | shared/XCopyLiveProtocol.h:478-484 | is the CRC that the engine's `ccitt` computes, on every string |
| FastCrc.XclCrc8 | shared/XCopyLiveProtocol.h:448-457 | the CRC-8 of a string |
| FastCrc.OwnValueClears | shared/XCopyLiveProtocol.h:448-457 | a string followed by its CRC-8 has the CRC-8 zero |
| Bursts.StraightIsFeeding | shared/XCopyLiveProtocol.h:470-484 | the bytewise loop is a shift register fed with the bits of the message, most significant first |
| Bursts.Injective | shared/XCopyLiveProtocol.h:470-484 | the same bits lead different registers to different registers |
| Bursts.Backwards | shared/XCopyLiveProtocol.h:470-484 | no two strings of at most the register's width lead from one register to one register |
| Bursts.BurstsDetected | shared/XCopyLiveProtocol.h:470-484 | messages that differ only within 16 consecutive bits have different CRCs |
| Bursts.NeighboursDetected | shared/XCopyLiveProtocol.h:470-484 | and so have messages that differ only in two neighbouring bytes |
| LiveRecords.HeadStable | files/Tools/xcopylive_probe.py:205-237 | more bytes do not change a verdict on a candidate |
| LiveRecords.EncodedAccepted | shared/XCopyLiveProtocol.h:255-280 | an encoded record reads back as itself, whatever follows |
| LiveRecords.EncodedLayout | shared/XCopyLiveProtocol.h:255-280 | where each field is in an encoded record, low byte first, and that the check bytes are the CRC of all before them |
| LiveRecords.AcceptedIsEncoded | files/Tools/xcopylive_probe.py:205-237 | what is accepted is the encoding of what is read |
| LiveRecords.VerdictsMean | files/Tools/xcopylive_probe.py:205-237 | a candidate is accepted if and only if an encoded record stands there; it counts as a bad CRC if and only if none does, though its type and all its bytes are there |
| LiveRecords.HitsStand | files/Tools/xcopylive_probe.py:191-237 | every record that is read stands in the stream, encoded, at the place it is read from |
| LiveRecords.ScanGarbage | files/Tools/xcopylive_probe.py:195-203 | bytes before the first sync pair make no difference |
| LiveRecords.ScanVerdict | files/Tools/xcopylive_probe.py:216-237 | a verdict on the bytes at hand stands when the rest of the stream is added |
| LiveRecords.RoundTrip | files/Tools/xcopylive_probe.py:84-97 | a stream of encoded records comes back exactly, in order, with no bad CRC |
| LiveRecords.CleanStart | files/Tools/xcopylive_probe.py:191-237 | the start of a clean stream is a record or the beginning of one |
| LiveRecords.NothingLost | files/Tools/xcopylive_probe.py:191-237 | an intact record is read, run over by an earlier good one, or behind a candidate that is not complete |
| LiveRecords.StopIsNear | files/Tools/xcopylive_probe.py:222-225 | the reader never waits further back than the longest record |
| LiveRecords.IntactRecordRead | files/Tools/xcopylive_probe.py:191-237 | with enough bytes behind it, an intact record is read unless a good one ran over its start |
| LiveLink.Link.Fill | files/Tools/xcopylive_probe.py:176-189 | moves bytes from the port to the buffer and loses none |
| LiveLink.Link.Seek | files/Tools/xcopylive_probe.py:195-205 | drops just what stands before the first sync pair, or all but the last byte if there is none; counts a resync when a pair was not at the front; the records to come are the same |
| LiveLink.Link.Judge | files/Tools/xcopylive_probe.py:205-231 | the verdict on the candidate at the front |
| LiveLink.Link.Discard | files/Tools/xcopylive_probe.py:216-233 | of a rejected candidate the two sync bytes go and no more, and one of the two counters goes up; the records to come are the same |
| LiveLink.Link.ReadRecord | files/Tools/xcopylive_probe.py:191-237 | returns the next record of the stream, or nothing when none is complete and the deadline has passed; keeps the records to come; counts nothing on a clean stream, and never more resyncs than bytes have gone |
| LiveLink.Link.ReadAll | files/Tools/xcopylive_probe.py:349-356 | the records read are those of the stream, however it was cut; a clean stream comes back exactly with both counters untouched |
| LiveLink.Link.Send | files/Tools/xcopylive_probe.py:169-171 | one frame with command, length, payload and a check byte that clears its CRC-8; a payload of 256 bytes or more is refused |
| LiveLink.CrcOf | files/Tools/xcopylive_probe.py:75-81 | the tool's CRC-16, on integers cut to 16 bits after each shift, is the firmware's |
| Md5Digest.PaddedFillsBlocks | lib/ArduinoMD5/MD5.cpp:233-262 | padding adds at least 9 bytes, fewer than 73, and fills whole blocks |
| Md5Digest.BlocksAppend | lib/ArduinoMD5/MD5.cpp:72-180 | whole blocks can be taken in as they come |
| Md5Checks.AlphabetDigest | lib/ArduinoMD5/MD5.cpp:72-301 | the digest of the 26 letters is c3fcd3d76192e4007dfb496cca67e13b |
| Md5.FastFormsAgree | lib/ArduinoMD5/MD5.cpp:31-32 | the forms without AND-NOT are the functions F and G of section 3.4 of RFC 1321 |
| Md5.ShiftsRotate | lib/ArduinoMD5/MD5.cpp:39-42 | two shifts and an OR are a circular shift |
| Md5.ScheduleAgrees | lib/ArduinoMD5/MD5.cpp:95-164 | the words and shifts of the 64 steps as they are written out are those of section 3.4 of RFC 1321 |
| Md5.Counted | lib/ArduinoMD5/MD5.cpp:203-207 | a low counter that got smaller is exactly a carry into the high one |
| Md5.LengthFields | lib/ArduinoMD5/MD5.cpp:250-259 | the two counters, the low one shifted by three, are the length in bits modulo 2^64 |
| Md5.OneLastBlock | lib/ArduinoMD5/MD5.cpp:241-248 | with fewer than 56 bytes left the padding is one block |
| Md5.TwoLastBlocks | lib/ArduinoMD5/MD5.cpp:241-248 | otherwise it is two |
| Md5.Context.constructor | lib/ArduinoMD5/MD5.cpp:182-195 | the initial state stands for the empty message |
| Md5.Context.Step | lib/ArduinoMD5/MD5.cpp:39-42 | one step, with word and shift from the written-out schedule, is the operation of section 3.4 of RFC 1321 |
| Md5.Context.Body | lib/ArduinoMD5/MD5.cpp:72-180 | takes in whole blocks, each by the 64 operations |
| Md5.Context.Update | lib/ArduinoMD5/MD5.cpp:197-231 | the context stands for the message so far with the new bytes |
| Md5.Context.Count | lib/ArduinoMD5/MD5.cpp:203-207 | the counters hold the number of bytes modulo 2^29 and divided by 2^29, modulo 2^32 |
| Md5.Context.Pad | lib/ArduinoMD5/MD5.cpp:233-262 | pads and takes in what is left, for every length of it |
| Md5.Context.Final | lib/ArduinoMD5/MD5.cpp:233-282 | the digest of everything that came in, after which the context is cleared |
| Md5.MakeHash | lib/ArduinoMD5/MD5.cpp:293-301 | the digest of a string of bytes |
| Listing.LessTotal | src/XCopy/XCopyDirectory.cpp:197-197 | names are totally ordered |
| Listing.LessStep | src/XCopy/XCopyDirectory.cpp:197-197 | one name is less than another if it is a proper beginning of it, or less in the first byte that differs: which comparing byte by byte tells |
| Listing.BuiltSorted | src/XCopy/XCopyDirectory.cpp:175-228 | adding entries one by one is a stable sort by name, the lesser name first |
| Listing.SplitKeepsAll | src/XCopy/XCopyDirectory.cpp:145-161 | moving directories to the front loses and doubles nothing |
| Listing.SplitStable | src/XCopy/XCopyDirectory.cpp:145-161 | and keeps the order of rows of one name and kind |
| Listing.ListingOrdered | src/XCopy/XCopyDirectory.cpp:115-161 | the finished listing holds each found entry once, by name, the lesser first, or directories by name and then files by name, and rows of one name and kind in the order they were found |
| Listing.TwoRowsChange | src/XCopy/XCopyDirectory.cpp:421-469 | a step of the cursor that does not scroll changes two rows |
| Directory.Directory.Clear | src/XCopy/XCopyDirectory.cpp:13-28 | an empty list with the cursor at the start |
| Directory.Directory.Up | src/XCopy/XCopyDirectory.cpp:30-39 | moves the cursor back by one, except at the first entry; cursor and index stay together |
| Directory.Directory.Down | src/XCopy/XCopyDirectory.cpp:41-50 | moves it on by one, except at the last |
| Directory.Directory.GetFirst | src/XCopy/XCopyDirectory.cpp:296-304 | the head of the list, from any entry |
| Directory.Directory.GetLast | src/XCopy/XCopyDirectory.cpp:307-315 | the last entry |
| Directory.Directory.GetItemIndex | src/XCopy/XCopyDirectory.cpp:317-332 | the place of an entry, in 16 bits |
| Directory.Directory.InsertItemBefore | src/XCopy/XCopyDirectory.cpp:264-284 | the list with the entry put in, well linked both ways |
| Directory.Directory.RemoveItem | src/XCopy/XCopyDirectory.cpp:241-262 | the list without the entry, which has no neighbours any more |
| Directory.Directory.MoveItemBefore | src/XCopy/XCopyDirectory.cpp:286-293 | the list with the entry moved forward |
| Directory.Directory.AddRoot | src/XCopy/XCopyDirectory.cpp:170-173 | the entry becomes the first one, with the cursor on it |
| Directory.Directory.AddItem | src/XCopy/XCopyDirectory.cpp:175-228 | the entry goes before the first one with a greater name, or to the end |
| Directory.Directory.PutDirectoriesFirst | src/XCopy/XCopyDirectory.cpp:145-161 | directories, then the others, each in the order they had, on the same entries |
| Directory.Directory.GetDirectory | src/XCopy/XCopyDirectory.cpp:89-168 | the listing of what was found: each entry once, the lesser name first, directories first if asked for, equals in the order they were found; below the built-in files at the root |
| Directory.Directory.DrawItem | src/XCopy/XCopyDirectory.cpp:366-397 | one row, and the cover image of the current flash file |
| Directory.Directory.DrawDirectory | src/XCopy/XCopyDirectory.cpp:399-419 | the window on the list that follows the cursor |
| Directory.Directory.RedrawSelection | src/XCopy/XCopyDirectory.cpp:433-469 | when it says that two rows were enough, the screen is what a full redraw shows; and when it says so |
| AdfWalk.CycleNeverEnds | src/XCopy/XCopyAdfWalk.c:26-81 | a chain that comes back to where it was is followed for ever |
| AdfWalk.EndsExactly | src/XCopy/XCopyAdfWalk.c:26-81 | a chain ends if and only if it does not come to the same block twice |
| AdfWalk.EndsWithinLimit | src/XCopy/XCopyAdfWalk.c:26-81 | a chain ends if and only if it ends within as many steps as there are blocks and one more |
| AdfWalk.WalkEndsExactly | src/XCopy/XCopyAdfWalk.c:8-84 | the walk ends if and only if no chain that it comes to comes to the same block twice |
| AdfWalk.WalkChain | src/XCopy/XCopyAdfWalk.c:26-81 | one chain: its visits in order, and its warning or its failure |
| AdfWalk.WalkDir | src/XCopy/XCopyAdfWalk.c:8-84 | the walk reports what the chains hold, in their order, up to the first entry that cannot be read |
| AdfWalk.NothingLeftOut | src/XCopy/XCopyAdfWalk.c:8-84 | if all can be read, every head is visited, and after each entry the one it links to, unless that is itself or a head |
| AdfWalk.WalkCount | src/XCopy/XCopyAdfWalk.c:92-100 | the number of visits, or -1 |
| AdfWalk.WaysApart | src/XCopy/XCopyAdfWalk.c:62-80 | without doubled heads and links, two ways from heads never meet |
| AdfWalk.TidyWalk | src/XCopy/XCopyAdfWalk.c:8-84 | then the walk ends and visits each block that can be reached exactly once, and no other |
| AdfWalk.ChainVisits | src/XCopy/XCopyAdfWalk.c:26-81 | a chain is visited in the order of its links, as far as it can be read |
| AdfWalk.WarnedOnce | src/XCopy/XCopyAdfWalk.c:52-78 | a warning for every visited entry whose link was cut, and no other |
| AdfWalk.TidyWarnings | src/XCopy/XCopyAdfWalk.c:52-78 | no entry is warned about twice |
| AdfWalk.UnnoticedCycle | src/XCopy/XCopyAdfWalk.c:52-80 | a cycle of two blocks that are not heads is never left |
| ConsoleTokens.Tokenizer.NextToken | src/XCopy/XCopyArgs.cpp:8-48 | the next token, quotes stripped, an open quote running to the end |
| ConsoleTokens.NextMeans | src/XCopy/XCopyArgs.cpp:8-48 | the token in terms of the line: it begins at the first place that is not a space; a quote there is closed by the next one like it, or never; any other token ends before a space |
| ConsoleTokens.SameToken | src/XCopy/XCopyArgs.cpp:8-48 | a token that is over does not depend on what follows |
| Completion.MatchesMeans | src/XCopy/XCopyComplete.cpp:6-31 | a value matches if it begins with what was typed, but for the case of the letters a to z |
| Completion.CommonIsLongest | src/XCopy/XCopyComplete.cpp:33-84 | the fold is the longest common prefix of what was folded |
| Completion.CommonInAnyOrder | src/XCopy/XCopyComplete.cpp:33-84 | the order of the candidates makes no difference |
| Completion.Candidates.Offered | src/XCopy/XCopyComplete.cpp:33-84 | counts and folds exactly the candidates that match |
| Completion.Analyse | src/XCopy/XCopyComplete.cpp:109-163 | the token under the cursor, or a new one after a space, the one before it, and how many tokens there are, counted in eight bits |
| Completion.AnalysedCut | src/XCopy/XCopyComplete.cpp:109-163 | the replacement begins where all other tokens are over |
| Completion.ReadsOn | src/XCopy/XCopyArgs.cpp:8-48 | a line that is the same up to such a place reads the same up to there |
| Completion.Rendered | src/XCopy/XCopyComplete.cpp:353-377 | what is put in reads as what was meant and as much of what follows as runs on from it |
| Completion.OnlyPlainRendered | src/XCopy/XCopyComplete.cpp:353-377 | a value that quoting cannot carry reads as something else, whatever follows |
| Completion.ReadsBack | src/XCopy/XCopyComplete.cpp:353-377 | it reads back as what was meant if and only if quoting can carry it and it is closed, or is at the end, or its ending character follows |
| Completion.RestReads | src/XCopy/XCopyComplete.cpp:372-376 | after a value that is finished, the words right of the cursor read as they did |
| Completion.RunsOn | src/XCopy/XCopyComplete.cpp:365-370 | a directory that is completed in the middle of a word runs on into the rest of it |
| Completion.WordKept | src/XCopy/XCopyComplete.cpp:33-84 | what replaces a word is as long as the word if and only if the candidates agree on that many letters, case and all |
| Completion.WordLost | src/XCopy/XCopyComplete.cpp:379-403 | two candidates that differ in case only: the word that was typed is replaced by nothing |
| Completion.NothingMore | src/XCopy/XCopyComplete.cpp:398-403 | where the candidates have stopped agreeing, another press changes nothing |
| Completion.PressAgain | src/XCopy/XCopyComplete.cpp:109-197 | after a single candidate the next press begins a new word and sees the option before it; otherwise it goes on where this one stopped |
| Completion.EnumeratePaths | src/XCopy/XCopyComplete.cpp:255-313 | offers exactly the entries of the named directory that match what was typed of the name, as whole paths that the sink accepts |
| Completion.LeafMatches | src/XCopy/XCopyComplete.cpp:262-276 | matching the name is matching the whole path |
| Completion.CompletionReadsBack | src/XCopy/XCopyComplete.cpp:379-405 | whatever is right of the cursor, earlier tokens are unchanged, and the completed one reads as the longest common prefix if and only if quoting can carry it and the line does not run on from it |
| Completion.Editor.Replace | src/XCopy/XCopyLineEditor.cpp:241-258 | replaces a range of the line and puts the cursor behind it |
| Completion.Editor.Complete | src/XCopy/XCopyComplete.cpp:379-405 | the line changes only where the token is, and only when there is something to add |
| WireStrings.PrintedReads | src/XCopy/XCopy.cpp:1044-1061 | a printed number reads back |
| WireStrings.CaptureExample | src/XCopy/XCopyCommand.cpp:1438-1442 | a capture of 2 to 79 with 3 revolutions into a.scp prints as "2-79,3,a.scp" |
| WireStrings.SurveyExample | src/XCopy/XCopyCommand.cpp:1663-1702 | a survey of 0 to 83 prints as "0-83,-1,a.scp" for both sides of an image, and as "0-83,1" for one side of the disk |
| WireStrings.CaptureRoundTrip | src/XCopy/XCopyCommand.cpp:1438-1442 | range, revolutions and any path come back, and the range counts as given |
| WireStrings.SurveyRoundTrip | src/XCopy/XCopyCommand.cpp:1663-1702 | range, side and any path come back |
| WireStrings.Application.StartCapture | src/XCopy/XCopy.cpp:1034-1062 | takes a capture's fields from the string |
| WireStrings.Application.StartSurvey | src/XCopy/XCopy.cpp:744-773 | takes a survey's fields from the string |
| WireStrings.Application.OnWebCommand | src/XCopy/XCopy.cpp:610-616 | what the console printed is what the application gets |
| Debounce.ElapsedIsSafe | lib/Bounce2/Bounce2.cpp:92-92 | a wrapped difference of clock readings never exceeds the time that passed |
| Debounce.Bounce.constructor | lib/Bounce2/Bounce2.cpp:25-37 | the state starts from the first reading |
| Debounce.PassSound | lib/Bounce2/Bounce2.cpp:84-139 | every pass keeps the readings since the count began equal, and all changes ever at least an interval apart |
| Debounce.Bounce.Update | lib/Bounce2/Bounce2.cpp:84-139 | with the clock read where the code reads it: the state becomes what every reading of at least the interval was, as soon as that is so; the count begins again with every reading that differs and every change, and only then; the mark of a held button comes after the hold interval and goes with every change |
| Debounce.Settles | lib/Bounce2/Bounce2.cpp:84-102 | over any run of passes: a switch that reads the same for the interval has that as its state |
| Navigation.DeadlinePassed | src/FivePosNavigation/FivePosNavigation.cpp:161-162 | the signed comparison tells whether a near deadline has passed |
| Navigation.PressingAfter | src/FivePosNavigation/FivePosNavigation.cpp:57-102 | a button counts as pressed if and only if its debounced pin has changed and is low, after every pass as before it; and every edge comes from a change that has cleared the held mark |
| Navigation.StillLow | src/FivePosNavigation/FivePosNavigation.cpp:142-148 | a direction that goes on being held has been low all the time |
| Navigation.FivePosNavigation.SetRepeat | src/FivePosNavigation/FivePosNavigation.cpp:46-51 | sets delay and rate and stops the repeat in progress |
| Navigation.FivePosNavigation.Scan | src/FivePosNavigation/FivePosNavigation.cpp:55-131 | every button takes in its pin, the pressed ones are those whose debounced pin has changed and is low, each edge shows in the mask, and its duration is always zero |
| Navigation.FivePosNavigation.Observe | src/FivePosNavigation/FivePosNavigation.cpp:53-148 | what is pressed and what is held, before anything is reported: each button whose debounced pin has changed and is low, and the direction that was low all the time it was held |
| Navigation.FivePosNavigation.Update | src/FivePosNavigation/FivePosNavigation.cpp:53-166 | each of the five buttons is pressed if and only if its debounced pin has changed and is low; down repeats if and only if it is pressed, up if and only if it is and down is not; edges are reported once, with duration zero and never with a repeat; a repeat is for the direction held, whose pin has been low since the hold began, after the delay and then a rate apart, and does come when due |
| Navigation.FivePosNavigation.Rearm | src/FivePosNavigation/FivePosNavigation.cpp:142-148 | the delay starts when what is held changes, and only then; what is held has been low since |
| Navigation.FivePosNavigation.Repeat | src/FivePosNavigation/FivePosNavigation.cpp:156-165 | a repeat fires only when due, and does fire then |
| Dac.SilenceIsZero | src/Audio/output_dac.cpp:137-150 | silence is the level of a sample of zero |
| Dac.AudioOutputAnalog.TakeIn | src/Audio/output_dac.cpp:92-97 | a block received is owned |
| Dac.AudioOutputAnalog.Enqueue | src/Audio/output_dac.cpp:97-112 | fills the first free slot, or drops the oldest block |
| Dac.AudioOutputAnalog.GiveBack | src/Audio/output_dac.cpp:109-110 | the dropped block is released |
| Dac.AudioOutputAnalog.Isr | src/Audio/output_dac.cpp:117-153 | fills the half that is not sent with the oldest block's levels, or silence, and leaves the other as it is; releases the block and moves the second one up |
| Dac.AudioOutputAnalog.Run | src/Audio/output_dac.cpp:92-153 | any interleaving of the steps of `update` with the interrupt leaves slots, accounts and buffer as a queue of two would |
| Dac.RunKeeps | src/Audio/output_dac.cpp:92-153 | under every interleaving blocks leave in the order they came, and each is released once or still owned |
| Dac.Fate | src/Audio/output_dac.cpp:97-153 | the k-th block that leaves is the k-th that came; it was played into the idle half by an interrupt, or dropped as the oldest when a third one came |
| Dac.DroppedWhereFull | src/Audio/output_dac.cpp:97-112 | a block is dropped exactly where one comes for which both slots are taken |
| Dac.DropsExactly | src/Audio/output_dac.cpp:92-153 | nothing is dropped if and only if no stretch of a run brings over two blocks more than it has interrupts |
| Flux.CountIsRight | lib/scp/SCPFormat.h:226-229 | the announced number of samples is the number emitted |
| Flux.SamplesAre | lib/scp/SCPFormat.h:239-252 | all samples of an interval but the last are zero, for 65536 ticks each, and the last holds the rest, or one tick if there is none |
| Flux.EncodedReadsBack | lib/scp/SCPFormat.h:189-198 | a sample is stored with the high byte first, and reads back |
| Flux.EmitFlux | lib/scp/SCPFormat.h:239-252 | writes the samples of an interval and nothing else |
| Flux.RoundTrip | lib/scp/SCPFormat.h:213-264 | all intervals come back, multiples of 65536 ticks one longer |
| Flux.NoTimeLost | lib/scp/SCPFormat.h:213-222 | on any samples: the intervals and what is left over last as long as the samples, and there is an interval for every sample that is not zero |
| Flux.ReplayTrack | src/XCopy/XCopyDiskInfo.cpp:311-349 | the decoder is fed the intervals of the whole track, wherever one buffer ends |

## Left out

- Drawing, fonts, colours of the console, menus, audio samples, pins, SPI timing and the suspend and resume commands of the flash chip: hardware or display.
- The ESP link, WiFi, update scripts and the SD card: input and output over libraries that are not part of this model.
- ADFlib's files and bitmaps and what is built on them; for the walk a volume is the hash tables and the `nextSameHash` links that can be read.
- The 7-bit and 8-bit CRC engines with one table each: the same step as here, without slicing.
- The literal CRC tables: the tables are the recurrences they were generated from.
- The 64 constants of RFC 1321 as values of the sine: they are taken over as the source has them; the digest of the alphabet goes through all of them.
- `MD5::make_digest`, and the end of a C string in `make_hash(char *)`: `Md5.MakeHash` gets the bytes.
- Which source of candidates a completion context selects, the listing of candidates in columns, and the argument parser that follows the tokenizer: easy members over data tables.
- Which files of a directory a listing takes (the extension asked for, the system folder), and `moveToRoot`, which nothing calls.
- The path that `readscp` builds from a bare file name, and the range check before it: the round trips start from the fields as they are printed.
- The firmware's end of the live link, the SCP reader and writer and the floppy decoder: their sources are not part of this model.
- The first update of a `Bounce` that was never attached: `FivePosNavigation` attaches every button first. Changing the interval later, and `retrigger`: nothing calls them.
- Chip.Chip.Read: does not model the bytes seen while an operation is suspended.
- Store.Store.Readdir: speaks of complete directories only; unlike `open`, the listing does not stop at an unused slot, so nothing is claimed for it in the middle of a create.
- Store.Store.Create: a name that would be programmed past the end of the chip, where the address folds in a way that the part decides; the same holds for the ranges of Store.Store.ReadFile and Store.Store.WriteFile when their sum wraps.
- Store.Store.CreateErasable: for a store in order, and a name and sums that fit; the rest is as in Store.Store.Create.
- The store on a chip whose die index was left over from an erase that was cut short: the polls of a create or a removal would go on with that erase (`Chip.WriteResumes`), so the store is modelled with the index at zero.
- LiveLink.Link.ReadRecord: bounds the number of resyncs but gives it only on clean streams, because it depends on how the stream is cut; a read of the port brings any bytes, and tells whether the deadline has passed.
- Completion.Candidates.Offered: the 16-bit count of matches must not wrap.
- Directory.Directory.DrawDirectory: for lists of at most 65536 entries, which is what the 16-bit index can count; the same holds for Directory.Directory.RedrawSelection.
- Flux.ReplayTrack: the decoder takes a given number of intervals and then refuses; the scale is a byte, so its product does not wrap.
