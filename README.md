# dat3 in Dafny: the DAT1 and DAT2 archive codecs

dat3 reads and writes the archive formats of the Fallout games:

- **DAT2** (Fallout 2) is a flat, little-endian container. The file data comes
  first, then a file count, one record per file and an 8-byte footer
  (`tree_size`, `dat_size`).
- **DAT1** (Fallout 1) is big-endian and arranged by directory. A header comes
  first, then the directory names, one block of records per directory, and
  the file data. A record's offset counts from the start of the archive.
- File data in a DAT1 archive may be LZSS-compressed. The LZSS decoder uses a
  4096-byte circular dictionary that every compressed block resets to spaces.

This project models the core of dat3 and proves properties of the model:

- the LZSS decoder;
- opening, reading, adding, deleting and saving in both codecs;
- the shared helpers: the compression level, the file entry, format
  sniffing, the path and file-name utilities, and the pattern filter behind
  `list` and `extract`.

Where the source is pure, the model is a set of functions. Where the source
changes state in place, the model is imperative. `Lzss.Decompress` keeps the
dictionary in an `array`. `Dat1.Dat1Archive` and `Dat2.Dat2Archive` are
classes whose methods update the directories or file list in place. Every
method is proved to compute a specification function, and the format's
promises are proved about those functions as lemmas:

- saving and reopening gives back the same entries at their new offsets (for DAT1, `Dat1Props.SaveThenOpen` gives the reopened entries and `Dat1EditProps.RereadSame` says each is the saved one);
- reading a reopened entry gives back the bytes that were saved;
- `add_file` and `delete_file` change exactly the entries they should;
- the LZSS decoder inverts two encoders.

Modules and files:

| module | file | what it holds |
|---|---|---|
| `Wrappers` | `wrappers.dfy` | `Option` and `Result` |
| `Bytes` | `bytes.dfy` | `u8`/`u16`/`u32`/`u64`, truncating casts, big- and little-endian words, concatenation |
| `Common` | `common.dfy` | `common.rs`: the compression level, `FileEntry`, `read_file_data`, format sniffing, paths and file names |
| `Patterns` | `patterns.dfy` | `filter_and_track_patterns` |
| `NameOrder` | `name_order.dfy` | the case-insensitive, stable `sort_by` DAT2 keeps its file list in |
| `Lzss` | `lzss.dfy` | `lzss::decompress` |
| `LzssProps` | `lzss_props.dfy` | decoder properties and the encoders it inverts |
| `Dat2` | `dat2.dfy` | the DAT2 format and the `Dat2Archive` class |
| `Dat2Props` | `dat2_props.dfy` | DAT2 save → open → read round trips |
| `Dat2EditProps` | `dat2_edit_props.dfy` | DAT2 `add_file` and `delete_file` |
| `Dat1` | `dat1.dfy` | the DAT1 format and the `Dat1Archive` class |
| `Dat1Props` | `dat1_props.dfy` | DAT1 save → open round trip |
| `Dat1ReadProps` | `dat1_read_props.dfy` | DAT1 offsets and save → read round trip |
| `Dat1EditProps` | `dat1_edit_props.dfy` | DAT1 `add_file` and `delete_file` |

Where the code and its own documentation disagree, the model follows the
code. A DAT2 archive whose data section is shorter than 4 bytes is rejected
when it is reopened. This includes a newly created, empty archive:
`parse_directory_tree` refuses a file count that starts before byte 4, and
`save` puts the file count right after the data.
`Dat2Props.SmallDataDoesNotReopen` and `Dat2Props.EmptyArchive` state this
behaviour as written. The round-trip lemmas therefore require at least
4 bytes of data.

## Model

| member | source | states |
|---|---|---|
| `Lzss.Decompress` | src/lzss.rs:48-166 | The decoder, with the dictionary in an array, returns exactly `Decompressed`: the same output, or the same error. |
| `Lzss.Decompressed` | src/lzss.rs:49-63 | Empty input, and input too short for a block length, decode to empty output. |
| `Lzss.DecodeBlock` | src/lzss.rs:78-161 | One compressed block (reset the dictionary, then run the inner loop) succeeds exactly when `BlockLoop` does. It gives the same cursor and output, or the same error. |
| `Lzss.IterateInPlace` | src/lzss.rs:89-159 | One loop iteration on the array agrees with `Step`: the flag shift and refill, then one unit; go on, leave the block, or fail. |
| `Lzss.DecodeUnitInPlace` | src/lzss.rs:111-159 | The literal or back-reference branch on the array agrees with `DecodeUnit`. When the block is left, the dictionary is untouched. |
| `Lzss.CopyReference` | src/lzss.rs:153-159 | The copy loop of a back-reference leaves the array, write position and output that `CopyMatch` gives for `match_length + 1` bytes. |
| `Lzss.BlankDictionary` | src/lzss.rs:84-85 | The dictionary a compressed block starts from: 4096 spaces. |
| `Lzss.RefPosition` | src/lzss.rs:149 | A back-reference's read position always lies inside the 4096-byte dictionary. |
| `Lzss.RefLength` | src/lzss.rs:150 | A back-reference copies between `MIN_MATCH` (3) and `MAX_MATCH` (18) bytes. |
| `Lzss.CopyMatch` | src/lzss.rs:153-159 | The copy moves the write position on by the copied count, modulo 4096, and extends the output by exactly that count. |
| `Lzss.DecodeUnit` | src/lzss.rs:111-159 | A unit that goes on consumes input and block bytes and never passes the block's end by more than one. Leaving the block changes nothing. |
| `Lzss.Step` | src/lzss.rs:93-159 | An iteration that goes on consumes input and counts block bytes. One that leaves the block never moves the cursor back. |
| `Lzss.BlockLoop` | src/lzss.rs:89-160 | The inner loop ends in a valid state with the cursor never moved back. |
| `LzssProps.RoundTrip` | src/lzss.rs:48-166 | For any blocks stored verbatim or coded as literals, with any trailer after the terminating 0, decoding the encoded stream gives back the original bytes. |
| `LzssProps.StreamDecodes` | src/lzss.rs:60-163 | From any cursor where an encoded stream sits, the outer loop appends the stream's bytes to the output. |
| `LzssProps.NoCarryOver` | src/lzss.rs:55-163 | Output already produced never affects decoding: the blocks decode the same after any prefix, and the same errors arise. |
| `LzssProps.BlocksAppend` | src/lzss.rs:55-165 | The decoder only ever appends to its output. |
| `LzssProps.BlockLoopAppends` | src/lzss.rs:89-160 | The inner loop only ever appends to its output. |
| `LzssProps.StepEffect` | src/lzss.rs:93-109 | An iteration that goes on adds output and one that leaves adds none. The flag register is either shifted, or refilled from the next byte with the high byte 0xFF once bit 8 runs out. |
| `LzssProps.UnitCases` | src/lzss.rs:111-159 | A unit leaves the block exactly when a back-reference is due and fewer than two block bytes remain. It fails exactly when the input ends where a literal or a reference byte is due. Otherwise it adds output. |
| `LzssProps.LiteralUnit` | src/lzss.rs:111-124 | A literal appends the next byte to the output, writes it at the write position and moves that position on by one, modulo 4096. |
| `LzssProps.BackReferenceUnit` | src/lzss.rs:125-159 | A back-reference's first output byte is the dictionary byte at its read position. Every byte it outputs is also written back to the dictionary, at successive write positions. |
| `LzssProps.BackReferenceLength` | src/lzss.rs:141-159 | A back-reference consumes two bytes and outputs `(b2 & 0x0F) + 3` bytes, between 3 and 18. |
| `LzssProps.RefPositionParts` | src/lzss.rs:149 | The read position's low byte is `b1` and its high nibble is the top nibble of `b2`. |
| `LzssProps.CopyMatchWritesBack` | src/lzss.rs:153-159 | The k-th copied byte ends up both in the output and at the k-th write position after the start. |
| `LzssProps.CopyMatchUntouched` | src/lzss.rs:153-159 | Dictionary cells outside the written run keep their value. |
| `LzssProps.CopySpaces` | src/lzss.rs:84-85 | Copying from a fresh dictionary outputs spaces only. |
| `LzssProps.CopyRepeats` | src/lzss.rs:153-159 | A reference that reads the cell just behind the write position repeats one byte: an overlapping copy. |
| `LzssProps.RefilledShifts` | src/lzss.rs:93-104 | After a refill and `j` shifts, the register is the flag byte shifted `j` times plus the 0xFF00 marker shifted `j` times. The flag byte's part stays below the marker's. |
| `LzssProps.RefillPeriod` | src/lzss.rs:93-104 | Bit 8 stays set for exactly the next seven shifts after a refill, so a flag byte governs eight units. |
| `LzssProps.FreshDictionaryIsSpaces` | src/lzss.rs:84-85 | A reference into an untouched dictionary yields spaces: `00 03 00 EE F0` decodes to three 0x20. |
| `LzssProps.OverlappingReference` | src/lzss.rs:153-159 | A literal followed by a reference to it yields four copies of the literal. |
| `LzssProps.DictionaryResetsPerBlock` | src/lzss.rs:82-85 | A second compressed block sees a fresh dictionary, not the first block's bytes. |
| `LzssProps.ShortStoredRunFails` | src/lzss.rs:65-77 | A negative length followed by fewer bytes than it announces is an error, whatever the output so far. |
| `LzssProps.MinimumLengthFails` | src/lzss.rs:65-67 | The length -32768, whose negation does not fit an `i16`, is an error. |
| `LzssProps.ShortStoredRunExample` | src/lzss.rs:48-77 | `FF FE 41` announces two stored bytes but holds one, so decompression fails. |
| `Common.NewCompressionLevel` | src/common.rs:21-27 | A level is built exactly when it is at most 9 and keeps its value; otherwise the error names it. |
| `Common.WithData` | src/common.rs:78-88 | An entry holding the data, its `packed_size` the data's length, with offset and size 0. |
| `Common.WithCompressionData` | src/common.rs:99-112 | A compressed entry holding the compressed bytes, `size` the original length, `packed_size` the compressed length. |
| `Common.ReadFileData` | src/dat2.rs:339-352 | An entry's own bytes when it has them. Otherwise exactly `packed_size` bytes at its offset, failing with the entry's name when they run past the archive. |
| `Common.Contents` | src/dat2.rs:545-561 | Every entry's data in order, or the first read failure: element `i` is `read_file_data` of entry `i`. |
| `Common.ContentsAppend` | src/dat1.rs:500-509 | Reading two runs of entries one after the other gives the concatenation of their data, or the first failure. |
| `Common.ContentsLen` | src/dat2.rs:545-561 | The saved data section is as long as the entries' data lengths added up. |
| `Common.IsDat1Format` | src/common.rs:170-193 | True exactly when there are at least 16 bytes, a big-endian directory count between 1 and 999, and format id 0x0A or 0x5E. |
| `Common.Retained` | src/dat2.rs:460-462 | `retain` drops every entry whose name is in the set and keeps every other entry as often as it was there. |
| `Common.FindName` | src/dat2.rs:500-503 | `position`: the first index with the name, or none when no entry has it. |
| `Common.RemoveAt` | src/dat2.rs:509 | `remove`: the entries before the index are unchanged and those after it move down by one. |
| `Common.RemoveAtCounts` | src/dat2.rs:509 | Removing takes exactly one copy of the removed entry out of the multiset. |
| `Common.NormalizeUserPath` | src/common.rs:356-362 | Every backslash becomes `/`, every other character is kept, and no backslash remains. |
| `Common.NormalizePathForArchive` | src/common.rs:401-403 | Every `/` becomes a backslash, every other character is kept, and no `/` remains. |
| `Common.RFind` | src/common.rs:417-418 | `rfind`: the last index holding the character, or none when it is absent. |
| `Common.GetFilenameFromDatPath` | src/common.rs:415-433 | A separator-free suffix of the path: the whole path when it has no separator, else what follows the last `/` or backslash. |
| `Common.Contains` | src/dat2.rs:202 | `str::contains`, the matcher of `list` and `extract`: true exactly when the pattern occurs at some index. |
| `Common.Utf8` | src/dat2.rs:574 | A character's UTF-8 bytes: one byte, the character itself, exactly for ASCII. |
| `Common.PlainNameBytes` | src/dat2.rs:573-574 | An ASCII name's bytes are its characters, one byte each, so `name.len()` is its character count. |
| `Common.NameBytesAppend` | src/dat1.rs:451-455 | The bytes of a joined name are the bytes of its parts, joined. |
| `Common.DecodeNameBytes` | src/common.rs:442-464 | Decoding the bytes a NUL-free ASCII name is written as gives the name back. |
| `Common.DecodeIgnoresTail` | src/common.rs:444-448 | Everything after the first NUL is ignored. |
| `Common.ArchivePathRoundTrip` | src/common.rs:401-403 | A path in `/` form survives conversion to archive form and back. |
| `Common.UserPathRoundTrip` | src/common.rs:356-362 | A path in archive form survives conversion to `/` form and back. |
| `Common.NormalizeIdempotent` | src/common.rs:356-362 | Normalising a path twice is the same as normalising it once, in either direction. |
| `Common.UserPathNeverMatches` | src/common.rs:356-362 | A user path in normalised form never equals a name that holds a backslash. |
| `Patterns.FilterAndTrackPatterns` | src/common.rs:252-287 | As written: the items some pattern matches, in order, and the patterns not marked found. Only an item's first matching pattern is marked. With no patterns, every item is listed and nothing is missing. |
| `Patterns.FilterAndTrackAllPatterns` | src/common.rs:252-287 | The corrected filter: the same items, with every matching pattern marked found. |
| `Patterns.FirstMatch` | src/common.rs:265-271 | The pattern at which the inner loop breaks is the first one that matches; none matches when it does not break. |
| `Patterns.MatchingMembers` | src/common.rs:264-272 | An item is listed exactly when some pattern matches it. The list is never longer than the input. |
| `Patterns.MatchingIsSubsequence` | src/common.rs:264-272 | Listed items keep their input order: each follows those listed before it. |
| `Patterns.FirstMatchesFoundMeans` | src/common.rs:264-272 | As written, a pattern is marked found exactly when it is some item's first match. |
| `Patterns.AllMatchesFoundMeans` | src/common.rs:264-272 | Corrected, a pattern is marked found exactly when some item matches it. |
| `Patterns.UnfoundMembers` | src/common.rs:274-284 | The reported patterns are exactly those not marked found. |
| `Patterns.AllPatternsMissingIff` | src/common.rs:252-287 | Corrected, a pattern is reported missing exactly when no item matches it. |
| `Patterns.FirstPatternsMissingIff` | src/common.rs:252-287 | As written, a pattern is reported missing exactly when it is no item's first match. |
| `Patterns.MissingAfterEarlierMatch` | src/common.rs:264-272 | `list` of `ab` with patterns `a` and `b` lists `ab` but reports `b` missing. The corrected filter reports nothing missing. |
| `NameOrder.BelowIrreflexive` | src/dat2.rs:476 | The string order is strict. |
| `NameOrder.BelowTransitive` | src/dat2.rs:476 | The string order is transitive. |
| `NameOrder.BelowTotal` | src/dat2.rs:476 | Any two different strings are ordered one way or the other. |
| `NameOrder.InOrderTransitive` | src/dat2.rs:475-476 | Comparing lowercased names is a transitive preorder. |
| `NameOrder.InOrderTotal` | src/dat2.rs:475-476 | Comparing lowercased names is a total preorder. |
| `NameOrder.InsertPermutes` | src/dat2.rs:475-476 | Inserting adds exactly the inserted entry. |
| `NameOrder.SortByNamePermutes` | src/dat2.rs:475-476 | `sort_by` is a permutation of the file list. |
| `NameOrder.InsertSorted` | src/dat2.rs:475-476 | Inserting into a sorted list keeps it sorted. |
| `NameOrder.SortByNameSorted` | src/dat2.rs:475-476 | After `sort_by`, the names are in the order of their `to_lowercase` forms, for whatever case folding `to_lowercase` does. |
| `NameOrder.InsertLast` | src/dat2.rs:475-476 | An entry no smaller than every other entry goes last. |
| `NameOrder.SortSortedUnchanged` | src/dat2.rs:475-476 | Sorting an already sorted list leaves it as it is. |
| `NameOrder.OfKeyAppend` | src/dat2.rs:475-476 | The entries of one lowercased name in two lists joined are those of the first list, then those of the second. |
| `NameOrder.InsertOtherKey` | src/dat2.rs:475-476 | Inserting an entry leaves the entries of every other lowercased name in their order. |
| `NameOrder.InsertSameKey` | src/dat2.rs:475-476 | Inserted into a sorted list, an entry goes after every entry of the same lowercased name. |
| `NameOrder.SortByNameStable` | src/dat2.rs:475-476 | `sort_by` is stable: for every lowercased name, its entries (`A.txt` and `a.txt`, say) come out in the order they went in. |
| `NameOrder.FoldedNonAscii` | src/dat2.rs:475-476 | Case folding is `to_lowercase`'s, not only A–Z: where `É` folds to `é`, `Éz` sorts after `éa`. |
| `Dat2.Dat2Archive.constructor` | src/dat2.rs:111-116 | A new archive has no files and no bytes. |
| `Dat2.Dat2Archive.FromBytes` | src/dat2.rs:119-127 | Opening succeeds exactly when `Opened` does. The archive then holds the parsed entries and the bytes; otherwise the error is `Opened`'s. |
| `Dat2.Dat2Archive.ParseDirectoryTree` | src/dat2.rs:130-186 | The footer checks and the record loop give exactly `DirectoryTree`. |
| `Dat2.Dat2Archive.ParseRecords` | src/dat2.rs:162-183 | The record loop gives exactly `ParseEntries`: `file_count` records laid end to end, or a bad entry. |
| `Dat2.DirectoryTree` | src/dat2.rs:130-186 | A parsed archive has `dat_size` equal to its length and `tree_size` at least 4 and inside it. The entry count is the `u32` at `dat_size - tree_size - 8`. |
| `Dat2.Opened` | src/dat2.rs:119-127 | Fewer than 8 bytes are refused. An opened archive's entries carry no data of their own. |
| `Dat2.ParseEntries` | src/dat2.rs:162-183 | Exactly `file_count` entries, none holding data, or a bad-entry error. |
| `Dat2.ParseEntry` | src/dat2.rs:164-178 | A record parses exactly when it lies inside the tree. It gives the entry and the record's length. |
| `Dat2.RecordLen` | src/dat2.rs:164-166 | A record is at least 17 bytes (four `u32`s and the type byte) and lies inside the tree. |
| `Dat2.EncodeEntry` | src/dat2.rs:571-583 | A record is 17 bytes plus the name's bytes. |
| `Dat2.Dat2Archive.ReadData` | src/dat2.rs:339-352 | Reads as many bytes as the entry's data length. |
| `Dat2.PreparedEntry` | src/dat2.rs:386-403 | The entry keeps the zlib output exactly when the level is above 0 and the output is shorter than the file. Otherwise it keeps the file with `size == packed_size`. Either way `packed_size <= size`. |
| `Dat2.Prepare` | src/dat2.rs:442-456 | One prepared entry per request, in order. |
| `Dat2.Dat2Archive.AddFile` | src/dat2.rs:424-479 | The file list becomes `Merged`: old entries of the added names dropped, the first new entry of each name appended, the whole sorted by `to_lowercase` name (the parameter `lower`). The bytes are unchanged. |
| `Dat2.PushFirstOfEachName` | src/dat2.rs:465-472 | The `seen_names` loop appends the first new entry of each name. |
| `Dat2.Dat2Archive.DeleteFile` | src/dat2.rs:494-515 | As written: succeeds exactly when an entry is named like the user's path in `/` form. It removes the first such entry; otherwise nothing changes and the error names the input. |
| `Dat2.Dat2Archive.DeleteArchivePath` | src/dat2.rs:494-515 | Corrected: the same, with the path put in backslash form. |
| `Dat2.Dat2Archive.Save` | src/dat2.rs:535-603 | Writes exactly `Saved`: the data section, file count, records and footer, or the first read failure. |
| `Dat2.Dat2Archive.CollectContents` | src/dat2.rs:545-561 | The data loop gives every entry's data joined together and each entry's start offset, or the first read failure. |
| `Dat2.PushRecords` | src/dat2.rs:571-584 | The record loop appends every entry's record, in order. |
| `Dat2.LayoutFits` | src/dat2.rs:560-594 | When the archive fits in 32 bits, every `as u32` in `save` is exact. |
| `Dat2Props.SaveThenOpen` | src/dat2.rs:535-603 | A saved archive with at least 4 bytes of data reopens to the same entries, in order. Each sits at the offset `save` gave it and holds no data. |
| `Dat2Props.SaveThenRead` | src/dat2.rs:308-326 | Reading any reopened entry gives exactly the bytes read from the original entry and saved. |
| `Dat2Props.LayoutOpens` | src/dat2.rs:130-186 | The bytes `save` lays out parse back to the entries at their running offsets. |
| `Dat2Props.LayoutReads` | src/dat2.rs:339-352 | Each entry parsed from the laid-out bytes reads back as its data. |
| `Dat2Props.ReadsBack` | src/dat2.rs:339-352 | Entries at the running offsets of a data section read back as its parts. |
| `Dat2Props.SmallDoesNotOpen` | src/dat2.rs:146-149 | Any archive of `save`'s shape with fewer than 4 bytes before the file count is refused as an invalid tree position. |
| `Dat2Props.SmallDataDoesNotReopen` | src/dat2.rs:146-149 | A saved archive whose data section is shorter than 4 bytes does not reopen. |
| `Dat2Props.EmptyArchive` | src/dat2.rs:146-149 | A new, empty archive saves to `00000000 04000000 0C000000`, which `from_bytes` refuses. |
| `Dat2EditProps.FindNameInNames` | src/dat2.rs:500-503 | `position` finds the name exactly when some entry has it. |
| `Dat2EditProps.FirstOfEachNameCounts` | src/dat2.rs:465-472 | The loop keeps an entry once exactly when it is the first of its name not yet seen, and otherwise drops it. |
| `Dat2EditProps.MergedCounts` | src/dat2.rs:457-472 | After `add_file`, an entry of an added name is present once if it was the first of that name in the batch, else not at all. Every other entry is kept as often as it was there. |
| `Dat2EditProps.MergedSorted` | src/dat2.rs:475-476 | After `add_file`, the file list is sorted by `to_lowercase` name. |
| `Dat2EditProps.MergedStable` | src/dat2.rs:457-476 | After `add_file`, entries with equal lowercased names keep their order: the kept old ones first, then the batch's, each in their own order. |
| `Dat2EditProps.DeleteMissesBackslashNames` | src/dat2.rs:497-503 | `delete_file` never finds an entry whose name holds a backslash, whatever the user types. |
| `Dat2EditProps.DeleteMissesConcrete` | src/dat2.rs:497-503 | `art\a.frm` cannot be deleted, typed either way. |
| `Dat2EditProps.DeleteArchivePathFinds` | src/dat2.rs:497-503 | Corrected, a stored name is found from either spelling of its path. |
| `Dat1.Dat1Archive.constructor` | src/dat1.rs:83-91 | A new archive has only the root directory `.`, no files and no bytes. |
| `Dat1.Dat1Archive.FromBytes` | src/dat1.rs:106-211 | Opening succeeds exactly when `Opened` does. The archive then holds the parsed directories and the bytes; otherwise the error is `Opened`'s. |
| `Dat1.Dat1Archive.ReadDirectoryNames` | src/dat1.rs:126-139 | The name loop gives exactly `NamesFrom`: `dir_count` length-prefixed names and the cursor after them. |
| `Dat1.Dat1Archive.ReadDirectories` | src/dat1.rs:142-208 | The directory loop gives exactly `DirectoriesFrom`: each block's header, then its records. |
| `Dat1.Dat1Archive.ReadRecords` | src/dat1.rs:158-202 | The record loop gives exactly `RecordsFrom`. |
| `Dat1.Dat1Archive.ReadRecord` | src/dat1.rs:159-201 | One record gives exactly `RecordAt`: the entry and the cursor after it. |
| `Dat1.FullName` | src/dat1.rs:188-192 | The bare name in the root `.`, `dir\name` in any other directory. |
| `Dat1.EntryAt` | src/dat1.rs:169-201 | A parsed entry holds no data of its own. |
| `Dat1.Dat1Archive.ReadData` | src/dat1.rs:303-316 | Reads as many bytes as the entry's data length. |
| `Dat1.NewEntry` | src/dat1.rs:365-366 | The added entry holds the file uncompressed, with `size == packed_size ==` its length. |
| `Dat1.FindDirectory` | src/dat1.rs:375-376 | The first directory with the name, or none when none has it. |
| `Dat1.WithDirectory` | src/dat1.rs:375-384 | Keeps the directories when one has the name. Otherwise it appends an empty one; the index returned names it. |
| `Dat1.Cleared` | src/dat1.rs:387-390 | Every directory keeps its name and loses exactly its entries of the added name. |
| `Dat1.FirstDirWith` | src/dat1.rs:412-413 | The first directory holding the name, or none when none does. |
| `Dat1.Dat1Archive.AddFile` | src/dat1.rs:352-402 | The directories become `AddedAll`: each file handled in turn. The bytes are unchanged. |
| `Dat1.Dat1Archive.AddEntry` | src/dat1.rs:372-401 | The directories become `Added`: find or create the directory, drop the name everywhere, push the new entry. |
| `Dat1.Dat1Archive.DeleteFile` | src/dat1.rs:408-425 | As written: succeeds exactly when some directory holds the user's path in `/` form. It removes that name's first entry from the first such directory; otherwise nothing changes. |
| `Dat1.Dat1Archive.DeleteArchivePath` | src/dat1.rs:408-425 | Corrected: the same, with the path put in backslash form. |
| `Dat1.Dat1Archive.DeleteName` | src/dat1.rs:412-424 | The directory scan removes the first entry of the name from the first directory holding it, or fails and changes nothing. |
| `Dat1.Dat1Archive.Save` | src/dat1.rs:428-514 | Writes exactly `Saved`: header, names, blocks and data, or the first read failure. |
| `Dat1.Dat1Archive.PushData` | src/dat1.rs:500-509 | The data loop appends every entry's data, directory by directory, or stops at the first read failure. |
| `Dat1.Dat1Archive.PushFileData` | src/dat1.rs:501-508 | One directory's data appended, or the first read failure. |
| `Dat1.PushDirectoryNames` | src/dat1.rs:439-442 | The name loop writes each directory name after its length byte. |
| `Dat1.DataOffset` | src/dat1.rs:445-459 | The first pass adds 16 per block and `1 + name length + 16` per record to the position after the names. |
| `Dat1.PushBlocks` | src/dat1.rs:464-497 | The block loop writes each block header and its records, the offset running on across directories. |
| `Dat1.PushRecords` | src/dat1.rs:470-496 | The record loop writes each record and returns the offset moved on by every `packed_size`. |
| `Dat1.StoredName` | src/dat1.rs:471-476 | Outside the root, a name starting with `dir\` is written without it. Any other name is written whole. |
| `Dat1Props.DataStartIsDataPosition` | src/dat1.rs:445-461 | The first pass's `data_offset` is exactly where the data starts in the output: header, names and blocks add up to it. |
| `Dat1Props.RecordsLength` | src/dat1.rs:449-457 | A directory's records take as many bytes as the first pass counts for them. |
| `Dat1Props.BlocksLength` | src/dat1.rs:448-459 | All blocks take as many bytes as the first pass counts for them. |
| `Dat1Props.AttributesFlag` | src/dat1.rs:481-485 | The attributes written read back as compressed exactly when the entry is compressed. |
| `Dat1Props.StoredNamePlain` | src/dat1.rs:471-476 | Stripping the directory keeps an ASCII name ASCII. |
| `Dat1Props.RecordBack` | src/dat1.rs:478-493 | The record written for an entry parses back to it: name rebuilt, offset as written, packed size 0 read as the size, no data. |
| `Dat1Props.SaveThenOpen` | src/dat1.rs:428-497 | A saved archive reopens to the same directories, each entry named `dir\name` from its directory. Offsets run on from the data start by each `packed_size`. |
| `Dat1ReadProps.PackedTotalAppend` | src/dat1.rs:495 | The running offset over two runs of entries adds up. |
| `Dat1ReadProps.RereadAllAt` | src/dat1.rs:461-497 | The i-th reopened entry, counted across directories, is the i-th saved entry at the data start plus the packed sizes before it. |
| `Dat1ReadProps.SavedOffsets` | src/dat1.rs:461-497 | In a reopened archive, entry i's offset is where the first pass put the data plus the packed sizes of the entries before it. |
| `Dat1ReadProps.SavedData` | src/dat1.rs:500-509 | The saved archive is the tree followed by every entry's data, and the tree is as long as the first pass says. |
| `Dat1ReadProps.SaveThenRead` | src/dat1.rs:303-316 | For entries that pass `DataReopens`, reading any reopened entry gives exactly the bytes the original entry held and `save` wrote. |
| `Dat1ReadProps.StoredZeroMisreads` | src/dat1.rs:489-493 | An entry saved with a stored packed size of 0 (uncompressed, or compressed with packed size 0) whose data is not `size` bytes long is reopened with `size` as its packed size, and does not read back its saved bytes. |
| `Dat1ReadProps.NewSavesAndReopens` | src/dat1.rs:83-91 | A new archive saves and reopens to just the empty root directory. |
| `Dat1EditProps.AddedDirectories` | src/dat1.rs:375-384 | `add_file` appends a directory exactly when none has the target name and renames none. The directory it picks is the first of that name. |
| `Dat1EditProps.AddedOneEntry` | src/dat1.rs:387-401 | After `add_file`, exactly one entry in the whole archive has the added name: the new one, last in its directory. |
| `Dat1EditProps.AddedFound` | src/dat1.rs:372-401 | After `add_file`, the first directory holding the added name is the one it went into. |
| `Dat1EditProps.AddedKeepsOthers` | src/dat1.rs:387-390 | `add_file` keeps every entry of another name, in every directory, as often as it was there. |
| `Dat1EditProps.RetainedNames` | src/dat1.rs:387-390 | No retained entry has the dropped name. |
| `Dat1EditProps.DeletedOneEntry` | src/dat1.rs:412-418 | `delete_file` takes out exactly one entry of the name, from the first directory holding it, and leaves every other directory as it was. |
| `Dat1EditProps.RecordsInDirectory` | src/dat1.rs:188-192 | Every record of a directory is named from that directory. |
| `Dat1EditProps.DirectoriesInDirectory` | src/dat1.rs:142-208 | Every directory the parser reads names its entries from itself. |
| `Dat1EditProps.OpenedInDirectory` | src/dat1.rs:106-211 | In an opened archive, every entry outside the root is named `dir\name`. |
| `Dat1EditProps.RereadSame` | src/dat1.rs:470-493 | An entry named from its directory (`dir\name` outside the root) whose data reads back is reopened as itself, at its new offset and without bytes of its own. |
| `Dat1EditProps.DeleteMissesSubdirectories` | src/dat1.rs:410-413 | `delete_file` finds nothing in a directory other than `.`, whatever the user types. |
| `Dat1EditProps.DeleteOnlyInRoot` | src/dat1.rs:410-413 | In an opened archive, `delete_file` can only ever delete from the root. |
| `Dat1EditProps.DeleteMissesConcrete` | src/dat1.rs:410-413 | `art\a.frm` in directory `art` cannot be deleted, typed either way. |
| `Dat1EditProps.DeleteArchivePathFinds` | src/dat1.rs:410-413 | Corrected, a name is found from either spelling of its path, wherever it is found by its own name. |
| `Dat1EditProps.DeleteArchivePathConcrete` | src/dat1.rs:410-413 | Corrected, `art\a.frm` is found in `art`, typed either way. |

## Left out

- File-system and console I/O are not modelled: `fs::read` and `fs::write`, `collect_files`, `ensure_dir_exists`, `expand_response_files`, `to_system_path`, `extract` and the progress prints. An add request carries the file's bytes and its archive path as parameters; `save` returns the bytes it would write.
- Parallelism (rayon) is not modelled. `add_file` prepares the batch in input order, which is the order `collect` gives.
- zlib is a foreign library. Its output is a parameter of each DAT2 add request, and zlib decompression on extract is not modelled.
- `lzss::compress` is not modelled: it only returns an error and no caller uses it.
- The `DatArchive` facade and `main.rs` (command-line parsing and dispatch) are not part of this model. `DatArchive::is_dat1_format` is modelled.
- `list` and `extract` are modelled only through the pattern filter and its matcher. `normalize_user_patterns`, `normalize_path_for_display`, `calculate_archive_path` and `get_dirname_from_dat_path` are not part of this model. The archive path and target directory they compute are parameters.
- Error messages are reduced to error values. The source's panics are modelled as error values: `-i16::MIN` in `decompress`, the `tree_size + 8 > dat_size` underflow and the inverted slice when `tree_size < 4` in `parse_directory_tree`.
- A DAT1 parse failure of any kind, a short read anywhere, is the single error `Truncated`.
- `save`'s cursor is modelled as the sequence of writes it makes.
- `str::to_lowercase` follows the Unicode case tables, which are not modelled: it is the parameter `lower` of `NameOrder`, `Dat2.Merged` and `Dat2.Dat2Archive.AddFile`, and every property of the DAT2 file order holds for any such function.
- `Common.DecodeFilename`: exact only for ASCII. Bytes 0x80 and above are read one character per byte; the UTF-8, Windows-1252 and lossy decoders are not modelled. The round-trip lemmas require NUL-free ASCII names.
- `Dat2.Dat2Archive.Save`, `Dat1.Dat1Archive.Save`: the `as u32` and `as u8` casts on lengths and offsets, and the `+=` on offsets, are modelled without wrap-around. `SaveFits` requires the archive to fit in 32 bits. Under that requirement every cast is exact and no addition overflows. The round-trip lemmas also require names whose length fits the DAT1 length byte.
- `Common.WithData`, `Common.WithCompressionData`, `Dat1.Dat1Archive.AddFile`, `Dat2.Dat2Archive.AddFile`: require file data shorter than 2^32 bytes instead of modelling the truncation of `len() as u32`.
- `Dat1ReadProps.SaveThenRead`: requires every entry to pass `DataReopens`: its own bytes, if it holds them, are `packed_size` long; an uncompressed entry has `packed_size == size`; a compressed entry has a nonzero packed size. `save` writes 0 as the packed size of an uncompressed entry, and the parser reads a stored 0 as `size`. So an uncompressed entry whose packed size differs from its size, or a compressed entry of packed size 0, does not read back as written (see `Dat1ReadProps.StoredZeroMisreads`).
- `Dat2Props.SaveThenOpen`, `Dat2Props.SaveThenRead`: require at least 4 bytes of file data, because a shorter data section does not reopen (see `Dat2Props.SmallDataDoesNotReopen`).
- DAT1 `read_file_data` returns the stored bytes; the LZSS decoding of compressed DAT1 entries happens in `extract` and is not composed with it here.

## Findings

| source | as written | input that shows it | evidently intended | confidence | as-written member | corrected member |
|---|---|---|---|---|---|---|
| src/common.rs:264-272 | The `break` that keeps an item from being listed twice also stops marking later patterns as found. A pattern whose every match was already taken by an earlier pattern is reported missing. | `list` of an archive holding `ab` with patterns `a` and `b`: `ab` is listed and `b` is reported not found. | Every pattern that matches some item is marked found. | not executed | `Patterns.FilterAndTrackPatterns`, `Patterns.MissingAfterEarlierMatch` | `Patterns.FilterAndTrackAllPatterns`, `Patterns.AllPatternsMissingIff` |
| src/dat2.rs:497-503 | `delete_file` converts the user's path to forward slashes, while stored names use backslashes. No entry in a subdirectory can ever be deleted. | Archive with `art\a.frm`; `delete_file("art\\a.frm")` and `delete_file("art/a.frm")` both fail with file not found. | Convert the path to archive form (backslashes), as the comment at dat2.rs:495-496 says. | not executed | `Dat2.Dat2Archive.DeleteFile`, `Dat2EditProps.DeleteMissesConcrete` | `Dat2.Dat2Archive.DeleteArchivePath`, `Dat2EditProps.DeleteArchivePathFinds` |
| src/dat1.rs:410-413 | The same conversion in DAT1's `delete_file`. Every entry the parser reads outside the root is named `dir\name`, so only root entries can ever be deleted. | Archive with directory `art` holding `art\a.frm`; deleting `art\a.frm` or `art/a.frm` fails. | Convert the path to backslashes, as the comment at dat1.rs:409 says. | not executed | `Dat1.Dat1Archive.DeleteFile`, `Dat1EditProps.DeleteMissesConcrete` | `Dat1.Dat1Archive.DeleteArchivePath`, `Dat1EditProps.DeleteArchivePathConcrete` |
