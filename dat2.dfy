/**
  The DAT2 (Fallout 2) archive: a flat, little-endian container.

      file data | file count | one record per file | tree_size | dat_size

  A record is `filename_size: u32`, the name bytes, `compression_type: u8`
  (1 for zlib), `real_size`, `packed_size` and `offset` (all `u32`). The
  footer's `tree_size` spans the file count and the records, and `dat_size` is
  the length of the whole archive, so the file count sits at
  `dat_size - tree_size - 8`.

  The functions state the format and each operation's result; the class
  `Dat2Archive` holds the file list and the archive bytes and changes them in
  place as the source does, each method proved to compute its function.
*/
module Dat2 {
  import opened Wrappers
  import opened Bytes
  import opened Common
  import opened NameOrder

  /** The footer: `tree_size` and `dat_size`. */
  const FooterSize: nat := 8
  /** A record without its name: the name length, the compression type and three sizes. */
  const RecordFixedSize: nat := 17

  datatype Dat2Error =
    | TooSmall                 // fewer than 8 bytes
    | SizeMismatch(expected: u32, actual: nat)
    | TreeLargerThanArchive    // tree_size + 8 > dat_size: the subtraction underflows (a panic in the source)
    | InvalidTreePosition      // the file count would start before byte 4
    | TreeTooShort             // tree_size < 4: the tree slice is inverted (a panic in the source)
    | BadEntry                 // a record runs past the end of the tree
    | ReadFailed(cause: ReadError)
    | FileNotFound(name: string)

  // ---------------------------------------------------------------------------
  // Parsing
  // ---------------------------------------------------------------------------

  /**
    The length of the `Dat2FileEntry` record at `at` in `tree`: the fixed
    fields plus the name length it declares, or None when the record does not
    fit in what is left of the tree.
  */
  function RecordLen(tree: seq<u8>, at: nat): (r: Option<nat>)
    ensures r.Some? ==> RecordFixedSize <= r.value && at + r.value <= |tree|
  {
    if at + 4 > |tree| then None
    else
      var n := RecordFixedSize + ReadU32LE(tree, at);
      if at + n > |tree| then None else Some(n)
  }

  /** The entry a record describes: name, then compression type, real size, packed size, offset. */
  function EntryAt(tree: seq<u8>, at: nat): (e: FileEntry)
    requires RecordLen(tree, at).Some?
    ensures e.data.None?
  {
    var nameLen := ReadU32LE(tree, at);
    FileEntry(
      DecodeFilename(tree[at + 4..at + 4 + nameLen]),
      ReadU32LE(tree, at + 13 + nameLen),
      ReadU32LE(tree, at + 5 + nameLen),
      ReadU32LE(tree, at + 9 + nameLen),
      tree[at + 4 + nameLen] == 1,
      None)
  }

  /** `Dat2FileEntry::from_bytes` on the tree from `at` on, and the bytes the record takes. */
  function ParseEntry(tree: seq<u8>, at: nat): (r: Option<(FileEntry, nat)>)
    ensures r.Some? <==> RecordLen(tree, at).Some?
    ensures r.Some? ==> r.value == (EntryAt(tree, at), RecordLen(tree, at).value)
  {
    match RecordLen(tree, at)
    case None => None
    case Some(n) => Some((EntryAt(tree, at), n))
  }

  /** Where each of `count` records, one after another from `at`, starts. */
  function Starts(tree: seq<u8>, at: nat, count: nat): (r: Option<seq<nat>>)
    ensures r.Some? ==> |r.value| == count
    ensures r.Some? ==> forall j :: 0 <= j < count ==> RecordLen(tree, r.value[j]).Some?
    decreases count
  {
    if count == 0 then Some([])
    else match RecordLen(tree, at)
      case None => None
      case Some(n) =>
        var rest := Starts(tree, at + n, count - 1);
        if rest.None? then None else Some([at] + rest.value)
  }

  /** `xs` in front of a successful walk; a failure passes through. */
  function PrependStarts(xs: seq<nat>, r: Option<seq<nat>>): Option<seq<nat>> {
    if r.Some? then Some(xs + r.value) else None
  }

  /** The record loop of `parse_directory_tree`: `count` records from the start of `tree`. */
  function ParseEntries(tree: seq<u8>, count: nat): (r: Result<seq<FileEntry>, Dat2Error>)
    ensures r.Ok? ==> |r.value| == count && forall i :: 0 <= i < count ==> r.value[i].data.None?
    ensures r.Err? ==> r.error == BadEntry
  {
    match Starts(tree, 0, count)
    case None => Err(BadEntry)
    case Some(starts) => Ok(seq(count, j requires 0 <= j < count => EntryAt(tree, starts[j])))
  }

  /** `parse_directory_tree`, for an archive of at least the footer's 8 bytes. */
  function DirectoryTree(data: seq<u8>): (r: Result<seq<FileEntry>, Dat2Error>)
    requires |data| >= FooterSize
    ensures r.Ok? ==> ReadU32LE(data, |data| - 4) == |data|
    ensures r.Ok? ==> 4 <= ReadU32LE(data, |data| - 8) && ReadU32LE(data, |data| - 8) + 8 + 4 <= |data|
    ensures r.Ok? ==> |r.value| == ReadU32LE(data, |data| - ReadU32LE(data, |data| - 8) - 8)
  {
    var treeSize := ReadU32LE(data, |data| - 8);
    var datSize := ReadU32LE(data, |data| - 4);
    if datSize != |data| then Err(SizeMismatch(datSize, |data|))
    else if treeSize + FooterSize > datSize then Err(TreeLargerThanArchive)
    else
      var treeStart := datSize - treeSize - FooterSize;
      if treeStart < 4 then Err(InvalidTreePosition)
      else
        var fileCount := ReadU32LE(data, treeStart);
        if treeSize < 4 then Err(TreeTooShort)
        else ParseEntries(data[treeStart + 4..|data| - FooterSize], fileCount)
  }

  /** `from_bytes`: the entries of an archive. */
  function Opened(data: seq<u8>): (r: Result<seq<FileEntry>, Dat2Error>)
    ensures |data| < FooterSize ==> r == Err(TooSmall)
    ensures r.Ok? ==> |data| >= FooterSize && ReadU32LE(data, |data| - 4) == |data|
    ensures r.Ok? ==> forall i :: 0 <= i < |r.value| ==> r.value[i].data.None?
  {
    if |data| < FooterSize then Err(TooSmall) else DirectoryTree(data)
  }

  // ---------------------------------------------------------------------------
  // Saving
  // ---------------------------------------------------------------------------

  /** `compression_type`: 1 for zlib, 0 for stored. */
  function CompressionType(e: FileEntry): u8 {
    if e.compressed then 1 else 0
  }

  /** The record `save` writes for `e`, whose data starts at `offset`. */
  function EncodeEntry(e: FileEntry, offset: u32): (r: seq<u8>)
    requires |NameBytes(e.name)| < 0x1_0000_0000
    ensures |r| == RecordFixedSize + |NameBytes(e.name)|
  {
    U32LE(|NameBytes(e.name)|) + NameBytes(e.name) + [CompressionType(e)]
      + U32LE(e.size) + U32LE(e.packedSize) + U32LE(offset)
  }

  /** Every name and every offset fits the record's `u32` fields. */
  predicate Encodable(files: seq<FileEntry>, offsets: seq<nat>) {
    && |offsets| == |files|
    && forall i :: 0 <= i < |files| ==> |NameBytes(files[i].name)| < 0x1_0000_0000 && offsets[i] < 0x1_0000_0000
  }

  function EncodedEntries(files: seq<FileEntry>, offsets: seq<nat>): (r: seq<seq<u8>>)
    requires Encodable(files, offsets)
    ensures |r| == |files|
  {
    seq(|files|, i requires 0 <= i < |files| => EncodeEntry(files[i], offsets[i]))
  }

  function RecordsLen(files: seq<FileEntry>): nat
    decreases |files|
  {
    if files == [] then 0 else RecordFixedSize + |NameBytes(files[0].name)| + RecordsLen(files[1..])
  }

  /**
    The whole archive fits the `u32` offsets and sizes `save` writes (the
    source truncates with `as u32` beyond this).
  */
  predicate SaveFits(files: seq<FileEntry>) {
    SumDataLen(files) + 4 + RecordsLen(files) + FooterSize < 0x1_0000_0000
  }

  /** The data section, the tree and the footer for the given file contents. */
  function Layout(files: seq<FileEntry>, contents: seq<seq<u8>>): seq<u8>
    requires |contents| == |files| < 0x1_0000_0000
    requires Encodable(files, Offsets(contents))
    requires |Concat(contents)| + 4 + |Concat(EncodedEntries(files, Offsets(contents)))| + FooterSize < 0x1_0000_0000
  {
    var body := Concat(contents);
    var tree := U32LE(|files|) + Concat(EncodedEntries(files, Offsets(contents)));
    body + tree + U32LE(|tree|) + U32LE(|body| + |tree| + FooterSize)
  }

  /** `save`: the bytes written, or the first read failure. */
  function Saved(archive: seq<u8>, files: seq<FileEntry>): Result<seq<u8>, Dat2Error>
    requires SaveFits(files)
  {
    match Contents(archive, files)
    case Err(e) => Err(ReadFailed(e))
    case Ok(contents) =>
      LayoutFits(archive, files, contents);
      Ok(Layout(files, contents))
  }

  lemma {:induction false} NameWithinRecords(files: seq<FileEntry>, i: nat)
    requires i < |files|
    ensures RecordFixedSize + |NameBytes(files[i].name)| <= RecordsLen(files)
    ensures |files| * RecordFixedSize <= RecordsLen(files)
    decreases |files|
  {
    if i > 0 {
      NameWithinRecords(files[1..], i - 1);
    } else if |files| > 1 {
      NameWithinRecords(files[1..], 0);
    }
  }

  lemma {:induction false} RecordsConcatLen(files: seq<FileEntry>, offsets: seq<nat>)
    requires Encodable(files, offsets)
    ensures |Concat(EncodedEntries(files, offsets))| == RecordsLen(files)
    decreases |files|
  {
    if files != [] {
      RecordsConcatLen(files[1..], offsets[1..]);
      assert EncodedEntries(files, offsets)[1..] == EncodedEntries(files[1..], offsets[1..]);
    }
  }

  /** What `SaveFits` buys: every field `save` writes fits its `u32`. */
  lemma LayoutFits(archive: seq<u8>, files: seq<FileEntry>, contents: seq<seq<u8>>)
    requires SaveFits(files) && Contents(archive, files) == Ok(contents)
    ensures |contents| == |files| < 0x1_0000_0000
    ensures Encodable(files, Offsets(contents))
    ensures |Concat(contents)| + 4 + |Concat(EncodedEntries(files, Offsets(contents)))| + FooterSize < 0x1_0000_0000
  {
    ContentsLen(archive, files, contents);
    if files != [] {
      NameWithinRecords(files, 0);
    }
    forall i | 0 <= i < |files|
      ensures |NameBytes(files[i].name)| < 0x1_0000_0000 && Offsets(contents)[i] < 0x1_0000_0000
    {
      NameWithinRecords(files, i);
      OffsetsWithin(contents, i);
    }
    RecordsConcatLen(files, Offsets(contents));
  }

  // ---------------------------------------------------------------------------
  // Adding, deleting, compressing
  // ---------------------------------------------------------------------------

  /**
    One file to add: its path inside the archive (what `calculate_archive_path`
    computes), its bytes, and what zlib makes of them at the chosen level.
  */
  datatype AddRequest = AddRequest(archivePath: string, contents: seq<u8>, deflated: seq<u8>)

  predicate RequestFits(req: AddRequest) {
    |req.contents| < 0x1_0000_0000
  }

  /**
    The compression decision of `process_single_file_for_adding`: the zlib
    output is kept only when compression is on and it is strictly shorter.
  */
  function PreparedEntry(req: AddRequest, level: CompressionLevel): (e: FileEntry)
    requires RequestFits(req)
    ensures e.name == req.archivePath && e.offset == 0 && e.size == |req.contents|
    ensures e.compressed <==> level.Level() > 0 && |req.deflated| < |req.contents|
    ensures e.data == Some(if e.compressed then req.deflated else req.contents)
    ensures e.packedSize <= e.size && WellFormedEntry(e)
  {
    if level.Level() > 0 && |req.deflated| < |req.contents| then
      WithCompressionData(req.archivePath, req.contents, req.deflated)
    else
      var entry := WithData(req.archivePath, req.contents, false);
      entry.(size := entry.packedSize)
  }

  /** The loop over the batch: an entry is pushed when its name is not yet in `seen`. */
  function FirstOfEachName(entries: seq<FileEntry>, seen: set<string>): seq<FileEntry>
    decreases |entries|
  {
    if entries == [] then []
    else if entries[0].name in seen then FirstOfEachName(entries[1..], seen)
    else [entries[0]] + FirstOfEachName(entries[1..], seen + {entries[0].name})
  }

  /**
    The file list after `add_file` pushes `added` onto `files`, `lower` being
    `str::to_lowercase`.
  */
  function Merged(lower: string -> string, files: seq<FileEntry>, added: seq<FileEntry>): seq<FileEntry> {
    SortByName(lower, Retained(files, Names(added)) + FirstOfEachName(added, {}))
  }

  // ---------------------------------------------------------------------------
  // The archive
  // ---------------------------------------------------------------------------

  class Dat2Archive {
    /** All entries, in archive order. */
    var files: seq<FileEntry>
    /** The bytes the archive was opened from (empty for a new one). */
    var data: seq<u8>

    /** `Dat2Archive::new` */
    constructor ()
      ensures files == [] && data == []
    {
      files := [];
      data := [];
    }

    /** `Dat2Archive::from_bytes` */
    static method FromBytes(bytes: seq<u8>) returns (r: Result<Dat2Archive, Dat2Error>)
      ensures r.Ok? <==> Opened(bytes).Ok?
      ensures r.Ok? ==> fresh(r.value) && r.value.files == Opened(bytes).value && r.value.data == bytes
      ensures r.Err? ==> r.error == Opened(bytes).error
    {
      if |bytes| < FooterSize {
        return Err(TooSmall);
      }
      var parsed := ParseDirectoryTree(bytes);
      if parsed.Err? {
        return Err(parsed.error);
      }
      var archive := new Dat2Archive();
      archive.files := parsed.value;
      archive.data := bytes;
      return Ok(archive);
    }

    /** `Dat2Archive::parse_directory_tree`: the footer checks, then the record loop. */
    static method ParseDirectoryTree(bytes: seq<u8>) returns (r: Result<seq<FileEntry>, Dat2Error>)
      requires |bytes| >= FooterSize
      ensures r == DirectoryTree(bytes)
    {
      var treeSize := ReadU32LE(bytes, |bytes| - 8);
      var datSize := ReadU32LE(bytes, |bytes| - 4);
      if datSize != |bytes| {
        return Err(SizeMismatch(datSize, |bytes|));
      }
      if treeSize + FooterSize > datSize {
        return Err(TreeLargerThanArchive);
      }
      var treeStart := datSize - treeSize - FooterSize;
      if treeStart < 4 {
        return Err(InvalidTreePosition);
      }
      var fileCount := ReadU32LE(bytes, treeStart);
      if treeSize < 4 {
        return Err(TreeTooShort);
      }
      r := ParseRecords(bytes[treeStart + 4..|bytes| - FooterSize], fileCount);
    }

    /** The record loop of `parse_directory_tree`: `fileCount` records from the start of `treeData`. */
    static method ParseRecords(treeData: seq<u8>, fileCount: nat) returns (r: Result<seq<FileEntry>, Dat2Error>)
      ensures r == ParseEntries(treeData, fileCount)
    {
      var parsed: seq<FileEntry> := [];
      var currentOffset: nat := 0;
      ghost var starts: seq<nat> := [];
      StartsFrom(Starts(treeData, 0, fileCount));
      for i := 0 to fileCount
        invariant |starts| == |parsed| == i
        invariant Starts(treeData, 0, fileCount) == PrependStarts(starts, Starts(treeData, currentOffset, fileCount - i))
        invariant forall j :: 0 <= j < i ==>
                    RecordLen(treeData, starts[j]).Some? && parsed[j] == EntryAt(treeData, starts[j])
      {
        var entry := ParseEntry(treeData, currentOffset);
        if entry.None? {
          return Err(BadEntry);
        }
        StartsStep(treeData, currentOffset, fileCount - i, starts);
        starts := starts + [currentOffset];
        parsed := parsed + [entry.value.0];
        currentOffset := currentOffset + entry.value.1;
      }
      ParsedAll(treeData, fileCount, starts, parsed);
      return Ok(parsed);
    }

    /** `read_file_data` against this archive's bytes. */
    function ReadData(e: FileEntry): (r: Result<seq<u8>, ReadError>)
      reads this
      ensures r.Ok? ==> |r.value| == DataLen(e)
    {
      ReadFileData(data, e)
    }

    /**
      The list update of `add_file` for a batch already read from disk:
      entries whose names the batch brings are removed, the first entry of
      each name in the batch is pushed, and the list is sorted by lower-cased
      name, `lower` being `str::to_lowercase`.
    */
    method AddFile(requests: seq<AddRequest>, level: CompressionLevel, lower: string -> string)
      requires forall i :: 0 <= i < |requests| ==> RequestFits(requests[i])
      modifies this
      ensures files == Merged(lower, old(files), Prepare(requests, level))
      ensures data == old(data)
    {
      var newEntries := Prepare(requests, level);
      var newFileNames := Names(newEntries);
      files := Retained(files, newFileNames);
      files := PushFirstOfEachName(files, newEntries);
      files := SortByName(lower, files);
    }

    /**
      `delete_file`: the first entry named like the user's path, after
      `normalize_user_path`, is removed.
    */
    method DeleteFile(fileName: string) returns (r: Result<(), Dat2Error>)
      modifies this
      ensures var position := FindName(old(files), NormalizeUserPath(fileName));
              && (r.Ok? <==> position.Some?)
              && (r.Ok? ==> files == RemoveAt(old(files), position.value))
              && (r.Err? ==> files == old(files) && r.error == FileNotFound(fileName))
      ensures data == old(data)
    {
      var normalizedName := NormalizeUserPath(fileName);
      var position := FindName(files, normalizedName);
      if position.Some? {
        files := RemoveAt(files, position.value);
        return Ok(());
      }
      return Err(FileNotFound(fileName));
    }

    /**
      `delete_file` with the user's path put in archive form
      (`normalize_path_for_archive`), the conversion its comment describes.
    */
    method DeleteArchivePath(fileName: string) returns (r: Result<(), Dat2Error>)
      modifies this
      ensures var position := FindName(old(files), NormalizePathForArchive(fileName));
              && (r.Ok? <==> position.Some?)
              && (r.Ok? ==> files == RemoveAt(old(files), position.value))
              && (r.Err? ==> files == old(files) && r.error == FileNotFound(fileName))
      ensures data == old(data)
    {
      var normalizedName := NormalizePathForArchive(fileName);
      var position := FindName(files, normalizedName);
      if position.Some? {
        files := RemoveAt(files, position.value);
        return Ok(());
      }
      return Err(FileNotFound(fileName));
    }

    /**
      `save` up to the write to disk: the data of every entry with its
      running offset, then the count and the records, then the footer.
    */
    method Save() returns (r: Result<seq<u8>, Dat2Error>)
      requires SaveFits(files)
      ensures r == Saved(data, files)
    {
      var collected, contents := CollectContents();
      if collected.Err? {
        return Err(collected.error);
      }
      SavedOk(data, files, contents);
      LayoutPieces(files, contents);
      var output := collected.value.0;
      var fileOffsets := collected.value.1;
      var treeStart := |output|;
      output := output + U32LE(|files|);
      output := PushRecords(output, files, fileOffsets);
      ghost var records := Concat(EncodedEntries(files, fileOffsets));
      assert output == Concat(contents) + U32LE(|files|) + records;
      var treeSize := |output| - treeStart;
      assert treeSize == 4 + |records| && |output| == |Concat(contents)| + 4 + |records|;
      output := output + U32LE(treeSize) + U32LE(|output| + FooterSize);
      return Ok(output);
    }

    /**
      The first loop of `save`: each entry's data (its own bytes, or the bytes
      read from the archive) appended to the output, and where it starts.
    */
    method CollectContents() returns (r: Result<(seq<u8>, seq<nat>), Dat2Error>, ghost contents: seq<seq<u8>>)
      ensures r.Err? ==> Contents(data, files).Err? && r.error == ReadFailed(Contents(data, files).error)
      ensures r.Ok? ==> Contents(data, files) == Ok(contents)
      ensures r.Ok? ==> r.value.0 == Concat(contents) && r.value.1 == Offsets(contents)
    {
      var output: seq<u8> := [];
      var currentOffset: nat := 0;
      var fileOffsets: seq<nat> := [];
      contents := [];
      assert files[..0] == [];
      for i := 0 to |files|
        invariant Contents(data, files[..i]) == Ok(contents)
        invariant output == Concat(contents) && currentOffset == |output|
        invariant fileOffsets == Offsets(contents)
      {
        OffsetsSnoc(contents, currentOffset);
        fileOffsets := fileOffsets + [currentOffset];
        var fileData;
        if files[i].data.Some? {
          fileData := files[i].data.value;
        } else {
          var read := ReadData(files[i]);
          if read.Err? {
            ContentsFail(data, files, i, contents);
            return Err(ReadFailed(read.error)), contents;
          }
          fileData := read.value;
        }
        ContentsSnoc(data, files, i, contents, fileData);
        ConcatSnoc(contents, fileData);
        output := output + fileData;
        currentOffset := currentOffset + |fileData|;
        contents := contents + [fileData];
      }
      assert files[..|files|] == files;
      return Ok((output, fileOffsets)), contents;
    }
  }

  /** The second loop of `save`: each entry's record appended to `output`. */
  method PushRecords(output: seq<u8>, files: seq<FileEntry>, offsets: seq<nat>) returns (r: seq<u8>)
    requires Encodable(files, offsets)
    ensures r == output + Concat(EncodedEntries(files, offsets))
  {
    r := output;
    assert EncodedEntries(files[..0], offsets[..0]) == [];
    for i := 0 to |files|
      invariant r == output + Concat(EncodedEntries(files[..i], offsets[..i]))
    {
      EncodedSnoc(files, offsets, i);
      ConcatSnoc(EncodedEntries(files[..i], offsets[..i]), EncodeEntry(files[i], offsets[i]));
      r := r + EncodeEntry(files[i], offsets[i]);
    }
    assert files[..|files|] == files && offsets[..|files|] == offsets;
  }

  /** The loop of `add_file` over the batch: an entry is pushed unless its name was already seen. */
  method PushFirstOfEachName(files: seq<FileEntry>, newEntries: seq<FileEntry>) returns (r: seq<FileEntry>)
    ensures r == files + FirstOfEachName(newEntries, {})
  {
    r := files;
    var seenNames: set<string> := {};
    assert newEntries[0..] == newEntries;
    for i := 0 to |newEntries|
      invariant files + FirstOfEachName(newEntries, {}) == r + FirstOfEachName(newEntries[i..], seenNames)
    {
      var entry := newEntries[i];
      FirstOfEachNameStep(newEntries, i, seenNames);
      if entry.name !in seenNames {
        AppendAssoc(r, entry, FirstOfEachName(newEntries[i + 1..], seenNames + {entry.name}));
        seenNames := seenNames + {entry.name};
        r := r + [entry];
      }
    }
    assert newEntries[|newEntries|..] == [];
    assert r + [] == r;
  }

  /** `process_single_file_for_adding` over the batch (`par_iter().map().collect()`). */
  function Prepare(requests: seq<AddRequest>, level: CompressionLevel): (r: seq<FileEntry>)
    requires forall i :: 0 <= i < |requests| ==> RequestFits(requests[i])
    ensures |r| == |requests|
    ensures forall i :: 0 <= i < |r| ==> r[i] == PreparedEntry(requests[i], level)
  {
    seq(|requests|, i requires 0 <= i < |requests| => PreparedEntry(requests[i], level))
  }

  lemma FirstOfEachNameStep(entries: seq<FileEntry>, i: nat, seen: set<string>)
    requires i < |entries|
    ensures FirstOfEachName(entries[i..], seen)
         == if entries[i].name in seen then FirstOfEachName(entries[i + 1..], seen)
            else [entries[i]] + FirstOfEachName(entries[i + 1..], seen + {entries[i].name})
  {
    assert entries[i..][1..] == entries[i + 1..];
  }

  lemma AppendAssoc(xs: seq<FileEntry>, x: FileEntry, ys: seq<FileEntry>)
    ensures xs + ([x] + ys) == (xs + [x]) + ys
  {
  }

  lemma EncodedSnoc(files: seq<FileEntry>, offsets: seq<nat>, i: nat)
    requires Encodable(files, offsets) && i < |files|
    ensures Encodable(files[..i], offsets[..i]) && Encodable(files[..i + 1], offsets[..i + 1])
    ensures EncodedEntries(files[..i + 1], offsets[..i + 1])
         == EncodedEntries(files[..i], offsets[..i]) + [EncodeEntry(files[i], offsets[i])]
  {
  }

  lemma StartsFrom(r: Option<seq<nat>>)
    ensures PrependStarts([], r) == r
  {
    if r.Some? {
      assert [] + r.value == r.value;
    }
  }

  /** A record that fits at `at` moves `at` from the remaining walk to the walked prefix. */
  lemma StartsStep(tree: seq<u8>, at: nat, k: nat, walked: seq<nat>)
    requires k > 0 && RecordLen(tree, at).Some?
    ensures PrependStarts(walked, Starts(tree, at, k))
         == PrependStarts(walked + [at], Starts(tree, at + RecordLen(tree, at).value, k - 1))
  {
    var rest := Starts(tree, at + RecordLen(tree, at).value, k - 1);
    if rest.Some? {
      assert walked + ([at] + rest.value) == walked + [at] + rest.value;
    }
  }

  lemma ParsedAll(tree: seq<u8>, count: nat, starts: seq<nat>, parsed: seq<FileEntry>)
    requires |starts| == |parsed| == count
    requires Starts(tree, 0, count) == Some(starts + [])
    requires forall j :: 0 <= j < count ==> RecordLen(tree, starts[j]).Some? && parsed[j] == EntryAt(tree, starts[j])
    ensures ParseEntries(tree, count) == Ok(parsed)
  {
    assert starts + [] == starts;
    var entries := seq(count, j requires 0 <= j < count => EntryAt(tree, starts[j]));
    assert entries == parsed;
  }

  /** `Saved` once every read succeeds. */
  lemma SavedOk(archive: seq<u8>, files: seq<FileEntry>, contents: seq<seq<u8>>)
    requires SaveFits(files) && Contents(archive, files) == Ok(contents)
    ensures |contents| == |files| < 0x1_0000_0000 && Encodable(files, Offsets(contents))
    ensures |Concat(contents)| + 4 + |Concat(EncodedEntries(files, Offsets(contents)))| + FooterSize < 0x1_0000_0000
    ensures Saved(archive, files) == Ok(Layout(files, contents))
  {
    LayoutFits(archive, files, contents);
  }

  /** The layout in the order `save` appends its pieces. */
  lemma LayoutPieces(files: seq<FileEntry>, contents: seq<seq<u8>>)
    requires |contents| == |files| < 0x1_0000_0000
    requires Encodable(files, Offsets(contents))
    requires |Concat(contents)| + 4 + |Concat(EncodedEntries(files, Offsets(contents)))| + FooterSize < 0x1_0000_0000
    ensures var records := Concat(EncodedEntries(files, Offsets(contents)));
            Layout(files, contents)
            == Concat(contents) + U32LE(|files|) + records
               + U32LE(4 + |records|) + U32LE(|Concat(contents)| + 4 + |records| + FooterSize)
  {
    var records := Concat(EncodedEntries(files, Offsets(contents)));
    var tree := U32LE(|files|) + records;
    assert |tree| == 4 + |records|;
    Regroup(Concat(contents), U32LE(|files|), records, U32LE(|tree|), U32LE(|Concat(contents)| + |tree| + FooterSize));
  }

  lemma Regroup(a: seq<u8>, b: seq<u8>, c: seq<u8>, x: seq<u8>, y: seq<u8>)
    ensures a + (b + c) + x + y == a + b + c + x + y
  {
  }
}
