/**
  The DAT1 (Fallout 1) archive: a directory-structured, big-endian container.

      header | directory names | one block per directory | file data

  The header is four `u32`: the directory count, 0x0A and two zeros. A
  directory name is a length byte and the name. A block is a 16-byte header
  (the file count, 0x0A, 0x10, 0) and one record per file: a length byte, the
  name relative to the directory, then `attributes`, `offset`, `size` and
  `packed_size`, each a `u32`. Offsets count from the start of the archive.

  The functions state the format and each operation's result; the class
  `Dat1Archive` holds the directories and the archive bytes and changes them in
  place as the source does, each method proved to compute its function.
*/
module Dat1 {
  import opened Wrappers
  import opened Bytes
  import opened Common

  const HeaderSize: nat := 16
  /** A block's header: file count, 0x0A, 0x10 and 0. */
  const BlockHeaderSize: nat := 16
  /** The four `u32` of a record after its name. */
  const RecordFieldsSize: nat := 16
  const CompressedFlag: u32 := 0x40
  const UncompressedFlag: u32 := 0x20
  const DirectoryUnknown5: u32 := 0x10
  /** The name of the root directory; its files' records hold their whole names. */
  const RootName: string := "."

  datatype Directory = Directory(name: string, files: seq<FileEntry>)

  datatype Dat1Error =
    | Truncated                // a read ran past the end of the archive
    | ReadFailed(cause: ReadError)
    | FileNotFound(name: string)

  // ---------------------------------------------------------------------------
  // Parsing
  // ---------------------------------------------------------------------------

  /** The two length-prefixed things the parser reads, each laid end to end with the next. */
  datatype Item = DirName | Record

  /**
    The length of the item at `at`, or None when it runs past the end: a
    directory name is its length byte and the name; a record adds the four
    `u32` fields.
  */
  function ItemLen(kind: Item, data: seq<u8>, at: nat): (r: Option<nat>)
    ensures r.Some? ==> at < |data| && at + r.value <= |data|
    ensures r.Some? ==> r.value == 1 + data[at] + (if kind == Record then RecordFieldsSize else 0)
  {
    if at >= |data| then None
    else
      var n := 1 + data[at] + (if kind == Record then RecordFieldsSize else 0);
      if at + n > |data| then None else Some(n)
  }

  /** The directory name at `at`. */
  function DirNameAt(data: seq<u8>, at: nat): string
    requires ItemLen(DirName, data, at).Some?
  {
    DecodeFilename(data[at + 1..at + 1 + data[at]])
  }

  /** A record's path in the archive: the bare name in the root, `dir\name` elsewhere. */
  function FullName(dirName: string, name: string): (r: string)
    ensures dirName == RootName ==> r == name
    ensures dirName != RootName ==> r == dirName + "\\" + name
  {
    if dirName == RootName then name else dirName + "\\" + name
  }

  /** `attributes & DAT1_COMPRESSED_FLAG != 0`: the flag is the single bit 6. */
  function IsCompressed(attributes: u32): bool {
    (attributes / CompressedFlag) % 2 == 1
  }

  /**
    The entry a record of directory `dirName` describes: a stored packed size
    of 0 stands for the size.
  */
  function EntryAt(data: seq<u8>, at: nat, dirName: string): (e: FileEntry)
    requires ItemLen(Record, data, at).Some?
    ensures e.data.None?
  {
    var n := data[at];
    var size := ReadU32BE(data, at + 9 + n);
    var packedSize := ReadU32BE(data, at + 13 + n);
    FileEntry(
      FullName(dirName, DecodeFilename(data[at + 1..at + 1 + n])),
      ReadU32BE(data, at + 5 + n),
      size,
      if packedSize == 0 then size else packedSize,
      IsCompressed(ReadU32BE(data, at + 1 + n)),
      None)
  }

  /** `xs` in front of what a successful read gives; a failure passes through. */
  function Prepended<T>(xs: seq<T>, r: Option<(seq<T>, nat)>): Option<(seq<T>, nat)> {
    if r.Some? then Some((xs + r.value.0, r.value.1)) else None
  }

  /** The loop over directory names: `count` names from `at`, and where they end. */
  function NamesFrom(data: seq<u8>, at: nat, count: nat): (r: Option<(seq<string>, nat)>)
    ensures r.Some? ==> |r.value.0| == count && at <= r.value.1
    ensures r.Some? && count > 0 ==> r.value.1 <= |data|
    decreases count
  {
    if count == 0 then Some(([], at))
    else match ItemLen(DirName, data, at)
      case None => None
      case Some(n) =>
        match NamesFrom(data, at + n, count - 1)
        case None => None
        case Some((names, end)) => Some(([DirNameAt(data, at)] + names, end))
  }

  /** The record at `at` and where the next one starts, or None when it runs past the end. */
  function RecordAt(data: seq<u8>, at: nat, dirName: string): (r: Option<(FileEntry, nat)>)
    ensures r.Some? <==> ItemLen(Record, data, at).Some?
    ensures r.Some? ==> at < r.value.1 <= |data|
  {
    match ItemLen(Record, data, at)
    case None => None
    case Some(n) => Some((EntryAt(data, at, dirName), at + n))
  }

  /**
    Where the record loop of one directory finds its `count` records from
    `at`, and where they end; None when one runs past the end.
  */
  function RecordStarts(data: seq<u8>, at: nat, count: nat): (r: Option<(seq<nat>, nat)>)
    ensures r.Some? ==> |r.value.0| == count && at <= r.value.1
    ensures r.Some? && count > 0 ==> r.value.1 <= |data|
    ensures r.Some? ==> forall j :: 0 <= j < count ==> ItemLen(Record, data, r.value.0[j]).Some?
    decreases count
  {
    if count == 0 then Some(([], at))
    else match ItemLen(Record, data, at)
      case None => None
      case Some(n) =>
        match RecordStarts(data, at + n, count - 1)
        case None => None
        case Some((starts, end)) => Some(([at] + starts, end))
  }

  /** The record loop of one directory: `count` records from `at`, and where they end. */
  function RecordsFrom(data: seq<u8>, at: nat, count: nat, dirName: string): (r: Option<(seq<FileEntry>, nat)>)
    ensures r.Some? ==> |r.value.0| == count && at <= r.value.1
    ensures r.Some? && count > 0 ==> r.value.1 <= |data|
  {
    match RecordStarts(data, at, count)
    case None => None
    case Some((starts, end)) => Some((seq(count, j requires 0 <= j < count => EntryAt(data, starts[j], dirName)), end))
  }

  /**
    The loop over directories: for each name, a block header whose first word
    counts the records that follow it.
  */
  function DirectoriesFrom(data: seq<u8>, at: nat, names: seq<string>): (r: Option<(seq<Directory>, nat)>)
    ensures r.Some? ==> |r.value.0| == |names| && at <= r.value.1
    ensures r.Some? ==> forall i :: 0 <= i < |names| ==> r.value.0[i].name == names[i]
    decreases |names|
  {
    if names == [] then Some(([], at))
    else if at + BlockHeaderSize > |data| then None
    else match RecordsFrom(data, at + BlockHeaderSize, ReadU32BE(data, at), names[0])
      case None => None
      case Some((files, next)) =>
        match DirectoriesFrom(data, next, names[1..])
        case None => None
        case Some((dirs, end)) => Some(([Directory(names[0], files)] + dirs, end))
  }

  /** `from_bytes`: the directories of an archive. */
  function Opened(data: seq<u8>): (r: Result<seq<Directory>, Dat1Error>)
    ensures r.Err? ==> r.error == Truncated
    ensures r.Ok? ==> |data| >= HeaderSize && |r.value| == ReadU32BE(data, 0)
  {
    if |data| < HeaderSize then Err(Truncated)
    else match NamesFrom(data, HeaderSize, ReadU32BE(data, 0))
      case None => Err(Truncated)
      case Some((names, end)) =>
        match DirectoriesFrom(data, end, names)
        case None => Err(Truncated)
        case Some((directories, _)) => Ok(directories)
  }

  // ---------------------------------------------------------------------------
  // Saving
  // ---------------------------------------------------------------------------

  /** Every entry, directory by directory: the order in which `save` writes the data. */
  function AllFiles(dirs: seq<Directory>): seq<FileEntry>
    decreases |dirs|
  {
    if dirs == [] then [] else dirs[0].files + AllFiles(dirs[1..])
  }

  /** A record in a directory other than the root drops the `dir\` its name starts with. */
  predicate StripsDir(dirName: string, name: string) {
    dirName + "\\" <= name && dirName != RootName
  }

  /** The name the second pass writes into a record. */
  function StoredName(dirName: string, name: string): (r: string)
    ensures StripsDir(dirName, name) ==> name == dirName + "\\" + r
    ensures !StripsDir(dirName, name) ==> r == name
  {
    if StripsDir(dirName, name) then name[|dirName| + 1..] else name
  }

  /** The name length the first pass counts, by subtracting byte lengths. */
  function StoredNameLen(dirName: string, name: string): int {
    if StripsDir(dirName, name) then |NameBytes(name)| - |NameBytes(dirName)| - 1 else |NameBytes(name)|
  }

  /** The first pass's sum over one directory's records. */
  function RecordsSize(dirName: string, files: seq<FileEntry>): int
    decreases |files|
  {
    if files == [] then 0
    else 1 + StoredNameLen(dirName, files[0].name) + RecordFieldsSize + RecordsSize(dirName, files[1..])
  }

  /** The first pass's sum over all blocks. */
  function TreeSize(dirs: seq<Directory>): int
    decreases |dirs|
  {
    if dirs == [] then 0
    else BlockHeaderSize + RecordsSize(dirs[0].name, dirs[0].files) + TreeSize(dirs[1..])
  }

  function PackedTotal(files: seq<FileEntry>): nat
    decreases |files|
  {
    if files == [] then 0 else files[0].packedSize + PackedTotal(files[1..])
  }

  function DirsPackedTotal(dirs: seq<Directory>): nat
    decreases |dirs|
  {
    if dirs == [] then 0 else PackedTotal(dirs[0].files) + DirsPackedTotal(dirs[1..])
  }

  /** `attributes`: 0x40 for a compressed entry, 0x20 otherwise. */
  function Attributes(e: FileEntry): u32 {
    if e.compressed then CompressedFlag else UncompressedFlag
  }

  /** The packed size written: 0 for an uncompressed entry. */
  function StoredPackedSize(e: FileEntry): u32 {
    if e.compressed then e.packedSize else 0
  }

  /** One write to the output cursor: `write_u8`, `write_all`, or a big-endian `write_u32`. */
  datatype Write = WriteU8(b: u8) | WriteAll(bytes: seq<u8>) | WriteU32(w: u32)

  function WriteBytes(w: Write): seq<u8> {
    match w
    case WriteU8(b) => [b]
    case WriteAll(bytes) => bytes
    case WriteU32(x) => U32BE(x)
  }

  /** The bytes a run of writes leaves in the output, one after the other. */
  function Written(ws: seq<Write>): seq<u8>
    decreases |ws|
  {
    if ws == [] then [] else WriteBytes(ws[0]) + Written(ws[1..])
  }

  /** The record of `e` in directory `dirName`, its data at `offset`; the name length is cut to a byte. */
  function RecordWrites(dirName: string, e: FileEntry, offset: u32): seq<Write> {
    var name := NameBytes(StoredName(dirName, e.name));
    [WriteU8(AsU8(|name|)), WriteAll(name), WriteU32(Attributes(e)), WriteU32(offset), WriteU32(e.size),
     WriteU32(StoredPackedSize(e))]
  }

  /** The records of one directory, the data of the first at `offset` and each next one `packed_size` further. */
  function RecordsWrites(dirName: string, files: seq<FileEntry>, offset: nat): seq<Write>
    requires offset + PackedTotal(files) < 0x1_0000_0000
    decreases |files|
  {
    if files == [] then []
    else RecordWrites(dirName, files[0], offset) + RecordsWrites(dirName, files[1..], offset + files[0].packedSize)
  }

  /** A block header: the record count (cut to 32 bits), then three constant words. */
  function BlockHeader(fileCount: nat): seq<Write> {
    [WriteU32(AsU32(fileCount)), WriteU32(Dat1FormatId), WriteU32(DirectoryUnknown5), WriteU32(0)]
  }

  /** Every block: a header and the directory's records, the offsets running on across directories. */
  function BlocksWrites(dirs: seq<Directory>, offset: nat): seq<Write>
    requires offset + DirsPackedTotal(dirs) < 0x1_0000_0000
    decreases |dirs|
  {
    if dirs == [] then []
    else
      BlockHeader(|dirs[0].files|) + RecordsWrites(dirs[0].name, dirs[0].files, offset)
        + BlocksWrites(dirs[1..], offset + PackedTotal(dirs[0].files))
  }

  /** The archive header: the directory count (cut to 32 bits), then three constant words. */
  function Header(dirCount: nat): seq<Write> {
    [WriteU32(AsU32(dirCount)), WriteU32(Dat1FormatId), WriteU32(0), WriteU32(0)]
  }

  /** One directory name after its length byte (cut to a byte). */
  function DirNameWrites(d: Directory): seq<Write> {
    [WriteU8(AsU8(|NameBytes(d.name)|)), WriteAll(NameBytes(d.name))]
  }

  /** The directory names, one after the other. */
  function NamesWrites(dirs: seq<Directory>): seq<Write>
    decreases |dirs|
  {
    if dirs == [] then [] else DirNameWrites(dirs[0]) + NamesWrites(dirs[1..])
  }

  /** The first pass's `data_offset`: the header, the names, then the blocks' sizes as it counts them. */
  function DataStart(dirs: seq<Directory>): (r: nat)
    ensures r >= HeaderSize + |Written(NamesWrites(dirs))|
  {
    TreeSizeNonNegative(dirs);
    HeaderSize + |Written(NamesWrites(dirs))| + TreeSize(dirs)
  }

  /**
    The source's `u32` additions do not overflow: the first pass's running
    position and the second pass's running offset.
  */
  predicate SaveFits(dirs: seq<Directory>) {
    DataStart(dirs) + DirsPackedTotal(dirs) < 0x1_0000_0000
  }

  /** `output` followed by the entries' data, or the first read failure. */
  function DataAfter(output: seq<u8>, contents: Result<seq<seq<u8>>, ReadError>): Result<seq<u8>, Dat1Error> {
    match contents
    case Err(e) => Err(ReadFailed(e))
    case Ok(parts) => Ok(output + Concat(parts))
  }

  /** `save`: the bytes written, or the first read failure. */
  function Saved(archive: seq<u8>, dirs: seq<Directory>): Result<seq<u8>, Dat1Error>
    requires SaveFits(dirs)
  {
    DataAfter(Written(Header(|dirs|) + NamesWrites(dirs) + BlocksWrites(dirs, DataStart(dirs))),
             Contents(archive, AllFiles(dirs)))
  }

  // ---------------------------------------------------------------------------
  // Adding and deleting
  // ---------------------------------------------------------------------------

  /**
    One file to add: its path inside the archive (what `calculate_archive_path`
    computes), the directory `get_dirname_from_dat_path` names for it, and its
    bytes.
  */
  datatype AddRequest = AddRequest(archivePath: string, dirName: string, contents: seq<u8>)

  predicate RequestFits(req: AddRequest) {
    |req.contents| < 0x1_0000_0000
  }

  /** The entry `add_file` pushes: stored as is, with `size` set to `packed_size`. */
  function NewEntry(req: AddRequest): (e: FileEntry)
    requires RequestFits(req)
    ensures e.name == req.archivePath && e.offset == 0 && !e.compressed && e.data == Some(req.contents)
    ensures e.size == e.packedSize == |req.contents| && WellFormedEntry(e)
  {
    var entry := WithData(req.archivePath, req.contents, false);
    entry.(size := entry.packedSize)
  }

  /** `directories.iter().position(|d| d.name == name)` */
  function FindDirectory(dirs: seq<Directory>, name: string): (r: Option<nat>)
    ensures r.Some? ==> r.value < |dirs| && dirs[r.value].name == name
    ensures r.Some? ==> forall k :: 0 <= k < r.value ==> dirs[k].name != name
    ensures r.None? ==> forall k :: 0 <= k < |dirs| ==> dirs[k].name != name
    decreases |dirs|
  {
    if dirs == [] then None
    else if dirs[0].name == name then Some(0)
    else
      var rest := FindDirectory(dirs[1..], name);
      if rest.Some? then Some(rest.value + 1) else None
  }

  /** The directory list with a directory of that name, appended when there is none, and its index. */
  function WithDirectory(dirs: seq<Directory>, name: string): (r: (seq<Directory>, nat))
    ensures |dirs| <= |r.0| && r.1 < |r.0| && r.0[r.1].name == name && r.0[..|dirs|] == dirs
    ensures FindDirectory(dirs, name).Some? ==> r.0 == dirs && r.1 == FindDirectory(dirs, name).value
    ensures FindDirectory(dirs, name).None? ==> r.0 == dirs + [Directory(name, [])] && r.1 == |dirs|
  {
    match FindDirectory(dirs, name)
    case Some(k) => (dirs, k)
    case None => (dirs + [Directory(name, [])], |dirs|)
  }

  /** Every directory without the entries named `name`. */
  function Cleared(dirs: seq<Directory>, name: string): (r: seq<Directory>)
    ensures |r| == |dirs|
    ensures forall k :: 0 <= k < |dirs| ==> r[k] == dirs[k].(files := Retained(dirs[k].files, {name}))
  {
    seq(|dirs|, k requires 0 <= k < |dirs| => dirs[k].(files := Retained(dirs[k].files, {name})))
  }

  /** The directories after `add_file` handles one file. */
  function Added(dirs: seq<Directory>, req: AddRequest): seq<Directory>
    requires RequestFits(req)
  {
    var (withDir, index) := WithDirectory(dirs, req.dirName);
    var cleared := Cleared(withDir, req.archivePath);
    cleared[index := cleared[index].(files := cleared[index].files + [NewEntry(req)])]
  }

  /** The directories after `add_file` handles a batch, one file after another. */
  function AddedAll(dirs: seq<Directory>, requests: seq<AddRequest>): seq<Directory>
    requires forall i :: 0 <= i < |requests| ==> RequestFits(requests[i])
    decreases |requests|
  {
    if requests == [] then dirs
    else Added(AddedAll(dirs, requests[..|requests| - 1]), requests[|requests| - 1])
  }

  /** The first directory holding an entry named `name`. */
  function FirstDirWith(dirs: seq<Directory>, name: string): (r: Option<nat>)
    ensures r.Some? ==> r.value < |dirs| && FindName(dirs[r.value].files, name).Some?
    ensures r.Some? ==> forall k :: 0 <= k < r.value ==> FindName(dirs[k].files, name).None?
    ensures r.None? ==> forall k :: 0 <= k < |dirs| ==> FindName(dirs[k].files, name).None?
    decreases |dirs|
  {
    if dirs == [] then None
    else if FindName(dirs[0].files, name).Some? then Some(0)
    else
      var rest := FirstDirWith(dirs[1..], name);
      if rest.Some? then Some(rest.value + 1) else None
  }

  /** The directories after the first entry named `name` in directory `k` is removed. */
  function DeletedFrom(dirs: seq<Directory>, k: nat, name: string): seq<Directory>
    requires k < |dirs| && FindName(dirs[k].files, name).Some?
  {
    dirs[k := dirs[k].(files := RemoveAt(dirs[k].files, FindName(dirs[k].files, name).value))]
  }

  // ---------------------------------------------------------------------------
  // The archive
  // ---------------------------------------------------------------------------

  class Dat1Archive {
    /** All directories, the root "." among them. */
    var directories: seq<Directory>
    /** The bytes the archive was opened from (empty for a new one). */
    var data: seq<u8>

    /** `Dat1Archive::new`: only the root directory, and no files. */
    constructor ()
      ensures directories == [Directory(RootName, [])] && data == []
    {
      directories := [Directory(RootName, [])];
      data := [];
    }

    /** `Dat1Archive::from_bytes` */
    static method FromBytes(bytes: seq<u8>) returns (r: Result<Dat1Archive, Dat1Error>)
      ensures r.Ok? <==> Opened(bytes).Ok?
      ensures r.Ok? ==> fresh(r.value) && r.value.directories == Opened(bytes).value && r.value.data == bytes
      ensures r.Err? ==> r.error == Opened(bytes).error
    {
      if |bytes| < HeaderSize {
        return Err(Truncated);
      }
      // the three words after the count are read and not used
      var dirCount := ReadU32BE(bytes, 0);
      var names := ReadDirectoryNames(bytes, dirCount);
      if names.None? {
        return Err(Truncated);
      }
      var directories := ReadDirectories(bytes, names.value.1, names.value.0);
      if directories.None? {
        return Err(Truncated);
      }
      var archive := new Dat1Archive();
      archive.directories := directories.value;
      archive.data := bytes;
      return Ok(archive);
    }

    /** The loop over directory names of `from_bytes`. */
    static method ReadDirectoryNames(bytes: seq<u8>, dirCount: nat) returns (r: Option<(seq<string>, nat)>)
      requires |bytes| >= HeaderSize
      ensures r == NamesFrom(bytes, HeaderSize, dirCount)
    {
      var dirNames: seq<string> := [];
      var cursor: nat := HeaderSize;
      PrependedNothing(NamesFrom(bytes, HeaderSize, dirCount));
      for i := 0 to dirCount
        invariant NamesFrom(bytes, HeaderSize, dirCount) == Prepended(dirNames, NamesFrom(bytes, cursor, dirCount - i))
      {
        NameStep(bytes, cursor, dirCount - i, dirNames);
        if cursor >= |bytes| {
          return None;
        }
        var nameLen: nat := bytes[cursor];
        if cursor + 1 + nameLen > |bytes| {
          return None;
        }
        var name := DecodeFilename(bytes[cursor + 1..cursor + 1 + nameLen]);
        dirNames := dirNames + [name];
        cursor := cursor + 1 + nameLen;
      }
      PrependedAll(dirNames, cursor);
      return Some((dirNames, cursor));
    }

    /** The loop over directories of `from_bytes`: each block's header, then its records. */
    static method ReadDirectories(bytes: seq<u8>, at: nat, dirNames: seq<string>) returns (r: Option<seq<Directory>>)
      ensures r.Some? <==> DirectoriesFrom(bytes, at, dirNames).Some?
      ensures r.Some? ==> r.value == DirectoriesFrom(bytes, at, dirNames).value.0
    {
      var directories: seq<Directory> := [];
      var cursor: nat := at;
      PrependedNothing(DirectoriesFrom(bytes, at, dirNames));
      for i := 0 to |dirNames|
        invariant DirectoriesFrom(bytes, at, dirNames) == Prepended(directories, DirectoriesFrom(bytes, cursor, dirNames[i..]))
      {
        DirectoryStep(bytes, cursor, dirNames, i, directories);
        if cursor + BlockHeaderSize > |bytes| {
          return None;
        }
        // unknown4, unknown5 and unknown6 are read and not used
        var fileCount := ReadU32BE(bytes, cursor);
        var files := ReadRecords(bytes, cursor + BlockHeaderSize, fileCount, dirNames[i]);
        if files.None? {
          return None;
        }
        directories := directories + [Directory(dirNames[i], files.value.0)];
        cursor := files.value.1;
      }
      assert dirNames[|dirNames|..] == [];
      PrependedAll(directories, cursor);
      return Some(directories);
    }

    /** The record loop of one directory: name length, name, attributes, offset, size, packed size. */
    static method ReadRecords(bytes: seq<u8>, at: nat, fileCount: nat, dirName: string) returns (r: Option<(seq<FileEntry>, nat)>)
      ensures r == RecordsFrom(bytes, at, fileCount, dirName)
    {
      var files: seq<FileEntry> := [];
      var cursor: nat := at;
      ghost var starts: seq<nat> := [];
      ghost var walk := RecordStarts(bytes, at, fileCount);
      PrependedNothing(walk);
      for j := 0 to fileCount
        invariant |starts| == |files| == j
        invariant walk == Prepended(starts, RecordStarts(bytes, cursor, fileCount - j))
        invariant forall k :: 0 <= k < j ==>
                    ItemLen(Record, bytes, starts[k]).Some? && files[k] == EntryAt(bytes, starts[k], dirName)
      {
        var record := ReadRecord(bytes, cursor, dirName);
        if record.None? {
          RecordStartStep(bytes, cursor, fileCount - j, starts);
          return None;
        }
        RecordStartStep(bytes, cursor, fileCount - j, starts);
        starts := starts + [cursor];
        files := files + [record.value.0];
        cursor := record.value.1;
      }
      PrependedAll(starts, cursor);
      RecordsRead(bytes, at, fileCount, dirName, starts, files, cursor);
      return Some((files, cursor));
    }

    /**
      One record: the name length, the name and the four fields must each be
      there to read; `EntryAt` states what is made of them.
    */
    static method ReadRecord(bytes: seq<u8>, cursor: nat, dirName: string) returns (r: Option<(FileEntry, nat)>)
      ensures r == RecordAt(bytes, cursor, dirName)
    {
      if cursor >= |bytes| {
        return None;
      }
      var nameLen: nat := bytes[cursor];
      if cursor + 1 + nameLen > |bytes| {
        return None;
      }
      if cursor + 1 + nameLen + RecordFieldsSize > |bytes| {
        return None;
      }
      return Some((EntryAt(bytes, cursor, dirName), cursor + 1 + nameLen + RecordFieldsSize));
    }

    /** `read_file_data` against this archive's bytes. */
    function ReadData(e: FileEntry): (r: Result<seq<u8>, ReadError>)
      reads this
      ensures r.Ok? ==> |r.value| == DataLen(e)
    {
      ReadFileData(data, e)
    }

    /** `add_file` for a batch already read from disk, one file after another. */
    method AddFile(requests: seq<AddRequest>)
      requires forall i :: 0 <= i < |requests| ==> RequestFits(requests[i])
      modifies this
      ensures directories == AddedAll(old(directories), requests)
      ensures data == old(data)
    {
      for i := 0 to |requests|
        invariant directories == AddedAll(old(directories), requests[..i])
        invariant data == old(data)
      {
        assert requests[..i + 1][..i] == requests[..i];
        AddEntry(requests[i]);
      }
      assert requests[..|requests|] == requests;
    }

    /**
      The body of `add_file`'s loop: find or create the directory, remove the
      name from every directory, push the new entry.
    */
    method AddEntry(req: AddRequest)
      requires RequestFits(req)
      modifies this
      ensures directories == Added(old(directories), req)
      ensures data == old(data)
    {
      var dirIndex: nat;
      var found := FindDirectory(directories, req.dirName);
      if found.Some? {
        dirIndex := found.value;
      } else {
        directories := directories + [Directory(req.dirName, [])];
        dirIndex := |directories| - 1;
      }
      ghost var withDir := directories;
      for k := 0 to |directories|
        invariant |directories| == |withDir| && data == old(data)
        invariant forall m :: 0 <= m < k ==> directories[m] == withDir[m].(files := Retained(withDir[m].files, {req.archivePath}))
        invariant forall m :: k <= m < |withDir| ==> directories[m] == withDir[m]
      {
        directories := directories[k := directories[k].(files := Retained(directories[k].files, {req.archivePath}))];
      }
      assert directories == Cleared(withDir, req.archivePath);
      var fileEntry := NewEntry(req);
      directories := directories[dirIndex := directories[dirIndex].(files := directories[dirIndex].files + [fileEntry])];
    }

    /**
      `delete_file`: the directories are scanned in order, and the first entry
      named like the user's path, after `normalize_user_path`, is removed.
    */
    method DeleteFile(fileName: string) returns (r: Result<(), Dat1Error>)
      modifies this
      ensures var normalizedName := NormalizeUserPath(fileName);
              var hit := FirstDirWith(old(directories), normalizedName);
              && (r.Ok? <==> hit.Some?)
              && (r.Ok? ==> directories == DeletedFrom(old(directories), hit.value, normalizedName))
              && (r.Err? ==> directories == old(directories) && r.error == FileNotFound(fileName))
      ensures data == old(data)
    {
      r := DeleteName(NormalizeUserPath(fileName), fileName);
    }

    /**
      `delete_file` with the user's path put in archive form
      (`normalize_path_for_archive`), the conversion its comment describes.
    */
    method DeleteArchivePath(fileName: string) returns (r: Result<(), Dat1Error>)
      modifies this
      ensures var normalizedName := NormalizePathForArchive(fileName);
              var hit := FirstDirWith(old(directories), normalizedName);
              && (r.Ok? <==> hit.Some?)
              && (r.Ok? ==> directories == DeletedFrom(old(directories), hit.value, normalizedName))
              && (r.Err? ==> directories == old(directories) && r.error == FileNotFound(fileName))
      ensures data == old(data)
    {
      r := DeleteName(NormalizePathForArchive(fileName), fileName);
    }

    /** The loop of `delete_file` for an already normalized name. */
    method DeleteName(normalizedName: string, fileName: string) returns (r: Result<(), Dat1Error>)
      modifies this
      ensures var hit := FirstDirWith(old(directories), normalizedName);
              && (r.Ok? <==> hit.Some?)
              && (r.Ok? ==> directories == DeletedFrom(old(directories), hit.value, normalizedName))
              && (r.Err? ==> directories == old(directories) && r.error == FileNotFound(fileName))
      ensures data == old(data)
    {
      for k := 0 to |directories|
        invariant directories == old(directories)
        invariant forall m :: 0 <= m < k ==> FindName(directories[m].files, normalizedName).None?
      {
        var position := FindName(directories[k].files, normalizedName);
        if position.Some? {
          FirstDirAt(directories, normalizedName, k);
          directories := directories[k := directories[k].(files := RemoveAt(directories[k].files, position.value))];
          return Ok(());
        }
      }
      FirstDirNone(directories, normalizedName);
      return Err(FileNotFound(fileName));
    }

    /**
      `save` up to the write to disk: the header, the names, the first pass
      that counts where the data will start, the blocks with running offsets,
      and the data.
    */
    method Save() returns (r: Result<seq<u8>, Dat1Error>)
      requires SaveFits(directories)
      ensures r == Saved(data, directories)
    {
      var writes := Header(|directories|);
      writes := PushDirectoryNames(writes, directories);
      WrittenAppend(Header(|directories|), NamesWrites(directories));
      HeaderLength(|directories|);
      var dataOffset := DataOffset(|Written(writes)|, directories);
      writes := PushBlocks(writes, directories, dataOffset);
      r := PushData(Written(writes));
    }

    /** The last loop of `save`: every entry's data, directory by directory. */
    method PushData(output: seq<u8>) returns (r: Result<seq<u8>, Dat1Error>)
      ensures r == DataAfter(output, Contents(data, AllFiles(directories)))
    {
      var written := output;
      assert directories[0..] == directories;
      for i := 0 to |directories|
        invariant DataAfter(written, Contents(data, AllFiles(directories[i..])))
               == DataAfter(output, Contents(data, AllFiles(directories)))
      {
        DataStep(data, directories, i, written);
        var step := PushFileData(written, directories[i].files);
        if step.Err? {
          return Err(ReadFailed(step.error));
        }
        written := step.value;
      }
      DataAll(data, directories, written);
      return Ok(written);
    }

    /** The data of one directory's entries: their own bytes, or the bytes read from the archive. */
    method PushFileData(output: seq<u8>, files: seq<FileEntry>) returns (r: Result<seq<u8>, ReadError>)
      ensures var contents := Contents(data, files);
              && (r.Ok? <==> contents.Ok?)
              && (r.Ok? ==> r.value == output + Concat(contents.value))
              && (r.Err? ==> r.error == contents.error)
    {
      var written := output;
      ghost var contents: seq<seq<u8>> := [];
      assert files[..0] == [];
      for j := 0 to |files|
        invariant Contents(data, files[..j]) == Ok(contents)
        invariant written == output + Concat(contents)
      {
        var fileData;
        if files[j].data.Some? {
          fileData := files[j].data.value;
        } else {
          var read := ReadData(files[j]);
          if read.Err? {
            ContentsFail(data, files, j, contents);
            return Err(read.error);
          }
          fileData := read.value;
        }
        ContentsSnoc(data, files, j, contents, fileData);
        ConcatSnoc(contents, fileData);
        written := written + fileData;
        contents := contents + [fileData];
      }
      assert files[..|files|] == files;
      return Ok(written);
    }
  }

  /** The loop over directory names of `save`. */
  method PushDirectoryNames(output: seq<Write>, dirs: seq<Directory>) returns (r: seq<Write>)
    ensures r == output + NamesWrites(dirs)
  {
    r := output;
    assert dirs[0..] == dirs;
    for i := 0 to |dirs|
      invariant r + NamesWrites(dirs[i..]) == output + NamesWrites(dirs)
    {
      var name := NameBytes(dirs[i].name);
      NamesStep(dirs, i);
      AppendAssoc(r, DirNameWrites(dirs[i]), NamesWrites(dirs[i + 1..]));
      r := r + [WriteU8(AsU8(|name|)), WriteAll(name)];
    }
    assert dirs[|dirs|..] == [];
    WrittenAll(r);
  }

  /**
    The first pass of `save`: from the position after the names, 16 bytes per
    block header and, per record, the length byte, the name length it counts
    and the four fields, in `u32`.
  */
  method DataOffset(start: u32, dirs: seq<Directory>) returns (r: u32)
    requires start + TreeSize(dirs) < 0x1_0000_0000
    ensures r == start + TreeSize(dirs)
  {
    r := start;
    assert dirs[0..] == dirs;
    for i := 0 to |dirs|
      invariant r + TreeSize(dirs[i..]) == start + TreeSize(dirs)
    {
      var dir := dirs[i];
      TreeSizeStep(dirs, i);
      r := r + BlockHeaderSize;
      assert dir.files[0..] == dir.files;
      for j := 0 to |dir.files|
        invariant r + RecordsSize(dir.name, dir.files[j..]) + TreeSize(dirs[i + 1..]) == start + TreeSize(dirs)
      {
        var file := dir.files[j];
        var fileNameLen := StoredNameLen(dir.name, file.name);
        RecordsSizeStep(dir.name, dir.files, j);
        r := r + 1 + fileNameLen + RecordFieldsSize;
      }
      assert dir.files[|dir.files|..] == [];
    }
    assert dirs[|dirs|..] == [];
  }

  /** The loop over directories of the second pass: each block header, then the records. */
  method PushBlocks(output: seq<Write>, dirs: seq<Directory>, dataOffset: u32) returns (r: seq<Write>)
    requires dataOffset + DirsPackedTotal(dirs) < 0x1_0000_0000
    ensures r == output + BlocksWrites(dirs, dataOffset)
  {
    r := output;
    var currentOffset: u32 := dataOffset;
    assert dirs[0..] == dirs;
    for i := 0 to |dirs|
      invariant currentOffset + DirsPackedTotal(dirs[i..]) == dataOffset + DirsPackedTotal(dirs)
      invariant r + BlocksWrites(dirs[i..], currentOffset) == output + BlocksWrites(dirs, dataOffset)
    {
      var dir := dirs[i];
      BlocksStep(dirs, i, currentOffset);
      var header := [WriteU32(AsU32(|dir.files|)), WriteU32(Dat1FormatId), WriteU32(DirectoryUnknown5), WriteU32(0)];
      ghost var records := RecordsWrites(dir.name, dir.files, currentOffset);
      ghost var rest := BlocksWrites(dirs[i + 1..], currentOffset + PackedTotal(dir.files));
      AppendAssoc(header, records, rest);
      AppendAssoc(r, header, records + rest);
      AppendAssoc(r + header, records, rest);
      r := r + header;
      r, currentOffset := PushRecords(r, dir.name, dir.files, currentOffset);
    }
    assert dirs[|dirs|..] == [];
    WrittenAll(r);
  }

  /** The record loop of the second pass: each record, and the offset moved on by `packed_size`. */
  method PushRecords(output: seq<Write>, dirName: string, files: seq<FileEntry>, offset: u32) returns (r: seq<Write>, next: u32)
    requires offset + PackedTotal(files) < 0x1_0000_0000
    ensures r == output + RecordsWrites(dirName, files, offset)
    ensures next == offset + PackedTotal(files)
  {
    r := output;
    next := offset;
    assert files[0..] == files;
    for j := 0 to |files|
      invariant next + PackedTotal(files[j..]) == offset + PackedTotal(files)
      invariant r + RecordsWrites(dirName, files[j..], next) == output + RecordsWrites(dirName, files, offset)
    {
      var file := files[j];
      RecordsStep(dirName, files, j, next);
      AppendAssoc(r, RecordWrites(dirName, file, next), RecordsWrites(dirName, files[j + 1..], next + file.packedSize));
      var fileName := NameBytes(StoredName(dirName, file.name));
      r := r + [WriteU8(AsU8(|fileName|)), WriteAll(fileName), WriteU32(Attributes(file)), WriteU32(next),
                WriteU32(file.size), WriteU32(StoredPackedSize(file))];
      next := next + file.packedSize;
    }
    assert files[|files|..] == [];
    WrittenAll(r);
  }

  // ---------------------------------------------------------------------------
  // Lemmas the methods rely on
  // ---------------------------------------------------------------------------

  /** Nothing read yet: the whole read is still ahead. */
  lemma PrependedNothing<T>(r: Option<(seq<T>, nat)>)
    ensures Prepended([], r) == r
  {
    if r.Some? {
      assert [] + r.value.0 == r.value.0;
    }
  }

  /** Nothing left to read: what was read is all of it. */
  lemma PrependedAll<T>(xs: seq<T>, end: nat)
    ensures Prepended(xs, Some(([], end))) == Some((xs, end))
  {
    assert xs + [] == xs;
  }

  /** The name loop stops at a name that does not fit, or moves past one that does. */
  lemma NameStep(data: seq<u8>, at: nat, k: nat, xs: seq<string>)
    requires k > 0
    ensures ItemLen(DirName, data, at).None? ==> NamesFrom(data, at, k).None?
    ensures ItemLen(DirName, data, at).Some? ==>
              (Prepended(xs, NamesFrom(data, at, k))
                 == Prepended(xs + [DirNameAt(data, at)], NamesFrom(data, at + ItemLen(DirName, data, at).value, k - 1)))
  {
    if ItemLen(DirName, data, at).Some? {
      var rest := NamesFrom(data, at + ItemLen(DirName, data, at).value, k - 1);
      if rest.Some? {
        assert xs + ([DirNameAt(data, at)] + rest.value.0) == xs + [DirNameAt(data, at)] + rest.value.0;
      }
    }
  }

  /** The record walk stops at a record that does not fit, or moves past one that does. */
  lemma RecordStartStep(data: seq<u8>, at: nat, k: nat, xs: seq<nat>)
    requires k > 0
    ensures ItemLen(Record, data, at).None? ==> RecordStarts(data, at, k).None?
    ensures ItemLen(Record, data, at).Some? ==>
              (Prepended(xs, RecordStarts(data, at, k))
                 == Prepended(xs + [at], RecordStarts(data, at + ItemLen(Record, data, at).value, k - 1)))
  {
    if ItemLen(Record, data, at).Some? {
      var rest := RecordStarts(data, at + ItemLen(Record, data, at).value, k - 1);
      if rest.Some? {
        assert xs + ([at] + rest.value.0) == xs + [at] + rest.value.0;
      }
    }
  }

  /** The records read at the walk's starts are the records of the loop. */
  lemma RecordsRead(data: seq<u8>, at: nat, count: nat, dirName: string, starts: seq<nat>, files: seq<FileEntry>, end: nat)
    requires |starts| == |files| == count
    requires RecordStarts(data, at, count) == Some((starts, end))
    requires forall k :: 0 <= k < count ==> ItemLen(Record, data, starts[k]).Some? && files[k] == EntryAt(data, starts[k], dirName)
    ensures RecordsFrom(data, at, count, dirName) == Some((files, end))
  {
    var entries := seq(count, j requires 0 <= j < count => EntryAt(data, starts[j], dirName));
    assert entries == files;
  }

  /**
    The directory loop stops at a block header that does not fit or records
    that do not, or moves past the block.
  */
  lemma DirectoryStep(data: seq<u8>, at: nat, names: seq<string>, i: nat, xs: seq<Directory>)
    requires i < |names|
    ensures at + BlockHeaderSize > |data| ==> DirectoriesFrom(data, at, names[i..]).None?
    ensures at + BlockHeaderSize <= |data| ==>
              var records := RecordsFrom(data, at + BlockHeaderSize, ReadU32BE(data, at), names[i]);
              && (records.None? ==> DirectoriesFrom(data, at, names[i..]).None?)
              && (records.Some? ==>
                    (Prepended(xs, DirectoriesFrom(data, at, names[i..]))
                       == Prepended(xs + [Directory(names[i], records.value.0)], DirectoriesFrom(data, records.value.1, names[i + 1..]))))
  {
    assert names[i..][0] == names[i] && names[i..][1..] == names[i + 1..];
    if at + BlockHeaderSize <= |data| {
      var records := RecordsFrom(data, at + BlockHeaderSize, ReadU32BE(data, at), names[i]);
      if records.Some? {
        var rest := DirectoriesFrom(data, records.value.1, names[i + 1..]);
        if rest.Some? {
          assert xs + ([Directory(names[i], records.value.0)] + rest.value.0)
              == xs + [Directory(names[i], records.value.0)] + rest.value.0;
        }
      }
    }
  }

  /** The root and each directory before `k` hold no entry of the name. */
  lemma FirstDirAt(dirs: seq<Directory>, name: string, k: nat)
    requires k < |dirs| && FindName(dirs[k].files, name).Some?
    requires forall m :: 0 <= m < k ==> FindName(dirs[m].files, name).None?
    ensures FirstDirWith(dirs, name) == Some(k)
  {
    var hit := FirstDirWith(dirs, name);
  }

  lemma FirstDirNone(dirs: seq<Directory>, name: string)
    requires forall m :: 0 <= m < |dirs| ==> FindName(dirs[m].files, name).None?
    ensures FirstDirWith(dirs, name).None?
  {
  }

  /** All directories' data written. */
  lemma DataAll(archive: seq<u8>, dirs: seq<Directory>, written: seq<u8>)
    ensures DataAfter(written, Contents(archive, AllFiles(dirs[|dirs|..]))) == Ok(written)
  {
    assert dirs[|dirs|..] == [];
    assert written + [] == written;
  }

  /** The data loop moves past one directory, or stops at its first failed read. */
  lemma DataStep(archive: seq<u8>, dirs: seq<Directory>, i: nat, written: seq<u8>)
    requires i < |dirs|
    ensures Contents(archive, dirs[i].files).Err? ==>
              DataAfter(written, Contents(archive, AllFiles(dirs[i..]))) == Err(ReadFailed(Contents(archive, dirs[i].files).error))
    ensures Contents(archive, dirs[i].files).Ok? ==>
              (DataAfter(written, Contents(archive, AllFiles(dirs[i..])))
                 == DataAfter(written + Concat(Contents(archive, dirs[i].files).value), Contents(archive, AllFiles(dirs[i + 1..]))))
  {
    assert dirs[i..][1..] == dirs[i + 1..];
    ContentsAppend(archive, dirs[i].files, AllFiles(dirs[i + 1..]));
    var rest := Contents(archive, AllFiles(dirs[i + 1..]));
    if Contents(archive, dirs[i].files).Ok? && rest.Ok? {
      var a := Contents(archive, dirs[i].files).value;
      ConcatAppend(a, rest.value);
      AppendAssoc(written, Concat(a), Concat(rest.value));
    }
  }

  /** One more directory name. */
  lemma NamesStep(dirs: seq<Directory>, i: nat)
    requires i < |dirs|
    ensures NamesWrites(dirs[i..]) == DirNameWrites(dirs[i]) + NamesWrites(dirs[i + 1..])
  {
    assert dirs[i..][1..] == dirs[i + 1..];
  }

  /** One more record in the first pass. */
  lemma RecordsSizeStep(dirName: string, files: seq<FileEntry>, j: nat)
    requires j < |files|
    ensures RecordsSize(dirName, files[j..])
         == 1 + StoredNameLen(dirName, files[j].name) + RecordFieldsSize + RecordsSize(dirName, files[j + 1..])
    ensures StoredNameLen(dirName, files[j].name) >= 0 && RecordsSize(dirName, files[j + 1..]) >= 0
  {
    assert files[j..][1..] == files[j + 1..];
    StoredNameBytes(dirName, files[j].name);
    RecordsSizeNonNegative(dirName, files[j + 1..]);
  }

  /** One more block in the first pass. */
  lemma TreeSizeStep(dirs: seq<Directory>, i: nat)
    requires i < |dirs|
    ensures TreeSize(dirs[i..]) == BlockHeaderSize + RecordsSize(dirs[i].name, dirs[i].files) + TreeSize(dirs[i + 1..])
    ensures RecordsSize(dirs[i].name, dirs[i].files) >= 0 && TreeSize(dirs[i + 1..]) >= 0
  {
    assert dirs[i..][1..] == dirs[i + 1..];
    RecordsSizeNonNegative(dirs[i].name, dirs[i].files);
    TreeSizeNonNegative(dirs[i + 1..]);
  }

  /** One more record in the second pass; the next one's data follows this one's. */
  lemma RecordsStep(dirName: string, files: seq<FileEntry>, j: nat, offset: nat)
    requires j < |files| && offset + PackedTotal(files[j..]) < 0x1_0000_0000
    ensures PackedTotal(files[j..]) == files[j].packedSize + PackedTotal(files[j + 1..])
    ensures RecordsWrites(dirName, files[j..], offset)
         == RecordWrites(dirName, files[j], offset) + RecordsWrites(dirName, files[j + 1..], offset + files[j].packedSize)
  {
    assert files[j..][1..] == files[j + 1..];
  }

  /** One more block in the second pass; the next block's data follows this one's. */
  lemma BlocksStep(dirs: seq<Directory>, i: nat, offset: nat)
    requires i < |dirs| && offset + DirsPackedTotal(dirs[i..]) < 0x1_0000_0000
    ensures DirsPackedTotal(dirs[i..]) == PackedTotal(dirs[i].files) + DirsPackedTotal(dirs[i + 1..])
    ensures BlocksWrites(dirs[i..], offset)
         == BlockHeader(|dirs[i].files|) + RecordsWrites(dirs[i].name, dirs[i].files, offset)
              + BlocksWrites(dirs[i + 1..], offset + PackedTotal(dirs[i].files))
  {
    var ds := dirs[i..];
    assert ds[0] == dirs[i] && ds[1..] == dirs[i + 1..];
    BlocksUnfold(ds, offset);
  }

  lemma BlocksUnfold(dirs: seq<Directory>, offset: nat)
    requires dirs != [] && offset + DirsPackedTotal(dirs) < 0x1_0000_0000
    ensures BlocksWrites(dirs, offset)
         == BlockHeader(|dirs[0].files|) + RecordsWrites(dirs[0].name, dirs[0].files, offset)
              + BlocksWrites(dirs[1..], offset + PackedTotal(dirs[0].files))
  {
  }

  /** Nothing left to write. */
  lemma WrittenAll<T>(acc: seq<T>)
    ensures acc + [] == acc
  {
  }

  /** Two runs of writes leave their bytes one after the other. */
  lemma {:induction false} WrittenAppend(a: seq<Write>, b: seq<Write>)
    ensures Written(a + b) == Written(a) + Written(b)
    decreases |a|
  {
    if a != [] {
      assert (a + b)[0] == a[0] && (a + b)[1..] == a[1..] + b;
      WrittenAppend(a[1..], b);
      calc {
        Written(a + b);
        WriteBytes(a[0]) + Written(a[1..] + b);
        WriteBytes(a[0]) + (Written(a[1..]) + Written(b));
        { AppendAssoc(WriteBytes(a[0]), Written(a[1..]), Written(b)); }
        Written(a) + Written(b);
      }
    } else {
      assert a + b == b;
    }
  }

  /** The archive header is four words. */
  lemma HeaderLength(dirCount: nat)
    ensures |Written(Header(dirCount))| == HeaderSize
  {
    var h := Header(dirCount);
    var last := h[1..][1..][1..];
    assert last[1..] == [];
    assert |Written(last)| == 4;
    assert |Written(h[1..][1..])| == 8;
    assert |Written(h[1..])| == 12;
  }

  /** The first pass's name length is the length of the name the second pass writes. */
  lemma StoredNameBytes(dirName: string, name: string)
    ensures StoredNameLen(dirName, name) == |NameBytes(StoredName(dirName, name))|
  {
    if StripsDir(dirName, name) {
      var rest := StoredName(dirName, name);
      NameBytesAppend(dirName + "\\", rest);
      NameBytesAppend(dirName, "\\");
      assert NameBytes("\\") == [0x5C] by {
        assert "\\"[1..] == [];
      }
    }
  }

  lemma {:induction false} RecordsSizeNonNegative(dirName: string, files: seq<FileEntry>)
    ensures RecordsSize(dirName, files) >= 0
    decreases |files|
  {
    if files != [] {
      RecordsSizeNonNegative(dirName, files[1..]);
      StoredNameBytes(dirName, files[0].name);
    }
  }

  lemma {:induction false} TreeSizeNonNegative(dirs: seq<Directory>)
    ensures TreeSize(dirs) >= 0
    decreases |dirs|
  {
    if dirs != [] {
      TreeSizeNonNegative(dirs[1..]);
      RecordsSizeNonNegative(dirs[0].name, dirs[0].files);
    }
  }
}
