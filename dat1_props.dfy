/**
  What DAT1's `save` promises: its first pass finds where the data will
  start, and the archive it writes opens to its directories, each entry named
  `dir\name` from its directory and placed at its new offset, the offsets
  running on from entry to entry.
*/
module Dat1Props {
  import opened Wrappers
  import opened Bytes
  import opened Common
  import opened Dat1

  // ---------------------------------------------------------------------------
  // The bytes of the writes
  // ---------------------------------------------------------------------------

  lemma WrittenCons(w: Write, ws: seq<Write>)
    ensures Written([w] + ws) == WriteBytes(w) + Written(ws)
  {
    assert ([w] + ws)[1..] == ws;
  }

  /** The writes from the `k`-th on: the `k`-th, then the rest. */
  lemma WrittenFrom(ws: seq<Write>, k: nat)
    requires k < |ws|
    ensures Written(ws[k..]) == WriteBytes(ws[k]) + Written(ws[k + 1..])
  {
    assert ws[k..][0] == ws[k] && ws[k..][1..] == ws[k + 1..];
  }

  /** Two writes, one after the other. */
  lemma TwoWritten(ws: seq<Write>)
    requires |ws| == 2
    ensures Written(ws) == WriteBytes(ws[0]) + WriteBytes(ws[1])
  {
    WrittenFrom(ws, 1);
    WrittenFrom(ws, 0);
    assert ws[0..] == ws && ws[2..] == [];
  }

  /** Four writes, one after the other. */
  lemma FourWritten(ws: seq<Write>)
    requires |ws| == 4
    ensures Written(ws) == WriteBytes(ws[0]) + WriteBytes(ws[1]) + WriteBytes(ws[2]) + WriteBytes(ws[3])
  {
    TwoWritten(ws[2..]);
    WrittenFrom(ws, 1);
    WrittenFrom(ws, 0);
    assert ws[0..] == ws && ws[2..][0] == ws[2] && ws[2..][1] == ws[3];
    AppendAssoc(WriteBytes(ws[1]), WriteBytes(ws[2]), WriteBytes(ws[3]));
    AppendAssoc(WriteBytes(ws[0]), WriteBytes(ws[1]) + WriteBytes(ws[2]), WriteBytes(ws[3]));
    AppendAssoc(WriteBytes(ws[0]), WriteBytes(ws[1]), WriteBytes(ws[2]));
  }

  /** A directory name: its length byte, then its bytes. */
  lemma DirNameWritten(d: Directory)
    ensures Written(DirNameWrites(d)) == [AsU8(|NameBytes(d.name)|)] + NameBytes(d.name)
  {
    TwoWritten(DirNameWrites(d));
  }

  /** A header of four words is 16 bytes, the first word first. */
  lemma WordsWritten(a: u32, b: u32, c: u32, d: u32)
    ensures var w := Written([WriteU32(a), WriteU32(b), WriteU32(c), WriteU32(d)]);
            |w| == 16 && w[..4] == U32BE(a)
  {
    var ws := [WriteU32(a), WriteU32(b), WriteU32(c), WriteU32(d)];
    FourWritten(ws);
    var rest := WriteBytes(ws[1]) + WriteBytes(ws[2]) + WriteBytes(ws[3]);
    AppendAssoc(WriteBytes(ws[0]) + WriteBytes(ws[1]), WriteBytes(ws[2]), WriteBytes(ws[3]));
    AppendAssoc(WriteBytes(ws[0]), WriteBytes(ws[1]), WriteBytes(ws[2]) + WriteBytes(ws[3]));
    AppendAssoc(WriteBytes(ws[1]), WriteBytes(ws[2]), WriteBytes(ws[3]));
    assert Written(ws) == U32BE(a) + rest;
  }

  /** A record: the length byte, the name, and the four words. */
  lemma RecordWritten(dirName: string, e: FileEntry, off: u32)
    ensures var nb := NameBytes(StoredName(dirName, e.name));
            Written(RecordWrites(dirName, e, off))
              == [AsU8(|nb|)] + nb + Written([WriteU32(Attributes(e)), WriteU32(off), WriteU32(e.size), WriteU32(StoredPackedSize(e))])
  {
    var ws := RecordWrites(dirName, e, off);
    WrittenFrom(ws, 1);
    WrittenFrom(ws, 0);
    assert ws[0..] == ws && ws[2..] == [WriteU32(Attributes(e)), WriteU32(off), WriteU32(e.size), WriteU32(StoredPackedSize(e))];
    AppendAssoc(WriteBytes(ws[0]), WriteBytes(ws[1]), Written(ws[2..]));
  }

  /** A record is its name and 17 bytes more. */
  lemma RecordLength(dirName: string, e: FileEntry, off: u32)
    ensures |Written(RecordWrites(dirName, e, off))| == 1 + |NameBytes(StoredName(dirName, e.name))| + RecordFieldsSize
  {
    RecordWritten(dirName, e, off);
    WordsWritten(Attributes(e), off, e.size, StoredPackedSize(e));
  }

  lemma RecordSizeStep(dirName: string, e: FileEntry, off: u32)
    ensures |Written(RecordWrites(dirName, e, off))| == 1 + StoredNameLen(dirName, e.name) + RecordFieldsSize
  {
    RecordLength(dirName, e, off);
    StoredNameBytes(dirName, e.name);
  }

  lemma LengthsAdd2(a: seq<Write>, b: seq<Write>, la: int, lb: int)
    requires |Written(a)| == la && |Written(b)| == lb
    ensures |Written(a + b)| == la + lb
  {
    WrittenAppend(a, b);
  }

  lemma LengthsAdd3(a: seq<Write>, b: seq<Write>, c: seq<Write>, la: int, lb: int, lc: int)
    requires |Written(a)| == la && |Written(b)| == lb && |Written(c)| == lc
    ensures |Written(a + b + c)| == la + lb + lc
  {
    WrittenAppend(a + b, c);
    WrittenAppend(a, b);
  }

  lemma BlockHeaderLength(n: nat)
    ensures |Written(BlockHeader(n))| == BlockHeaderSize
  {
    WordsWritten(AsU32(n), Dat1FormatId, DirectoryUnknown5, 0);
  }

  // ---------------------------------------------------------------------------
  // The first pass counts what the second writes
  // ---------------------------------------------------------------------------

  /** A directory's records are as long as the first pass counts them. */
  lemma {:induction false} RecordsLength(dirName: string, files: seq<FileEntry>, off: nat)
    requires off + PackedTotal(files) < 0x1_0000_0000
    ensures |Written(RecordsWrites(dirName, files, off))| == RecordsSize(dirName, files)
    decreases |files|
  {
    if files != [] {
      var rest := RecordsWrites(dirName, files[1..], off + files[0].packedSize);
      var record := RecordWrites(dirName, files[0], off);
      calc {
        |Written(RecordsWrites(dirName, files, off))|;
        |Written(record + rest)|;
        { RecordSizeStep(dirName, files[0], off);
          RecordsLength(dirName, files[1..], off + files[0].packedSize);
          LengthsAdd2(record, rest, 1 + StoredNameLen(dirName, files[0].name) + RecordFieldsSize, RecordsSize(dirName, files[1..])); }
        1 + StoredNameLen(dirName, files[0].name) + RecordFieldsSize + RecordsSize(dirName, files[1..]);
      }
    }
  }

  /** The blocks are as long as the first pass counts them. */
  lemma {:induction false} BlocksLength(dirs: seq<Directory>, off: nat)
    requires off + DirsPackedTotal(dirs) < 0x1_0000_0000
    ensures |Written(BlocksWrites(dirs, off))| == TreeSize(dirs)
    decreases |dirs|
  {
    if dirs != [] {
      var d := dirs[0];
      var header := BlockHeader(|d.files|);
      var records := RecordsWrites(d.name, d.files, off);
      var rest := BlocksWrites(dirs[1..], off + PackedTotal(d.files));
      calc {
        |Written(BlocksWrites(dirs, off))|;
        { BlocksUnfold(dirs, off); }
        |Written(header + records + rest)|;
        { BlockHeaderLength(|d.files|);
          RecordsLength(d.name, d.files, off);
          BlocksLength(dirs[1..], off + PackedTotal(d.files));
          LengthsAdd3(header, records, rest, BlockHeaderSize, RecordsSize(d.name, d.files), TreeSize(dirs[1..])); }
        BlockHeaderSize + RecordsSize(d.name, d.files) + TreeSize(dirs[1..]);
      }
    }
  }

  /** The header, the names and the blocks, as bytes. */
  lemma TreeWritten(dirs: seq<Directory>, off: nat)
    requires off + DirsPackedTotal(dirs) < 0x1_0000_0000
    ensures Written(Header(|dirs|) + NamesWrites(dirs) + BlocksWrites(dirs, off))
         == Written(Header(|dirs|)) + Written(NamesWrites(dirs)) + Written(BlocksWrites(dirs, off))
  {
    WrittenAppend(Header(|dirs|) + NamesWrites(dirs), BlocksWrites(dirs, off));
    WrittenAppend(Header(|dirs|), NamesWrites(dirs));
  }

  /**
    The `data_offset` of the first pass is where the second pass ends: the
    data of the first entry lands where its record says.
  */
  lemma DataStartIsDataPosition(dirs: seq<Directory>)
    requires SaveFits(dirs)
    ensures |Written(Header(|dirs|) + NamesWrites(dirs) + BlocksWrites(dirs, DataStart(dirs)))| == DataStart(dirs)
  {
    TreeWritten(dirs, DataStart(dirs));
    WordsWritten(AsU32(|dirs|), Dat1FormatId, 0, 0);
    BlocksLength(dirs, DataStart(dirs));
  }

  // ---------------------------------------------------------------------------
  // What the parser makes of the records `save` writes
  // ---------------------------------------------------------------------------

  /** The names of the directories, in order. */
  function DirNames(dirs: seq<Directory>): seq<string> {
    seq(|dirs|, j requires 0 <= j < |dirs| => dirs[j].name)
  }

  /**
    The entry the parser builds from the record `save` writes for `e` in
    directory `dirName`, its data at `off`: the name put back together, a
    stored packed size of 0 read as the size, and no data of its own.
  */
  function Reread(dirName: string, e: FileEntry, off: u32): FileEntry {
    var stored := StoredPackedSize(e);
    FileEntry(FullName(dirName, StoredName(dirName, e.name)), off, e.size, if stored == 0 then e.size else stored,
              e.compressed, None)
  }

  /** The entries one directory's records parse to, the data offsets running on. */
  function RereadRecords(dirName: string, files: seq<FileEntry>, off: nat): (r: seq<FileEntry>)
    requires off + PackedTotal(files) < 0x1_0000_0000
    ensures |r| == |files|
    decreases |files|
  {
    if files == [] then []
    else [Reread(dirName, files[0], off)] + RereadRecords(dirName, files[1..], off + files[0].packedSize)
  }

  /** The directories the blocks parse to, the data offsets running on across directories. */
  function RereadDirs(dirs: seq<Directory>, off: nat): (r: seq<Directory>)
    requires off + DirsPackedTotal(dirs) < 0x1_0000_0000
    ensures |r| == |dirs|
    ensures forall j :: 0 <= j < |dirs| ==> r[j].name == dirs[j].name
    decreases |dirs|
  {
    if dirs == [] then []
    else
      [Directory(dirs[0].name, RereadRecords(dirs[0].name, dirs[0].files, off))]
        + RereadDirs(dirs[1..], off + PackedTotal(dirs[0].files))
  }

  /** A record that reads back: a plain name whose written part fits its length byte. */
  predicate RecordReopens(dirName: string, e: FileEntry) {
    IsPlainName(e.name) && |NameBytes(StoredName(dirName, e.name))| < 0x100
  }

  /** A block that reads back: a plain name that fits its length byte, a count that fits its `u32`. */
  predicate DirReopens(d: Directory) {
    && IsPlainName(d.name) && |NameBytes(d.name)| < 0x100
    && |d.files| < 0x1_0000_0000
    && forall j :: 0 <= j < |d.files| ==> RecordReopens(d.name, d.files[j])
  }

  /** No `as` in `save` cuts anything, and every name reads back. */
  predicate Reopenable(dirs: seq<Directory>) {
    |dirs| < 0x1_0000_0000 && forall i :: 0 <= i < |dirs| ==> DirReopens(dirs[i])
  }

  /** `r` holds a record: the length byte, the name and four big-endian words. */
  predicate RecordBytes(r: seq<u8>, nb: seq<u8>, attributes: u32, off: u32, size: u32, stored: u32) {
    var n := |nb|;
    && |r| == 1 + n + RecordFieldsSize
    && r[0] == n
    && r[1..1 + n] == nb
    && ReadU32BE(r, 1 + n) == attributes && ReadU32BE(r, 5 + n) == off
    && ReadU32BE(r, 9 + n) == size && ReadU32BE(r, 13 + n) == stored
  }

  lemma ReadU32BEInside(s: seq<u8>, at: nat, w: seq<u8>, p: nat)
    requires at + |w| <= |s| && s[at..at + |w|] == w && p + 4 <= |w|
    ensures ReadU32BE(s, at + p) == ReadU32BE(w, p)
  {
    assert s[at + p] == w[p] && s[at + p + 1] == w[p + 1];
    assert s[at + p + 2] == w[p + 2] && s[at + p + 3] == w[p + 3];
  }

  /** Six pieces laid one after the other form a record. */
  lemma PiecesRecord(r: seq<u8>, nb: seq<u8>, a: u32, o: u32, s: u32, p: u32)
    requires |nb| < 0x100
    requires r == [|nb|] + nb + U32BE(a) + U32BE(o) + U32BE(s) + U32BE(p)
    ensures RecordBytes(r, nb, a, o, s, p)
  {
    var n := |nb|;
    Windows([n], nb, U32BE(a), U32BE(o), U32BE(s), U32BE(p));
    assert r[1 + n..5 + n] == U32BE(a) && r[5 + n..9 + n] == U32BE(o) && r[9 + n..13 + n] == U32BE(s);
    assert r[13 + n..17 + n] == U32BE(p) by {
      assert r[13 + n..17 + n] == r[13 + n..];
    }
    ReadU32BEOfU32BE(r, 1 + n, a);
    ReadU32BEOfU32BE(r, 5 + n, o);
    ReadU32BEOfU32BE(r, 9 + n, s);
    ReadU32BEOfU32BE(r, 13 + n, p);
    assert r[0] == [n][0];
  }

  /** The bytes of the record `save` writes for `e`. */
  lemma RecordWrittenBytes(dirName: string, e: FileEntry, off: u32)
    requires |NameBytes(StoredName(dirName, e.name))| < 0x100
    ensures RecordBytes(Written(RecordWrites(dirName, e, off)), NameBytes(StoredName(dirName, e.name)),
                        Attributes(e), off, e.size, StoredPackedSize(e))
  {
    var nb := NameBytes(StoredName(dirName, e.name));
    var A, B, C, D := U32BE(Attributes(e)), U32BE(off), U32BE(e.size), U32BE(StoredPackedSize(e));
    var x := [|nb|] + nb;
    var ws := [WriteU32(Attributes(e)), WriteU32(off), WriteU32(e.size), WriteU32(StoredPackedSize(e))];
    calc {
      Written(RecordWrites(dirName, e, off));
      { RecordWritten(dirName, e, off); }
      x + Written(ws);
      { FourWritten(ws); }
      x + (A + B + C + D);
      { AppendAssoc(x, A + B + C, D); AppendAssoc(x, A + B, C); AppendAssoc(x, A, B); }
      x + A + B + C + D;
    }
    PiecesRecord(x + A + B + C + D, nb, Attributes(e), off, e.size, StoredPackedSize(e));
  }

  /** The parser's view of a record inside a larger buffer. */
  lemma EntryInside(out: seq<u8>, at: nat, r: seq<u8>, nb: seq<u8>, a: u32, o: u32, s: u32, p: u32, dirName: string)
    requires RecordBytes(r, nb, a, o, s, p)
    requires at + |r| <= |out| && out[at..at + |r|] == r
    ensures ItemLen(Record, out, at) == Some(|r|)
    ensures EntryAt(out, at, dirName)
         == FileEntry(FullName(dirName, DecodeFilename(nb)), o, s, if p == 0 then s else p, IsCompressed(a), None)
  {
    var n := |nb|;
    ByteInside(out, at, r, 0);
    SliceInside(out, at, r, 1, 1 + n);
    ReadU32BEInside(out, at, r, 1 + n);
    ReadU32BEInside(out, at, r, 5 + n);
    ReadU32BEInside(out, at, r, 9 + n);
    ReadU32BEInside(out, at, r, 13 + n);
  }

  /** `attributes` holds the compression flag. */
  lemma AttributesFlag(e: FileEntry)
    ensures IsCompressed(Attributes(e)) == e.compressed
  {
  }

  /** The part of a plain name a record holds is plain. */
  lemma StoredNamePlain(dirName: string, name: string)
    requires IsPlainName(name)
    ensures IsPlainName(StoredName(dirName, name))
  {
    if StripsDir(dirName, name) {
      var rest := StoredName(dirName, name);
      forall i | 0 <= i < |rest| ensures 0 < rest[i] as int < 0x80 {
        assert rest[i] == name[|dirName| + 1 + i];
      }
    }
  }

  /** A record holding `e`'s fields parses back to `Reread`. */
  lemma RecordBytesBack(out: seq<u8>, at: nat, dirName: string, e: FileEntry, off: u32, r: seq<u8>)
    requires RecordReopens(dirName, e)
    requires RecordBytes(r, NameBytes(StoredName(dirName, e.name)), Attributes(e), off, e.size, StoredPackedSize(e))
    requires at + |r| <= |out| && out[at..at + |r|] == r
    ensures RecordAt(out, at, dirName) == Some((Reread(dirName, e, off), at + |r|))
  {
    var name := StoredName(dirName, e.name);
    var nb := NameBytes(name);
    EntryInside(out, at, r, nb, Attributes(e), off, e.size, StoredPackedSize(e), dirName);
    assert DecodeFilename(nb) == name by {
      StoredNamePlain(dirName, e.name);
      DecodeNameBytes(name);
    }
    AttributesFlag(e);
  }

  /** The record `save` writes for `e` parses back to `Reread`. */
  lemma RecordBack(out: seq<u8>, at: nat, dirName: string, e: FileEntry, off: u32, r: seq<u8>)
    requires RecordReopens(dirName, e)
    requires r == Written(RecordWrites(dirName, e, off))
    requires at + |r| <= |out| && out[at..at + |r|] == r
    ensures RecordAt(out, at, dirName) == Some((Reread(dirName, e, off), at + |r|))
  {
    RecordWrittenBytes(dirName, e, off);
    RecordBytesBack(out, at, dirName, e, off, r);
  }

  // ---------------------------------------------------------------------------
  // Parsing is local: a piece parsed on its own parses the same inside a buffer
  // ---------------------------------------------------------------------------

  /** The fields of a record at `k` of `c` are read the same at `at + k` of a buffer holding `c` at `at`. */
  lemma EntryAtShift(out: seq<u8>, at: nat, c: seq<u8>, k: nat, dirName: string)
    requires at + |c| <= |out| && out[at..at + |c|] == c
    requires ItemLen(Record, c, k).Some?
    ensures ItemLen(Record, out, at + k) == ItemLen(Record, c, k)
    ensures EntryAt(out, at + k, dirName) == EntryAt(c, k, dirName)
  {
    var n := c[k];
    ByteInside(out, at, c, k);
    SliceInside(out, at, c, k + 1, k + 1 + n);
    ReadU32BEInside(out, at, c, k + 1 + n);
    ReadU32BEInside(out, at, c, k + 5 + n);
    ReadU32BEInside(out, at, c, k + 9 + n);
    ReadU32BEInside(out, at, c, k + 13 + n);
  }

  /** The record at the start of `c` is read the same at `at` of a buffer holding `c` at `at`. */
  lemma EntryAtWindow(out: seq<u8>, at: nat, c: seq<u8>, dirName: string)
    requires at + |c| <= |out| && out[at..at + |c|] == c
    requires ItemLen(Record, c, 0).Some?
    ensures ItemLen(Record, out, at) == ItemLen(Record, c, 0)
    ensures EntryAt(out, at, dirName) == EntryAt(c, 0, dirName)
  {
    EntryAtShift(out, at, c, 0, dirName);
  }

  /** Each of `xs` moved on by `d`. */
  function Moved(xs: seq<nat>, d: nat): (r: seq<nat>)
    ensures |r| == |xs|
    decreases |xs|
  {
    if xs == [] then [] else [xs[0] + d] + Moved(xs[1..], d)
  }

  lemma {:induction false} MovedAt(xs: seq<nat>, d: nat, j: nat)
    requires j < |xs|
    ensures Moved(xs, d)[j] == xs[j] + d
    decreases j
  {
    if j > 0 {
      MovedAt(xs[1..], d, j - 1);
    }
  }

  /** The record walk from `k` of `c` walks the same from `at + k` of a buffer holding `c` at `at`. */
  lemma {:induction false} RecordStartsShift(out: seq<u8>, at: nat, c: seq<u8>, k: nat, count: nat)
    requires at + |c| <= |out| && out[at..at + |c|] == c
    requires RecordStarts(c, k, count).Some?
    ensures var (starts, end) := RecordStarts(c, k, count).value;
            RecordStarts(out, at + k, count) == Some((Moved(starts, at), at + end))
    decreases count
  {
    if count > 0 {
      var n := ItemLen(Record, c, k).value;
      var (starts, end) := RecordStarts(c, k + n, count - 1).value;
      ByteInside(out, at, c, k);
      RecordStartsShift(out, at, c, k + n, count - 1);
      assert ([k] + starts)[1..] == starts;
      assert Moved([k] + starts, at) == [at + k] + Moved(starts, at);
    }
  }

  /** What the record loop reads: the entry at each start of the walk. */
  lemma RecordsFromAt(data: seq<u8>, at: nat, count: nat, dirName: string, j: nat)
    requires RecordsFrom(data, at, count, dirName).Some? && j < count
    ensures var starts := RecordStarts(data, at, count).value.0;
            ItemLen(Record, data, starts[j]).Some?
            && RecordsFrom(data, at, count, dirName).value.0[j] == EntryAt(data, starts[j], dirName)
  {
  }

  /** The `j`-th record of a walk in `c` is read the same at its moved start in a buffer holding `c` at `at`. */
  lemma MovedEntry(out: seq<u8>, at: nat, c: seq<u8>, starts: seq<nat>, j: nat, dirName: string)
    requires at + |c| <= |out| && out[at..at + |c|] == c
    requires j < |starts| && ItemLen(Record, c, starts[j]).Some?
    ensures ItemLen(Record, out, Moved(starts, at)[j]).Some?
    ensures EntryAt(out, Moved(starts, at)[j], dirName) == EntryAt(c, starts[j], dirName)
  {
    MovedAt(starts, at, j);
    EntryAtShift(out, at, c, starts[j], dirName);
  }

  /** The record loop run from `k` of `c` runs the same from `at + k` of a buffer holding `c` at `at`. */
  lemma RecordsFromShift(out: seq<u8>, at: nat, c: seq<u8>, k: nat, count: nat, dirName: string)
    requires at + |c| <= |out| && out[at..at + |c|] == c
    requires RecordsFrom(c, k, count, dirName).Some?
    ensures var (files, end) := RecordsFrom(c, k, count, dirName).value;
            RecordsFrom(out, at + k, count, dirName) == Some((files, at + end))
  {
    var (starts, end) := RecordStarts(c, k, count).value;
    var files := RecordsFrom(c, k, count, dirName).value.0;
    RecordStartsShift(out, at, c, k, count);
    forall j | 0 <= j < count
      ensures ItemLen(Record, out, Moved(starts, at)[j]).Some?
      ensures EntryAt(out, Moved(starts, at)[j], dirName) == files[j]
    {
      RecordsFromAt(c, k, count, dirName, j);
      MovedEntry(out, at, c, starts, j, dirName);
    }
    RecordsRead(out, at + k, count, dirName, Moved(starts, at), files, at + end);
  }

  /** The name at the start of `c` is found at `at` of a buffer holding `c` at `at`. */
  lemma DirNameAtWindow(out: seq<u8>, at: nat, c: seq<u8>)
    requires at + |c| <= |out| && out[at..at + |c|] == c
    requires ItemLen(DirName, c, 0).Some?
    ensures ItemLen(DirName, out, at) == ItemLen(DirName, c, 0)
    ensures DirNameAt(out, at) == DirNameAt(c, 0)
  {
    ByteInside(out, at, c, 0);
    SliceInside(out, at, c, 1, 1 + c[0] as nat);
  }

  /** One turn of the name loop. */
  lemma NamesFromStep(data: seq<u8>, at: nat, count: nat, n: nat, names: seq<string>, end: nat)
    requires count > 0 && ItemLen(DirName, data, at) == Some(n)
    requires NamesFrom(data, at + n, count - 1) == Some((names, end))
    ensures NamesFrom(data, at, count) == Some(([DirNameAt(data, at)] + names, end))
  {
  }

  /** One turn of the directory loop. */
  lemma DirectoriesFromStep(data: seq<u8>, at: nat, names: seq<string>, files: seq<FileEntry>, next: nat,
                            ds: seq<Directory>, end: nat)
    requires names != [] && at + BlockHeaderSize <= |data|
    requires RecordsFrom(data, at + BlockHeaderSize, ReadU32BE(data, at), names[0]) == Some((files, next))
    requires DirectoriesFrom(data, next, names[1..]) == Some((ds, end))
    ensures DirectoriesFrom(data, at, names) == Some(([Directory(names[0], files)] + ds, end))
  {
  }

  // ---------------------------------------------------------------------------
  // Reading pieces laid end to end
  // ---------------------------------------------------------------------------

  /** `r` parsed on its own is exactly one record, describing `e`. */
  predicate RecordPiece(r: seq<u8>, e: FileEntry, dirName: string) {
    ItemLen(Record, r, 0) == Some(|r|) && EntryAt(r, 0, dirName) == e
  }

  /** One turn of the record walk. */
  lemma RecordStartStepped(data: seq<u8>, at: nat, n: nat, count: nat, starts: seq<nat>, end: nat)
    requires count > 0 && ItemLen(Record, data, at) == Some(n)
    requires RecordStarts(data, at + n, count - 1) == Some((starts, end))
    ensures RecordStarts(data, at, count) == Some(([at] + starts, end))
  {
  }

  /** The record walk from record `k` of records laid out between the bounds `ps` stops at each bound. */
  lemma {:induction false} StartsOfRecords(out: seq<u8>, ps: seq<nat>, rs: seq<seq<u8>>, k: nat)
    requires LaidOut(out, ps, rs) && k <= |rs|
    requires forall j :: 0 <= j < |rs| ==> ItemLen(Record, rs[j], 0) == Some(|rs[j]|)
    ensures RecordStarts(out, ps[k], |rs| - k) == Some((ps[k..|rs|], ps[|rs|]))
    decreases |rs| - k
  {
    if k < |rs| {
      StartsOfRecords(out, ps, rs, k + 1);
      ByteInside(out, ps[k], rs[k], 0);
      RecordStartStepped(out, ps[k], |rs[k]|, |rs| - k, ps[k + 1..|rs|], ps[|rs|]);
      assert [ps[k]] + ps[k + 1..|rs|] == ps[k..|rs|];
    }
  }

  /** Each of records laid out between the bounds `ps` is read at its bound. */
  lemma EntriesOfRecords(out: seq<u8>, ps: seq<nat>, rs: seq<seq<u8>>, es: seq<FileEntry>, dirName: string)
    requires LaidOut(out, ps, rs) && |rs| == |es|
    requires forall j :: 0 <= j < |rs| ==> RecordPiece(rs[j], es[j], dirName)
    ensures forall j :: 0 <= j < |rs| ==>
              ItemLen(Record, out, ps[0..|rs|][j]).Some? && EntryAt(out, ps[0..|rs|][j], dirName) == es[j]
  {
    forall j | 0 <= j < |rs|
      ensures ItemLen(Record, out, ps[0..|rs|][j]).Some? && EntryAt(out, ps[0..|rs|][j], dirName) == es[j]
    {
      assert ps[0..|rs|][j] == ps[j] && RecordPiece(rs[j], es[j], dirName);
      EntryAtWindow(out, ps[j], rs[j], dirName);
    }
  }

  /** Records laid out between the bounds `ps` are read by the record loop, each in turn. */
  lemma RecordsOfItems(out: seq<u8>, ps: seq<nat>, rs: seq<seq<u8>>, es: seq<FileEntry>, dirName: string)
    requires LaidOut(out, ps, rs) && |rs| == |es|
    requires forall j :: 0 <= j < |rs| ==> RecordPiece(rs[j], es[j], dirName)
    ensures RecordsFrom(out, ps[0], |rs|, dirName) == Some((es, ps[|rs|]))
  {
    StartsOfRecords(out, ps, rs, 0);
    EntriesOfRecords(out, ps, rs, es, dirName);
    RecordsRead(out, ps[0], |rs|, dirName, ps[0..|rs|], es, ps[|rs|]);
  }

  /** Records laid end to end are read by the record loop, each in turn. */
  lemma RecordsOfPieces(out: seq<u8>, at: nat, rs: seq<seq<u8>>, es: seq<FileEntry>, dirName: string)
    requires |rs| == |es|
    requires forall j :: 0 <= j < |rs| ==> RecordPiece(rs[j], es[j], dirName)
    requires at + |Concat(rs)| <= |out| && out[at..at + |Concat(rs)|] == Concat(rs)
    ensures RecordsFrom(out, at, |es|, dirName) == Some((es, at + |Concat(rs)|))
  {
    var ps := Bounds(rs, at);
    assert RecordsFrom(out, ps[0], |rs|, dirName) == Some((es, ps[|rs|])) && ps[|rs|] == at + |Concat(rs)| by {
      PiecesLaid(out, at, rs);
      RecordsOfItems(out, ps, rs, es, dirName);
    }
  }

  /** Records laid end to end as the window `w` of `out` are read by the record loop, each in turn. */
  lemma RecordsOfWindow(out: seq<u8>, at: nat, rs: seq<seq<u8>>, es: seq<FileEntry>, w: seq<u8>, dirName: string)
    requires |rs| == |es| && Concat(rs) == w
    requires forall j :: 0 <= j < |rs| ==> RecordPiece(rs[j], es[j], dirName)
    requires at + |w| <= |out| && out[at..at + |w|] == w
    ensures RecordsFrom(out, at, |es|, dirName) == Some((es, at + |w|))
  {
    RecordsOfPieces(out, at, rs, es, dirName);
  }

  /** `c` parsed on its own is exactly one directory name, `name`. */
  predicate NamePiece(c: seq<u8>, name: string) {
    ItemLen(DirName, c, 0) == Some(|c|) && DirNameAt(c, 0) == name
  }

  /** A name at `at`, then names the loop reads after it. */
  lemma NameThenNames(out: seq<u8>, at: nat, c: seq<u8>, count: nat, name: string, rest: seq<string>, end: nat)
    requires NamePiece(c, name) && count == |rest| + 1
    requires at + |c| <= |out| && out[at..at + |c|] == c
    requires NamesFrom(out, at + |c|, |rest|) == Some((rest, end))
    ensures NamesFrom(out, at, count) == Some(([name] + rest, end))
  {
    DirNameAtWindow(out, at, c);
    NamesFromStep(out, at, count, |c|, rest, end);
  }

  /** The name loop from name `k` of names laid out between the bounds `ps` reads each in turn. */
  lemma {:induction false} NamesOfItems(out: seq<u8>, ps: seq<nat>, cs: seq<seq<u8>>, names: seq<string>, k: nat)
    requires LaidOut(out, ps, cs) && |cs| == |names| && k <= |cs|
    requires forall j :: 0 <= j < |cs| ==> NamePiece(cs[j], names[j])
    ensures NamesFrom(out, ps[k], |names| - k) == Some((names[k..], ps[|cs|]))
    decreases |cs| - k
  {
    if k < |cs| {
      NamesOfItems(out, ps, cs, names, k + 1);
      assert NamesFrom(out, ps[k], |names| - k) == Some(([names[k]] + names[k + 1..], ps[|cs|])) by {
        NameThenNames(out, ps[k], cs[k], |names| - k, names[k], names[k + 1..], ps[|cs|]);
      }
      assert [names[k]] + names[k + 1..] == names[k..];
    } else {
      assert names[k..] == [];
    }
  }

  /** Names laid end to end are read by the name loop, each in turn. */
  lemma NamesOfPieces(out: seq<u8>, at: nat, cs: seq<seq<u8>>, names: seq<string>)
    requires |cs| == |names|
    requires forall j :: 0 <= j < |cs| ==> NamePiece(cs[j], names[j])
    requires at + |Concat(cs)| <= |out| && out[at..at + |Concat(cs)|] == Concat(cs)
    ensures NamesFrom(out, at, |names|) == Some((names, at + |Concat(cs)|))
  {
    var ps := Bounds(cs, at);
    assert NamesFrom(out, ps[0], |names| - 0) == Some((names[0..], ps[|cs|])) && ps[|cs|] == at + |Concat(cs)| by {
      PiecesLaid(out, at, cs);
      NamesOfItems(out, ps, cs, names, 0);
    }
    assert names[0..] == names;
  }

  /**
    `b` parsed on its own is a block header counting the records after it,
    and those records are the files of `d`.
  */
  predicate BlockPiece(b: seq<u8>, d: Directory) {
    |b| >= BlockHeaderSize && RecordsFrom(b, BlockHeaderSize, ReadU32BE(b, 0), d.name) == Some((d.files, |b|))
  }

  /** A block at `at`, then directories the loop reads after it. */
  lemma BlockThenDirectories(out: seq<u8>, at: nat, b: seq<u8>, names: seq<string>, ds: seq<Directory>, end: nat)
    requires |ds| == |names| > 0 && ds[0].name == names[0] && BlockPiece(b, ds[0])
    requires at + |b| <= |out| && out[at..at + |b|] == b
    requires DirectoriesFrom(out, at + |b|, names[1..]) == Some((ds[1..], end))
    ensures DirectoriesFrom(out, at, names) == Some((ds, end))
  {
    ReadU32BEInside(out, at, b, 0);
    RecordsFromShift(out, at, b, BlockHeaderSize, ReadU32BE(b, 0), names[0]);
    DirectoriesFromStep(out, at, names, ds[0].files, at + |b|, ds[1..], end);
    assert [Directory(names[0], ds[0].files)] + ds[1..] == ds;
  }

  /** The directory loop from block `k` of blocks laid out between the bounds `ps` reads each in turn. */
  lemma {:induction false} DirectoriesOfBlocks(out: seq<u8>, ps: seq<nat>, bs: seq<seq<u8>>, ds: seq<Directory>,
                                               names: seq<string>, k: nat)
    requires LaidOut(out, ps, bs) && |bs| == |ds| == |names| && k <= |bs|
    requires forall j :: 0 <= j < |bs| ==> BlockPiece(bs[j], ds[j])
    requires forall j :: 0 <= j < |bs| ==> names[j] == ds[j].name
    ensures DirectoriesFrom(out, ps[k], names[k..]) == Some((ds[k..], ps[|bs|]))
    decreases |bs| - k
  {
    if k < |bs| {
      DirectoriesOfBlocks(out, ps, bs, ds, names, k + 1);
      assert names[k..][1..] == names[k + 1..] && ds[k..][1..] == ds[k + 1..];
      BlockThenDirectories(out, ps[k], bs[k], names[k..], ds[k..], ps[|bs|]);
    }
  }

  /** Blocks laid end to end are read by the directory loop, each in turn. */
  lemma DirectoriesOfPieces(out: seq<u8>, at: nat, bs: seq<seq<u8>>, ds: seq<Directory>, names: seq<string>)
    requires |bs| == |ds| == |names|
    requires forall j :: 0 <= j < |bs| ==> BlockPiece(bs[j], ds[j])
    requires forall j :: 0 <= j < |bs| ==> names[j] == ds[j].name
    requires at + |Concat(bs)| <= |out| && out[at..at + |Concat(bs)|] == Concat(bs)
    ensures DirectoriesFrom(out, at, names) == Some((ds, at + |Concat(bs)|))
  {
    var ps := Bounds(bs, at);
    assert DirectoriesFrom(out, ps[0], names[0..]) == Some((ds[0..], ps[|bs|])) && ps[|bs|] == at + |Concat(bs)| by {
      PiecesLaid(out, at, bs);
      DirectoriesOfBlocks(out, ps, bs, ds, names, 0);
    }
    assert names[0..] == names && ds[0..] == ds;
  }

  // ---------------------------------------------------------------------------
  // The pieces `save` writes, each read back on its own
  // ---------------------------------------------------------------------------

  /** The record `save` writes for each of `files`, one piece each. */
  function RecordChunks(dirName: string, files: seq<FileEntry>, off: nat): (r: seq<seq<u8>>)
    requires off + PackedTotal(files) < 0x1_0000_0000
    ensures |r| == |files|
    decreases |files|
  {
    if files == [] then []
    else [Written(RecordWrites(dirName, files[0], off))] + RecordChunks(dirName, files[1..], off + files[0].packedSize)
  }

  lemma {:induction false} RecordChunksWritten(dirName: string, files: seq<FileEntry>, off: nat)
    requires off + PackedTotal(files) < 0x1_0000_0000
    ensures Concat(RecordChunks(dirName, files, off)) == Written(RecordsWrites(dirName, files, off))
    decreases |files|
  {
    if files != [] {
      var next := off + files[0].packedSize;
      var first, rest := RecordWrites(dirName, files[0], off), RecordsWrites(dirName, files[1..], next);
      calc {
        Concat(RecordChunks(dirName, files, off));
        Concat([Written(first)] + RecordChunks(dirName, files[1..], next));
        { ConcatCons(Written(first), RecordChunks(dirName, files[1..], next)); }
        Written(first) + Concat(RecordChunks(dirName, files[1..], next));
        { RecordChunksWritten(dirName, files[1..], next); }
        Written(first) + Written(rest);
        { WrittenAppend(first, rest); }
        Written(first + rest);
      }
    }
  }

  /** The record `save` writes for `e` is one record on its own, describing `Reread`. */
  lemma RecordChunkPiece(dirName: string, e: FileEntry, off: u32)
    requires RecordReopens(dirName, e)
    ensures RecordPiece(Written(RecordWrites(dirName, e, off)), Reread(dirName, e, off), dirName)
  {
    var r := Written(RecordWrites(dirName, e, off));
    assert r[0..0 + |r|] == r;
    RecordBack(r, 0, dirName, e, off, r);
  }

  /** Chunk `j` of the records is the record of `files[j]`, written at the offset the entries before it run up to. */
  lemma {:induction false} RecordChunkAt(dirName: string, files: seq<FileEntry>, off: nat, j: nat) returns (o: u32)
    requires off + PackedTotal(files) < 0x1_0000_0000
    requires j < |files|
    ensures RecordChunks(dirName, files, off)[j] == Written(RecordWrites(dirName, files[j], o))
    ensures RereadRecords(dirName, files, off)[j] == Reread(dirName, files[j], o)
    decreases j
  {
    if j == 0 {
      o := off;
    } else {
      o := RecordChunkAt(dirName, files[1..], off + files[0].packedSize, j - 1);
      assert files[1..][j - 1] == files[j];
    }
  }

  /**
    The records `save` writes for one directory, `w`, cut into pieces that
    each read back on their own, as the entries `es`.
  */
  lemma RecordPieces(dirName: string, files: seq<FileEntry>, off: nat, es: seq<FileEntry>, w: seq<u8>)
    returns (rs: seq<seq<u8>>)
    requires off + PackedTotal(files) < 0x1_0000_0000
    requires forall k :: 0 <= k < |files| ==> RecordReopens(dirName, files[k])
    requires es == RereadRecords(dirName, files, off) && w == Written(RecordsWrites(dirName, files, off))
    ensures |rs| == |files| && |es| == |files| && Concat(rs) == w
    ensures forall j :: 0 <= j < |rs| ==> RecordPiece(rs[j], es[j], dirName)
  {
    rs := RecordChunks(dirName, files, off);
    RecordChunksWritten(dirName, files, off);
    forall j | 0 <= j < |rs| ensures RecordPiece(rs[j], es[j], dirName) {
      var o := RecordChunkAt(dirName, files, off, j);
      RecordChunkPiece(dirName, files[j], o);
    }
  }

  /**
    The records `save` writes for one directory, `w`, are read back by the
    record loop as the entries `es`, the offsets running on.
  */
  lemma RecordsBack(out: seq<u8>, at: nat, dirName: string, files: seq<FileEntry>, off: nat,
                    es: seq<FileEntry>, w: seq<u8>)
    requires off + PackedTotal(files) < 0x1_0000_0000
    requires forall k :: 0 <= k < |files| ==> RecordReopens(dirName, files[k])
    requires es == RereadRecords(dirName, files, off) && w == Written(RecordsWrites(dirName, files, off))
    requires at + |w| <= |out| && out[at..at + |w|] == w
    ensures RecordsFrom(out, at, |files|, dirName) == Some((es, at + |w|))
  {
    var rs := RecordPieces(dirName, files, off, es, w);
    RecordsOfWindow(out, at, rs, es, w, dirName);
  }

  /** The block `save` writes for `d`: its header, then its records. */
  function BlockChunk(d: Directory, off: nat): seq<u8>
    requires off + PackedTotal(d.files) < 0x1_0000_0000
  {
    Written(BlockHeader(|d.files|) + RecordsWrites(d.name, d.files, off))
  }

  /** A 16-byte header starting with `x`, then `w`: `x` reads back at the start, `w` sits after the header. */
  lemma HeaderThen(b: seq<u8>, h: seq<u8>, w: seq<u8>, x: u32)
    requires b == h + w && |h| == BlockHeaderSize && h[..4] == U32BE(x)
    ensures |b| == BlockHeaderSize + |w| && ReadU32BE(b, 0) == x && b[BlockHeaderSize..BlockHeaderSize + |w|] == w
  {
    assert b[0..4] == h[..4];
    ReadU32BEOfU32BE(b, 0, x);
    assert b[BlockHeaderSize..BlockHeaderSize + |w|] == w;
  }

  /** The block `save` writes for `d`: its record count first, its records after the header. */
  lemma BlockChunkLayout(d: Directory, off: nat)
    requires off + PackedTotal(d.files) < 0x1_0000_0000 && |d.files| < 0x1_0000_0000
    ensures var b, w := BlockChunk(d, off), Written(RecordsWrites(d.name, d.files, off));
            && |b| == BlockHeaderSize + |w| && ReadU32BE(b, 0) == |d.files|
            && b[BlockHeaderSize..BlockHeaderSize + |w|] == w
  {
    WrittenAppend(BlockHeader(|d.files|), RecordsWrites(d.name, d.files, off));
    WordsWritten(AsU32(|d.files|), Dat1FormatId, DirectoryUnknown5, 0);
    HeaderThen(BlockChunk(d, off), Written(BlockHeader(|d.files|)), Written(RecordsWrites(d.name, d.files, off)),
               AsU32(|d.files|));
  }

  /** The block `save` writes for `d` counts its records and reads back on its own. */
  lemma BlockChunkPiece(d: Directory, off: nat)
    requires off + PackedTotal(d.files) < 0x1_0000_0000 && DirReopens(d)
    ensures BlockPiece(BlockChunk(d, off), Directory(d.name, RereadRecords(d.name, d.files, off)))
  {
    BlockChunkLayout(d, off);
    RecordsBack(BlockChunk(d, off), BlockHeaderSize, d.name, d.files, off,
                RereadRecords(d.name, d.files, off), Written(RecordsWrites(d.name, d.files, off)));
  }

  /** The block `save` writes for each of `dirs`, one piece each. */
  function BlockChunks(dirs: seq<Directory>, off: nat): (r: seq<seq<u8>>)
    requires off + DirsPackedTotal(dirs) < 0x1_0000_0000
    ensures |r| == |dirs|
    decreases |dirs|
  {
    if dirs == [] then [] else [BlockChunk(dirs[0], off)] + BlockChunks(dirs[1..], off + PackedTotal(dirs[0].files))
  }

  lemma {:induction false} BlockChunksWritten(dirs: seq<Directory>, off: nat)
    requires off + DirsPackedTotal(dirs) < 0x1_0000_0000
    ensures Concat(BlockChunks(dirs, off)) == Written(BlocksWrites(dirs, off))
    decreases |dirs|
  {
    if dirs != [] {
      var d, next := dirs[0], off + PackedTotal(dirs[0].files);
      BlockChunksWritten(dirs[1..], next);
      WrittenAppend(BlockHeader(|d.files|) + RecordsWrites(d.name, d.files, off), BlocksWrites(dirs[1..], next));
      ConcatCons(BlockChunk(d, off), BlockChunks(dirs[1..], next));
    }
  }

  /** Chunk `j` of the blocks is the block of `dirs[j]`, its records written from where the directories before it run up to. */
  lemma {:induction false} BlockChunkAt(dirs: seq<Directory>, off: nat, j: nat) returns (o: nat)
    requires off + DirsPackedTotal(dirs) < 0x1_0000_0000
    requires j < |dirs|
    ensures o + PackedTotal(dirs[j].files) < 0x1_0000_0000
    ensures BlockChunks(dirs, off)[j] == BlockChunk(dirs[j], o)
    ensures RereadDirs(dirs, off)[j] == Directory(dirs[j].name, RereadRecords(dirs[j].name, dirs[j].files, o))
    decreases j
  {
    if j == 0 {
      o := off;
    } else {
      var next := off + PackedTotal(dirs[0].files);
      o := BlockChunkAt(dirs[1..], next, j - 1);
      assert dirs[1..][j - 1] == dirs[j];
      assert BlockChunks(dirs, off)[j] == BlockChunks(dirs[1..], next)[j - 1];
      assert RereadDirs(dirs, off)[j] == RereadDirs(dirs[1..], next)[j - 1];
    }
  }

  /** The blocks `save` writes, cut into pieces that each read back on their own. */
  lemma BlockPieces(dirs: seq<Directory>, off: nat) returns (bs: seq<seq<u8>>)
    requires off + DirsPackedTotal(dirs) < 0x1_0000_0000
    requires forall k :: 0 <= k < |dirs| ==> DirReopens(dirs[k])
    ensures |bs| == |dirs| && Concat(bs) == Written(BlocksWrites(dirs, off))
    ensures forall j :: 0 <= j < |bs| ==> BlockPiece(bs[j], RereadDirs(dirs, off)[j])
  {
    bs := BlockChunks(dirs, off);
    BlockChunksWritten(dirs, off);
    forall j | 0 <= j < |bs| ensures BlockPiece(bs[j], RereadDirs(dirs, off)[j]) {
      var o := BlockChunkAt(dirs, off, j);
      BlockChunkPiece(dirs[j], o);
    }
  }

  /** The name of each of `dirs` as `save` writes it, one piece each. */
  function NameChunks(dirs: seq<Directory>): (r: seq<seq<u8>>)
    ensures |r| == |dirs|
    decreases |dirs|
  {
    if dirs == [] then [] else [Written(DirNameWrites(dirs[0]))] + NameChunks(dirs[1..])
  }

  lemma {:induction false} NameChunksWritten(dirs: seq<Directory>)
    ensures Concat(NameChunks(dirs)) == Written(NamesWrites(dirs))
    decreases |dirs|
  {
    if dirs != [] {
      NameChunksWritten(dirs[1..]);
      WrittenAppend(DirNameWrites(dirs[0]), NamesWrites(dirs[1..]));
      ConcatCons(Written(DirNameWrites(dirs[0])), NameChunks(dirs[1..]));
    }
  }

  /** The name `save` writes for `d` is one name on its own, `d`'s. */
  lemma NameChunkPiece(d: Directory)
    requires IsPlainName(d.name) && |NameBytes(d.name)| < 0x100
    ensures NamePiece(Written(DirNameWrites(d)), d.name)
  {
    DirNameWritten(d);
    DecodeNameBytes(d.name);
    LengthThenName(Written(DirNameWrites(d)), NameBytes(d.name), d.name);
  }

  /** A length byte, then that many bytes decoding to `name`: one directory name on its own. */
  lemma {:induction false} LengthThenName(c: seq<u8>, nb: seq<u8>, name: string)
    requires |nb| < 0x100 && c == [|nb|] + nb && DecodeFilename(nb) == name
    ensures NamePiece(c, name)
  {
    assert c[1..1 + |nb|] == nb;
  }

  /** Chunk `j` of the names is the name of `dirs[j]`. */
  lemma {:induction false} NameChunkAt(dirs: seq<Directory>, j: nat)
    requires j < |dirs|
    ensures NameChunks(dirs)[j] == Written(DirNameWrites(dirs[j]))
    decreases j
  {
    if j > 0 {
      NameChunkAt(dirs[1..], j - 1);
      assert dirs[1..][j - 1] == dirs[j];
    }
  }

  /** The names `save` writes, cut into pieces that each read back on their own. */
  lemma NamePieces(dirs: seq<Directory>) returns (cs: seq<seq<u8>>)
    requires forall k :: 0 <= k < |dirs| ==> DirReopens(dirs[k])
    ensures |cs| == |dirs| && Concat(cs) == Written(NamesWrites(dirs))
    ensures forall j :: 0 <= j < |cs| ==> NamePiece(cs[j], DirNames(dirs)[j])
  {
    cs := NameChunks(dirs);
    NameChunksWritten(dirs);
    forall j | 0 <= j < |cs| ensures NamePiece(cs[j], DirNames(dirs)[j]) {
      NameChunkAt(dirs, j);
      NameChunkPiece(dirs[j]);
    }
  }

  // ---------------------------------------------------------------------------
  // Saving, then opening
  // ---------------------------------------------------------------------------

  /** Where the header, the names and the blocks sit in what `save` writes. */
  lemma SavedLayout(out: seq<u8>, h: seq<u8>, n: seq<u8>, b: seq<u8>, d: seq<u8>, x: u32)
    requires out == h + n + b + d && |h| == HeaderSize && h[..4] == U32BE(x)
    ensures HeaderSize + |n| + |b| <= |out| && ReadU32BE(out, 0) == x
    ensures out[HeaderSize..HeaderSize + |n|] == n && out[HeaderSize + |n|..HeaderSize + |n| + |b|] == b
  {
    Windows(h, n, b, d, [], []);
    assert h + n + b + d + [] + [] == out;
    assert out[0..4] == h[..4];
    ReadU32BEOfU32BE(out, 0, x);
  }

  /** The archive header `save` writes: 16 bytes, the directory count first. */
  lemma HeaderWords(dirCount: nat)
    ensures var h := Written(Header(dirCount)); |h| == HeaderSize && h[..4] == U32BE(AsU32(dirCount))
  {
    WordsWritten(AsU32(dirCount), Dat1FormatId, 0, 0);
  }

  /** What `save` returns: the header, the names, the blocks, then the data. */
  lemma SavedParts(archive: seq<u8>, dirs: seq<Directory>) returns (h: seq<u8>, n: seq<u8>, b: seq<u8>, d: seq<u8>)
    requires SaveFits(dirs) && Saved(archive, dirs).Ok?
    ensures Saved(archive, dirs).value == h + n + b + d
    ensures |h| == HeaderSize && h[..4] == U32BE(AsU32(|dirs|))
    ensures n == Written(NamesWrites(dirs)) && b == Written(BlocksWrites(dirs, DataStart(dirs)))
  {
    h, n, b := Written(Header(|dirs|)), Written(NamesWrites(dirs)), Written(BlocksWrites(dirs, DataStart(dirs)));
    d := Concat(Contents(archive, AllFiles(dirs)).value);
    TreeWritten(dirs, DataStart(dirs));
    HeaderWords(|dirs|);
  }

  /** Where the names and the blocks `save` writes sit in what it returns, after a header counting the directories. */
  lemma SavedWindows(archive: seq<u8>, dirs: seq<Directory>, nc: seq<u8>, bc: seq<u8>)
    requires SaveFits(dirs) && |dirs| < 0x1_0000_0000 && Saved(archive, dirs).Ok?
    requires nc == Written(NamesWrites(dirs)) && bc == Written(BlocksWrites(dirs, DataStart(dirs)))
    ensures var out := Saved(archive, dirs).value;
            && HeaderSize + |nc| + |bc| <= |out| && ReadU32BE(out, 0) == |dirs|
            && out[HeaderSize..HeaderSize + |nc|] == nc && out[HeaderSize + |nc|..HeaderSize + |nc| + |bc|] == bc
  {
    var h, n, b, d := SavedParts(archive, dirs);
    SavedLayout(Saved(archive, dirs).value, h, nc, bc, d, AsU32(|dirs|));
  }

  /** The names and the blocks `save` writes, given as pieces, lie between bounds after the header. */
  lemma SavedLaidOut(archive: seq<u8>, dirs: seq<Directory>, cs: seq<seq<u8>>, bs: seq<seq<u8>>)
    returns (ps: seq<nat>, qs: seq<nat>)
    requires SaveFits(dirs) && |dirs| < 0x1_0000_0000 && Saved(archive, dirs).Ok?
    requires Concat(cs) == Written(NamesWrites(dirs)) && Concat(bs) == Written(BlocksWrites(dirs, DataStart(dirs)))
    ensures var out := Saved(archive, dirs).value;
            && |out| >= HeaderSize && ReadU32BE(out, 0) == |dirs|
            && LaidOut(out, ps, cs) && ps[0] == HeaderSize && LaidOut(out, qs, bs) && qs[0] == ps[|cs|]
  {
    SavedWindows(archive, dirs, Concat(cs), Concat(bs));
    ps, qs := RunsLaid(Saved(archive, dirs).value, HeaderSize, cs, bs);
  }

  /**
    What `save` returns, cut into the pieces the parser reads: the directory
    count, then the names between the bounds `ps` and the blocks between the
    bounds `qs`, each piece reading back on its own.
  */
  lemma SavedPieces(archive: seq<u8>, dirs: seq<Directory>)
    returns (ps: seq<nat>, cs: seq<seq<u8>>, qs: seq<nat>, bs: seq<seq<u8>>)
    requires SaveFits(dirs) && Reopenable(dirs) && Saved(archive, dirs).Ok?
    ensures var out := Saved(archive, dirs).value;
            && |out| >= HeaderSize && ReadU32BE(out, 0) == |dirs|
            && LaidOut(out, ps, cs) && ps[0] == HeaderSize && LaidOut(out, qs, bs) && qs[0] == ps[|cs|]
    ensures |cs| == |dirs| && forall j :: 0 <= j < |cs| ==> NamePiece(cs[j], DirNames(dirs)[j])
    ensures |bs| == |dirs| && forall j :: 0 <= j < |bs| ==> BlockPiece(bs[j], RereadDirs(dirs, DataStart(dirs))[j])
  {
    cs := NamePieces(dirs);
    bs := BlockPieces(dirs, DataStart(dirs));
    ps, qs := SavedLaidOut(archive, dirs, cs, bs);
  }

  /** `from_bytes` once the name loop and the directory loop have succeeded. */
  lemma OpenedStep(data: seq<u8>, names: seq<string>, end: nat, ds: seq<Directory>, last: nat)
    requires |data| >= HeaderSize && NamesFrom(data, HeaderSize, ReadU32BE(data, 0)) == Some((names, end))
    requires DirectoriesFrom(data, end, names) == Some((ds, last))
    ensures Opened(data) == Ok(ds)
  {
  }

  /** Names, then blocks, laid out after a header counting them, open to the directories the blocks describe. */
  lemma PiecesOpen(out: seq<u8>, ps: seq<nat>, cs: seq<seq<u8>>, qs: seq<nat>, bs: seq<seq<u8>>,
                   names: seq<string>, ds: seq<Directory>)
    requires |cs| == |bs| == |ds| == |names|
    requires forall j :: 0 <= j < |cs| ==> NamePiece(cs[j], names[j])
    requires forall j :: 0 <= j < |bs| ==> BlockPiece(bs[j], ds[j])
    requires forall j :: 0 <= j < |bs| ==> names[j] == ds[j].name
    requires |out| >= HeaderSize && ReadU32BE(out, 0) == |names|
    requires LaidOut(out, ps, cs) && ps[0] == HeaderSize && LaidOut(out, qs, bs) && qs[0] == ps[|cs|]
    ensures Opened(out) == Ok(ds)
  {
    assert NamesFrom(out, HeaderSize, |names|) == Some((names, qs[0])) by {
      NamesOfItems(out, ps, cs, names, 0);
      assert names[0..] == names;
    }
    assert DirectoriesFrom(out, qs[0], names) == Some((ds, qs[|bs|])) by {
      DirectoriesOfBlocks(out, qs, bs, ds, names, 0);
      assert names[0..] == names && ds[0..] == ds;
    }
    OpenedStep(out, names, qs[0], ds, qs[|bs|]);
  }

  /**
    A saved archive opens to the directories it was saved from, in order,
    each record's name put back together, its data at the offset `save`
    gave it: the data start from the first pass, running on entry by entry.
  */
  lemma SaveThenOpen(archive: seq<u8>, dirs: seq<Directory>)
    requires SaveFits(dirs) && Reopenable(dirs)
    ensures Saved(archive, dirs).Ok? ==> Opened(Saved(archive, dirs).value) == Ok(RereadDirs(dirs, DataStart(dirs)))
  {
    if Saved(archive, dirs).Ok? {
      var ps, cs, qs, bs := SavedPieces(archive, dirs);
      PiecesOpen(Saved(archive, dirs).value, ps, cs, qs, bs, DirNames(dirs), RereadDirs(dirs, DataStart(dirs)));
    }
  }
}
