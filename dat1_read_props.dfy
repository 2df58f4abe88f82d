/**
  What reading a saved DAT1 archive gives back: every entry's data offset is
  where the first pass says the data starts plus the packed sizes of the
  entries written before it, `read_file_data` of each reopened entry returns
  the bytes `save` wrote for it, and a new archive saves and reopens as it is.
*/
module Dat1ReadProps {
  import opened Wrappers
  import opened Bytes
  import opened Common
  import opened Dat1
  import opened Dat1Props

  // ---------------------------------------------------------------------------
  // Sums of packed sizes
  // ---------------------------------------------------------------------------

  lemma {:induction false} PackedTotalAppend(a: seq<FileEntry>, b: seq<FileEntry>)
    ensures PackedTotal(a + b) == PackedTotal(a) + PackedTotal(b)
    decreases |a|
  {
    if a == [] {
      assert a + b == b;
    } else {
      assert (a + b)[0] == a[0] && (a + b)[1..] == a[1..] + b;
      PackedTotalAppend(a[1..], b);
    }
  }

  // ---------------------------------------------------------------------------
  // Where the reopened entries' data is
  // ---------------------------------------------------------------------------

  /** Entry `j` of one directory is read back with the offset the entries before it run up to. */
  lemma {:induction false} RereadRecordsAt(dirName: string, files: seq<FileEntry>, off: nat, j: nat) returns (o: u32)
    requires off + PackedTotal(files) < 0x1_0000_0000 && j < |files|
    ensures o == off + PackedTotal(files[..j])
    ensures RereadRecords(dirName, files, off)[j] == Reread(dirName, files[j], o)
    decreases j
  {
    if j == 0 {
      assert files[..0] == [];
      o := off;
    } else {
      var next := off + files[0].packedSize;
      o := RereadRecordsAt(dirName, files[1..], next, j - 1);
      assert files[1..][j - 1] == files[j];
      assert files[..j][0] == files[0] && files[..j][1..] == files[1..][..j - 1];
      assert RereadRecords(dirName, files, off)[j] == RereadRecords(dirName, files[1..], next)[j - 1];
    }
  }

  lemma {:induction false} RereadAllLength(dirs: seq<Directory>, off: nat)
    requires off + DirsPackedTotal(dirs) < 0x1_0000_0000
    ensures |AllFiles(RereadDirs(dirs, off))| == |AllFiles(dirs)|
    decreases |dirs|
  {
    if dirs != [] {
      var next := off + PackedTotal(dirs[0].files);
      RereadAllLength(dirs[1..], next);
      assert RereadDirs(dirs, off)[1..] == RereadDirs(dirs[1..], next);
    }
  }

  /**
    Entry `i` of all directories, in the order `save` writes the data, is read
    back with the offset `off` plus the packed sizes of the entries before it.
  */
  lemma {:induction false} RereadAllAt(dirs: seq<Directory>, off: nat, i: nat) returns (dirName: string, o: u32)
    requires off + DirsPackedTotal(dirs) < 0x1_0000_0000 && i < |AllFiles(dirs)|
    ensures |AllFiles(RereadDirs(dirs, off))| == |AllFiles(dirs)|
    ensures o == off + PackedTotal(AllFiles(dirs)[..i])
    ensures AllFiles(RereadDirs(dirs, off))[i] == Reread(dirName, AllFiles(dirs)[i], o)
    decreases |dirs|
  {
    RereadAllLength(dirs, off);
    var d, rest := dirs[0], dirs[1..];
    var next := off + PackedTotal(d.files);
    var rr := RereadRecords(d.name, d.files, off);
    assert RereadDirs(dirs, off)[0].files == rr;
    assert RereadDirs(dirs, off)[1..] == RereadDirs(rest, next);
    assert AllFiles(RereadDirs(dirs, off)) == rr + AllFiles(RereadDirs(rest, next));
    if i < |d.files| {
      assert AllFiles(dirs)[..i] == d.files[..i];
      dirName := d.name;
      o := RereadRecordsAt(d.name, d.files, off, i);
    } else {
      var k := i - |d.files|;
      assert AllFiles(dirs)[..i] == d.files + AllFiles(rest)[..k];
      PackedTotalAppend(d.files, AllFiles(rest)[..k]);
      dirName, o := RereadAllAt(rest, next, k);
    }
  }

  /**
    An entry reopened from what `save` wrote for `e` keeps the size and the
    compression of `e`, has no data of its own, and its packed size is that of
    `e` (a stored 0 is read as the size, which an uncompressed entry equals).
  */
  lemma RereadFields(dirName: string, e: FileEntry, off: u32)
    requires DataReopens(e)
    ensures var r := Reread(dirName, e, off);
            && r.offset == off && r.size == e.size && r.packedSize == e.packedSize
            && r.compressed == e.compressed && r.data.None?
  {
  }

  /**
    An entry whose data `save` writes and reads back unchanged: its bytes, if
    it holds them, are `packed_size` long, an uncompressed one is as long as its
    original, and a compressed one has a nonzero packed size (a stored 0 would
    be read as the size).
  */
  predicate DataReopens(e: FileEntry) {
    WellFormedEntry(e) && (e.compressed ==> e.packedSize > 0)
  }

  /**
    The offsets `save` writes: in the reopened archive, entry `i` (in the order
    of the data) has the first pass's data start plus the packed sizes of the
    entries before it, and the data start is where the data begins.
  */
  lemma SavedOffsets(archive: seq<u8>, dirs: seq<Directory>, i: nat)
    requires SaveFits(dirs) && Reopenable(dirs) && Saved(archive, dirs).Ok? && i < |AllFiles(dirs)|
    ensures var out := Saved(archive, dirs).value;
            && Opened(out).Ok? && i < |AllFiles(Opened(out).value)|
            && AllFiles(Opened(out).value)[i].offset == DataStart(dirs) + PackedTotal(AllFiles(dirs)[..i])
    ensures |Written(Header(|dirs|) + NamesWrites(dirs) + BlocksWrites(dirs, DataStart(dirs)))| == DataStart(dirs)
  {
    SaveThenOpen(archive, dirs);
    var dirName, o := RereadAllAt(dirs, DataStart(dirs), i);
    DataStartIsDataPosition(dirs);
  }

  // ---------------------------------------------------------------------------
  // Reading the data back
  // ---------------------------------------------------------------------------

  lemma {:induction false} ConcatPacked(cs: seq<seq<u8>>, files: seq<FileEntry>, i: nat)
    requires |cs| == |files| && i <= |files|
    requires forall m :: 0 <= m < |files| ==> |cs[m]| == files[m].packedSize
    ensures |Concat(cs[..i])| == PackedTotal(files[..i])
    decreases i
  {
    if i == 0 {
      assert cs[..0] == [] && files[..0] == [];
    } else {
      ConcatPacked(cs, files, i - 1);
      assert cs[..i] == cs[..i - 1] + [cs[i - 1]];
      ConcatSnoc(cs[..i - 1], cs[i - 1]);
      assert files[..i] == files[..i - 1] + [files[i - 1]];
      PackedTotalAppend(files[..i - 1], [files[i - 1]]);
    }
  }

  /** Data laid end to end after `t`: part `i` starts at `|t|` plus the packed sizes before it. */
  lemma DataWindow(out: seq<u8>, t: seq<u8>, cs: seq<seq<u8>>, files: seq<FileEntry>, i: nat)
    requires out == t + Concat(cs) && |cs| == |files| && i < |files|
    requires forall m :: 0 <= m < |files| ==> |cs[m]| == files[m].packedSize
    ensures var p := |t| + PackedTotal(files[..i]);
            p + files[i].packedSize <= |out| && out[p..p + files[i].packedSize] == cs[i]
  {
    ConcatPacked(cs, files, i);
    ConcatAt(cs, i);
    assert out[|t|..|t| + |Concat(cs)|] == Concat(cs);
    SliceInside(out, |t|, Concat(cs), |Concat(cs[..i])|, |Concat(cs[..i])| + |cs[i]|);
  }

  /** The data `save` writes for each entry is `packed_size` bytes long. */
  lemma ContentsPacked(archive: seq<u8>, files: seq<FileEntry>)
    requires Contents(archive, files).Ok?
    requires forall m :: 0 <= m < |files| ==> DataReopens(files[m])
    ensures forall m :: 0 <= m < |files| ==> |Contents(archive, files).value[m]| == files[m].packedSize
  {
  }

  /** What `save` returns: the header, names and blocks, `DataStart` bytes long, then the data. */
  lemma SavedData(archive: seq<u8>, dirs: seq<Directory>) returns (t: seq<u8>)
    requires SaveFits(dirs) && Saved(archive, dirs).Ok?
    ensures Contents(archive, AllFiles(dirs)).Ok?
    ensures Saved(archive, dirs).value == t + Concat(Contents(archive, AllFiles(dirs)).value)
    ensures |t| == DataStart(dirs)
  {
    t := Written(Header(|dirs|) + NamesWrites(dirs) + BlocksWrites(dirs, DataStart(dirs)));
    DataStartIsDataPosition(dirs);
  }

  /**
    `read_file_data` of an entry of the reopened archive returns the bytes
    `save` wrote for that entry: its own bytes, or the bytes it had in the
    archive it was opened from.
  */
  /** `read_file_data` of a reopened entry whose window of `out` holds `bytes`. */
  lemma ReadBack(out: seq<u8>, dirName: string, e: FileEntry, o: u32, bytes: seq<u8>)
    requires DataReopens(e) && o + e.packedSize <= |out| && out[o..o + e.packedSize] == bytes
    ensures ReadFileData(out, Reread(dirName, e, o)) == Ok(bytes)
  {
    RereadFields(dirName, e, o);
  }

  /** Entry `i` reopened at `|t|` plus the packed sizes before it reads its own part of the data after `t`. */
  lemma ReadPart(out: seq<u8>, t: seq<u8>, cs: seq<seq<u8>>, files: seq<FileEntry>, i: nat, dirName: string, o: u32)
    requires out == t + Concat(cs) && |cs| == |files| && i < |files|
    requires forall m :: 0 <= m < |files| ==> |cs[m]| == files[m].packedSize
    requires DataReopens(files[i]) && o == |t| + PackedTotal(files[..i])
    ensures ReadFileData(out, Reread(dirName, files[i], o)) == Ok(cs[i])
  {
    DataWindow(out, t, cs, files, i);
    ReadBack(out, dirName, files[i], o, cs[i]);
  }

  lemma SaveThenRead(archive: seq<u8>, dirs: seq<Directory>, i: nat)
    requires SaveFits(dirs) && Reopenable(dirs) && Saved(archive, dirs).Ok?
    requires forall m :: 0 <= m < |AllFiles(dirs)| ==> DataReopens(AllFiles(dirs)[m])
    requires i < |AllFiles(dirs)|
    ensures Contents(archive, AllFiles(dirs)).Ok?
    ensures var out := Saved(archive, dirs).value;
            && Opened(out).Ok? && i < |AllFiles(Opened(out).value)|
            && ReadFileData(out, AllFiles(Opened(out).value)[i]) == Ok(Contents(archive, AllFiles(dirs)).value[i])
  {
    var out := Saved(archive, dirs).value;
    var files := AllFiles(dirs);
    assert Opened(out) == Ok(RereadDirs(dirs, DataStart(dirs))) by {
      SaveThenOpen(archive, dirs);
    }
    var dirName, o := RereadAllAt(dirs, DataStart(dirs), i);
    assert ReadFileData(out, Reread(dirName, files[i], o)) == Ok(Contents(archive, files).value[i]) by {
      var t := SavedData(archive, dirs);
      ContentsPacked(archive, files);
      ReadPart(out, t, Contents(archive, files).value, files, i, dirName, o);
    }
  }

  /**
    What `SaveThenRead` leaves out does not read back: an entry written with a
    stored packed size of 0 (every uncompressed entry, and a compressed one of
    packed size 0) is reopened with `size` as its packed size, so when its data
    is not `size` bytes long the reopened entry does not read the saved bytes.
  */
  lemma StoredZeroMisreads(archive: seq<u8>, dirs: seq<Directory>, i: nat)
    requires SaveFits(dirs) && Reopenable(dirs) && Saved(archive, dirs).Ok?
    requires i < |AllFiles(dirs)|
    requires StoredPackedSize(AllFiles(dirs)[i]) == 0 && AllFiles(dirs)[i].size != DataLen(AllFiles(dirs)[i])
    ensures Contents(archive, AllFiles(dirs)).Ok?
    ensures var out := Saved(archive, dirs).value;
            && Opened(out).Ok? && i < |AllFiles(Opened(out).value)|
            && ReadFileData(out, AllFiles(Opened(out).value)[i]) != Ok(Contents(archive, AllFiles(dirs)).value[i])
  {
    var out := Saved(archive, dirs).value;
    var files := AllFiles(dirs);
    assert Opened(out) == Ok(RereadDirs(dirs, DataStart(dirs))) by {
      SaveThenOpen(archive, dirs);
    }
    var t := SavedData(archive, dirs);
    var dirName, o := RereadAllAt(dirs, DataStart(dirs), i);
    var back := Reread(dirName, files[i], o);
    assert back.data.None? && back.packedSize == files[i].size;
    assert |Contents(archive, files).value[i]| == DataLen(files[i]);
  }

  // ---------------------------------------------------------------------------
  // A new archive
  // ---------------------------------------------------------------------------

  /** `Dat1Archive::new`, saved and opened again: the root directory alone, with no files. */
  lemma NewSavesAndReopens()
    ensures var dirs := [Directory(RootName, [])];
            SaveFits(dirs) && Saved([], dirs).Ok? && Opened(Saved([], dirs).value) == Ok(dirs)
  {
    var dirs := [Directory(RootName, [])];
    assert AllFiles(dirs) == [] by {
      assert dirs[1..] == [];
    }
    assert NameBytes(RootName) == ['.' as int as u8];
    assert Reopenable(dirs);
    assert DirsPackedTotal(dirs) == 0 by {
      assert dirs[1..] == [];
    }
    assert DataStart(dirs) < 0x1_0000_0000 by {
      assert |Written(NamesWrites(dirs))| == 2 by {
        WrittenAppend(DirNameWrites(dirs[0]), NamesWrites(dirs[1..]));
        DirNameWritten(dirs[0]);
      }
      assert TreeSize(dirs) == BlockHeaderSize;
    }
    SaveThenOpen([], dirs);
    assert RereadDirs(dirs, DataStart(dirs)) == dirs;
  }
}
