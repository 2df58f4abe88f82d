/**
  What the DAT2 operations promise: `save` writes a footer that addresses its
  own tree, a saved archive opens to the entries it was saved from (at their
  new offsets) and reads back the bytes written, `add_file` leaves one sorted
  entry per name, and `delete_file` removes exactly one entry.
*/
module Dat2Props {
  import opened Wrappers
  import opened Bytes
  import opened Common
  import opened NameOrder
  import opened Dat2

  // ---------------------------------------------------------------------------
  // Reading inside a window of a larger buffer
  // ---------------------------------------------------------------------------

  lemma ReadInside(s: seq<u8>, at: nat, w: seq<u8>, p: nat)
    requires at + |w| <= |s| && s[at..at + |w|] == w && p + 4 <= |w|
    ensures ReadU32LE(s, at + p) == ReadU32LE(w, p)
  {
    assert s[at + p] == w[p] && s[at + p + 1] == w[p + 1];
    assert s[at + p + 2] == w[p + 2] && s[at + p + 3] == w[p + 3];
  }

  // ---------------------------------------------------------------------------
  // One record
  // ---------------------------------------------------------------------------

  /** `r` is a record: the name length, the name, the compression type and three `u32` fields. */
  predicate RecordBytes(r: seq<u8>, name: seq<u8>, ct: u8, size: u32, packed: u32, off: u32) {
    var n := |name|;
    && |r| == RecordFixedSize + n
    && ReadU32LE(r, 0) == n
    && r[4..4 + n] == name
    && r[4 + n] == ct
    && ReadU32LE(r, 5 + n) == size
    && ReadU32LE(r, 9 + n) == packed
    && ReadU32LE(r, 13 + n) == off
  }

  /** `r` holds the record of `e` with data at `off`: each field where `save` puts it. */
  predicate RecordOf(r: seq<u8>, e: FileEntry, off: u32) {
    RecordBytes(r, NameBytes(e.name), CompressionType(e), e.size, e.packedSize, off)
  }

  /** A `u32` written after `a` reads back from position `|a|`. */
  lemma ReadAfter(a: seq<u8>, x: u32, b: seq<u8>)
    ensures ReadU32LE(a + U32LE(x) + b, |a|) == x
  {
    var s := a + U32LE(x) + b;
    assert s[|a|..|a| + 4] == U32LE(x);
    ReadU32LEOfU32LE(s, |a|, x);
  }

  lemma EncodedSlices(e: FileEntry, off: u32)
    requires |NameBytes(e.name)| < 0x1_0000_0000
    ensures RecordOf(EncodeEntry(e, off), e, off)
  {
    var name := NameBytes(e.name);
    var n := |name|;
    var r := EncodeEntry(e, off);
    Windows(U32LE(n), name, [CompressionType(e)], U32LE(e.size), U32LE(e.packedSize), U32LE(off));
    PiecesRecord(r, name, CompressionType(e), e.size, e.packedSize, off);
  }

  /** Six pieces laid one after the other form a record. */
  lemma PiecesRecord(r: seq<u8>, name: seq<u8>, ct: u8, size: u32, packed: u32, off: u32)
    requires |name| < 0x1_0000_0000
    requires var n := |name|;
             && |r| == RecordFixedSize + n
             && r[..4] == U32LE(n) && r[4..4 + n] == name && r[4 + n..5 + n] == [ct]
             && r[5 + n..9 + n] == U32LE(size) && r[9 + n..13 + n] == U32LE(packed) && r[13 + n..] == U32LE(off)
    ensures RecordBytes(r, name, ct, size, packed, off)
  {
    var n := |name|;
    assert r[4 + n] == ct by {
      assert r[4 + n] == r[4 + n..5 + n][0];
    }
    assert ReadU32LE(r, 0) == n by {
      ReadU32LEOfU32LE(r, 0, n);
    }
    assert ReadU32LE(r, 5 + n) == size by {
      ReadU32LEOfU32LE(r, 5 + n, size);
    }
    assert ReadU32LE(r, 9 + n) == packed by {
      ReadU32LEOfU32LE(r, 9 + n, packed);
    }
    assert ReadU32LE(r, 13 + n) == off by {
      assert r[13 + n..17 + n] == r[13 + n..];
      ReadU32LEOfU32LE(r, 13 + n, off);
    }
  }

  /** The fields the parser reads from a record inside the tree. */
  lemma FieldsOfRecord(tree: seq<u8>, at: nat, r: seq<u8>, name: seq<u8>, ct: u8, size: u32, packed: u32, off: u32)
    requires RecordBytes(r, name, ct, size, packed, off) && at + |r| <= |tree| && tree[at..at + |r|] == r
    ensures ReadU32LE(tree, at) == |name|
    ensures tree[at + 4..at + 4 + |name|] == name
    ensures tree[at + 4 + |name|] == ct
    ensures ReadU32LE(tree, at + 5 + |name|) == size
    ensures ReadU32LE(tree, at + 9 + |name|) == packed
    ensures ReadU32LE(tree, at + 13 + |name|) == off
  {
    var n := |name|;
    ReadInside(tree, at, r, 0);
    ReadInside(tree, at, r, 5 + n);
    ReadInside(tree, at, r, 9 + n);
    ReadInside(tree, at, r, 13 + n);
    SliceInside(tree, at, r, 4, 4 + n);
    ByteInside(tree, at, r, 4 + n);
  }

  /** A record inside the tree has the length it was written with. */
  lemma RecordLenOfRecord(tree: seq<u8>, at: nat, r: seq<u8>)
    requires |r| >= 4 && |r| == RecordFixedSize + ReadU32LE(r, 0)
    requires at + |r| <= |tree| && tree[at..at + |r|] == r
    ensures RecordLen(tree, at) == Some(|r|)
  {
    ReadInside(tree, at, r, 0);
  }

  /** The entry the parser builds from a record whose fields are known. */
  lemma EntryOfRecordBytes(tree: seq<u8>, at: nat, r: seq<u8>, name: seq<u8>, ct: u8, size: u32, packed: u32, off: u32)
    requires RecordBytes(r, name, ct, size, packed, off) && at + |r| <= |tree| && tree[at..at + |r|] == r
    ensures RecordLen(tree, at) == Some(|r|)
    ensures EntryAt(tree, at) == FileEntry(DecodeFilename(name), off, size, packed, ct == 1, None)
  {
    RecordLenOfRecord(tree, at, r);
    FieldsOfRecord(tree, at, r, name, ct, size, packed, off);
  }

  /** A record with a plain name parses back to its entry, at the written offset and without data. */
  lemma EntryOfRecord(tree: seq<u8>, at: nat, r: seq<u8>, e: FileEntry, off: u32)
    requires RecordOf(r, e, off) && at + |r| <= |tree| && tree[at..at + |r|] == r
    requires IsPlainName(e.name)
    ensures RecordLen(tree, at) == Some(|r|)
    ensures EntryAt(tree, at) == e.(offset := off, data := None)
  {
    EntryOfRecordBytes(tree, at, r, NameBytes(e.name), CompressionType(e), e.size, e.packedSize, off);
    DecodeNameBytes(e.name);
  }

  // ---------------------------------------------------------------------------
  // The tree `save` writes parses back
  // ---------------------------------------------------------------------------

  /** `records[i]` holds the record of `files[i]` with data at `offsets[i]`, for every `i`. */
  predicate RecordsOf(records: seq<seq<u8>>, files: seq<FileEntry>, offsets: seq<nat>) {
    && |records| == |files| == |offsets|
    && forall i :: 0 <= i < |files| ==> offsets[i] < 0x1_0000_0000 && RecordOf(records[i], files[i], offsets[i])
  }

  lemma EncodedRecordsOf(files: seq<FileEntry>, offsets: seq<nat>)
    requires Encodable(files, offsets)
    ensures RecordsOf(EncodedEntries(files, offsets), files, offsets)
  {
    forall i | 0 <= i < |files| ensures RecordOf(EncodedEntries(files, offsets)[i], files[i], offsets[i]) {
      EncodedSlices(files[i], offsets[i]);
    }
  }

  /** The `k`-th record sits after the ones before it, with the length it was written with. */
  lemma RecordIn(records: seq<seq<u8>>, files: seq<FileEntry>, offsets: seq<nat>, k: nat)
    requires RecordsOf(records, files, offsets) && k < |files|
    ensures var at := |Concat(records[..k])|;
            && RecordLen(Concat(records), at) == Some(|records[k]|)
            && at + |records[k]| == |Concat(records[..k + 1])|
  {
    var tree := Concat(records);
    var at := |Concat(records[..k])|;
    var r := records[k];
    RecordHeader(records, files, offsets, k);
    ConcatAt(records, k);
    RecordLenOfRecord(tree, at, r);
    ConcatPrefixLen(records, k);
  }

  lemma RecordHeader(records: seq<seq<u8>>, files: seq<FileEntry>, offsets: seq<nat>, k: nat)
    requires RecordsOf(records, files, offsets) && k < |files|
    ensures |records[k]| >= 4 && |records[k]| == RecordFixedSize + ReadU32LE(records[k], 0)
  {
    assert RecordOf(records[k], files[k], offsets[k]);
  }

  lemma ConcatPrefixLen(parts: seq<seq<u8>>, k: nat)
    requires k < |parts|
    ensures |Concat(parts[..k + 1])| == |Concat(parts[..k])| + |parts[k]|
  {
    assert parts[..k + 1] == parts[..k] + [parts[k]];
    ConcatSnoc(parts[..k], parts[k]);
  }

  /** The walk over the records finds each where it was written, from the `k`-th on. */
  lemma {:induction false} StartsOfRecords(records: seq<seq<u8>>, files: seq<FileEntry>, offsets: seq<nat>, k: nat)
    requires RecordsOf(records, files, offsets) && k <= |files|
    ensures Starts(Concat(records), |Concat(records[..k])|, |files| - k) == Some(Offsets(records)[k..])
    decreases |files| - k
  {
    var tree := Concat(records);
    var at := |Concat(records[..k])|;
    if k < |files| {
      var next := |Concat(records[..k + 1])|;
      var n := |records[k]|;
      assert RecordLen(tree, at) == Some(n) && at + n == next by {
        RecordIn(records, files, offsets, k);
      }
      assert Starts(tree, at, |files| - k) == PrependStarts([at], Starts(tree, next, |files| - (k + 1))) by {
        StartsUnfold(tree, at, |files| - k, n, next);
      }
      assert Starts(tree, next, |files| - (k + 1)) == Some(Offsets(records)[k + 1..]) by {
        StartsOfRecords(records, files, offsets, k + 1);
      }
      OffsetsFrom(records, k);
    } else {
      assert Offsets(records)[k..] == [];
    }
  }

  lemma StartsUnfold(tree: seq<u8>, at: nat, count: nat, n: nat, next: nat)
    requires count > 0 && RecordLen(tree, at) == Some(n) && next == at + n
    ensures Starts(tree, at, count) == PrependStarts([at], Starts(tree, next, count - 1))
  {
  }

  lemma OffsetsFrom(parts: seq<seq<u8>>, k: nat)
    requires k < |parts|
    ensures Offsets(parts)[k..] == [|Concat(parts[..k])|] + Offsets(parts)[k + 1..]
  {
  }

  /** The `i`-th record parses back to the `i`-th entry. */
  lemma EntryInRecords(records: seq<seq<u8>>, files: seq<FileEntry>, offsets: seq<nat>, i: nat)
    requires RecordsOf(records, files, offsets) && i < |files| && IsPlainName(files[i].name)
    ensures RecordLen(Concat(records), Offsets(records)[i]).Some?
    ensures EntryAt(Concat(records), Offsets(records)[i]) == files[i].(offset := offsets[i], data := None)
  {
    ConcatAt(records, i);
    EntryOfRecord(Concat(records), Offsets(records)[i], records[i], files[i], offsets[i]);
  }

  /** Once the walk succeeds, the parsed entries are the ones at the starts it found. */
  lemma ParseAtStarts(tree: seq<u8>, count: nat, starts: seq<nat>)
    requires Starts(tree, 0, count) == Some(starts)
    ensures ParseEntries(tree, count).Ok?
    ensures forall j :: 0 <= j < count ==> ParseEntries(tree, count).value[j] == EntryAt(tree, starts[j])
  {
  }

  /** Records with plain names parse back to their entries, at their offsets and without data. */
  lemma ParseRecordsBack(records: seq<seq<u8>>, files: seq<FileEntry>, offsets: seq<nat>)
    requires RecordsOf(records, files, offsets)
    requires forall i :: 0 <= i < |files| ==> IsPlainName(files[i].name)
    ensures var r := ParseEntries(Concat(records), |files|);
            && r.Ok? && |r.value| == |files|
            && forall i :: 0 <= i < |files| ==> r.value[i] == files[i].(offset := offsets[i], data := None)
  {
    var tree := Concat(records);
    assert Starts(tree, 0, |files|) == Some(Offsets(records)) by {
      StartsOfRecords(records, files, offsets, 0);
      assert records[..0] == [];
      assert Offsets(records)[0..] == Offsets(records);
    }
    ParseAtStarts(tree, |files|, Offsets(records));
    forall i | 0 <= i < |files|
      ensures EntryAt(tree, Offsets(records)[i]) == files[i].(offset := offsets[i], data := None)
    {
      EntryInRecords(records, files, offsets, i);
    }
  }

  /** The records `save` writes parse back to the entries, at the written offsets and without data. */
  lemma ParseEncoded(files: seq<FileEntry>, offsets: seq<nat>)
    requires Encodable(files, offsets)
    requires forall i :: 0 <= i < |files| ==> IsPlainName(files[i].name)
    ensures var r := ParseEntries(Concat(EncodedEntries(files, offsets)), |files|);
            && r.Ok? && |r.value| == |files|
            && forall i :: 0 <= i < |files| ==> r.value[i] == files[i].(offset := offsets[i], data := None)
  {
    EncodedRecordsOf(files, offsets);
    ParseRecordsBack(EncodedEntries(files, offsets), files, offsets);
  }

  // ---------------------------------------------------------------------------
  // The footer and the round trip of `save` and `from_bytes`
  // ---------------------------------------------------------------------------

  /** Where the pieces of `data | count | records | tree_size | dat_size` read back. */
  lemma FooterOf(body: seq<u8>, count: u32, records: seq<u8>, treeSize: u32, datSize: u32)
    ensures var out := body + U32LE(count) + records + U32LE(treeSize) + U32LE(datSize);
            && |out| == |body| + 4 + |records| + 8
            && ReadU32LE(out, |out| - 4) == datSize
            && ReadU32LE(out, |out| - 8) == treeSize
            && ReadU32LE(out, |body|) == count
            && out[|body| + 4..|out| - 8] == records
            && out[..|body|] == body
  {
    var out := body + U32LE(count) + records + U32LE(treeSize) + U32LE(datSize);
    var p := |body| + 4 + |records|;
    assert out[..|body|] == body && out[|body|..|body| + 4] == U32LE(count)
        && out[|body| + 4..p] == records && out[p..p + 4] == U32LE(treeSize)
        && out[p + 4..] == U32LE(datSize) by {
      Windows(body, U32LE(count), records, U32LE(treeSize), U32LE(datSize), []);
      assert out + [] == out;
    }
    ReadU32LEOfU32LE(out, |body|, count);
    ReadU32LEOfU32LE(out, p, treeSize);
    assert out[p + 4..p + 8] == out[p + 4..];
    ReadU32LEOfU32LE(out, p + 4, datSize);
  }

  /** An archive made of the pieces `save` appends opens to what its records parse to. */
  lemma OpensTo(out: seq<u8>, body: seq<u8>, count: u32, records: seq<u8>)
    requires |body| >= 4 && |body| + 4 + |records| + FooterSize < 0x1_0000_0000
    requires out == body + U32LE(count) + records + U32LE(4 + |records|) + U32LE(|body| + 4 + |records| + FooterSize)
    ensures Opened(out) == ParseEntries(records, count)
  {
    var datSize := |body| + 4 + |records| + FooterSize;
    FooterOf(body, count, records, 4 + |records|, datSize);
    OpensFromFooter(out, |body|, count, records);
  }

  /** The checks of `parse_directory_tree` on a footer that addresses a tree after `dataLen` bytes. */
  lemma OpensFromFooter(out: seq<u8>, dataLen: nat, count: u32, records: seq<u8>)
    requires dataLen >= 4 && |out| == dataLen + 4 + |records| + FooterSize
    requires ReadU32LE(out, |out| - 4) == |out| && ReadU32LE(out, |out| - 8) == 4 + |records|
    requires ReadU32LE(out, dataLen) == count && out[dataLen + 4..|out| - 8] == records
    ensures Opened(out) == ParseEntries(records, count)
  {
  }

  /**
    A layout whose data section holds at least 4 bytes opens to its entries,
    each at the offset of its contents and without data.
  */
  lemma LayoutOpens(files: seq<FileEntry>, contents: seq<seq<u8>>)
    requires |contents| == |files| < 0x1_0000_0000
    requires Encodable(files, Offsets(contents))
    requires |Concat(contents)| + 4 + |Concat(EncodedEntries(files, Offsets(contents)))| + FooterSize < 0x1_0000_0000
    requires |Concat(contents)| >= 4
    requires forall i :: 0 <= i < |files| ==> IsPlainName(files[i].name)
    ensures var r := Opened(Layout(files, contents));
            && r.Ok? && |r.value| == |files|
            && forall i :: 0 <= i < |files| ==> r.value[i] == files[i].(offset := Offsets(contents)[i], data := None)
  {
    LayoutOpensTo(files, contents);
    ParseEncoded(files, Offsets(contents));
  }

  lemma LayoutOpensTo(files: seq<FileEntry>, contents: seq<seq<u8>>)
    requires |contents| == |files| < 0x1_0000_0000
    requires Encodable(files, Offsets(contents))
    requires |Concat(contents)| + 4 + |Concat(EncodedEntries(files, Offsets(contents)))| + FooterSize < 0x1_0000_0000
    requires |Concat(contents)| >= 4
    ensures Opened(Layout(files, contents)) == ParseEntries(Concat(EncodedEntries(files, Offsets(contents))), |files|)
  {
    LayoutPieces(files, contents);
    OpensTo(Layout(files, contents), Concat(contents), |files|, Concat(EncodedEntries(files, Offsets(contents))));
  }

  /**
    The round trip: what `save` writes opens to the saved entries, each at the
    offset `save` gave its data and without data of its own, provided the data
    section is at least 4 bytes long.
  */
  lemma SaveThenOpen(archive: seq<u8>, files: seq<FileEntry>)
    requires SaveFits(files) && Saved(archive, files).Ok?
    requires SumDataLen(files) >= 4
    requires forall i :: 0 <= i < |files| ==> IsPlainName(files[i].name)
    ensures Contents(archive, files).Ok?
    ensures var contents := Contents(archive, files).value;
            var r := Opened(Saved(archive, files).value);
            && r.Ok? && |r.value| == |files|
            && forall i :: 0 <= i < |files| ==>
                 r.value[i].offset == Offsets(contents)[i] && r.value[i] == files[i].(offset := r.value[i].offset, data := None)
  {
    var contents := Contents(archive, files).value;
    assert |contents| == |files| < 0x1_0000_0000 && Encodable(files, Offsets(contents))
        && |Concat(contents)| + 4 + |Concat(EncodedEntries(files, Offsets(contents)))| + FooterSize < 0x1_0000_0000
        && Saved(archive, files).value == Layout(files, contents)
        && |Concat(contents)| >= 4 by {
      SavedOk(archive, files, contents);
      ContentsLen(archive, files, contents);
    }
    LayoutOpens(files, contents);
  }

  /** The data section comes first in what `save` writes. */
  lemma LayoutPrefix(files: seq<FileEntry>, contents: seq<seq<u8>>)
    requires |contents| == |files| < 0x1_0000_0000
    requires Encodable(files, Offsets(contents))
    requires |Concat(contents)| + 4 + |Concat(EncodedEntries(files, Offsets(contents)))| + FooterSize < 0x1_0000_0000
    ensures |Concat(contents)| <= |Layout(files, contents)|
    ensures Layout(files, contents)[..|Concat(contents)|] == Concat(contents)
  {
    var body := Concat(contents);
    var records := Concat(EncodedEntries(files, Offsets(contents)));
    LayoutPieces(files, contents);
    FooterOf(body, |files|, records, 4 + |records|, |body| + 4 + |records| + FooterSize);
  }

  /** The `i`-th contents read back from an archive that starts with the data section. */
  lemma ContentsInPrefix(out: seq<u8>, contents: seq<seq<u8>>, i: nat)
    requires i < |contents|
    requires |Concat(contents)| <= |out| && out[..|Concat(contents)|] == Concat(contents)
    ensures Offsets(contents)[i] + |contents[i]| <= |out|
    ensures out[Offsets(contents)[i]..Offsets(contents)[i] + |contents[i]|] == contents[i]
  {
    var body := Concat(contents);
    var at := Offsets(contents)[i];
    ConcatAt(contents, i);
    assert out[at..at + |contents[i]|] == body[at..at + |contents[i]|] by {
      SliceInside(out, 0, body, at, at + |contents[i]|);
    }
  }

  /** Entries without data, each at the offset of its contents and as long as it, read them back. */
  lemma ReadsBack(out: seq<u8>, contents: seq<seq<u8>>, entries: seq<FileEntry>)
    requires |entries| == |contents|
    requires |Concat(contents)| <= |out| && out[..|Concat(contents)|] == Concat(contents)
    requires forall i :: 0 <= i < |entries| ==>
               entries[i].data.None? && entries[i].offset == Offsets(contents)[i] && entries[i].packedSize == |contents[i]|
    ensures forall i :: 0 <= i < |entries| ==> ReadFileData(out, entries[i]) == Ok(contents[i])
  {
    forall i | 0 <= i < |entries| ensures ReadFileData(out, entries[i]) == Ok(contents[i]) {
      ContentsInPrefix(out, contents, i);
    }
  }

  /** Every entry of a reopened layout reads back its contents, when each is its entry's `packed_size` long. */
  lemma LayoutReads(files: seq<FileEntry>, contents: seq<seq<u8>>)
    requires |contents| == |files| < 0x1_0000_0000
    requires Encodable(files, Offsets(contents))
    requires |Concat(contents)| + 4 + |Concat(EncodedEntries(files, Offsets(contents)))| + FooterSize < 0x1_0000_0000
    requires |Concat(contents)| >= 4
    requires forall i :: 0 <= i < |files| ==> IsPlainName(files[i].name) && |contents[i]| == files[i].packedSize
    ensures Opened(Layout(files, contents)).Ok?
    ensures |Opened(Layout(files, contents)).value| == |files|
    ensures forall i :: 0 <= i < |files| ==>
              ReadFileData(Layout(files, contents), Opened(Layout(files, contents)).value[i]) == Ok(contents[i])
  {
    LayoutOpens(files, contents);
    LayoutPrefix(files, contents);
    ReadsBack(Layout(files, contents), contents, Opened(Layout(files, contents)).value);
  }

  /**
    Every entry of a saved archive, reopened, reads back the bytes `save`
    wrote for it, when each entry's own data is its `packed_size` long.
  */
  lemma SaveThenRead(archive: seq<u8>, files: seq<FileEntry>)
    requires SaveFits(files) && Saved(archive, files).Ok?
    requires SumDataLen(files) >= 4
    requires forall i :: 0 <= i < |files| ==>
               IsPlainName(files[i].name) && (files[i].data.Some? ==> |files[i].data.value| == files[i].packedSize)
    ensures Contents(archive, files).Ok? && Opened(Saved(archive, files).value).Ok?
    ensures var out := Saved(archive, files).value;
            var reopened := Opened(out).value;
            && |reopened| == |files|
            && forall i :: 0 <= i < |files| ==>
                 ReadFileData(out, reopened[i]) == Ok(Contents(archive, files).value[i])
                 && ReadFileData(archive, files[i]) == Ok(Contents(archive, files).value[i])
  {
    var contents := Contents(archive, files).value;
    assert |contents| == |files| < 0x1_0000_0000 && Encodable(files, Offsets(contents))
        && |Concat(contents)| + 4 + |Concat(EncodedEntries(files, Offsets(contents)))| + FooterSize < 0x1_0000_0000
        && Saved(archive, files).value == Layout(files, contents)
        && |Concat(contents)| >= 4 by {
      SavedOk(archive, files, contents);
      ContentsLen(archive, files, contents);
    }
    forall i | 0 <= i < |files| ensures |contents[i]| == files[i].packedSize {
      assert ReadFileData(archive, files[i]) == Ok(contents[i]);
    }
    LayoutReads(files, contents);
  }

  /** An archive made of the pieces `save` appends, with fewer than 4 bytes of data, does not open. */
  lemma SmallDoesNotOpen(out: seq<u8>, body: seq<u8>, count: u32, records: seq<u8>)
    requires |body| < 4 && |body| + 4 + |records| + FooterSize < 0x1_0000_0000
    requires out == body + U32LE(count) + records + U32LE(4 + |records|) + U32LE(|body| + 4 + |records| + FooterSize)
    ensures Opened(out) == Err(InvalidTreePosition)
  {
    var datSize := |body| + 4 + |records| + FooterSize;
    assert |out| == datSize && ReadU32LE(out, |out| - 4) == datSize
        && ReadU32LE(out, |out| - 8) == 4 + |records| by {
      FooterOf(body, count, records, 4 + |records|, datSize);
    }
  }

  lemma LayoutSmall(files: seq<FileEntry>, contents: seq<seq<u8>>)
    requires |contents| == |files| < 0x1_0000_0000
    requires Encodable(files, Offsets(contents))
    requires |Concat(contents)| + 4 + |Concat(EncodedEntries(files, Offsets(contents)))| + FooterSize < 0x1_0000_0000
    requires |Concat(contents)| < 4
    ensures Opened(Layout(files, contents)) == Err(InvalidTreePosition)
  {
    LayoutPieces(files, contents);
    SmallDoesNotOpen(Layout(files, contents), Concat(contents), |files|, Concat(EncodedEntries(files, Offsets(contents))));
  }

  /** With fewer than 4 bytes of data, the tree of a saved archive would start before byte 4. */
  lemma SmallDataDoesNotReopen(archive: seq<u8>, files: seq<FileEntry>)
    requires SaveFits(files) && Saved(archive, files).Ok?
    requires SumDataLen(files) < 4
    ensures Opened(Saved(archive, files).value) == Err(InvalidTreePosition)
  {
    var contents := Contents(archive, files).value;
    assert |contents| == |files| < 0x1_0000_0000 && Encodable(files, Offsets(contents))
        && |Concat(contents)| + 4 + |Concat(EncodedEntries(files, Offsets(contents)))| + FooterSize < 0x1_0000_0000
        && Saved(archive, files).value == Layout(files, contents)
        && |Concat(contents)| < 4 by {
      SavedOk(archive, files, contents);
      ContentsLen(archive, files, contents);
    }
    LayoutSmall(files, contents);
  }

  /** `save` on an empty archive writes a count of 0, a tree of 4 bytes and a size of 12, which does not reopen. */
  lemma EmptyArchive(archive: seq<u8>)
    ensures SaveFits([]) && Saved(archive, []) == Ok([0, 0, 0, 0, 4, 0, 0, 0, 12, 0, 0, 0])
    ensures Opened([0, 0, 0, 0, 4, 0, 0, 0, 12, 0, 0, 0]) == Err(InvalidTreePosition)
  {
    var out: seq<u8> := [0, 0, 0, 0, 4, 0, 0, 0, 12, 0, 0, 0];
    assert Contents(archive, []) == Ok([]);
    assert Offsets([]) == [] && EncodedEntries([], []) == [];
    assert U32LE(0) == [0, 0, 0, 0] && U32LE(4) == [4, 0, 0, 0] && U32LE(12) == [12, 0, 0, 0];
    assert Layout([], []) == out;
    assert ReadU32LE(out, 4) == 4 && ReadU32LE(out, 8) == 12;
  }
}
